# Verified model of the fuzzing coordinator

A coverage- and behaviour-guided fuzzing coordinator is built from small deterministic machines: an integer moving
average that turns drift into episodes, shape signatures accumulated along mutation lineages, a campaign state that a
restart must rebuild from durable metadata alone, a ledger that survives a killed worker, a framed pipe with a CRC,
several minimizers, a rank test, and a structural episode machine. This project models those machines and proves what
they promise, for every input and every run.

How the model is laid out:

- `Words`, `Bytes`, `Arithmetic`, `Sorting`, `Wrappers` hold the fixed-width integers with their saturation and
  truncation written out, byte strings, powers of two, the library sort, and optional results.
- `BitPolynomial` and `Crc32` connect the table-driven CRC-32 to polynomial division over GF(2). `CrashLedger` and
  `Protocol` build on them.
- `Regime` is the observer; `RegimeTransitions`, `RegimeNoise`, `RegimeSettling` and `RegimeEpisodes` hold its four main
  theorems.
- `Signals`, `Morphology`, `MorphologyHistory` model observations, the lineage accumulator and what a signature means.
- `Corpus`, `Replay`, `Admission`, `Coordinator` model the index, the derived campaign state, the admission decision
  and the event-sourced admission path with restarts. `DerivedState` and `DerivedLineages` say what the derived state
  means in terms of the admitted entries alone.
- `Checkpoint`, `Reservations`, `Queues` model the scheduler's bookkeeping.
- `Calibration` and `StructuralEpisodes` model the structural bridge.
- `InputMinimize`, `CorpusMinimize`, `BoundaryMinimize` are the minimizers; `RankStatistics`, `RankTest`,
  `RankScale`, `Quantiles`, `Seeds`, `HeldOut` the experiment code.

Code that changes state step by step is a class or a method proved against a specification function, and the
properties are proved about that function. Masks of at most 64 signals are sets of signal numbers, content ids are
natural numbers (only their equality and order matter), and `f64` statistics are exact reals. The campaign state keeps
its accumulators and observers as values in maps and updates them with the functions their classes are proved against.

## Model

| member | source | states |
|---|---|---|
| `BitPolynomial.FeedDivides` | src/execute/protocol.rs:189-195 | Feeding message bits through the shift register is long division by the generator of clause 3.2.9 of IEEE Std 802.3: dividend = quotient times generator plus register. |
| `BitPolynomial.RemainderIsUnique` | src/execute/protocol.rs:189-195 | Quotient and 32-bit remainder of a division by the generator are unique, so the register is the remainder. |
| `BitPolynomial.BurstChangesRegister` | src/execute/protocol.rs:189-195 | Two messages that differ only inside 32 consecutive bits never leave the same register. |
| `BitPolynomial.ResidueCharacterizesCheckBits` | src/execute/protocol.rs:171-183 | A message followed by 32 check bits leaves the fixed residue exactly when the check bits are the complemented remainder. |
| `Crc32.BuildTable` | src/execute/protocol.rs:198-218 | The table loop stores at every index what eight bit steps make of that index. |
| `Crc32.BuildEntry` | src/execute/protocol.rs:203-213 | The inner loop computes one table entry. |
| `Crc32.TableUpdateIsUpdateByte` | src/execute/protocol.rs:191-193 | One table step equals eight reflected bit steps, for every register and byte. |
| `Crc32.Compute` | src/execute/protocol.rs:189-195 | The table-driven checksum equals the bit-by-bit checksum of every byte string. |
| `Crc32.CrcIsPolynomialRemainder` | src/execute/protocol.rs:189-218 | The checksum is the complement of a 32-bit value if and only if that value is the remainder of clause 3.2.9 of IEEE Std 802.3 (all-ones start, reflected bytes, final complement). |
| `Crc32.ChecksMeansResidue` | src/execute/protocol.rs:171-183 | The reader's test holds of a codeword if and only if feeding it leaves the fixed residue. |
| `Crc32.WordRoundTrip` | src/execute/protocol.rs:113-115 | A checksum survives being written as four little-endian bytes and read back. |
| `Crc32.BytesRoundTrip` | src/execute/protocol.rs:168-174 | Four stored bytes survive being read as a word and written again. |
| `Crc32.BurstChangesCrc` | src/execute/protocol.rs:189-195 | Byte strings of one length that differ only inside four consecutive bytes always have different checksums. |
| `Crc32.BurstIsDetected` | src/execute/protocol.rs:171-183 | A codeword altered only inside four consecutive bytes, checksum bytes included, never passes the reader's test. |
| `CrashLedger.CrashLedgerWriter.constructor` | src/execute/crash_ledger.rs:104-113 | A fresh ledger is all zero bytes. |
| `CrashLedger.CrashLedgerWriter.CommitRaw` | src/execute/crash_ledger.rs:124-138 | One commit changes exactly the chosen slot's codeword: magic, next sequence number, coordinate and their CRC. |
| `CrashLedger.CrashLedgerWriter.CommitEcho` | src/execute/crash_ledger.rs:144-156 | The echo stores length and bytes, or refuses an input over the bound and changes nothing. |
| `CrashLedger.CrashLedgerReader.LatestRaw` | src/execute/crash_ledger.rs:218-248 | The slot loop returns what `ReaderOutcome` describes: the valid slot with the highest sequence number, none on a ledger without magic, and the corruption error when a magic was seen but no slot is valid. |
| `CrashLedger.CrashLedgerReader.ReadEcho` | src/execute/crash_ledger.rs:189-200 | Reads back the echo region, empty when the stored length is over the bound. |
| `CrashLedger.CommitIsLatest` | src/execute/crash_ledger.rs:124-173 | On any ledger, however damaged, a commit is what the reader returns next if and only if the sequence number did not wrap past an occupied slot. |
| `CrashLedger.CommitKeepsHolds` | src/execute/crash_ledger.rs:159-173 | A commit keeps the ping-pong invariant: slots alternate and hold the last two sequence numbers. |
| `CrashLedger.RunHolds` | src/execute/crash_ledger.rs:124-173 | Every run of commits and echoes reaches a ledger described by its commit list and its last echo. |
| `CrashLedger.ReaderSeesNewest` | src/execute/crash_ledger.rs:218-248 | After any run of complete commits the reader gets the newest one under its number. |
| `CrashLedger.PairAfterBothWrites` | src/execute/crash_ledger.rs:117-156 | Coordinate and echo belong together once both writes are done; between the two the echo is still the previous input. |
| `CrashLedger.TornCommitIsSafe` | src/execute/crash_ledger.rs:124-138 | Whatever subset of a commit's bytes reached the mapping, the reader returns the new commit if its codeword is complete and otherwise the previous one, unless the mixed slot's stored CRC coincides with that of its mixed body; before the first commit an incomplete one is the corruption error if and only if the torn slot carries the magic, and otherwise no commit. |
| `CrashLedger.NoCoincidenceInFourBytes` | src/execute/crash_ledger.rs:229-233 | After any number of commits, a slot that differs from its old or new contents only inside four consecutive bytes is never such a coincidence; a slot never written lacks the magic. |
| `CrashLedger.EarlyAndLateCutsAreSafe` | src/execute/crash_ledger.rs:124-138 | An in-order commit cut within its first twelve or last four bytes leaves the reader with the previous or the new commit, outright; for the first two commits, into slots never written, within the first seven or last four bytes, and only before the first commit can a late cut be reported as damage instead. |
| `CrashLedger.ReaderOutcome` | src/execute/crash_ledger.rs:218-248 | On any ledger: the corruption error if and only if some slot carries the magic and none passes the checks; no commit if and only if no slot carries the magic; otherwise a valid slot with the highest number. |
| `CrashLedger.DamageOfBothIsReported` | src/execute/crash_ledger.rs:242-246 | After two or more commits, damage inside four bytes behind the magic of both codewords is always the corruption error, never a ledger without commits. |
| `CrashLedger.DamageOfOneCostsOne` | src/execute/crash_ledger.rs:225-241 | After two or more commits, damage inside four bytes of one codeword leaves the other one as the reading. |
| `CrashLedger.FirstCutIsReported` | src/execute/crash_ledger.rs:218-248 | A first commit cut inside its body from the complete magic on is the corruption error if and only if the CRC of what is there differs from the zero bytes stored as its checksum. |
| `Protocol.EncodeFrame` | src/execute/protocol.rs:94-117 | Appends exactly one frame to the buffer, or nothing and an error when header and payload exceed the bound. |
| `Protocol.ReadFrame` | src/execute/protocol.rs:130-183 | Takes one frame off the stream, with the reader's checks and errors in their order. |
| `Protocol.ParseAcceptsExactlyFrames` | src/execute/protocol.rs:130-183 | The reader accepts a byte string with a given result if and only if it is that frame's bytes (any value in the four unused header bytes) followed by the rest. |
| `Protocol.CutFrameFails` | src/execute/protocol.rs:130-183 | A strict prefix of a frame is always an end-of-stream error. |
| `Protocol.AlteredFrameIsRejected` | src/execute/protocol.rs:130-183 | A frame altered inside four consecutive bytes that avoid the length field is always rejected. |
| `Protocol.WholeIsLargest` | src/execute/protocol.rs:94-117 | The number of messages wholly inside a prefix is the largest number whose stream fits. |
| `Protocol.PrefixYieldsWholeFrames` | src/execute/protocol.rs:94-183 | Any prefix of a stream of encoded messages yields exactly the wholly contained messages, then an error, and leaves exactly the bytes of the torn message. |
| `Protocol.StreamRoundTrip` | src/execute/protocol.rs:94-183 | Reading back the encodings of any list of messages yields that list and leaves no byte. |
| `Protocol.FrameLayout` | src/execute/protocol.rs:94-117 | Byte by byte what a frame holds: the magic, version 1, minor version, kind, payload length, four unused bytes, payload, and the CRC of all that. |
| `Protocol.RejectionReasons` | src/execute/protocol.rs:130-183 | For every byte string, the error the reader reports or that it accepts, read off the bytes at fixed places in the order of the checks. |
| `Regime.RegimeObserver.constructor` | src/dsfb/regime.rs:291-309 | A fresh observer. |
| `Regime.RegimeObserver.Feed` | src/dsfb/regime.rs:338-425 | One sample moves the averages and the four-state machine as specified, and reports a closed episode. |
| `Regime.RegimeObserver.Observe` | src/dsfb/regime.rs:338-357 | The averages: clamped step, flooring and saturating moving average, saturating cumulative deviation. |
| `Regime.RegimeObserver.CountRun` | src/dsfb/regime.rs:371-423 | Run counting with its dwell, as three arms share it. |
| `Regime.RegimeObserver.FeedEpisode` | src/dsfb/regime.rs:396-410 | The in-episode arm: dwell, peak, recovery run, and which close fires. |
| `Regime.RegimeObserver.MaybeOpenEpisode` | src/dsfb/regime.rs:444-459 | Opening an episode when the accumulated deviation reaches the threshold. |
| `Regime.RegimeObserver.UpdatePeak` | src/dsfb/regime.rs:462-474 | The peak moves only to a strictly larger deviation. |
| `Regime.RegimeObserver.Close` | src/dsfb/regime.rs:477-502 | Closing reports the episode and re-bases the observer. |
| `Regime.RunSeries` | src/dsfb/regime.rs:505-515 | A whole series: final state and all closed episodes. |
| `Regime.StepKeepsConsistent` | src/dsfb/regime.rs:338-428 | Every sample keeps: an episode is open exactly in the episode state, run counters stay below their dwells, and only an open episode can close. |
| `Regime.RunConsistent` | src/dsfb/regime.rs:505-515 | That invariant holds after every series. |
| `RegimeNoise.EmaStaysCentered` | src/dsfb/regime.rs:342-357 | The distance of value and moving average from the band: it never overshoots, flooring, clamping and saturation included. |
| `RegimeNoise.EmaStaysInBand` | src/dsfb/regime.rs:342-357 | Over any series in a band of any width the average stays within the width in fixed point. |
| `RegimeNoise.NoiseNeverDrifts` | src/dsfb/regime.rs:338-380 | Values in a band narrower than the drift threshold whose width fits in fixed point without saturating, in any number, keep the average below the threshold and a fresh observer Stable, and produce no episode. |
| `RegimeNoise.NoiseImmunityExactly` | src/dsfb/regime.rs:351-380 | For a band narrower than the drift threshold every series leaves a fresh observer Stable if and only if the band cannot hold a whole drift dwell of saturated averages; there are then no episodes. The width it needs is explicit: one saturating step, and one step per further sample that makes up for the decay. For a dwell of at most one this is the fit in fixed point. |
| `RegimeNoise.AverageStaysBelowExactly` | src/dsfb/regime.rs:342-365 | For such a band the average alone never reaches the threshold, in any series, if and only if the width fits in fixed point. |
| `RegimeSettling.DecayOneLevel` | src/dsfb/regime.rs:347-357 | With an unchanging value, one window of samples halves the bound on the average. |
| `RegimeSettling.AnyRunSettles` | src/dsfb/regime.rs:338-425 | From any reachable state, with a nonzero drift threshold, a constant value returns the observer to Stable with no open episode within an explicit bound, logarithmic in the average, and keeps it there; with a zero recovery threshold the maximal dwell closes the episode. |
| `RegimeSettling.ZeroThresholdNeverSettles` | src/dsfb/regime.rs:382-423 | With a zero drift threshold an observer outside Stable never returns to it. |
| `RegimeSettling.SettlesExactly` | src/dsfb/regime.rs:338-425 | Every reachable observer settles within the bound if and only if the drift threshold is not zero. |
| `RegimeEpisodes.EpisodesAreWellFormed` | src/dsfb/regime.rs:396-502 | Over any run with consecutive ordinals and unclamped steps, every closed episode has the stated onset, first maximal peak, dwell, close reason and extreme average, and episodes do not overlap. |
| `RegimeEpisodes.ExactDeviationNeedsUnclampedStep` | src/dsfb/regime.rs:342-357 | The accumulated deviation of two samples is exact if and only if the step fits in 64 signed bits. |
| `RegimeTransitions.StateLaw` | src/dsfb/regime.rs:366-459 | After every sample of a run with consecutive ordinals and unclamped steps, the next state: Stable is left, and Drift and Recovering end in Stable, exactly when the last driftDwell averages in that state lie on the right side of the threshold; a sample in Drift that does not complete the dwell opens an episode with itself as onset if and only if its distance from the nominal sample reaches the episode threshold; an episode closes exactly on a whole recovery dwell or the cap, the former first. |
| `RegimeTransitions.RunCounts` | src/dsfb/regime.rs:371-423 | The run counter is the number of averages in a row, up to the latest sample and since the state was entered, on the side of the threshold that the state waits for. |
| `RegimeTransitions.DeviationIsMeasured` | src/dsfb/regime.rs:342-357 | The accumulated deviation is the latest value less that of the nominal sample: the first one, or the one on which the latest episode closed. |
| `Signals.DeltaSign` | src/target_runtime/signals.rs:534-547 | A difference has the true sign and is zero only for equal readings; it is exact whenever it fits in 64 signed bits and otherwise the nearest number that does. |
| `Signals.MagnitudeBucketLaw` | src/target_runtime/signals.rs:280-286 | Bucket 0 is magnitude 0; below the cap a magnitude bucket is one power-of-two interval; the cap is reached from 2^62; buckets are monotone. |
| `Signals.ValueBucketLaw` | src/target_runtime/signals.rs:263-273 | Value buckets are monotone, exact below 64, 64 values wide below 4096, one power-of-two interval from there on, at most 179, and never 64. |
| `Morphology.LineageAccumulator.constructor` | src/dsfb/morphology.rs:355-366 | A fresh accumulator. |
| `Morphology.LineageAccumulator.InitBaseline` | src/dsfb/morphology.rs:370-373 | Establishes the root observation. |
| `Morphology.LineageAccumulator.Move` | src/dsfb/morphology.rs:396-425 | One moved axis: saturating sum, reversal, run, maximal run and axis bit; every other axis is untouched. |
| `Morphology.LineageAccumulator.Push` | src/dsfb/morphology.rs:376-492 | One edge moves every axis as specified and returns the signature of the new state. |
| `Morphology.LineageAccumulator.ReadAxes` | src/dsfb/morphology.rs:427-445 | Directions, magnitude bins and the dominant axis on the way. |
| `Morphology.LineageAccumulator.MovedBeside` | src/dsfb/morphology.rs:447-456 | The signals that moved together with the dominant axis. |
| `Morphology.LineageAccumulator.ReadSignature` | src/dsfb/morphology.rs:427-491 | The signature read off the accumulator. |
| `Morphology.BestAxisIsDominant` | src/dsfb/morphology.rs:192-204 | The scan finds the largest bin, lowest axis among ties, and none only for an empty mask. |
| `Morphology.DominantIsUnique` | src/dsfb/morphology.rs:192-204 | There is exactly one dominant axis. |
| `Morphology.DominantAxis` | src/dsfb/morphology.rs:192-204 | The reported axis is the dominant one. |
| `Morphology.PushUsesReportedAxis` | src/dsfb/morphology.rs:427-473 | With a dominant axis as `dominant_axis` reports it, the coactivation mask of a push is the other axes on which the edge's parent and child read differently, and the convergence class is read off that axis's slew and magnitude bins. |
| `MorphologyHistory.AxisMeansHistory` | src/dsfb/morphology.rs:396-425 | Replaying an axis leaves the saturating sum, last sign, capped final and longest same-sign run and capped number of sign changes of its whole history. |
| `MorphologyHistory.SignatureMeansHistory` | src/dsfb/morphology.rs:396-491 | After any edges a signature's axis bit, direction, magnitude, slew and persistence are those of the signs of the nonzero running sums at moving edges. |
| `MorphologyHistory.ConvergenceMeansHistory` | src/dsfb/morphology.rs:458-473 | The convergence class says whether the dominant axis ever changed side, and otherwise how far it went. |
| `MorphologyHistory.CoactivationMeansLatestEdge` | src/dsfb/morphology.rs:447-456 | After any edges, axis i is in the mask if and only if an axis is reported, i is another one, and the latest edge's parent and child readings on i differ. |
| `MorphologyHistory.StateChangeMeansLatestEdge` | src/dsfb/morphology.rs:386-394 | Shifted, expanded and contracted say which of appearing and vanishing signals the latest edge's two touched sets show. |
| `MorphologyHistory.RestOfSignature` | src/dsfb/morphology.rs:376-492 | The unknown-structure flag is set exactly when some signal's running sum was ever nonzero at a moving edge; the depth is the one given, and baseline and previous observation are the root's and the latest. |
| `MorphologyHistory.RunningSumIsExact` | src/dsfb/morphology.rs:401 | With fewer than 2^64 edges the running sum never saturates. |
| `MorphologyHistory.ReplayChain` | src/dsfb/morphology.rs:503-513 | Replaying a chain returns, edge by edge, the signature of the history so far. |
| `Corpus.RootOfFindsSeed` | src/corpus/mod.rs:161-171 | In a well-founded corpus the bounded walk finds the seed ancestor of every entry; the bound never ends it. |
| `Corpus.SeedAncestorIsStable` | src/corpus/mod.rs:161-171 | Admitting more entries never changes an entry's ancestor. |
| `Corpus.AdmissionOrderIsUnique` | src/corpus/mod.rs:200-204 | However the entries are listed first, sorting by sequence number and id gives one list. |
| `Corpus.InsertKeepsMatch` | src/corpus/mod.rs:133-145 | Filing an entry keeps the feature lists exact. |
| `Corpus.FeatureListsAgree` | src/corpus/mod.rs:133-145 | Two indexes over the same entries list the same features, each with the same entries up to order. |
| `Corpus.CorpusIndex.InsertMeta` | src/corpus/mod.rs:133-145 | Files new metadata and extends the feature lists, or refuses a second object for an entry and changes nothing. |
| `Corpus.CorpusIndex.FindRoot` | src/corpus/mod.rs:161-171 | The loop computes the bounded walk. |
| `Corpus.AncestryIsChain` | src/corpus/mod.rs:182-196 | The path it walks, seed first: it starts at the seed ancestor, each member is a child of the one before, and admission numbers ascend. |
| `Corpus.CorpusIndex.LineageChain` | src/corpus/mod.rs:182-196 | The upward walk and its final reversal yield the edges of one mutator on that path, parent first; a missing ancestor ends it, and an unknown id yields nothing. It requires that parents were admitted earlier because the loop, unlike `root_of`, has no bound. |
| `Corpus.LineageIsOldestFirst` | src/corpus/mod.rs:182-196 | That list holds exactly the ancestors the mutator made, with ascending admission numbers. |
| `Corpus.CorpusIndex.ByAdmissionOrder` | src/corpus/mod.rs:200-204 | Every entry once, by ascending admission number and, among equal numbers, by ascending id. |
| `Corpus.CorpusIndex.NovelFeatures` | src/corpus/mod.rs:114-123 | Exactly the features no entry covers, ascending and without repetition. |
| `Corpus.CorpusIndex.Rebuild` | src/corpus/mod.rs:53-66 | Succeeds exactly when no entry has two metadata objects, and then files all of them, in whatever order they are listed. |
| `Admission.Decide` | src/corpus/admission.rs:64-108 | Admits exactly a finding, new coverage, or what the residual channel finds new, and names the first reason that applies: finding, coverage, state bucket, shape. |
| `Replay.WrittenIsNumbered` | src/execute/coordinator.rs:1412-1426 | Logs written by admissions are numbered 0, 1, 2, have distinct ids, and parents that were admitted earlier. |
| `Replay.RootIsStable` | src/execute/coordinator.rs:1439-1441 | An entry's root in the final index is its parent's root when it was admitted. |
| `Replay.AbsorbIsStable` | src/execute/coordinator.rs:494-567 | Replaying one entry against the final index does exactly what admitting it at its own time did, episodes included. |
| `Replay.ReplayEqualsLive` | src/execute/coordinator.rs:494-567 | Replaying a campaign's log in admission order gives the live lineages, frontiers, ordinals, observers, shape history, substrates, identities, state features, admission number, episode count and episodes; no stored morphology disagrees. |
| `Replay.RebuildRecovers` | src/execute/coordinator.rs:494-567 | The same from the durable objects listed in any order: sorted by admission they are the log again. |
| `Replay.TamperedMorphologyIsFound` | src/execute/coordinator.rs:520-532 | Altering any stored morphology id makes the replay fail with the disagreement error. |
| `Replay.LiveCounts` | src/execute/coordinator.rs:1423 | The next admission number is the number of admissions so far. |
| `Replay.GenerationIsDepth` | src/execute/coordinator.rs:1408 | A recorded generation is the distance to the seed, modulo 2^32. |
| `DerivedState.FeedOne` | src/execute/coordinator.rs:540-550 | Feeding the moved axes does to each moved axis one observer step on the value the child itself recorded, and nothing to any other; at most one episode per axis closes. |
| `DerivedState.ObserversMeanSamples` | src/execute/coordinator.rs:1447-1470 | Over every written log, the observer of a lineage and signal is a fresh one fed exactly that lineage's samples of the signal, where the k-th entry of the lineage is a sample, with ordinal k and its own recorded value, if and only if its reading differs from its parent's; the observer exists if and only if there is one. |
| `DerivedState.EpisodesMeanSamples` | src/execute/coordinator.rs:1447-1513 | The episodes stored are exactly those that the samples of some lineage close on a signal, tagged with that signal. |
| `DerivedLineages.LineagesMeanEntries` | src/execute/coordinator.rs:1434-1480 | A lineage exists exactly when it has entries; its ordinal counts them, its frontier is the last, its accumulator has taken their differences to their parents from the root's observation on, and its history is the last eight shapes that report an axis, with their depths. |
| `DerivedLineages.RootsMeanEntries` | src/execute/coordinator.rs:451-481 | A root's substrate exists exactly from the first entry below it that moves a signal, and has been fed every entry from that one on under ordinals 1, 2, 3 modulo 2^64. |
| `DerivedLineages.StateFeaturesMeanEntries` | src/execute/coordinator.rs:494-500 | The state features are exactly the value buckets that some entry recorded on a touched signal. |
| `DerivedLineages.IdentitiesMeanEntries` | src/execute/coordinator.rs:533-536 | The known shapes are exactly those that some entry of some lineage had when it was admitted. |
| `DerivedLineages.CounterMeansClosings` | src/execute/coordinator.rs:570-576 | The episode counter is the number of closings, entry by entry and signal by signal, saturating at 64 bits. |
| `Coordinator.CampaignState.FeedRootStructural` | src/execute/coordinator.rs:451-481 | The root's substrate is created on its first moving edge and fed with consecutive ordinals. |
| `Coordinator.CampaignState.WriteEpisodes` | src/execute/coordinator.rs:570-576 | Stores the closed episodes and counts them, saturating. |
| `Coordinator.CampaignState.FeedMoved` | src/execute/coordinator.rs:540-549 | Every moved axis feeds its observer, created on first movement. |
| `Coordinator.CampaignState.Rebuild` | src/execute/coordinator.rs:494-567 | The restart loop ends in the replayed state and fails exactly when the replay fails. |
| `Coordinator.CampaignState.ReplayEntry` | src/execute/coordinator.rs:496-565 | One iteration of the restart loop. |
| `Coordinator.CampaignState.AdmitSeed` | src/execute/coordinator.rs:1168-1201 | A new seed is written, filed and absorbed; a known one changes nothing; an oversized one fails with the durable state unchanged. |
| `Coordinator.CampaignState.TentativeMorphology` | src/execute/coordinator.rs:1947-1975 | The signature an execution would get, computed without changing any state. |
| `Coordinator.CampaignState.CommitMorphology` | src/execute/coordinator.rs:1979-2003 | The same signature, with the lineage's accumulator advanced. |
| `Coordinator.CampaignState.AdvanceLive` | src/execute/coordinator.rs:1434-1537 | Frontier, ordinal, observers, history and substrate after an entry has been filed. |
| `Coordinator.CampaignState.Process` | src/execute/coordinator.rs:1326-1537 | A discovery is admitted exactly when it is new to the corpus and brings something; a refused one changes nothing; an admitted one keeps store, index and state in agreement. |
| `Coordinator.CampaignState.Commit` | src/execute/coordinator.rs:1379-1537 | Everything after the decision: one metadata object is appended, and the live updates in the order of the code amount to absorbing it. |
| `Coordinator.Dispatch` | src/execute/coordinator.rs:797-840 | An order carries its parent's recorded observation and generation. |
| `Coordinator.PendingStaysAccurate` | src/execute/coordinator.rs:1089-1100 | Orders in flight stay accurate while other results are admitted. |
| `Coordinator.Begin` | src/execute/coordinator.rs:615-618 | A campaign over an empty store starts in agreement. |
| `Coordinator.Restart` | src/execute/coordinator.rs:615-668 | A restart from a store left by a death at any point, inside an admission included, always succeeds, derives exactly the live index and state of the stored admissions, and completes their episodes. |
| `Coordinator.DeathInsideAdmission` | src/execute/coordinator.rs:1424-1536 | A death after an admission stored its metadata and any of the episodes it closes leaves such a store. |
| `Coordinator.RestartBetweenAdmissions` | src/execute/coordinator.rs:615-668 | After a death between admissions the restart recovers the index entries and the derived state of the process before, and writes no episode that was not there. |
| `Checkpoint.EncodeCheckpoint` | src/execute/coordinator.rs:2510-2531 | The payload: version, campaign, counters, 32-bit row count, rows. |
| `Checkpoint.LoadNextIndex` | src/execute/coordinator.rs:2535-2578 | The loader's branches: missing, empty or older checkpoints are an empty map, truncated ones and oversized counts are errors, trailing bytes are ignored. |
| `Checkpoint.CheckpointRoundTrip` | src/execute/coordinator.rs:2510-2578 | What is written is read back if and only if the map has at most 2^24 parents. |
| `Checkpoint.LoaderOutcome` | src/execute/coordinator.rs:2535-2578 | For every payload: anything but version 2 is an empty map, a version 2 shorter than 69 bytes or with fewer than 16 bytes per announced row is truncated, a count over 2^24 is an error, and otherwise each parent has the index of its last row. |
| `Checkpoint.CheckpointLayout` | src/execute/coordinator.rs:2510-2531 | Where a checkpoint keeps version, campaign, the four counters and the row count, and that its rows follow from byte 69 on. |
| `Reservations.IndexSpaces.Reserve` | src/execute/coordinator.rs:750-805 | An order starts at its parent key's next index, 0 for a new key, takes the smaller of the batch and 4096, and leaves the key's next index behind it modulo 2^64. |
| `Reservations.ResumeIsRoundTrip` | src/execute/coordinator.rs:672-673 | Resuming after a graceful end is writing the checkpoint and loading it. |
| `Reservations.RangesAreConsecutive` | src/execute/coordinator.rs:750-805 | Over any run whose crashes lose nothing of a key, each range of the key starts where its earlier ranges end, modulo 2^64, across any number of resumes. |
| `Reservations.OrderReusesExactly` | src/execute/coordinator.rs:750-805 | Over runs with any crashes, below 2^64, a nonempty order reuses an index if and only if the key's next index is below the largest end already handed out. |
| `Reservations.RangesAreDisjointExactly` | src/execute/coordinator.rs:1080-1087 | The ranges of a key are disjoint if and only if every nonempty order of the key found its next index at that largest end. |
| `Reservations.RangesAreDisjoint` | src/execute/coordinator.rs:1080-1087 | Below 2^64, a run in which every crash finds the key where the last checkpoint left it hands out disjoint ranges for the key, in ascending order. |
| `Reservations.CrashReusesRanges` | src/execute/coordinator.rs:974-984 | A campaign that dies before its checkpoint after a nonempty order hands out the same index again after the resume. |
| `Queues.TakingFirstCuts` | src/execute/coordinator.rs:1306-1321 | Sorting and keeping the first entries keeps the most urgent ones, lower keys among equals. |
| `Queues.CutIsUnique` | src/execute/coordinator.rs:1306-1321 | Being cut to the cap determines what is kept. |
| `Queues.CutKeepsUrgent` | src/execute/coordinator.rs:1306-1321 | A lineage that a cut drops has a lower priority than every one kept, or the same and a higher key. |
| `Queues.AmplifyQueue.Observe` | src/execute/coordinator.rs:1283-1323 | A batch result removes its lineage or queues it with the new priority, then cuts the queue to 4096. |
| `Queues.AmplifyQueue.Advance` | src/execute/coordinator.rs:1562-1573 | An admitted child takes its parent's place with 2^32 added to the priority, saturating; the queue never grows. |
| `Queues.AmplifyQueue.Pick` | src/execute/coordinator.rs:737-749 | The frontier with the highest priority is picked, the lowest key among equals, and is always a corpus entry. |
| `Queues.ProbeQueue.InsertProbe` | src/execute/coordinator.rs:1675-1703 | One probe is filed under the next number, which wraps at 64 bits; until it wraps, newer ones have lower priority and nothing is overwritten. |
| `Queues.ProbeQueue.Enqueue` | src/execute/coordinator.rs:1632-1704 | Of one edge's matches at most one is queued: the first whose family is not in flight, when its lineage has no probe and fewer than 256 are queued. |
| `Queues.FirstFreeMeans` | src/execute/coordinator.rs:1646-1668 | The match taken is the first of at most two whose family is not in flight, and none exactly when all tried are in flight. |
| `Queues.ProbeQueue.Dispatch` | src/execute/coordinator.rs:759-787 | The earliest probe of a class leaves the queue and is in flight; its frontier is a corpus entry. |
| `Queues.ProbeQueue.Settle` | src/execute/coordinator.rs:1750 | A probe's result ends its flight. |
| `Queues.QueuesSurviveGrowth` | src/execute/coordinator.rs:747-774 | Queued frontiers stay corpus entries as the corpus grows. |
| `Calibration.SegmentMoments` | src/dsfb/debug_bridge.rs:728-746 | The two sums computed as loops. |
| `Calibration.AxisStream.MaybeFinalize` | src/dsfb/debug_bridge.rs:575-602 | When calibration ends, and how. |
| `Calibration.AxisStream.Push` | src/dsfb/debug_bridge.rs:607-627 | One value of an axis during calibration. |
| `Calibration.MeanIsInside` | src/dsfb/debug_bridge.rs:728-746 | The mean of values that are not all equal lies strictly between the extremes. |
| `Calibration.RadiusSign` | src/dsfb/debug_bridge.rs:579-590 | The radius is positive if and only if the segment varies, whatever the multiplier. |
| `Calibration.SegmentIsInsideEnvelope` | src/dsfb/debug_bridge.rs:579-595 | With a multiplier of at least 2, any value between a calibrated segment's extremes lies strictly closer to the mean than half the radius. |
| `Calibration.CalibrationSettles` | src/dsfb/debug_bridge.rs:575-602 | An axis is calibrated exactly when it has seen enough values that are not all equal, discrete exactly when the extended segment is used up and constant, never both, and one of them within the extended cap. |
| `Calibration.EnvelopeLaw` | src/dsfb/debug_bridge.rs:575-602 | Of any calibrated axis: n times the stored mean is the sum, n - 1 times the squared deviation is the sum of squared distances from it, the radius is the larger of three deviations and the multiple of the span, and with a multiplier of at least 2 values between the extremes lie within half the radius. |
| `StructuralEpisodes.EpisodeMachine.Feed` | src/dsfb/debug_bridge.rs:889-946 | One edge of the episode machine. |
| `StructuralEpisodes.ExplainsStep` | src/dsfb/debug_bridge.rs:889-946 | One edge keeps the reading of the machine's state as spans of active edges. |
| `StructuralEpisodes.EpisodesAreWellFormed` | src/dsfb/debug_bridge.rs:889-946 | Every closed episode closes exactly one quiet run after its last active edge, was never quiet that long before, has dwell = close - open + 1, the union of axes and reasons and the highest policy; episodes come in order and no active edge is outside one. |
| `StructuralEpisodes.ClosesAfterWindow` | src/dsfb/debug_bridge.rs:925-931 | An episode closes a whole drift window, at least one edge, after its last active edge. |
| `StructuralEpisodes.PeakOrdinalIsNotThePeak` | src/dsfb/debug_bridge.rs:310-311 | A concrete run in which the recorded peak ordinal is not that of the highest-policy edge. |
| `StructuralEpisodes.PeakOrdinalExactly` | src/dsfb/debug_bridge.rs:914-921 | The peak ordinal names a highest-policy edge if and only if the last active edge is at Review or above and no earlier edge of the episode is higher. |
| `InputMinimize.MinimizeInput` | src/corpus/minimize.rs:33-64 | The result is a subsequence, keeps the predicate, is one-minimal (or empty when the empty input satisfies it), and costs at most 1 + n(n+1)/2 calls. |
| `CorpusMinimize.ContributionCounts` | src/corpus/minimize.rs:129-131 | A contribution is zero exactly when nothing is new, and counts the new features of a duplicate-free list. |
| `CorpusMinimize.RoundKeepsGreedy` | src/corpus/minimize.rs:100-122 | One round takes the best remaining candidate, which always contributes something. |
| `CorpusMinimize.GreedyTakesTheBest` | src/corpus/minimize.rs:100-109 | For every pick, over duplicate-free lists: it gains something, no remaining candidate gains more features, none that gains as many is smaller, and none of those at the same size has a lower id. |
| `CorpusMinimize.CoveredIsUnion` | src/corpus/minimize.rs:117-120 | What a list of picks covers are the features that some pick lists. |
| `CorpusMinimize.MinimizeCorpus` | src/corpus/minimize.rs:85-127 | The picks are greedy and cover everything any candidate covers; the zero-contribution break is never taken; over duplicate-free lists every pick gains most, is smallest among those, and has the lowest id among those. |
| `CorpusMinimize.GreedyQuality` | src/corpus/minimize.rs:85-127 | If k candidates cover the universe of n features, after j picks uncovered * k^j <= n * (k-1)^j. |
| `CorpusMinimize.GreedyLength` | src/corpus/minimize.rs:85-127 | Once n * (k-1)^j < k^j, at most j candidates are chosen. |
| `CorpusMinimize.GreedyIsUnique` | src/corpus/minimize.rs:100-109 | When ids tell candidates apart, the choice does not depend on the order of the input. |
| `BoundaryMinimize.DistanceIsMetric` | src/boundary/minimize.rs:31-41 | The byte distance is a metric. |
| `BoundaryMinimize.ByteDistance` | src/boundary/minimize.rs:31-41 | The saturating loop computes the distance capped at 64 bits. |
| `BoundaryMinimize.AlignLowers` | src/boundary/minimize.rs:111-134 | Aligning one byte lowers the gap by exactly one and the distance by exactly the difference of the two bytes. |
| `BoundaryMinimize.TrimLowers` | src/boundary/minimize.rs:139-155 | Trimming the longer side lowers the gap by exactly one and the distance by 256. |
| `BoundaryMinimize.VerifyBudget` | src/boundary/minimize.rs:96-102 | One budgeted pair test. |
| `BoundaryMinimize.AlignmentPhase` | src/boundary/minimize.rs:111-137 | Finds the first alignment that keeps the distinction, or shows there is none within the budget. |
| `BoundaryMinimize.TrimPhase` | src/boundary/minimize.rs:139-155 | Tries the trim of the longer side. |
| `BoundaryMinimize.MinimizePair` | src/boundary/minimize.rs:78-168 | The gap drops by one per accepted move, the iteration cap is never what ends the search, the distinction is kept, the distance never grows, the budget is respected, and with budget left the pair is locally minimal. |
| `RankStatistics.A12` | src/experiment/stats.rs:55-74 | The double loop computes the share of pairs won, ties counting half. |
| `RankStatistics.PairsAddUp` | src/experiment/stats.rs:55-74 | The two directions of pair counting add up to n times m. |
| `RankStatistics.PairScoreIsZero` | src/experiment/stats.rs:55-74 | Nothing is won exactly when the first sample lies entirely below the second. |
| `RankStatistics.RankSumIsPairCount` | src/experiment/stats.rs:155-160 | A midrank sum less its smallest possible value is the number of pairs won. |
| `RankStatistics.TieTotalBound` | src/experiment/stats.rs:149-152 | The tie total is largest exactly when all entries are equal. |
| `RankStatistics.VarianceIsNonNegative` | src/experiment/stats.rs:162-166 | The tie-corrected variance is never negative, and zero if and only if all pooled values are equal. |
| `RankScale.WeightsOfPool` | src/experiment/stats.rs:149-152 | Summed over any list, three times the squared difference of the counts below and above plus the squared count of equals make the cube of its length, whatever the ties. |
| `RankScale.VarianceIsSpreadOfRanks` | src/experiment/stats.rs:162-166 | N(N-1) times the tie-corrected variance is n*m times the sum over the pool of the squared distance of each midrank from (N+1)/2. |
| `RankTest.TieRunCounts` | src/experiment/stats.rs:136-141 | A tie run of the sorted pool holds exactly the equal entries, and its average place is their midrank. |
| `RankTest.AssignRanks` | src/experiment/stats.rs:131-154 | The rank loop gives every observation its midrank and collects the tie sum. |
| `RankTest.WriteRun` | src/experiment/stats.rs:141-148 | Writes one run's midrank into its observations' cells. |
| `RankTest.SumRanks` | src/experiment/stats.rs:155-156 | The rank sum of a sample. |
| `RankTest.NullMoments` | src/experiment/stats.rs:162-165 | Mean and tie-corrected variance from the tie sum. |
| `RankTest.MannWhitneyU` | src/experiment/stats.rs:109-180 | The rank computation returns min of the two pair counts, the continuity-corrected deviate with the tie-corrected variance, and the tail of that deviate. |
| `RankTest.TestIsSymmetric` | src/experiment/stats.rs:109-180 | Swapping the samples leaves the whole result unchanged, p-value included. |
| `RankTest.DeviateNeverPositive` | src/experiment/stats.rs:161-173 | The deviate is never positive, and zero if and only if U is within one half of its mean. |
| `RankScale.DeviateIsStandardized` | src/experiment/stats.rs:161-180 | With an exact square root, the deviate is not positive and its square times the variance, floored at 1e-12, is the square of how far U lies more than one half below its mean; the p-value is that of the deviate. |
| `RankTest.ZeroMeansSeparated` | src/experiment/stats.rs:155-161 | U is zero if and only if the samples do not overlap. |
| `RankTest.UFromDominance` | src/experiment/stats.rs:55-74 | U is n*m times the dominance estimate or its complement, whichever is smaller. |
| `Quantiles.QuantilesIgnoreOrder` | src/experiment/stats.rs:16-51 | Median and quartiles depend only on the multiset of observations. |
| `Quantiles.MedianSplitsInHalf` | src/experiment/stats.rs:16-28 | At most half of the observations lie on either side of the median. |
| `Quantiles.QuartilesAreOrdered` | src/experiment/stats.rs:32-51 | The quartiles are in order and the middle one is the median. |
| `Quantiles.QuartilesSplitInQuarters` | src/experiment/stats.rs:32-51 | At most about a quarter of the observations lie outside either outer quartile, and at most three quarters on the other side. |
| `Quantiles.QuartilesOfEvenlySpaced` | src/experiment/stats.rs:32-51 | On evenly spaced observations the quartiles lie exactly a quarter, a half and three quarters of the way. |
| `Seeds.MixInjective` | src/experiment/mod.rs:343-345 | Two 64-bit words mix to the same value if and only if they are equal. |
| `Seeds.SeedsCoincide` | src/experiment/mod.rs:339-346 | Two trial seeds coincide if and only if the pre-mix sums do. |
| `Seeds.TrialsNeverCollide` | src/experiment/mod.rs:339-346 | For every base seed, trial seeds are distinct over all 2^32 trial numbers. |
| `Seeds.BasesNeverCollide` | src/experiment/mod.rs:339-346 | For one trial number, different base seeds give different seeds. |
| `Seeds.ShiftedBaseSharesSeeds` | src/experiment/mod.rs:339-346 | Across experiments seeds can coincide: a concrete family of bases that share them. |
| `HeldOut.ShuffledIsPermutation` | src/experiment/mod.rs:1204-1207 | The seeded shuffle is a permutation. |
| `HeldOut.ShufflePlaces` | src/experiment/mod.rs:1204-1207 | Which element stands at each place after the shuffle: the one that the swaps of the seed's draws lead back to. |
| `HeldOut.BlindIdsAreDrawn` | src/experiment/mod.rs:1176-1218 | The blind ids are exactly those that the seed's draws put at the first places of the sorted ids. |
| `HeldOut.Shuffle` | src/experiment/mod.rs:1204-1207 | The in-place shuffle. |
| `HeldOut.HeldOutSplit` | src/experiment/mod.rs:1176-1218 | The split computed in place. |
| `HeldOut.SplitIsPartition` | src/experiment/mod.rs:1176-1218 | The split succeeds exactly for a fraction inside (0, 1) and two DISTINCT ids, and is then a partition into two nonempty increasing lists; the blind size is the whole number nearest to its share, halves upwards, unless that leaves a side empty. |

## Left out

- Command line, doctor, reports, JSON/YAML escaping, sidecar files, log lines: text output.
- Worker processes, threads, channels, signals, timers and the memory map itself: the ledger is an array of bytes and a stream a sequence of bytes; a crash leaves any mixture of old and new bytes.
- FRF, Gemel and database bridges, crash findings, boundary witnesses and run tapes: drivers over libraries that are not part of this model.
- The dsfb-debug grammar, policy and DSA calls: a root's substrate is an opaque deterministic step in `Replay.Env`, and its errors (which end a campaign) are not modelled; what an axis does after its calibration is left out.
- Field-by-field codecs of findings, witnesses, verdicts, episodes and corpus metadata, and object framing: straight-line round trips.
- BLAKE3: content ids, morphology ids and structural identities are parameters of `Replay.Env`.
- `erfc_approx`, the square root and p-values are parameters; floating-point rounding and NaN are not modelled, so the statistics and the calibration law are theorems about exact reals.
- GPU contract and fuzz-bank gate tables: the first needs a CPU implementation that is not part of this model, the second is read branch by branch.
- Residual switched off: the live path then keeps no structural state, although a restart still derives it.
- `last_class`, `last_verdict_axis`, the amplify and probe queues and the event counters other than `closed_episodes` are not rebuilt by a restart and are not part of the recovered state.
- CorpusIndex.LineageChain: requires that parents which are there were admitted earlier; on cyclic metadata the loop of `lineage_chain` does not end.
- Precedent matching, probe evaluation and dictionary growth: a probe's match list is an input whose entries share the lineage's mutator.
- Coordinator.CampaignState.Process: admission needs fewer than 2^64 entries in the store, because the 64-bit admission number saturates there.
- Coordinator.CampaignState.Commit: after an oversized feature list only the durable state is described; the campaign ends with the error and the next restart rebuilds.
- Queues.ProbeQueue.Enqueue: after the 64-bit probe number has wrapped, a queued probe with that number is overwritten and newer probes no longer have lower priority.
- Reservations.RangesAreDisjoint: before a key's 64-bit index space is used up, and when no crash loses reservations of the key; `RangesAreDisjointExactly` says what holds with other crashes, `CrashReusesRanges` shows the reuse.
- Regime.RegimeObserver.CountRun: the 32-bit run counters are unbounded here; they restart at a 32-bit dwell before they could overflow.
- Regime.RegimeObserver.constructor: shifts above 63 are excluded, as `1 << shift` is then no 64-bit number. A shift of 63 makes it negative; the observer is modelled with it, the theorems on noise and settling are about the positive ones.
- Protocol.ReadFrame: after a failed read the position in the stream is unspecified, as it is for the reader's callers.
- Checkpoint.EncodeCheckpoint: the map is written in the order of a given list of its rows; the original lists it by key.
- Code and comments differ in places, and the model follows the code: the value-bucket comment promises bucket 64 but the code never produces it; the structural episode comment calls the peak ordinal that of the highest-policy edge; the header comment counts the checksum into the 17 header bytes, which hold 13 meaningful and 4 unused bytes; the test's field comments allow a positive deviate; the corpus bound `MAX_CORPUS_ENTRIES` is not enforced on admission; the encoder bounds header plus payload but the reader the payload alone; the restart comment says nothing new is persisted, and what it writes was indeed written before.
