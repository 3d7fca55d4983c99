/** Single-input minimization: greedy byte deletion under a pure predicate. */
module InputMinimize {
  import opened Bytes
  import opened Arithmetic

  const MAX_TMIN_INPUT_LEN: nat := 0x10_0000

  /** `s` without its i-th byte. */
  function Without(s: seq<byte>, i: nat): (r: seq<byte>)
    requires i < |s|
    ensures |r| == |s| - 1
    ensures forall k | 0 <= k < |r| :: r[k] == if k < i then s[k] else s[k + 1]
  {
    s[..i] + s[i + 1..]
  }

  /** `a` arises from `b` by deleting bytes. */
  ghost predicate Subsequence(a: seq<byte>, b: seq<byte>)
    decreases |b|
  {
    if a == [] then true
    else if b == [] then false
    else (a[0] == b[0] && Subsequence(a[1..], b[1..])) || Subsequence(a, b[1..])
  }

  lemma {:induction false} SubsequenceOfItself(s: seq<byte>)
    ensures Subsequence(s, s)
  {
    if s != [] {
      SubsequenceOfItself(s[1..]);
    }
  }

  lemma {:induction false} SubsequenceTransitive(a: seq<byte>, b: seq<byte>, c: seq<byte>)
    requires Subsequence(a, b) && Subsequence(b, c)
    ensures Subsequence(a, c)
    decreases |c|
  {
    if a != [] {
      if Subsequence(b, c[1..]) {
        SubsequenceTransitive(a, b, c[1..]);
      } else if a[0] == b[0] && Subsequence(a[1..], b[1..]) {
        SubsequenceTransitive(a[1..], b[1..], c[1..]);
      } else {
        SubsequenceTransitive(a, b[1..], c[1..]);
      }
    }
  }

  lemma {:induction false} WithoutIsSubsequence(s: seq<byte>, i: nat)
    requires i < |s|
    ensures Subsequence(Without(s, i), s)
  {
    if i == 0 {
      assert Without(s, 0) == s[1..];
      SubsequenceOfItself(s[1..]);
      if s[1..] != [] {
        assert Subsequence(Without(s, 0), s[1..]);
      }
    } else {
      WithoutIsSubsequence(s[1..], i - 1);
      assert Without(s, i)[1..] == Without(s[1..], i - 1);
    }
  }

  /** n + (n - 1) + ... + 1. */
  function Triangle(n: nat): nat {
    if n == 0 then 0 else n + Triangle(n - 1)
  }

  lemma {:induction false} TriangleClosed(n: nat)
    ensures Triangle(n) == n * (n + 1) / 2
  {
    if n > 0 {
      TriangleClosed(n - 1);
      assert (n - 1) * n + 2 * n == n * (n + 1);
      ModUnique(2 * Triangle(n - 1), 0, Triangle(n - 1), 2);
      EvenProduct(n - 1);
    }
  }

  lemma {:induction false} EvenProduct(n: nat)
    ensures n * (n + 1) % 2 == 0
  {
    if n > 0 {
      EvenProduct(n - 1);
      assert n * (n + 1) == (n - 1) * n + 2 * n;
    }
  }

  lemma {:induction false} TriangleGrows(m: nat, n: nat)
    requires m <= n
    ensures Triangle(m) <= Triangle(n)
    decreases n
  {
    if m < n {
      TriangleGrows(m, n - 1);
    }
  }

  /** No single deletion keeps the predicate. */
  ghost predicate OneMinimal(s: seq<byte>, verify: seq<byte> -> bool) {
    forall i | 0 <= i < |s| :: !verify(Without(s, i))
  }

  /** `minimize_input`, counting the calls of the predicate. Inputs above the bound are
      returned as they are; for all others the result is one-minimal. */
  method MinimizeInput(input: seq<byte>, verify: seq<byte> -> bool) returns (result: seq<byte>, calls: nat)
    ensures Subsequence(result, input)
    ensures result == input || verify(result)
    ensures |input| > MAX_TMIN_INPUT_LEN ==> result == input && calls == 0
    ensures |input| <= MAX_TMIN_INPUT_LEN ==>
      && OneMinimal(result, verify)
      && (result == [] <==> input == [] || verify([]))
      && calls <= 1 + |input| * (|input| + 1) / 2
  {
    SubsequenceOfItself(input);
    if |input| > MAX_TMIN_INPUT_LEN {
      return input, 0;
    }
    TriangleClosed(|input|);
    calls := 1;
    if verify([]) {
      return [], calls;
    }
    var current := input;
    var progress := true;
    while progress
      invariant Subsequence(current, input) && (current == input || verify(current))
      invariant current == [] ==> input == []
      invariant if progress then calls <= 1 + Triangle(|input|) - Triangle(|current|)
                else OneMinimal(current, verify) && calls <= 1 + Triangle(|input|)
      invariant |current| <= |input|
      decreases |current|, progress
    {
      progress := false;
      var i := 0;
      ghost var before, spent := current, calls;
      while i < |current|
        invariant 0 <= i <= |current| <= |before|
        invariant Subsequence(current, input) && (current == input || verify(current))
        invariant current == [] ==> input == []
        invariant !progress ==> current == before && forall k | 0 <= k < i :: !verify(Without(current, k))
        invariant progress ==> |current| < |before|
        invariant calls == spent + i + |before| - |current|
        decreases |current| - i
      {
        var candidate := Without(current, i);
        calls := calls + 1;
        if verify(candidate) {
          WithoutIsSubsequence(current, i);
          SubsequenceTransitive(candidate, current, input);
          current := candidate;
          progress := true;
        } else {
          i := i + 1;
        }
      }
      if progress {
        TriangleGrows(|current|, |before| - 1);
      }
      TriangleGrows(|current|, |input|);
    }
    result := current;
  }
}
