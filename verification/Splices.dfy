/** Byte splices: how a revision stores the step from one content to the next. */
module Splices {
  import opened Base

  datatype Splice = Splice(offset: nat, removed: Bytes, added: Bytes)

  /** `s` takes `was` to `now`, and read backward takes `now` to `was`. */
  ghost predicate Takes(s: Splice, was: Bytes, now: Bytes) {
    && s.offset + |s.removed| <= |was|
    && was[s.offset..s.offset + |s.removed|] == s.removed
    && now == was[..s.offset] + s.added + was[s.offset + |s.removed|..]
  }

  /** Replace `remove` bytes at `offset` by `insert`. */
  function Replace(bytes: Bytes, offset: nat, remove: nat, insert: Bytes): Bytes
    requires offset + remove <= |bytes|
  {
    bytes[..offset] + insert + bytes[offset + remove..]
  }

  function CommonPrefix(a: Bytes, b: Bytes): (n: nat)
    ensures n <= |a| && n <= |b| && a[..n] == b[..n]
    ensures n < |a| && n < |b| ==> a[n] != b[n]
  {
    if a == [] || b == [] || a[0] != b[0] then 0 else
      var n := CommonPrefix(a[1..], b[1..]);
      assert a[..n + 1] == [a[0]] + a[1..][..n];
      assert b[..n + 1] == [b[0]] + b[1..][..n];
      n + 1
  }

  function CommonSuffix(a: Bytes, b: Bytes): (n: nat)
    ensures n <= |a| && n <= |b|
    ensures forall i | |a| - n <= i < |a| :: a[i] == b[i + |b| - |a|]
    ensures n < |a| && n < |b| ==> a[|a| - n - 1] != b[|b| - n - 1]
  {
    if a == [] || b == [] || a[|a| - 1] != b[|b| - 1] then 0 else
      CommonSuffix(a[..|a| - 1], b[..|b| - 1]) + 1
  }

  /** Where `was` and `now` differ. */
  function Between(was: Bytes, now: Bytes): (s: Splice)
    ensures Takes(s, was, now)
  {
    var p := CommonPrefix(was, now);
    var n := CommonSuffix(was[p..], now[p..]);
    SameTail(was, now, p, n);
    TakesMiddle(was, now, p, n);
    Splice(p, was[p..|was| - n], now[p..|now| - n])
  }

  lemma TakesMiddle(was: Bytes, now: Bytes, p: nat, n: nat)
    requires p + n <= |was| && p + n <= |now|
    requires was[..p] == now[..p] && was[|was| - n..] == now[|now| - n..]
    ensures Takes(Splice(p, was[p..|was| - n], now[p..|now| - n]), was, now)
  {
    assert now == now[..p] + now[p..|now| - n] + now[|now| - n..];
  }

  lemma SameTail(was: Bytes, now: Bytes, p: nat, n: nat)
    requires p <= |was| && p <= |now| && n == CommonSuffix(was[p..], now[p..])
    ensures was[|was| - n..] == now[|now| - n..]
  {
    var a, b := was[p..], now[p..];
    forall i {:trigger was[i]} | |was| - n <= i < |was|
      ensures was[i] == now[i + |now| - |was|]
    {
      assert a[i - p] == b[i - p + |b| - |a|];
    }
  }

  /** The stored splice is reversible. */
  lemma BothWays(s: Splice, was: Bytes, now: Bytes)
    requires Takes(s, was, now)
    ensures Replace(was, s.offset, |s.removed|, s.added) == now
    ensures s.offset + |s.added| <= |now|
    ensures Replace(now, s.offset, |s.added|, s.removed) == was
  {
    assert was == was[..s.offset] + s.removed + was[s.offset + |s.removed|..];
    assert now[..s.offset] == was[..s.offset];
    assert now[s.offset + |s.added|..] == was[s.offset + |s.removed|..];
  }

  lemma {:induction false} PrefixIsLongest(a: Bytes, b: Bytes, n: nat)
    requires n <= |a| && n <= |b| && a[..n] == b[..n]
    ensures n <= CommonPrefix(a, b)
  {
    if n > 0 {
      assert a[0] == a[..n][0] == b[..n][0] == b[0];
      assert a[1..][..n - 1] == a[..n][1..] == b[..n][1..] == b[1..][..n - 1];
      PrefixIsLongest(a[1..], b[1..], n - 1);
    }
  }

  ghost predicate ShareTail(a: Bytes, b: Bytes, n: nat) {
    && n <= |a|
    && n <= |b|
    && forall i | |a| - n <= i < |a| :: a[i] == b[i + |b| - |a|]
  }

  lemma {:induction false} SuffixIsLongest(a: Bytes, b: Bytes, n: nat)
    requires ShareTail(a, b, n)
    ensures n <= CommonSuffix(a, b)
  {
    if n > 0 {
      assert a[|a| - 1] == b[|b| - 1];
      SuffixIsLongest(a[..|a| - 1], b[..|b| - 1], n - 1);
    }
  }

  /** No other splice between the two contents keeps fewer bytes. */
  lemma BetweenIsShortest(was: Bytes, now: Bytes, s: Splice)
    requires Takes(s, was, now)
    ensures |Between(was, now).removed| <= |s.removed|
    ensures |Between(was, now).added| <= |s.added|
  {
    var p, tail := CommonPrefix(was, now), |was| - s.offset - |s.removed|;
    SameEnds(s, was, now);
    PrefixIsLongest(was, now, s.offset);
    var n := if tail <= |was| - p && tail <= |now| - p then tail
             else if |was| <= |now| then |was| - p else |now| - p;
    TailBound(was, now, p, tail, n);
  }

  lemma SameEnds(s: Splice, was: Bytes, now: Bytes)
    requires Takes(s, was, now)
    ensures var tail := |was| - s.offset - |s.removed|;
            && |now| == s.offset + |s.added| + tail
            && was[..s.offset] == now[..s.offset]
            && ShareTail(was, now, tail)
  {
  }

  /** What lies after a common prefix shares all of a common tail that fits. */
  lemma TailBound(was: Bytes, now: Bytes, p: nat, tail: nat, n: nat)
    requires p + n <= |was| && p + n <= |now| && n <= tail
    requires ShareTail(was, now, tail)
    ensures n <= CommonSuffix(was[p..], now[p..])
  {
    var a, b := was[p..], now[p..];
    forall i {:trigger a[i]} | |a| - n <= i < |a|
      ensures a[i] == b[i + |b| - |a|]
    {
      assert was[i + p] == now[i + p + |now| - |was|];
    }
    SuffixIsLongest(a, b, n);
  }
}
