/** The consensus timestamp: the median of the first-seen timestamps. */
module Median {
  import opened Prelude
  import opened Sorting

  function AtMost(): (nat, nat) -> bool { (a: nat, b: nat) => a <= b }

  /** The middle value of a sorted list, or the truncated mean of its two middle values. */
  function Middle(s: seq<nat>): nat
    requires s != []
  {
    var mid := |s| / 2;
    if |s| % 2 == 1 then s[mid] else (s[mid - 1] + s[mid]) / 2
  }

  function MedianOf(stamps: seq<nat>): nat
    requires stamps != []
  {
    var s := SortBy(AtMost(), stamps);
    assert |s| == |multiset(s)| == |multiset(stamps)| == |stamps|;
    Middle(s)
  }

  ghost function CountIf(p: nat -> bool, s: seq<nat>): nat {
    if s == [] then 0 else (if p(s[0]) then 1 else 0) + CountIf(p, s[1..])
  }

  lemma {:induction false} CountInsert(p: nat -> bool, x: nat, s: seq<nat>)
    ensures CountIf(p, InsertBy(AtMost(), x, s)) == CountIf(p, s) + if p(x) then 1 else 0
  {
    if s != [] && !(x <= s[0]) {
      CountInsert(p, x, s[1..]);
      assert InsertBy(AtMost(), x, s)[1..] == InsertBy(AtMost(), x, s[1..]);
    } else {
      assert InsertBy(AtMost(), x, s)[1..] == s;
    }
  }

  lemma {:induction false} CountSorted(p: nat -> bool, s: seq<nat>)
    ensures CountIf(p, SortBy(AtMost(), s)) == CountIf(p, s)
  {
    if s != [] {
      CountSorted(p, s[1..]);
      CountInsert(p, s[0], SortBy(AtMost(), s[1..]));
    }
  }

  lemma {:induction false} CountSplit(p: nat -> bool, s: seq<nat>, k: nat)
    requires k <= |s|
    ensures CountIf(p, s) == CountIf(p, s[..k]) + CountIf(p, s[k..])
  {
    if k == 0 {
      assert s[..k] == [] && s[k..] == s;
    } else {
      CountSplit(p, s[1..], k - 1);
      assert s[1..][..k - 1] == s[..k][1..] && s[1..][k - 1..] == s[k..];
    }
  }

  lemma {:induction false} CountAll(p: nat -> bool, s: seq<nat>)
    requires forall i :: 0 <= i < |s| ==> p(s[i])
    ensures CountIf(p, s) == |s|
  {
    if s != [] { CountAll(p, s[1..]); }
  }

  ghost function Where(p: nat -> bool, s: seq<nat>, from: nat): set<nat> {
    set i | from <= i < |s| && p(s[i])
  }

  lemma {:induction false} CountIsIndexSet(p: nat -> bool, s: seq<nat>, from: nat)
    requires from <= |s|
    ensures |Where(p, s, from)| == CountIf(p, s[from..])
    decreases |s| - from
  {
    if from == |s| {
      assert Where(p, s, from) == {};
    } else {
      CountIsIndexSet(p, s, from + 1);
      assert s[from..][1..] == s[from + 1..];
      assert Where(p, s, from) == (if p(s[from]) then {from} else {}) + Where(p, s, from + 1);
    }
  }

  /** More than half of the positions meet at least half of them, so an honest stamp satisfies `p`. */
  lemma HonestAmong(stamps: seq<nat>, honest: set<nat>, p: nat -> bool) returns (i: nat)
    requires (forall k :: k in honest ==> k < |stamps|) && |honest| * 2 > |stamps|
    requires CountIf(p, stamps) * 2 >= |stamps|
    ensures i in honest && p(stamps[i])
  {
    assert stamps[0..] == stamps;
    CountIsIndexSet(p, stamps, 0);
    Overlap(honest, Where(p, stamps, 0), Below(|stamps|));
    assert honest * Where(p, stamps, 0) != {};
    i :| i in honest * Where(p, stamps, 0);
  }

  ghost function Below(n: nat): (s: set<nat>)
    ensures |s| == n && forall k: nat :: k in s <==> k < n
  {
    if n == 0 then {} else Below(n - 1) + {n - 1}
  }

  ghost function UpTo(v: nat): nat -> bool { (x: nat) => x <= v }

  ghost function From(v: nat): nat -> bool { (x: nat) => x >= v }

  lemma CountAtMost(s: seq<nat>, k: nat)
    requires SortedBy(AtMost(), s) && k < |s|
    ensures CountIf(UpTo(s[k]), s) >= k + 1
  {
    CountSplit(UpTo(s[k]), s, k + 1);
    var low := s[..k + 1];
    forall i | 0 <= i < |low| ensures UpTo(s[k])(low[i]) { assert i < k ==> AtMost()(s[i], s[k]); }
    CountAll(UpTo(s[k]), low);
  }

  lemma CountAtLeast(s: seq<nat>, k: nat)
    requires SortedBy(AtMost(), s) && k < |s|
    ensures CountIf(From(s[k]), s) >= |s| - k
  {
    CountSplit(From(s[k]), s, k);
    var high := s[k..];
    forall i | 0 <= i < |high| ensures From(s[k])(high[i]) { assert i > 0 ==> AtMost()(s[k], s[k + i]); }
    CountAll(From(s[k]), high);
  }

  /**
    The median bound: when more than half of the stamps are honest, the median lies between an
    honest stamp and another, whatever the rest are; in particular it is no larger than some stamp,
    so it fits where the stamps fit.
  */
  lemma MedianBetweenHonest(stamps: seq<nat>, honest: set<nat>) returns (low: nat, high: nat)
    requires (forall k :: k in honest ==> k < |stamps|) && |honest| * 2 > |stamps|
    ensures stamps != [] && low in honest && high in honest
    ensures stamps[low] <= MedianOf(stamps) <= stamps[high]
  {
    if stamps == [] { assert honest == {}; }
    var s := SortBy(AtMost(), stamps);
    SortBySorts(AtMost(), stamps);
    assert |s| == |multiset(s)| == |multiset(stamps)| == |stamps|;
    var n := |s|;
    var a, b := s[(n - 1) / 2], s[n / 2];
    CountAtMost(s, (n - 1) / 2);
    CountSorted(UpTo(a), stamps);
    low := HonestAmong(stamps, honest, UpTo(a));
    CountAtLeast(s, n / 2);
    CountSorted(From(b), stamps);
    high := HonestAmong(stamps, honest, From(b));
    MiddleBetween(s);
  }

  lemma MiddleBetween(s: seq<nat>)
    requires s != [] && SortedBy(AtMost(), s)
    ensures s[(|s| - 1) / 2] <= Middle(s) <= s[|s| / 2]
  {
    var i, j := (|s| - 1) / 2, |s| / 2;
    assert i < j ==> AtMost()(s[i], s[j]);
  }
}
