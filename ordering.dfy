/** entry_compare and the qsort call that orders the collected entries. */
module Ordering {
  import opened Entries

  /** entry_compare: the sign of the time difference, e2 - e1 by default
      (newest first) and e1 - e2 when `reverse` is set (oldest first). */
  function Compare(reverse: bool, e1: Entry, e2: Entry): (r: int)
    ensures r == 0 <==> e1.sortTime == e2.sortTime
  {
    var diff := if reverse then e1.sortTime - e2.sortTime else e2.sortTime - e1.sortTime;
    if diff < 0 then -1 else if diff > 0 then 1 else 0
  }

  /** The sign convention, both ways round. */
  lemma CompareSign(reverse: bool, e1: Entry, e2: Entry)
    ensures Compare(reverse, e1, e2) == -1 <==>
              (if reverse then e1.sortTime < e2.sortTime else e1.sortTime > e2.sortTime)
    ensures Compare(reverse, e1, e2) == 1 <==>
              (if reverse then e1.sortTime > e2.sortTime else e1.sortTime < e2.sortTime)
    ensures Compare(reverse, e1, e2) in {-1, 0, 1}
  {
  }

  lemma CompareAntisymmetric(reverse: bool, e1: Entry, e2: Entry)
    ensures Compare(reverse, e1, e2) == -Compare(reverse, e2, e1)
  {
  }

  /** "Not after" is a total preorder, which is what qsort needs of it. */
  lemma CompareTotalPreorder(reverse: bool, e1: Entry, e2: Entry, e3: Entry)
    ensures Compare(reverse, e1, e2) <= 0 || Compare(reverse, e2, e1) <= 0
    ensures Compare(reverse, e1, e2) <= 0 && Compare(reverse, e2, e3) <= 0 ==> Compare(reverse, e1, e3) <= 0
  {
  }

  /** What qsort leaves behind: no pair out of the comparator's order. */
  predicate Sorted(s: seq<Entry>, reverse: bool)
  {
    forall i, j :: 0 <= i < j < |s| ==> Compare(reverse, s[i], s[j]) <= 0
  }

  /** Sorted means non-increasing time by default and non-decreasing with
      `reverse`. */
  lemma SortedByTime(s: seq<Entry>, reverse: bool)
    ensures Sorted(s, reverse) <==>
              forall i, j :: 0 <= i < j < |s| ==>
                (if reverse then s[i].sortTime <= s[j].sortTime else s[i].sortTime >= s[j].sortTime)
  {
  }

  /** The sort_time column of a sequence of entries. */
  function Times(s: seq<Entry>): seq<int>
  {
    seq(|s|, i requires 0 <= i < |s| => s[i].sortTime)
  }

  lemma TimesAppend(s: seq<Entry>, u: seq<Entry>)
    ensures Times(s + u) == Times(s) + Times(u)
  {
  }

  lemma MultisetRemoveAt<T>(u: seq<T>, k: nat)
    requires k < |u|
    ensures multiset(u[..k] + u[k + 1..]) == multiset(u) - multiset{u[k]}
  {
    assert u == u[..k] + [u[k]] + u[k + 1..];
  }

  lemma TimesRemoveAt(u: seq<Entry>, k: nat)
    requires k < |u|
    ensures multiset(Times(u)) == multiset(Times(u[..k] + u[k + 1..])) + multiset{u[k].sortTime}
  {
    var x := u[k];
    TimesAppend(u[..k], u[k + 1..]);
    TimesAppend(u[..k], [x] + u[k + 1..]);
    TimesAppend([x], u[k + 1..]);
    assert u[..k] + ([x] + u[k + 1..]) == u;
  }

  lemma TimesHead(s: seq<Entry>)
    requires s != []
    ensures multiset(Times(s)) == multiset(Times(s[1..])) + multiset{s[0].sortTime}
  {
    TimesRemoveAt(s, 0);
    assert s[..0] + s[1..] == s[1..];
  }

  /** Equal bags of entries have equal bags of times. */
  lemma {:induction false} TimesMultiset(s: seq<Entry>, u: seq<Entry>)
    requires multiset(s) == multiset(u)
    ensures multiset(Times(s)) == multiset(Times(u))
  {
    if s == [] {
      assert |u| == |multiset(u)| == 0;
    } else {
      var x := s[0];
      assert x in multiset(u);
      var k :| 0 <= k < |u| && u[k] == x;
      var rest := u[..k] + u[k + 1..];
      MultisetRemoveAt(u, k);
      MultisetCons(s);
      assert multiset(s[1..]) == multiset(rest);
      TimesMultiset(s[1..], rest);
      TimesRemoveAt(u, k);
      TimesHead(s);
    }
  }

  predicate Ranked(t: seq<int>, reverse: bool)
  {
    forall i, j :: 0 <= i < j < |t| ==> (if reverse then t[i] <= t[j] else t[i] >= t[j])
  }

  lemma RankedHead(a: seq<int>, reverse: bool, k: int)
    requires Ranked(a, reverse) && 0 <= k < |a|
    ensures if reverse then a[0] <= a[k] else a[0] >= a[k]
  {
    if k > 0 {
      assert if reverse then a[0] <= a[k] else a[0] >= a[k];
    }
  }

  lemma RankedTail(a: seq<int>, reverse: bool)
    requires Ranked(a, reverse) && a != []
    ensures Ranked(a[1..], reverse)
  {
    forall i, j | 0 <= i < j < |a| - 1
      ensures if reverse then a[1..][i] <= a[1..][j] else a[1..][i] >= a[1..][j]
    {
      assert a[1..][i] == a[i + 1] && a[1..][j] == a[j + 1];
    }
  }

  lemma RankedHeadsAgree(a: seq<int>, b: seq<int>, reverse: bool)
    requires Ranked(a, reverse) && Ranked(b, reverse)
    requires multiset(a) == multiset(b) && a != []
    ensures b != [] && a[0] == b[0]
  {
    assert a[0] in multiset(b);
    var k :| 0 <= k < |b| && b[k] == a[0];
    assert b[0] in multiset(a);
    var m :| 0 <= m < |a| && a[m] == b[0];
    RankedHead(b, reverse, k);
    RankedHead(a, reverse, m);
  }

  lemma MultisetCons<T>(a: seq<T>)
    requires a != []
    ensures multiset(a) == multiset{a[0]} + multiset(a[1..])
  {
    assert a == [a[0]] + a[1..];
  }

  lemma MultisetTails<T>(a: seq<T>, b: seq<T>)
    requires multiset(a) == multiset(b) && a != [] && b != [] && a[0] == b[0]
    ensures multiset(a[1..]) == multiset(b[1..])
  {
    MultisetCons(a);
    MultisetCons(b);
    assert multiset(a[1..]) == multiset(a) - multiset{a[0]};
    assert multiset(b[1..]) == multiset(b) - multiset{b[0]};
  }

  lemma {:induction false} RankedUnique(a: seq<int>, b: seq<int>, reverse: bool)
    requires Ranked(a, reverse) && Ranked(b, reverse)
    requires multiset(a) == multiset(b)
    ensures a == b
  {
    if a == [] {
      assert |b| == |multiset(b)| == 0;
    } else {
      RankedHeadsAgree(a, b, reverse);
      MultisetTails(a, b);
      RankedTail(a, reverse);
      RankedTail(b, reverse);
      RankedUnique(a[1..], b[1..], reverse);
      assert a == [a[0]] + a[1..];
      assert b == [b[0]] + b[1..];
    }
  }

  /** Ties come out in no promised order, but the sequence of times is
      fixed: any two sorted permutations of the same entries agree on it. */
  lemma SortedTimesDetermined(s: seq<Entry>, u: seq<Entry>, reverse: bool)
    requires Sorted(s, reverse) && Sorted(u, reverse)
    requires multiset(s) == multiset(u)
    ensures Times(s) == Times(u)
  {
    TimesMultiset(s, u);
    RankedUnique(Times(s), Times(u), reverse);
  }

  /** The position an entry sorts to: Compare(reverse, e1, e2) <= 0 exactly
      when Key(reverse, e1) <= Key(reverse, e2). */
  function Key(reverse: bool, e: Entry): int
  {
    if reverse then e.sortTime else -e.sortTime
  }

  predicate KeySorted(s: seq<Entry>, reverse: bool)
  {
    forall i, j :: 0 <= i < j < |s| ==> Key(reverse, s[i]) <= Key(reverse, s[j])
  }

  lemma KeySortedIsSorted(s: seq<Entry>, reverse: bool)
    ensures KeySorted(s, reverse) <==> Sorted(s, reverse)
  {
  }

  method Swap(a: array<Entry>, i: nat, j: nat)
    requires i < j < a.Length
    modifies a
    ensures a[i] == old(a[j]) && a[j] == old(a[i])
    ensures forall k :: 0 <= k < a.Length && k != i && k != j ==> a[k] == old(a[k])
    ensures multiset(a[..]) == multiset(old(a[..]))
  {
    a[i], a[j] := a[j], a[i];
  }

  /** The state of one insertion step: the entry being moved sits at j,
      everything else up to i is in order, and what lies above j is
      strictly after it. */
  ghost predicate Inserting(s: seq<Entry>, j: nat, i: nat, reverse: bool)
  {
    j <= i < |s| &&
    (forall k, l :: 0 <= k < l <= i && k != j && l != j ==> Key(reverse, s[k]) <= Key(reverse, s[l])) &&
    (forall l :: j < l <= i ==> Key(reverse, s[j]) < Key(reverse, s[l]))
  }

  lemma InsertingStart(s: seq<Entry>, i: nat, reverse: bool)
    requires i < |s| && KeySorted(s[..i], reverse)
    ensures Inserting(s, i, i, reverse)
  {
    forall k, l | 0 <= k < l <= i && k != i && l != i
      ensures Key(reverse, s[k]) <= Key(reverse, s[l])
    {
      assert s[k] == s[..i][k] && s[l] == s[..i][l];
    }
  }

  lemma InsertingStep(s: seq<Entry>, j: nat, i: nat, reverse: bool)
    requires Inserting(s, j, i, reverse) && 0 < j
    requires Key(reverse, s[j]) < Key(reverse, s[j - 1])
    ensures Inserting(s[j - 1 := s[j]][j := s[j - 1]], j - 1, i, reverse)
  {
  }

  lemma InsertingDone(s: seq<Entry>, j: nat, i: nat, reverse: bool)
    requires Inserting(s, j, i, reverse)
    requires j == 0 || Key(reverse, s[j - 1]) <= Key(reverse, s[j])
    ensures KeySorted(s[..i + 1], reverse)
  {
    var p := s[..i + 1];
    forall k, l | 0 <= k < l < |p|
      ensures Key(reverse, p[k]) <= Key(reverse, p[l])
    {
      if l == j && k < j - 1 {
        assert Key(reverse, s[k]) <= Key(reverse, s[j - 1]);
      }
    }
  }

  /** One step of insertion: a[..i] is sorted on entry; moves a[i] down
      into place so that a[..i+1] is sorted. */
  method InsertAt(a: array<Entry>, i: nat, reverse: bool)
    requires i < a.Length
    requires KeySorted(a[..i], reverse)
    modifies a
    ensures KeySorted(a[..i + 1], reverse)
    ensures multiset(a[..]) == multiset(old(a[..]))
  {
    InsertingStart(a[..], i, reverse);
    var j: nat := i;
    while j > 0 && Key(reverse, a[j]) < Key(reverse, a[j - 1])
      invariant Inserting(a[..], j, i, reverse)
      invariant multiset(a[..]) == multiset(old(a[..]))
    {
      ghost var before := a[..];
      InsertingStep(before, j, i, reverse);
      Swap(a, j - 1, j);
      assert a[..] == before[j - 1 := before[j]][j := before[j - 1]];
      j := j - 1;
    }
    InsertingDone(a[..], j, i, reverse);
  }

  /** The qsort call: sorts a[..] in place by Compare. */
  method SortInPlace(a: array<Entry>, reverse: bool)
    modifies a
    ensures Sorted(a[..], reverse)
    ensures multiset(a[..]) == multiset(old(a[..]))
  {
    var i := 0;
    while i < a.Length
      invariant 0 <= i <= a.Length
      invariant KeySorted(a[..i], reverse)
      invariant multiset(a[..]) == multiset(old(a[..]))
    {
      InsertAt(a, i, reverse);
      i := i + 1;
    }
    assert a[..] == a[..a.Length];
    KeySortedIsSorted(a[..], reverse);
  }
}
