/** The ranked roll of the bumpity pool: every die of a roll is tagged with the
    sub-pool it came from and the tagged dice are put in ascending order of
    (outcome, pool).  Python compares the tuples `(outcome, Pool)` lexically and
    `Pool` is an `IntEnum` with STANDARD (1) below BUMP (2), so on equal outcomes
    a standard die ranks below a bump die. */
module Ranked {

  /** The sub-pool a die was rolled in. */
  datatype Pool = Standard | Bump

  /** One die of a combined roll: its outcome and the sub-pool it came from. */
  datatype Entry = Entry(outcome: int, pool: Pool)

  /** The integer value of the `Pool` enumeration (`auto()` starts at 1). */
  function PoolValue(p: Pool): (v: int)
    ensures v == 1 <==> p == Standard
    ensures v == 2 <==> p == Bump
  {
    match p
    case Standard => 1
    case Bump => 2
  }

  /** Python's tuple comparison `(o1, p1) <= (o2, p2)`. */
  predicate Le(a: Entry, b: Entry)
  {
    a.outcome < b.outcome || (a.outcome == b.outcome && PoolValue(a.pool) <= PoolValue(b.pool))
  }

  lemma LeTotal(a: Entry, b: Entry)
    ensures Le(a, b) || Le(b, a)
    ensures Le(a, b) && Le(b, a) ==> a == b
  {
  }

  /** Ascending by (outcome, pool). */
  predicate Sorted(s: seq<Entry>)
  {
    forall i, j :: 0 <= i < j < |s| ==> Le(s[i], s[j])
  }

  /** Tags every outcome of a roll with the pool it came from. */
  function Tag(roll: seq<int>, p: Pool): (r: seq<Entry>)
    ensures |r| == |roll|
    ensures forall i :: 0 <= i < |r| ==> r[i] == Entry(roll[i], p)
  {
    seq(|roll|, i requires 0 <= i < |roll| => Entry(roll[i], p))
  }

  /** The outcomes of a tagged sequence, in order. */
  function Outcomes(s: seq<Entry>): (r: seq<int>)
    ensures |r| == |s|
    ensures forall i :: 0 <= i < |s| ==> r[i] == s[i].outcome
  {
    seq(|s|, i requires 0 <= i < |s| => s[i].outcome)
  }

  /** Inserts one entry into an ascending sequence at its rank: before the
      first entry it does not follow. */
  function Insert(x: Entry, s: seq<Entry>): (r: seq<Entry>)
    ensures |r| == |s| + 1
  {
    if s == [] || Le(x, s[0]) then [x] + s
    else [s[0]] + Insert(x, s[1..])
  }

  /** Insertion keeps a sequence ascending and adds exactly the one entry. */
  lemma {:induction false} InsertSorted(x: Entry, s: seq<Entry>)
    requires Sorted(s)
    ensures Sorted(Insert(x, s))
    ensures multiset(Insert(x, s)) == multiset(s) + multiset{x}
  {
    if s != [] && !Le(x, s[0]) {
      InsertSorted(x, s[1..]);
      InsertStep(x, s);
    } else if s != [] {
      forall j | 0 <= j < |s| ensures Le(x, s[j]) {
        if j > 0 { assert Le(s[0], s[j]); }
      }
      ConsSorted(x, s);
    }
  }

  /** Inserting past the head: the head stays in front of the ascending
      insertion into the tail. */
  lemma InsertStep(x: Entry, s: seq<Entry>)
    requires Sorted(s) && s != [] && !Le(x, s[0])
    requires Sorted(Insert(x, s[1..]))
    requires multiset(Insert(x, s[1..])) == multiset(s[1..]) + multiset{x}
    ensures Sorted(Insert(x, s))
    ensures multiset(Insert(x, s)) == multiset(s) + multiset{x}
  {
    var t := s[1..];
    var rest := Insert(x, t);
    assert s == [s[0]] + t;
    assert Insert(x, s) == [s[0]] + rest;
    forall j | 0 <= j < |t| ensures Le(s[0], t[j]) {
      assert Le(s[0], s[j + 1]);
    }
    LeTotal(x, s[0]);
    LeastKept(s[0], x, t, rest);
    ConsSorted(s[0], rest);
  }

  /** An entry ranked at or below every entry of `t` and below `x` ranks at
      or below every entry of a rearrangement of `t` with `x` added. */
  lemma LeastKept(h: Entry, x: Entry, t: seq<Entry>, rest: seq<Entry>)
    requires Le(h, x) && forall j :: 0 <= j < |t| ==> Le(h, t[j])
    requires multiset(rest) == multiset(t) + multiset{x}
    ensures forall i :: 0 <= i < |rest| ==> Le(h, rest[i])
  {
    forall i | 0 <= i < |rest| ensures Le(h, rest[i]) {
      assert rest[i] in multiset(rest);
      if rest[i] != x {
        assert rest[i] in multiset(t);
        var j :| 0 <= j < |t| && t[j] == rest[i];
      }
    }
  }

  /** A least entry in front of an ascending sequence keeps it ascending. */
  lemma ConsSorted(h: Entry, r: seq<Entry>)
    requires Sorted(r)
    requires forall i :: 0 <= i < |r| ==> Le(h, r[i])
    ensures Sorted([h] + r)
  {
    forall i, j | 0 <= i < j < |r| + 1 ensures Le(([h] + r)[i], ([h] + r)[j]) {
      assert ([h] + r)[j] == r[j - 1];
      if i > 0 { assert ([h] + r)[i] == r[i - 1]; }
    }
  }

  /** The sorted arrangement of a roll: the list that Python's `list.sort()`
      leaves behind (the library sort itself is not modelled). */
  function Sort(s: seq<Entry>): (r: seq<Entry>)
    ensures Sorted(r)
    ensures multiset(r) == multiset(s)
    ensures |r| == |s|
  {
    if s == [] then []
    else
      assert s == [s[0]] + s[1..];
      InsertSorted(s[0], Sort(s[1..]));
      Insert(s[0], Sort(s[1..]))
  }

  /** The first element of a non-empty ascending sequence is its least element. */
  lemma {:induction false} HeadIsLeast(s: seq<Entry>, e: Entry)
    requires Sorted(s) && e in multiset(s)
    ensures Le(s[0], e)
  {
    var k :| 0 <= k < |s| && s[k] == e;
    if k != 0 {
      assert Le(s[0], s[k]);
    } else {
      LeTotal(e, e);
    }
  }

  /** Any two ascending arrangements of the same entries are equal: so the
      sorted roll does not depend on how it was assembled. */
  lemma {:induction false} SortedUnique(a: seq<Entry>, b: seq<Entry>)
    requires Sorted(a) && Sorted(b)
    requires multiset(a) == multiset(b)
    ensures a == b
  {
    if a != [] {
      assert |b| == |a| by {
        assert |multiset(a)| == |a| && |multiset(b)| == |b|;
      }
      assert a[0] in multiset(b) && b[0] in multiset(a) by {
        assert a[0] in multiset(a) && b[0] in multiset(b);
      }
      HeadIsLeast(a, b[0]);
      HeadIsLeast(b, a[0]);
      LeTotal(a[0], b[0]);
      MultisetTail(a);
      MultisetTail(b);
      SortedTail(a);
      SortedTail(b);
      assert a == [a[0]] + a[1..] && b == [b[0]] + b[1..];
      SortedUnique(a[1..], b[1..]);
    } else {
      assert |multiset(b)| == 0;
    }
  }

  /** Whatever is ascending and a permutation of `s` is `Sort(s)`. */
  lemma SortCharacterised(s: seq<Entry>, r: seq<Entry>)
    requires Sorted(r) && multiset(r) == multiset(s)
    ensures r == Sort(s)
  {
    SortedUnique(r, Sort(s));
  }

  // ---------------------------------------------------------------------------
  // Rolls of plain outcomes, as the value-based variant sorts them

  /** Ascending by value. */
  predicate SortedValues(s: seq<int>)
  {
    forall i, j :: 0 <= i < j < |s| ==> s[i] <= s[j]
  }

  /** Inserts one value into an ascending sequence at its rank. */
  function InsertValue(x: int, s: seq<int>): (r: seq<int>)
    ensures |r| == |s| + 1
  {
    if s == [] || x <= s[0] then [x] + s
    else [s[0]] + InsertValue(x, s[1..])
  }

  lemma {:induction false} InsertValueSorted(x: int, s: seq<int>)
    requires SortedValues(s)
    ensures SortedValues(InsertValue(x, s))
    ensures multiset(InsertValue(x, s)) == multiset(s) + multiset{x}
  {
    if s != [] && s[0] < x {
      InsertValueSorted(x, s[1..]);
      InsertValueStep(x, s);
    } else if s != [] {
      forall j | 0 <= j < |s| ensures x <= s[j] {
        if j > 0 { assert s[0] <= s[j]; }
      }
      ConsSortedValues(x, s);
    }
  }

  /** Inserting past the head: the head stays in front of the ascending
      insertion into the tail. */
  lemma InsertValueStep(x: int, s: seq<int>)
    requires SortedValues(s) && s != [] && s[0] < x
    requires SortedValues(InsertValue(x, s[1..]))
    requires multiset(InsertValue(x, s[1..])) == multiset(s[1..]) + multiset{x}
    ensures SortedValues(InsertValue(x, s))
    ensures multiset(InsertValue(x, s)) == multiset(s) + multiset{x}
  {
    var t := s[1..];
    var rest := InsertValue(x, t);
    assert s == [s[0]] + t;
    assert InsertValue(x, s) == [s[0]] + rest;
    forall j | 0 <= j < |t| ensures s[0] <= t[j] {
      assert s[0] <= s[j + 1];
    }
    LowerBoundKept(s[0], x, t, rest);
    ConsSortedValues(s[0], rest);
  }

  /** A bound below every value of `t` and below `x` is below every value of
      a rearrangement of `t` with `x` added. */
  lemma LowerBoundKept(h: int, x: int, t: seq<int>, rest: seq<int>)
    requires h <= x && forall j :: 0 <= j < |t| ==> h <= t[j]
    requires multiset(rest) == multiset(t) + multiset{x}
    ensures forall i :: 0 <= i < |rest| ==> h <= rest[i]
  {
    forall i | 0 <= i < |rest| ensures h <= rest[i] {
      assert rest[i] in multiset(rest);
      if rest[i] != x {
        assert rest[i] in multiset(t);
        var j :| 0 <= j < |t| && t[j] == rest[i];
      }
    }
  }

  /** A least value in front of an ascending sequence keeps it ascending. */
  lemma ConsSortedValues(h: int, r: seq<int>)
    requires SortedValues(r)
    requires forall i :: 0 <= i < |r| ==> h <= r[i]
    ensures SortedValues([h] + r)
  {
    forall i, j | 0 <= i < j < |r| + 1 ensures ([h] + r)[i] <= ([h] + r)[j] {
      assert ([h] + r)[j] == r[j - 1];
      if i > 0 { assert ([h] + r)[i] == r[i - 1]; }
    }
  }

  /** The list `list.sort()` leaves behind for a list of integers. */
  function SortValues(s: seq<int>): (r: seq<int>)
    ensures SortedValues(r)
    ensures multiset(r) == multiset(s)
    ensures |r| == |s|
  {
    if s == [] then []
    else
      assert s == [s[0]] + s[1..];
      InsertValueSorted(s[0], SortValues(s[1..]));
      InsertValue(s[0], SortValues(s[1..]))
  }

  lemma {:induction false} HeadIsLeastValue(s: seq<int>, x: int)
    requires SortedValues(s) && x in multiset(s)
    ensures s[0] <= x
  {
    var k :| 0 <= k < |s| && s[k] == x;
    if k != 0 {
      assert s[0] <= s[k];
    }
  }

  lemma MultisetTail<T>(s: seq<T>)
    requires s != []
    ensures multiset(s) == multiset{s[0]} + multiset(s[1..])
    ensures multiset(s[1..]) == multiset(s) - multiset{s[0]}
  {
    assert s == [s[0]] + s[1..];
  }

  /** Any two ascending arrangements of the same values are equal. */
  lemma {:induction false} SortedValuesUnique(a: seq<int>, b: seq<int>)
    requires SortedValues(a) && SortedValues(b)
    requires multiset(a) == multiset(b)
    ensures a == b
  {
    if a != [] {
      assert |b| == |a| by {
        assert |multiset(a)| == |a| && |multiset(b)| == |b|;
      }
      assert a[0] in multiset(b) && b[0] in multiset(a) by {
        assert a[0] in multiset(a) && b[0] in multiset(b);
      }
      HeadIsLeastValue(a, b[0]);
      HeadIsLeastValue(b, a[0]);
      assert a[0] == b[0];
      MultisetTail(a);
      MultisetTail(b);
      SortedValuesTail(a);
      SortedValuesTail(b);
      assert a == [a[0]] + a[1..] && b == [b[0]] + b[1..];
      SortedValuesUnique(a[1..], b[1..]);
    } else {
      assert |multiset(b)| == 0;
    }
  }

  lemma SortedValuesTail(s: seq<int>)
    requires SortedValues(s) && s != []
    ensures SortedValues(s[1..])
  {
    forall i, j | 0 <= i < j < |s| - 1 ensures s[1..][i] <= s[1..][j] {
      assert s[i + 1] <= s[j + 1];
    }
  }

  lemma OutcomesAppend(a: seq<Entry>, b: seq<Entry>)
    ensures Outcomes(a + b) == Outcomes(a) + Outcomes(b)
  {
  }

  /** The outcomes of an ascending tagged sequence are ascending. */
  lemma SortedOutcomes(s: seq<Entry>)
    requires Sorted(s)
    ensures SortedValues(Outcomes(s))
  {
    forall i, j | 0 <= i < j < |s| ensures Outcomes(s)[i] <= Outcomes(s)[j] {
      assert Le(s[i], s[j]);
    }
  }

  lemma OutcomesCons(e: Entry, t: seq<Entry>)
    ensures Outcomes([e] + t) == [e.outcome] + Outcomes(t)
  {
  }

  /** Inserting an entry puts its outcome where inserting the bare value
      would: ties between pools never move a value. */
  lemma {:induction false} OutcomesOfInsert(x: Entry, s: seq<Entry>)
    requires Sorted(s)
    ensures Outcomes(Insert(x, s)) == InsertValue(x.outcome, Outcomes(s))
  {
    if s == [] {
    } else if Le(x, s[0]) {
      OutcomesCons(x, s);
    } else {
      var t := s[1..];
      assert s == [s[0]] + t;
      SortedTail(s);
      OutcomesOfInsert(x, t);
      InsertPast(x, s);
      if x.outcome > s[0].outcome {
        InsertValuePast(x.outcome, s[0].outcome, Outcomes(t));
      } else {
        TieInsertsFirst(x.outcome, s[0], t);
        InsertValueTie(x.outcome, Outcomes(t));
      }
      OutcomesCons(s[0], t);
    }
  }

  lemma SortedTail(s: seq<Entry>)
    requires Sorted(s) && s != []
    ensures Sorted(s[1..])
  {
    forall i, j | 0 <= i < j < |s| - 1 ensures Le(s[1..][i], s[1..][j]) {
      assert Le(s[i + 1], s[j + 1]);
    }
  }

  /** A slice of an ascending sequence is ascending and drawn from it. */
  lemma SortedSlice(s: seq<Entry>, lo: nat, hi: nat)
    requires Sorted(s) && lo <= hi <= |s|
    ensures Sorted(s[lo..hi])
    ensures multiset(s[lo..hi]) <= multiset(s)
  {
    forall i, j | 0 <= i < j < hi - lo ensures Le(s[lo..hi][i], s[lo..hi][j]) {
      assert Le(s[lo + i], s[lo + j]);
    }
    assert s == s[..lo] + s[lo..hi] + s[hi..];
  }

  /** An entry that follows the head is inserted into the tail. */
  lemma InsertPast(x: Entry, s: seq<Entry>)
    requires s != [] && !Le(x, s[0])
    ensures Outcomes(Insert(x, s)) == [s[0].outcome] + Outcomes(Insert(x, s[1..]))
  {
    OutcomesCons(s[0], Insert(x, s[1..]));
  }

  lemma InsertValuePast(v: int, h: int, t: seq<int>)
    requires v > h
    ensures InsertValue(v, [h] + t) == [h] + InsertValue(v, t)
  {
    assert ([h] + t)[1..] == t;
  }

  /** A value no larger than the first outcome of a sorted tail goes first. */
  lemma TieInsertsFirst(v: int, head: Entry, t: seq<Entry>)
    requires Sorted([head] + t) && v == head.outcome
    ensures InsertValue(v, Outcomes(t)) == [v] + Outcomes(t)
  {
    if t != [] {
      assert Le(([head] + t)[0], ([head] + t)[1]);
    }
  }

  /** A value tied with the head goes in front of it or right after it, which
      is the same sequence. */
  lemma InsertValueTie(v: int, t: seq<int>)
    requires InsertValue(v, t) == [v] + t
    ensures InsertValue(v, [v] + t) == [v] + InsertValue(v, t)
  {
  }

  /** The outcomes of the sorted tagged roll are the sorted outcomes: sorting
      by (outcome, pool) puts the same values in the same places as sorting
      the values alone. */
  lemma {:induction false} OutcomesOfSort(s: seq<Entry>)
    ensures Outcomes(Sort(s)) == SortValues(Outcomes(s))
  {
    if s != [] {
      OutcomesOfSort(s[1..]);
      OutcomesOfInsert(s[0], Sort(s[1..]));
      assert Outcomes(s)[1..] == Outcomes(s[1..]);
    }
  }
}
