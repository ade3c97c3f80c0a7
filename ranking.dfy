/** Stage F's priority queue. Each row becomes the heap tuple
    (-theta, contended latency, memory, name, index); tuples compare the way
    Python compares tuples, so the smallest tuple is the row with the highest
    theta, ties going to the lower contended latency, then the lower memory,
    then the smaller name, then the lower index. The queue is modelled by its
    contents: a push appends, a pop removes a smallest tuple. */
module Ranking {
  import opened Records
  import opened Metrics

  datatype Entry = Entry(negTheta: real, contended: real, memory: real, name: string, index: nat)

  /** Python's `<` on strings: lexicographic by character, a proper prefix
      being smaller. */
  predicate StrLess(a: string, b: string)
    decreases |a|
  {
    if |a| == 0 then |b| > 0
    else if |b| == 0 then false
    else if a[0] != b[0] then a[0] < b[0]
    else StrLess(a[1..], b[1..])
  }

  lemma {:induction false} StrLessIrreflexive(a: string)
    ensures !StrLess(a, a)
    decreases |a|
  {
    if |a| > 0 {
      StrLessIrreflexive(a[1..]);
    }
  }

  lemma {:induction false} StrLessTransitive(a: string, b: string, c: string)
    requires StrLess(a, b) && StrLess(b, c)
    ensures StrLess(a, c)
    decreases |a|
  {
    if |a| > 0 && a[0] == b[0] && b[0] == c[0] {
      StrLessTransitive(a[1..], b[1..], c[1..]);
    }
  }

  lemma {:induction false} StrLessTotal(a: string, b: string)
    requires a != b
    ensures StrLess(a, b) || StrLess(b, a)
    decreases |a|
  {
    if |a| > 0 && |b| > 0 && a[0] == b[0] {
      assert a == [a[0]] + a[1..] && b == [b[0]] + b[1..];
      StrLessTotal(a[1..], b[1..]);
    }
  }

  /** Python's `<` on the heap tuples: the first field where the two differ
      decides. */
  predicate EntryLess(a: Entry, b: Entry)
  {
    if a.negTheta != b.negTheta then a.negTheta < b.negTheta
    else if a.contended != b.contended then a.contended < b.contended
    else if a.memory != b.memory then a.memory < b.memory
    else if a.name != b.name then StrLess(a.name, b.name)
    else a.index < b.index
  }

  lemma EntryLessTransitive(a: Entry, b: Entry, c: Entry)
    requires EntryLess(a, b) && EntryLess(b, c)
    ensures EntryLess(a, c)
  {
    if a.negTheta == b.negTheta == c.negTheta && a.contended == b.contended == c.contended
       && a.memory == b.memory == c.memory
    {
      if a.name != b.name && b.name != c.name {
        StrLessTransitive(a.name, b.name, c.name);
        if a.name == c.name {
          StrLessTransitive(b.name, c.name, b.name);
          StrLessIrreflexive(b.name);
        }
      }
    }
  }

  /** The tuple order is a strict total order: two different tuples are
      always ordered one way or the other, never both. */
  lemma EntryLessTotal(a: Entry, b: Entry)
    ensures !EntryLess(a, a)
    ensures a != b ==> (EntryLess(a, b) <==> !EntryLess(b, a))
  {
    if a.name != b.name {
      StrLessTotal(a.name, b.name);
      if StrLess(a.name, b.name) && StrLess(b.name, a.name) {
        StrLessTransitive(a.name, b.name, a.name);
        StrLessIrreflexive(a.name);
      }
    }
  }

  /** The heap tuple of row `k`. */
  function RowEntry(t: Table, k: nat, bound: real, pow: real -> real): (e: Entry)
    requires k < |t|
    ensures e.index == k && e.name == t[k].name && e.memory == t[k].memory
    ensures -e.negTheta <= t[k].throughput && -e.negTheta <= bound * (t[k].reliability / 100.0)
  {
    Entry(-Theta(t[k], bound), Contended(t[k], pow), t[k].memory, t[k].name, k)
  }

  /** The heap tuples of all rows, in row order. */
  function RowEntries(t: Table, bound: real, pow: real -> real): (pq: seq<Entry>)
  {
    seq(|t|, k requires 0 <= k < |t| => RowEntry(t, k, bound, pow))
  }

  /** The push loop: one tuple per row, in row order. */
  method EnqueueRows(t: Table, bound: real, pow: real -> real) returns (pq: seq<Entry>)
    ensures pq == RowEntries(t, bound, pow)
    ensures forall k :: 0 <= k < |pq| ==> pq[k].index == k && -pq[k].negTheta == Theta(t[k], bound)
  {
    pq := [];
    var k := 0;
    while k < |t|
      invariant 0 <= k <= |t| && |pq| == k
      invariant forall j :: 0 <= j < k ==> pq[j] == RowEntry(t, j, bound, pow)
    {
      pq := pq + [RowEntry(t, k, bound, pow)];
      k := k + 1;
    }
  }

  /** heappop: removes and returns a tuple that no other tuple in the queue
      is smaller than. */
  method PopMin(pq: seq<Entry>) returns (x: Entry, rest: seq<Entry>, ghost at: nat)
    requires |pq| > 0
    ensures at < |pq| && x == pq[at] && rest == pq[..at] + pq[at + 1..]
    ensures forall j :: 0 <= j < |pq| ==> !EntryLess(pq[j], x)
    ensures multiset(rest) + multiset{x} == multiset(pq)
  {
    var best := 0;
    var i := 1;
    while i < |pq|
      invariant 0 <= best < i <= |pq|
      invariant forall j :: 0 <= j < i ==> !EntryLess(pq[j], pq[best])
    {
      if EntryLess(pq[i], pq[best]) {
        NewMinimum(pq[..i], pq[best], pq[i]);
        best := i;
      }
      i := i + 1;
    }
    x, at := pq[best], best;
    rest := pq[..best] + pq[best + 1..];
    RemoveAtMultiset(pq, best);
  }

  /** Removing position `at` takes exactly one copy of its tuple out of the
      queue's contents. */
  lemma RemoveAtMultiset(pq: seq<Entry>, at: nat)
    requires at < |pq|
    ensures multiset(pq[..at] + pq[at + 1..]) + multiset{pq[at]} == multiset(pq)
  {
    assert pq == pq[..at] + [pq[at]] + pq[at + 1..];
  }

  /** A tuple smaller than the least of `prefix` is less than none of them. */
  lemma NewMinimum(prefix: seq<Entry>, least: Entry, x: Entry)
    requires forall j :: 0 <= j < |prefix| ==> !EntryLess(prefix[j], least)
    requires EntryLess(x, least)
    ensures forall j :: 0 <= j < |prefix| ==> !EntryLess(prefix[j], x)
    ensures !EntryLess(x, x)
  {
    forall j | 0 <= j < |prefix| ensures !EntryLess(prefix[j], x) {
      if EntryLess(prefix[j], x) {
        EntryLessTransitive(prefix[j], x, least);
      }
    }
    EntryLessTotal(x, x);
  }

  /** No later tuple of `s` is smaller than an earlier one. */
  predicate Sorted(s: seq<Entry>)
  {
    forall p, q :: 0 <= p < q < |s| ==> !EntryLess(s[q], s[p])
  }

  /** `s` is what popping `pq` in order yields: ceil(n/2) of its tuples,
      sorted, each taken from the queue, none of the tuples left behind
      smaller than one taken. */
  predicate IsHalfDrain(s: seq<Entry>, pq: seq<Entry>)
  {
    && |s| == (|pq| + 1) / 2
    && Sorted(s)
    && multiset(s) <= multiset(pq)
    && forall k, p :: 0 <= k < |pq| && 0 <= p < |s| && pq[k] !in s ==> !EntryLess(pq[k], s[p])
  }

  /** The pop loop `[heappop(pq) for _ in pq]`: the comprehension walks the
      list by position while each pop shortens it, so it stops once the
      position reaches the shrinking length, after ceil(n/2) pops. */
  method DrainWhileIterating(pq0: seq<Entry>) returns (schedule: seq<Entry>, left: seq<Entry>)
    ensures |schedule| == (|pq0| + 1) / 2
    ensures |schedule| + |left| == |pq0|
    ensures multiset(schedule) + multiset(left) == multiset(pq0)
    ensures Sorted(schedule)
    ensures forall p, m :: 0 <= p < |schedule| && 0 <= m < |left| ==> !EntryLess(left[m], schedule[p])
    ensures IsHalfDrain(schedule, pq0)
  {
    schedule := [];
    left := pq0;
    var i := 0;
    while i < |left|
      invariant i == |schedule| && i + |left| == |pq0| && 2 * i <= |pq0| + 1
      invariant multiset(schedule) + multiset(left) == multiset(pq0)
      invariant Sorted(schedule)
      invariant forall p, m :: 0 <= p < |schedule| && 0 <= m < |left| ==> !EntryLess(left[m], schedule[p])
      decreases |left| - i
    {
      var x, rest, at := PopMin(left);
      forall p, m | 0 <= p < |schedule| && 0 <= m < |rest|
        ensures !EntryLess(rest[m], schedule[p])
      {
        assert rest[m] == if m < at then left[m] else left[m + 1];
      }
      assert forall p :: 0 <= p < |schedule| ==> !EntryLess(x, schedule[p]);
      AppendKeepsSorted(schedule, x);
      assert multiset(schedule + [x]) == multiset(schedule) + multiset{x};
      schedule := schedule + [x];
      left := rest;
      i := i + 1;
    }
    SplitIsHalfDrain(schedule, left, pq0);
  }

  /** Appending a tuple that is smaller than none of a sorted sequence keeps
      it sorted. */
  lemma AppendKeepsSorted(s: seq<Entry>, x: Entry)
    requires Sorted(s)
    requires forall p :: 0 <= p < |s| ==> !EntryLess(x, s[p])
    ensures Sorted(s + [x])
  {
  }

  /** A sorted prefix split off a queue, with nothing smaller left behind. */
  lemma SplitIsHalfDrain(s: seq<Entry>, left: seq<Entry>, pq: seq<Entry>)
    requires |s| == (|pq| + 1) / 2 && Sorted(s)
    requires multiset(s) + multiset(left) == multiset(pq)
    requires forall p, m :: 0 <= p < |s| && 0 <= m < |left| ==> !EntryLess(left[m], s[p])
    ensures IsHalfDrain(s, pq)
  {
    forall k, p | 0 <= k < |pq| && 0 <= p < |s| && pq[k] !in s
      ensures !EntryLess(pq[k], s[p])
    {
      assert pq[k] in multiset(pq);
      assert pq[k] in multiset(left);
      var m :| 0 <= m < |left| && left[m] == pq[k];
    }
  }

  /** Along a sorted schedule theta never increases, and rows with equal
      theta come in order of contended latency, not of table position. */
  lemma SortedScheduleOrder(s: seq<Entry>, p: nat, q: nat)
    requires Sorted(s) && p < q < |s|
    ensures -s[p].negTheta >= -s[q].negTheta
    ensures s[p].negTheta == s[q].negTheta ==> s[p].contended <= s[q].contended
  {
  }

  // ------------------------------------------- the schedule is determined

  /** No tuple occurs twice. */
  predicate Distinct(s: seq<Entry>)
  {
    forall i, j :: 0 <= i < j < |s| ==> s[i] != s[j]
  }

  /** The tuples of a sequence, as a set. */
  function Elems(s: seq<Entry>): set<Entry>
  {
    set x | x in s
  }

  /** The row tuples differ in their index field, so none occurs twice. */
  lemma RowEntriesDistinct(t: Table, bound: real, pow: real -> real)
    ensures Distinct(RowEntries(t, bound, pow))
  {
  }

  lemma {:induction false} DistinctOccursOnce(s: seq<Entry>, x: Entry)
    requires Distinct(s)
    ensures multiset(s)[x] <= 1
  {
    if |s| > 0 {
      assert s == [s[0]] + s[1..];
      assert Distinct(s[1..]) by {
        forall i, j | 0 <= i < j < |s| - 1 ensures s[1..][i] != s[1..][j] {
          assert s[1..][i] == s[i + 1] && s[1..][j] == s[j + 1];
        }
      }
      DistinctOccursOnce(s[1..], x);
      if x == s[0] {
        assert x !in s[1..];
      }
    }
  }

  lemma RepeatOccursTwice(s: seq<Entry>, i: nat, j: nat)
    requires i < j < |s| && s[i] == s[j]
    ensures multiset(s)[s[i]] >= 2
  {
    assert s == s[..j] + s[j..];
    assert s[..j][i] == s[i];
    assert s[j..][0] == s[j];
  }

  /** Tuples taken from a queue without repeats have no repeats either. */
  lemma SubDistinct(s: seq<Entry>, pq: seq<Entry>)
    requires Distinct(pq) && multiset(s) <= multiset(pq)
    ensures Distinct(s)
  {
    forall i, j | 0 <= i < j < |s| ensures s[i] != s[j] {
      if s[i] == s[j] {
        RepeatOccursTwice(s, i, j);
        DistinctOccursOnce(pq, s[i]);
        assert false;
      }
    }
  }

  lemma {:induction false} DistinctElemsCard(s: seq<Entry>)
    requires Distinct(s)
    ensures |Elems(s)| == |s|
  {
    if |s| > 0 {
      assert Distinct(s[1..]) by {
        forall i, j | 0 <= i < j < |s| - 1 ensures s[1..][i] != s[1..][j] {
          assert s[1..][i] == s[i + 1] && s[1..][j] == s[j + 1];
        }
      }
      DistinctElemsCard(s[1..]);
      assert Elems(s) == {s[0]} + Elems(s[1..]);
      assert s[0] !in Elems(s[1..]);
    }
  }

  lemma SubsetCard(a: set<Entry>, b: set<Entry>)
    requires a <= b
    ensures |a| <= |b|
  {
    assert b == a + (b - a);
  }

  /** A queue tuple left out of a half drain is below none of its tuples. */
  lemma LeftOutNotBelow(s: seq<Entry>, pq: seq<Entry>, y: Entry, x: Entry)
    requires IsHalfDrain(s, pq) && y in pq && y !in s && x in s
    ensures !EntryLess(y, x)
  {
    var k :| 0 <= k < |pq| && pq[k] == y;
    var p :| 0 <= p < |s| && s[p] == x;
  }

  /** Two half drains of a queue without repeats take the same tuples. */
  lemma HalfDrainSameElems(s1: seq<Entry>, s2: seq<Entry>, pq: seq<Entry>)
    requires Distinct(pq) && IsHalfDrain(s1, pq) && IsHalfDrain(s2, pq)
    ensures Elems(s1) <= Elems(s2)
  {
    SubDistinct(s1, pq);
    SubDistinct(s2, pq);
    DistinctElemsCard(s1);
    DistinctElemsCard(s2);
    forall x | x in Elems(s1) ensures x in Elems(s2) {
      if x !in s2 {
        assert x in multiset(pq);
        // Every tuple of s2 is then a tuple of s1 other than x: one left out
        // of s1 would be below x, while x, left out of s2, is below none.
        forall y | y in Elems(s2) ensures y in Elems(s1) - {x} {
          assert y in multiset(pq);
          if y !in s1 {
            LeftOutNotBelow(s1, pq, y, x);
            LeftOutNotBelow(s2, pq, x, y);
            EntryLessTotal(x, y);
            assert false;
          }
        }
        SubsetCard(Elems(s2), Elems(s1) - {x});
        assert false;
      }
    }
  }

  /** Two sorted sequences without repeats that hold the same tuples are equal. */
  lemma {:induction false} SortedSameElemsEqual(s1: seq<Entry>, s2: seq<Entry>)
    requires Distinct(s1) && Distinct(s2) && Sorted(s1) && Sorted(s2)
    requires Elems(s1) == Elems(s2)
    ensures s1 == s2
    decreases |s1|
  {
    DistinctElemsCard(s1);
    DistinctElemsCard(s2);
    if |s1| > 0 {
      assert s1[0] in Elems(s2);
      assert s2[0] in Elems(s1);
      var k :| 0 <= k < |s2| && s2[k] == s1[0];
      var m :| 0 <= m < |s1| && s1[m] == s2[0];
      if s1[0] != s2[0] {
        EntryLessTotal(s1[0], s2[0]);
        assert false;
      }
      var t1, t2 := s1[1..], s2[1..];
      assert Distinct(t1) && Sorted(t1) by {
        forall i, j | 0 <= i < j < |t1| ensures t1[i] != t1[j] && !EntryLess(t1[j], t1[i]) {
          assert t1[i] == s1[i + 1] && t1[j] == s1[j + 1];
        }
      }
      assert Distinct(t2) && Sorted(t2) by {
        forall i, j | 0 <= i < j < |t2| ensures t2[i] != t2[j] && !EntryLess(t2[j], t2[i]) {
          assert t2[i] == s2[i + 1] && t2[j] == s2[j + 1];
        }
      }
      assert Elems(t1) == Elems(s1) - {s1[0]} by {
        assert s1 == [s1[0]] + t1;
        assert s1[0] !in t1;
      }
      assert Elems(t2) == Elems(s2) - {s2[0]} by {
        assert s2 == [s2[0]] + t2;
        assert s2[0] !in t2;
      }
      SortedSameElemsEqual(t1, t2);
      assert s1 == [s1[0]] + t1 && s2 == [s2[0]] + t2;
    }
  }

  /** A queue without repeats has exactly one half drain: whatever the heap
      layout, the pop loop yields the same schedule. */
  lemma HalfDrainUnique(s1: seq<Entry>, s2: seq<Entry>, pq: seq<Entry>)
    requires Distinct(pq) && IsHalfDrain(s1, pq) && IsHalfDrain(s2, pq)
    ensures s1 == s2
  {
    HalfDrainSameElems(s1, s2, pq);
    HalfDrainSameElems(s2, s1, pq);
    SubDistinct(s1, pq);
    SubDistinct(s2, pq);
    SortedSameElemsEqual(s1, s2);
  }

  /** Stage F's schedule is a function of the table, the bound and `pow`:
      two schedules drawn from the same rows' tuples are the same. */
  lemma RowScheduleUnique(t: Table, bound: real, pow: real -> real, s1: seq<Entry>, s2: seq<Entry>)
    requires IsHalfDrain(s1, RowEntries(t, bound, pow)) && IsHalfDrain(s2, RowEntries(t, bound, pow))
    ensures s1 == s2
  {
    RowEntriesDistinct(t, bound, pow);
    HalfDrainUnique(s1, s2, RowEntries(t, bound, pow));
  }
}
