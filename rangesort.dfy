/** `emote_ranges.sort(key=lambda x: x[0])`: Python's list sort is stable, so its result is the one
    arrangement ordered by start in which ranges with equal starts keep their order. The model sorts by
    insertion and proves that characterisation. */
module RangeSort {
  import opened Location

  predicate SortedByStart(s: seq<EmoteRange>) {
    forall i, j :: 0 <= i < j < |s| ==> s[i].start <= s[j].start
  }

  /** The ranges of `s` that start at `k`, in their order in `s`. */
  function WithStart(s: seq<EmoteRange>, k: nat): seq<EmoteRange> {
    if s == [] then [] else (if s[0].start == k then [s[0]] else []) + WithStart(s[1..], k)
  }

  /** Puts `x` before the first range that starts no earlier than it. */
  function InsertByStart(x: EmoteRange, s: seq<EmoteRange>): (r: seq<EmoteRange>)
    ensures multiset(r) == multiset(s) + multiset{x}
  {
    if s == [] || x.start <= s[0].start then [x] + s
    else
      assert s == [s[0]] + s[1..];
      [s[0]] + InsertByStart(x, s[1..])
  }

  lemma {:induction false} InsertSorted(x: EmoteRange, s: seq<EmoteRange>)
    requires SortedByStart(s)
    ensures SortedByStart(InsertByStart(x, s))
  {
    if s != [] && x.start > s[0].start {
      var t := InsertByStart(x, s[1..]);
      InsertSorted(x, s[1..]);
      forall i | 0 <= i < |t| ensures s[0].start <= t[i].start {
        assert t[i] in multiset(t);
        assert t[i] == x || t[i] in multiset(s[1..]);
      }
    }
  }

  function SortByStart(s: seq<EmoteRange>): (r: seq<EmoteRange>)
    ensures multiset(r) == multiset(s)
  {
    if s == [] then []
    else
      assert s == [s[0]] + s[1..];
      InsertByStart(s[0], SortByStart(s[1..]))
  }

  lemma {:induction false} SortSorted(s: seq<EmoteRange>)
    ensures SortedByStart(SortByStart(s))
  {
    if s != [] {
      SortSorted(s[1..]);
      InsertSorted(s[0], SortByStart(s[1..]));
    }
  }

  /** Inserting `x` puts it ahead of every range with its start. */
  lemma {:induction false} InsertWithStart(x: EmoteRange, s: seq<EmoteRange>, k: nat)
    ensures WithStart(InsertByStart(x, s), k) == (if x.start == k then [x] else []) + WithStart(s, k)
  {
    if s == [] || x.start <= s[0].start {
      assert ([x] + s)[1..] == s;
    } else {
      InsertWithStart(x, s[1..], k);
      var r := [s[0]] + InsertByStart(x, s[1..]);
      assert r[1..] == InsertByStart(x, s[1..]);
    }
  }

  /** Ranges with equal starts leave the sort in the order they came in. */
  lemma {:induction false} SortKeepsOrderOfEqualStarts(s: seq<EmoteRange>, k: nat)
    ensures WithStart(SortByStart(s), k) == WithStart(s, k)
  {
    if s != [] {
      SortKeepsOrderOfEqualStarts(s[1..], k);
      InsertWithStart(s[0], SortByStart(s[1..]), k);
    }
  }

  lemma {:induction false} WithStartNonEmpty(s: seq<EmoteRange>, k: nat)
    requires SortedByStart(s) && WithStart(s, k) != []
    ensures s != [] && s[0].start <= k
  {
    if s[0].start != k {
      WithStartNonEmpty(s[1..], k);
    }
  }

  lemma NoGroupsEmpty(s: seq<EmoteRange>)
    requires forall k :: WithStart(s, k) == []
    ensures s == []
  {
    assert WithStart(s, if s == [] then 0 else s[0].start) == [];
  }

  /** Two arrangements ordered by start that agree on the order of every group of equal starts are the
      same arrangement. */
  lemma {:induction false} SortedArrangementUnique(a: seq<EmoteRange>, b: seq<EmoteRange>)
    requires SortedByStart(a) && SortedByStart(b)
    requires forall k :: WithStart(a, k) == WithStart(b, k)
    ensures a == b
    decreases |a|
  {
    if a == [] {
      NoGroupsEmpty(b);
    } else {
      var m := a[0].start;
      assert WithStart(a, m) != [];
      WithStartNonEmpty(b, m);
      var m' := b[0].start;
      assert WithStart(b, m') != [];
      WithStartNonEmpty(a, m');
      assert m == m';
      assert a[0] == WithStart(a, m)[0] == WithStart(b, m)[0] == b[0];
      forall k ensures WithStart(a[1..], k) == WithStart(b[1..], k) {
        var head := if m == k then [a[0]] else [];
        assert WithStart(a, k) == head + WithStart(a[1..], k);
        assert WithStart(b, k) == head + WithStart(b[1..], k);
        assert (head + WithStart(a[1..], k))[|head|..] == WithStart(a[1..], k);
        assert (head + WithStart(b[1..], k))[|head|..] == WithStart(b[1..], k);
      }
      SortedArrangementUnique(a[1..], b[1..]);
      assert a == [a[0]] + a[1..] && b == [b[0]] + b[1..];
    }
  }

  /** So any stable sort by start, Python's included, gives exactly SortByStart. */
  lemma StableSortIsSortByStart(s: seq<EmoteRange>, r: seq<EmoteRange>)
    requires SortedByStart(r)
    requires forall k :: WithStart(r, k) == WithStart(s, k)
    ensures r == SortByStart(s)
  {
    forall k ensures WithStart(r, k) == WithStart(SortByStart(s), k) {
      SortKeepsOrderOfEqualStarts(s, k);
    }
    SortSorted(s);
    SortedArrangementUnique(r, SortByStart(s));
  }
}
