/** The feedback list of the admin panel (Frontend/src/pages/AdminFeedbacks.tsx):
    a case-insensitive text filter followed by a sort, newest first or by name. */
module AdminFeedbacks {
  import opened Common

  /** A feedback entry; `createdAt` is the timestamp `new Date(createdAt).getTime()` yields. */
  datatype Feedback = Feedback(id: string, name: string, email: string, message: string, createdAt: int)

  /** The two orders the select offers. */
  datatype SortBy = ByDate | ByName

  // ---------------------------------------------------------------------------
  // Filtering
  // ---------------------------------------------------------------------------

  /** `toLowerCase` on ASCII letters. */
  function LowerChar(c: char): char
  {
    if 'A' <= c <= 'Z' then (c as int + 32) as char else c
  }

  function Lower(s: string): (r: string)
    ensures |r| == |s|
  {
    seq(|s|, i requires 0 <= i < |s| => LowerChar(s[i]))
  }

  /** `part` occurs in `s` starting at position `i`. */
  predicate OccursAt(s: string, part: string, i: int)
  {
    0 <= i <= |s| - |part| && s[i..i + |part|] == part
  }

  /** `s.includes(part)`: `part` occurs in `s` as a contiguous piece. */
  predicate Includes(s: string, part: string)
  {
    exists i | 0 <= i <= |s| - |part| :: OccursAt(s, part, i)
  }

  /** The filter callback: the lowercased filter text occurs in the lowercased
      name, email or message. */
  predicate Matches(f: Feedback, filter: string)
  {
    var q := Lower(filter);
    Includes(Lower(f.name), q) || Includes(Lower(f.email), q) || Includes(Lower(f.message), q)
  }

  /** `feedbacks.filter(...)`: a fresh array with the matching entries, in their order. */
  function Filter(fs: seq<Feedback>, filter: string): (kept: seq<Feedback>)
    ensures forall f :: f in kept <==> f in fs && Matches(f, filter)
    ensures IsSubsequence(kept, fs)
    ensures multiset(kept) <= multiset(fs) && |kept| <= |fs|
    ensures forall f :: multiset(kept)[f] == if Matches(f, filter) then multiset(fs)[f] else 0
  {
    if fs == [] then []
    else
      assert fs == [fs[0]] + fs[1..];
      if Matches(fs[0], filter) then [fs[0]] + Filter(fs[1..], filter)
      else Filter(fs[1..], filter)
  }

  /** The empty filter occurs in every text, so it keeps every entry. */
  lemma {:induction false} EmptyFilterKeepsAll(fs: seq<Feedback>)
    ensures Filter(fs, "") == fs
  {
    if fs != [] {
      assert Lower("") == "";
      assert OccursAt(Lower(fs[0].name), Lower(""), 0);
      EmptyFilterKeepsAll(fs[1..]);
    }
  }

  /** Two filter texts that lowercase alike keep the same entries. */
  lemma {:induction false} FilterIgnoresCase(fs: seq<Feedback>, filter1: string, filter2: string)
    requires Lower(filter1) == Lower(filter2)
    ensures Filter(fs, filter1) == Filter(fs, filter2)
  {
    if fs != [] {
      FilterIgnoresCase(fs[1..], filter1, filter2);
    }
  }

  // ---------------------------------------------------------------------------
  // Sorting
  // ---------------------------------------------------------------------------

  /** `a.localeCompare(b)`, taken as lexicographic order on code points. */
  function LocaleCompare(a: string, b: string): (r: int)
    ensures -1 <= r <= 1
  {
    if a == [] && b == [] then 0
    else if a == [] then -1
    else if b == [] then 1
    else if a[0] < b[0] then -1
    else if a[0] > b[0] then 1
    else LocaleCompare(a[1..], b[1..])
  }

  /** Swapping the arguments flips the sign; only equal names compare equal. */
  lemma {:induction false} LocaleCompareAntisymmetric(a: string, b: string)
    ensures LocaleCompare(a, b) == -LocaleCompare(b, a)
    ensures LocaleCompare(a, b) == 0 <==> a == b
  {
    if a != [] && b != [] && a[0] == b[0] {
      LocaleCompareAntisymmetric(a[1..], b[1..]);
      if a[1..] == b[1..] {
        assert a == [a[0]] + a[1..] && b == [b[0]] + b[1..];
      }
    }
  }

  lemma {:induction false} LocaleCompareTransitive(a: string, b: string, c: string)
    requires LocaleCompare(a, b) <= 0 && LocaleCompare(b, c) <= 0
    ensures LocaleCompare(a, c) <= 0
  {
    if a != [] && b != [] && c != [] && a[0] == b[0] == c[0] {
      LocaleCompareTransitive(a[1..], b[1..], c[1..]);
    }
  }

  /** The sort callback: a result of at most zero lets `a` come before `b`. */
  function Compare(sortBy: SortBy, a: Feedback, b: Feedback): int
  {
    match sortBy
    case ByDate => b.createdAt - a.createdAt
    case ByName => LocaleCompare(a.name, b.name)
  }

  /** Either order is total: of two entries, one may come before the other. */
  lemma CompareTotal(sortBy: SortBy, a: Feedback, b: Feedback)
    ensures Compare(sortBy, a, b) <= 0 || Compare(sortBy, b, a) <= 0
  {
    if sortBy == ByName {
      LocaleCompareAntisymmetric(a.name, b.name);
    }
  }

  lemma CompareTransitive(sortBy: SortBy, a: Feedback, b: Feedback, c: Feedback)
    requires Compare(sortBy, a, b) <= 0 && Compare(sortBy, b, c) <= 0
    ensures Compare(sortBy, a, c) <= 0
  {
    if sortBy == ByName {
      LocaleCompareTransitive(a.name, b.name, c.name);
    }
  }

  /** Every entry may come before every later one. */
  predicate Sorted(sortBy: SortBy, s: seq<Feedback>)
  {
    forall i, j :: 0 <= i < j < |s| ==> Compare(sortBy, s[i], s[j]) <= 0
  }

  /** Puts `x` in front of the first entry it may precede. */
  function Insert(sortBy: SortBy, x: Feedback, s: seq<Feedback>): (r: seq<Feedback>)
    ensures multiset(r) == multiset(s) + multiset{x}
  {
    if s == [] then [x]
    else if Compare(sortBy, x, s[0]) <= 0 then [x] + s
    else
      assert s == [s[0]] + s[1..];
      [s[0]] + Insert(sortBy, x, s[1..])
  }

  /** Inserting into a sorted list keeps it sorted. */
  lemma {:induction false} InsertSorted(sortBy: SortBy, x: Feedback, s: seq<Feedback>)
    requires Sorted(sortBy, s)
    ensures Sorted(sortBy, Insert(sortBy, x, s))
  {
    if s == [] {
    } else if Compare(sortBy, x, s[0]) <= 0 {
      forall j | 0 < j < |s|
        ensures Compare(sortBy, x, s[j]) <= 0
      {
        CompareTransitive(sortBy, x, s[0], s[j]);
      }
    } else {
      var rest := Insert(sortBy, x, s[1..]);
      InsertSorted(sortBy, x, s[1..]);
      CompareTotal(sortBy, x, s[0]);
      forall j | 0 <= j < |rest|
        ensures Compare(sortBy, s[0], rest[j]) <= 0
      {
        var y := rest[j];
        assert y in multiset(rest);
        if y != x {
          assert y in multiset(s[1..]);
          var k :| 0 <= k < |s[1..]| && s[1..][k] == y;
          assert s[k + 1] == y;
        }
      }
      assert Insert(sortBy, x, s) == [s[0]] + rest;
    }
  }

  /** `.sort(comparator)` on the fresh filtered array, by insertion. */
  function Sort(sortBy: SortBy, fs: seq<Feedback>): (r: seq<Feedback>)
    ensures Sorted(sortBy, r)
    ensures multiset(r) == multiset(fs)
  {
    if fs == [] then []
    else
      assert fs == [fs[0]] + fs[1..];
      InsertSorted(sortBy, fs[0], Sort(sortBy, fs[1..]));
      Insert(sortBy, fs[0], Sort(sortBy, fs[1..]))
  }

  /** Two lists that are reorderings of each other have the same members. */
  lemma SameMembers(a: seq<Feedback>, b: seq<Feedback>)
    requires multiset(a) == multiset(b)
    ensures forall f :: f in a <==> f in b
  {
    assert forall f :: f in a <==> f in multiset(a);
    assert forall f :: f in b <==> f in multiset(b);
  }

  /** sortedFiltered: exactly the matching entries, each as often as in the
      state, none invented, newest first by date or in name order. The state
      itself is an input and is not reordered. */
  function SortedFiltered(feedbacks: seq<Feedback>, filter: string, sortBy: SortBy): (r: seq<Feedback>)
    ensures multiset(r) == multiset(Filter(feedbacks, filter))
    ensures multiset(r) <= multiset(feedbacks) && |r| <= |feedbacks|
    ensures forall f :: f in r <==> f in feedbacks && Matches(f, filter)
    ensures sortBy == ByDate ==> forall i, j :: 0 <= i < j < |r| ==> r[i].createdAt >= r[j].createdAt
    ensures sortBy == ByName ==> forall i, j :: 0 <= i < j < |r| ==> LocaleCompare(r[i].name, r[j].name) <= 0
  {
    var kept := Filter(feedbacks, filter);
    var r := Sort(sortBy, kept);
    SameMembers(r, kept);
    r
  }

  /** With an empty filter the list is a reordering of all feedbacks. */
  lemma EmptyFilterShowsAll(feedbacks: seq<Feedback>, sortBy: SortBy)
    ensures multiset(SortedFiltered(feedbacks, "", sortBy)) == multiset(feedbacks)
  {
    EmptyFilterKeepsAll(feedbacks);
  }

  /** Changing the case of the filter text does not change the list. */
  lemma FilterCaseInsensitive(feedbacks: seq<Feedback>, filter: string, sortBy: SortBy)
    ensures SortedFiltered(feedbacks, Lower(filter), sortBy) == SortedFiltered(feedbacks, filter, sortBy)
  {
    assert Lower(Lower(filter)) == Lower(filter);
    FilterIgnoresCase(feedbacks, Lower(filter), filter);
  }
}
