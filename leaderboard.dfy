/** The local leaderboard: scores are kept in browser storage under one
    key, ranked by round and then by ball count, and capped at ten. */
module Ranking {

  /** Only the best ten scores are kept. */
  const MaxScores: nat := 10

  /** A submitted score. */
  datatype Score = Score(name: string, round: int, ballCount: int)

  /** A stored score: the submitted fields plus an id and a date. */
  datatype Entry = Entry(name: string, round: int, ballCount: int, id: string, date: string)

  /** What the storage key holds: nothing (or an empty string), text that
      does not parse, or a saved list of entries. */
  datatype Stored = Absent | Unparsable | Saved(entries: seq<Entry>)

  function NewEntry(s: Score, id: string, date: string): Entry {
    Entry(s.name, s.round, s.ballCount, id, date)
  }

  /** The sort comparator: negative when `a` goes first. */
  function Compare(a: Entry, b: Entry): int {
    if b.round != a.round then b.round - a.round else b.ballCount - a.ballCount
  }

  /** `a` ranks strictly ahead of `b`. */
  predicate Ahead(a: Entry, b: Entry) {
    Compare(a, b) < 0
  }

  /** Same round and same ball count: the comparator calls them equal. */
  predicate SameRank(a: Entry, b: Entry) {
    a.round == b.round && a.ballCount == b.ballCount
  }

  /** The comparator orders by round, higher first, and then by ball
      count, higher first; two entries it does not order are tied. */
  lemma AheadMeaning(a: Entry, b: Entry)
    ensures Ahead(a, b) <==> a.round > b.round || (a.round == b.round && a.ballCount > b.ballCount)
    ensures !Ahead(a, b) && !Ahead(b, a) <==> SameRank(a, b)
  {
  }

  /** No entry is ranked below a later one. */
  predicate Sorted(s: seq<Entry>) {
    forall i, j :: 0 <= i < j < |s| ==> !Ahead(s[j], s[i])
  }

  /** The entries of `s` tied with `k`, in their order in `s`. */
  function Ties(s: seq<Entry>, k: Entry): seq<Entry> {
    if |s| == 0 then []
    else Ties(s[..|s| - 1], k) + (if SameRank(s[|s| - 1], k) then [s[|s| - 1]] else [])
  }

  /** How many entries of `s` rank strictly below `x`. */
  function Outranked(s: seq<Entry>, x: Entry): (n: nat)
    ensures n <= |s|
  {
    if |s| == 0 then 0
    else Outranked(s[..|s| - 1], x) + (if Ahead(x, s[|s| - 1]) then 1 else 0)
  }

  /** Inserts `x` into the ranked `t` behind every entry it does not
      outrank, so that it goes behind the entries it ties with. */
  function Insert(t: seq<Entry>, x: Entry): (r: seq<Entry>)
    ensures |r| == |t| + 1
  {
    if |t| == 0 then [x]
    else if Ahead(x, t[|t| - 1]) then Insert(t[..|t| - 1], x) + [t[|t| - 1]]
    else t + [x]
  }

  /** The stable sort by the comparator, as an insertion sort. */
  function SortByRank(s: seq<Entry>): (r: seq<Entry>)
    ensures |r| == |s|
  {
    if |s| == 0 then [] else Insert(SortByRank(s[..|s| - 1]), s[|s| - 1])
  }

  function Min(a: nat, b: nat): nat { if a <= b then a else b }

  lemma {:induction false} TiesAppend(a: seq<Entry>, b: seq<Entry>, k: Entry)
    ensures Ties(a + b, k) == Ties(a, k) + Ties(b, k)
    decreases |b|
  {
    if |b| == 0 {
      assert a + b == a;
    } else {
      assert (a + b)[..|a + b| - 1] == a + b[..|b| - 1];
      TiesAppend(a, b[..|b| - 1], k);
    }
  }

  lemma {:induction false} TiesMember(s: seq<Entry>, k: Entry, y: Entry)
    ensures y in Ties(s, k) <==> y in s && SameRank(y, k)
    decreases |s|
  {
    if |s| > 0 {
      TiesMember(s[..|s| - 1], k, y);
      assert y in s <==> y in s[..|s| - 1] || y == s[|s| - 1];
    }
  }

  /** The last entry of a ranked list is not ahead of any entry in it. */
  lemma LastNotAhead(a: seq<Entry>, y: Entry)
    requires Sorted(a) && y in a
    ensures !Ahead(a[|a| - 1], y)
  {
    var i :| 0 <= i < |a| && a[i] == y;
    assert i == |a| - 1 || !Ahead(a[|a| - 1], a[i]);
  }

  lemma {:induction false} NoneOutranked(s: seq<Entry>, x: Entry)
    requires forall i :: 0 <= i < |s| ==> !Ahead(x, s[i])
    ensures Outranked(s, x) == 0
    decreases |s|
  {
    if |s| > 0 {
      NoneOutranked(s[..|s| - 1], x);
    }
  }

  /** Inserting into a ranked list splits it at one place: in front of
      `x` every entry it does not outrank (its ties included), behind it
      every entry it outranks. */
  lemma {:induction false} InsertPlace(t: seq<Entry>, x: Entry)
    requires Sorted(t)
    ensures Outranked(t, x) <= |t|
    ensures var p := |t| - Outranked(t, x);
            Insert(t, x) == t[..p] + [x] + t[p..] &&
            (forall i :: 0 <= i < p ==> !Ahead(x, t[i])) &&
            (forall j :: p <= j < |t| ==> Ahead(x, t[j]))
    decreases |t|
  {
    if |t| == 0 {
    } else {
      var n := |t|;
      var init := t[..n - 1];
      var last := t[n - 1];
      if Ahead(x, last) {
        InsertPlace(init, x);
        var p := n - Outranked(t, x);
        assert p == |init| - Outranked(init, x);
        assert init[..p] == t[..p];
        assert init[p..] + [last] == t[p..];
      } else {
        BehindAll(t, x);
        assert t[..n] == t;
      }
    }
  }

  /** An entry that does not outrank the last of a ranked list outranks
      none of it. */
  lemma BehindAll(t: seq<Entry>, x: Entry)
    requires Sorted(t) && |t| > 0 && !Ahead(x, t[|t| - 1])
    ensures forall i :: 0 <= i < |t| ==> !Ahead(x, t[i])
    ensures Outranked(t, x) == 0
  {
    forall i | 0 <= i < |t|
      ensures !Ahead(x, t[i])
    {
      assert i == |t| - 1 || !Ahead(t[|t| - 1], t[i]);
    }
    NoneOutranked(t, x);
  }

  lemma InsertSorted(t: seq<Entry>, x: Entry)
    requires Sorted(t)
    ensures Sorted(Insert(t, x))
  {
    InsertPlace(t, x);
    var p := |t| - Outranked(t, x);
    var r := Insert(t, x);
    forall i, j | 0 <= i < j < |r|
      ensures !Ahead(r[j], r[i])
    {
      assert r[i] == (if i < p then t[i] else if i == p then x else t[i - 1]);
      assert r[j] == (if j < p then t[j] else if j == p then x else t[j - 1]);
    }
  }

  lemma {:induction false} InsertPermutes(t: seq<Entry>, x: Entry)
    ensures multiset(Insert(t, x)) == multiset(t) + multiset{x}
    decreases |t|
  {
    if |t| > 0 && Ahead(x, t[|t| - 1]) {
      InsertPermutes(t[..|t| - 1], x);
      assert t == t[..|t| - 1] + [t[|t| - 1]];
    }
  }

  lemma {:induction false} InsertTies(t: seq<Entry>, x: Entry, k: Entry)
    ensures Ties(Insert(t, x), k) == Ties(t, k) + (if SameRank(x, k) then [x] else [])
    decreases |t|
  {
    if |t| == 0 {
      assert Ties([x], k) == Ties([], k) + (if SameRank(x, k) then [x] else []) by {
        assert [x][..0] == [];
      }
    } else {
      var init, last := t[..|t| - 1], t[|t| - 1];
      if Ahead(x, last) {
        InsertTies(init, x, k);
        TiesAppend(Insert(init, x), [last], k);
        assert [last][..0] == [];
        assert SameRank(x, k) ==> !SameRank(last, k);
      } else {
        TiesAppend(t, [x], k);
        assert [x][..0] == [];
      }
    }
  }

  lemma {:induction false} InsertOutranked(t: seq<Entry>, y: Entry, x: Entry)
    ensures Outranked(Insert(t, y), x) == Outranked(t, x) + (if Ahead(x, y) then 1 else 0)
    decreases |t|
  {
    if |t| == 0 {
      assert [y][..0] == [];
    } else if Ahead(y, t[|t| - 1]) {
      InsertOutranked(t[..|t| - 1], y, x);
      assert (Insert(t[..|t| - 1], y) + [t[|t| - 1]])[..|Insert(t[..|t| - 1], y)|] == Insert(t[..|t| - 1], y);
    } else {
      assert (t + [y])[..|t|] == t;
    }
  }

  /** The sort's result is ranked. */
  lemma {:induction false} SortSorted(s: seq<Entry>)
    ensures Sorted(SortByRank(s))
    decreases |s|
  {
    if |s| > 0 {
      SortSorted(s[..|s| - 1]);
      InsertSorted(SortByRank(s[..|s| - 1]), s[|s| - 1]);
    }
  }

  /** The sort neither loses nor adds entries. */
  lemma {:induction false} SortPermutes(s: seq<Entry>)
    ensures multiset(SortByRank(s)) == multiset(s)
    decreases |s|
  {
    if |s| > 0 {
      SortPermutes(s[..|s| - 1]);
      InsertPermutes(SortByRank(s[..|s| - 1]), s[|s| - 1]);
      assert s == s[..|s| - 1] + [s[|s| - 1]];
    }
  }

  /** The sort is stable: tied entries keep their relative order. */
  lemma {:induction false} SortStable(s: seq<Entry>, k: Entry)
    ensures Ties(SortByRank(s), k) == Ties(s, k)
    decreases |s|
  {
    if |s| > 0 {
      SortStable(s[..|s| - 1], k);
      InsertTies(SortByRank(s[..|s| - 1]), s[|s| - 1], k);
    }
  }

  lemma {:induction false} SortOutranked(s: seq<Entry>, x: Entry)
    ensures Outranked(SortByRank(s), x) == Outranked(s, x)
    decreases |s|
  {
    if |s| > 0 {
      SortOutranked(s[..|s| - 1], x);
      InsertOutranked(SortByRank(s[..|s| - 1]), s[|s| - 1], x);
    }
  }

  /** Two ranked lists with the same ties end in the same entry. */
  lemma SameLast(a: seq<Entry>, b: seq<Entry>)
    requires Sorted(a) && Sorted(b) && |a| > 0 && |b| > 0
    requires Ties(a, a[|a| - 1]) == Ties(b, a[|a| - 1])
    requires Ties(a, b[|b| - 1]) == Ties(b, b[|b| - 1])
    ensures a[|a| - 1] == b[|b| - 1]
  {
    var x, y := a[|a| - 1], b[|b| - 1];
    InOther(b, a, y);
    LastNotAhead(a, y);
    InOther(a, b, x);
    LastNotAhead(b, x);
    AheadMeaning(x, y);
    assert SameRank(y, x);
    var ta, tb := Ties(a[..|a| - 1], x), Ties(b[..|b| - 1], x);
    assert Ties(a, x) == ta + [x];
    assert Ties(b, x) == tb + [y];
    assert (ta + [x])[|ta|] == x;
    assert (tb + [y])[|tb|] == y;
  }

  /** The last entry of `b` is in `a` when the two share its ties. */
  lemma InOther(b: seq<Entry>, a: seq<Entry>, y: Entry)
    requires |b| > 0 && y == b[|b| - 1] && Ties(a, y) == Ties(b, y)
    ensures y in a
  {
    TiesMember(b, y, y);
    TiesMember(a, y, y);
  }

  /** Two ranked lists with the same tied entries in the same order are
      equal: there is only one stable sort of a list. */
  lemma {:induction false} StableSortUnique(a: seq<Entry>, b: seq<Entry>)
    requires Sorted(a) && Sorted(b)
    requires forall k :: Ties(a, k) == Ties(b, k)
    ensures a == b
    decreases |a| + |b|
  {
    if |a| == 0 && |b| == 0 {
      return;
    }
    if |a| == 0 || |b| == 0 {
      var c := if |a| == 0 then b else a;
      var y := c[|c| - 1];
      TiesMember(c, y, y);
      assert false;
    }
    assert Ties(a, a[|a| - 1]) == Ties(b, a[|a| - 1]);
    assert Ties(a, b[|b| - 1]) == Ties(b, b[|b| - 1]);
    SameLast(a, b);
    var x := a[|a| - 1];
    var a', b' := a[..|a| - 1], b[..|b| - 1];
    forall k | true
      ensures Ties(a', k) == Ties(b', k)
    {
      var tail := if SameRank(x, k) then [x] else [];
      assert Ties(a, k) == Ties(a', k) + tail;
      assert Ties(b, k) == Ties(b', k) + tail;
      assert Ties(a', k) == Ties(a, k)[..|Ties(a, k)| - |tail|];
      assert Ties(b', k) == Ties(b, k)[..|Ties(b, k)| - |tail|];
    }
    StableSortUnique(a', b');
    assert a == a' + [x];
    assert b == b' + [x];
  }

  /** Any ranked rearrangement that keeps tied entries in their order is
      the insertion sort's result: `SortByRank` is the stable sort. */
  lemma IsTheStableSort(s: seq<Entry>, r: seq<Entry>)
    requires Sorted(r) && forall k :: Ties(r, k) == Ties(s, k)
    ensures r == SortByRank(s)
  {
    SortSorted(s);
    forall k | true
      ensures Ties(r, k) == Ties(SortByRank(s), k)
    {
      SortStable(s, k);
    }
    StableSortUnique(r, SortByRank(s));
  }

  /** The list `addScore` keeps: the first ten of the old scores with the
      new entry appended, stably sorted. */
  function TopScores(scores: seq<Entry>, e: Entry): (top: seq<Entry>)
    ensures |top| == Min(MaxScores, |scores| + 1) && |top| <= MaxScores
    ensures Sorted(top)
    ensures multiset(top) <= multiset(scores + [e])
  {
    var all := SortByRank(scores + [e]);
    SortSorted(scores + [e]);
    SortPermutes(scores + [e]);
    var top := all[..Min(MaxScores, |all|)];
    assert all == top + all[|top|..];
    top
  }

  /** Where the new entry lands: behind every old entry it does not
      outrank, ties included, and ahead of every one it outranks. The
      rest of the ranking is the old one. */
  lemma NewEntryPlace(scores: seq<Entry>, e: Entry)
    ensures Outranked(scores, e) <= |scores|
    ensures var ranked := SortByRank(scores);
            var p := |scores| - Outranked(scores, e);
            SortByRank(scores + [e]) == ranked[..p] + [e] + ranked[p..] &&
            (forall i :: 0 <= i < p ==> !Ahead(e, ranked[i])) &&
            (forall j :: p <= j < |ranked| ==> Ahead(e, ranked[j]))
  {
    var s := scores + [e];
    assert s[..|s| - 1] == scores;
    SortSorted(scores);
    SortOutranked(scores, e);
    InsertPlace(SortByRank(scores), e);
  }

  /** A new entry that ranks within the first ten is kept, with every
      submitted field, its id and its date; one that does not leaves the
      old first ten unchanged. */
  lemma NewEntryKept(scores: seq<Entry>, s: Score, id: string, date: string)
    ensures var e := NewEntry(s, id, date);
            var p := |scores| - Outranked(scores, e);
            var top := TopScores(scores, e);
            (p < MaxScores ==>
               p < |top| && top[p].name == s.name && top[p].round == s.round &&
               top[p].ballCount == s.ballCount && top[p].id == id && top[p].date == date) &&
            (p >= MaxScores ==> top == SortByRank(scores)[..MaxScores])
  {
    var e := NewEntry(s, id, date);
    NewEntryPlace(scores, e);
  }

  /** The entry read back from a stored value: a saved list as it was
      saved; nothing stored, or unparsable text, as an empty list. */
  function Load(st: Stored): (scores: seq<Entry>)
    ensures st.Saved? ==> scores == st.entries
    ensures !st.Saved? ==> scores == []
  {
    if st.Saved? then st.entries else []
  }

  /** The storage behind the leaderboard, as one field holding the value
      under the leaderboard's key. */
  class Leaderboard {
    var stored: Stored

    constructor(initial: Stored)
      ensures stored == initial
    {
      stored := initial;
    }

    /** `getScores`. */
    function GetScores(): seq<Entry>
      reads this
    {
      Load(stored)
    }

    /** `addScore`: the new entry is appended, the list is stably sorted
        and cut to the first ten, saved and returned. When the write
        fails, storage is left as it was and what it holds is returned.
        Either way the result is what a later `getScores` reads. */
    method AddScore(s: Score, id: string, date: string, writeFails: bool) returns (top: seq<Entry>)
      modifies this
      ensures writeFails ==> top == old(GetScores()) && stored == old(stored)
      ensures !writeFails ==>
                top == TopScores(old(GetScores()), NewEntry(s, id, date)) && stored == Saved(top)
      ensures GetScores() == top
    {
      var scores := GetScores();
      var entry := NewEntry(s, id, date);
      scores := scores + [entry];
      scores := SortByRank(scores);
      var topScores := scores[..Min(MaxScores, |scores|)];
      if writeFails {
        top := GetScores();
        return;
      }
      stored := Saved(topScores);
      top := topScores;
    }
  }

  /** A score tied with a saved one goes behind it. */
  lemma TieGoesBehind()
    ensures var a := Entry("ann", 5, 3, "1-ann", "d1");
            var b := Entry("bob", 3, 2, "2-bob", "d2");
            var c := Entry("cat", 5, 3, "3-cat", "d3");
            TopScores([a, b], c) == [a, c, b]
  {
    var a := Entry("ann", 5, 3, "1-ann", "d1");
    var b := Entry("bob", 3, 2, "2-bob", "d2");
    var c := Entry("cat", 5, 3, "3-cat", "d3");
    assert [a, b, c][..2] == [a, b];
    assert [a, b][..1] == [a];
    assert [a][..0] == [];
    assert SortByRank([a]) == [a];
    assert SortByRank([a, b]) == Insert([a], b) == [a, b];
    assert Insert([a], c) == [a, c];
    assert SortByRank([a, b, c]) == Insert([a, b], c) == [a, c, b];
  }

  /** An eleventh score that ranks last is dropped. */
  lemma LastOfElevenDropped(scores: seq<Entry>, e: Entry)
    requires |scores| == MaxScores
    requires forall i :: 0 <= i < |scores| ==> Ahead(scores[i], e)
    ensures TopScores(scores, e) == SortByRank(scores)
  {
    forall i | 0 <= i < |scores|
      ensures !Ahead(e, scores[i])
    {
      AheadMeaning(scores[i], e);
    }
    NoneOutranked(scores, e);
    NewEntryKept(scores, Score(e.name, e.round, e.ballCount), e.id, e.date);
    assert NewEntry(Score(e.name, e.round, e.ballCount), e.id, e.date) == e;
  }
}
