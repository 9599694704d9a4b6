/** `GetTopFive`: the leaderboard ordered by kill count, highest first, with
    ties left in the order the dictionary enumerates them, cut to five. */
module Ranking {

  /** A leaderboard entry: a player name and a kill count. */
  type Entry = (string, int)

  /** How many entries the ranking keeps. */
  const TopCount: nat := 5

  /** Counts never increase along the sequence. */
  ghost predicate NonIncreasing(s: seq<Entry>) {
    forall i, j :: 0 <= i < j < |s| ==> s[i].1 >= s[j].1
  }

  /** The entries with count `v`, in the order they occur. */
  function WithCount(s: seq<Entry>, v: int): seq<Entry> {
    if s == [] then []
    else (if s[0].1 == v then [s[0]] else []) + WithCount(s[1..], v)
  }

  /** Puts `e` in front of the first entry whose count is not above its own. */
  function InsertByCount(e: Entry, sorted: seq<Entry>): seq<Entry> {
    if sorted == [] || e.1 >= sorted[0].1 then [e] + sorted
    else [sorted[0]] + InsertByCount(e, sorted[1..])
  }

  /** `OrderByDescending(x => x.Value)`, a stable sort, as an insertion sort. */
  function SortByCountDescending(entries: seq<Entry>): (sorted: seq<Entry>)
    ensures NonIncreasing(sorted)
    ensures multiset(sorted) == multiset(entries)
  {
    if entries == [] then []
    else
      var rest := SortByCountDescending(entries[1..]);
      InsertByCountOrders(entries[0], rest);
      InsertByCountPermutes(entries[0], rest);
      assert multiset(entries) == multiset{entries[0]} + multiset(entries[1..]) by {
        assert entries == [entries[0]] + entries[1..];
      }
      InsertByCount(entries[0], rest)
  }

  lemma {:induction false} InsertByCountPermutes(e: Entry, sorted: seq<Entry>)
    ensures multiset(InsertByCount(e, sorted)) == multiset(sorted) + multiset{e}
  {
    if sorted != [] && e.1 < sorted[0].1 {
      InsertByCountPermutes(e, sorted[1..]);
      assert sorted == [sorted[0]] + sorted[1..];
    }
  }

  lemma {:induction false} InsertByCountOrders(e: Entry, sorted: seq<Entry>)
    requires NonIncreasing(sorted)
    ensures NonIncreasing(InsertByCount(e, sorted))
    ensures |InsertByCount(e, sorted)| == |sorted| + 1
    ensures InsertByCount(e, sorted)[0] == e || InsertByCount(e, sorted)[0] == sorted[0]
  {
    if sorted != [] && e.1 < sorted[0].1 {
      InsertByCountOrders(e, sorted[1..]);
    }
  }

  /** Insertion passes over every entry whose count differs from `e`'s, so
      among equal counts `e` lands first. */
  lemma {:induction false} InsertByCountKeepsTies(e: Entry, sorted: seq<Entry>, v: int)
    ensures WithCount(InsertByCount(e, sorted), v) == (if e.1 == v then [e] else []) + WithCount(sorted, v)
  {
    var inserted := InsertByCount(e, sorted);
    if sorted == [] || e.1 >= sorted[0].1 {
      assert inserted[0] == e && inserted[1..] == sorted;
    } else {
      InsertByCountKeepsTies(e, sorted[1..], v);
      assert inserted[0] == sorted[0] && inserted[1..] == InsertByCount(e, sorted[1..]);
      assert WithCount(sorted, v) == (if sorted[0].1 == v then [sorted[0]] else []) + WithCount(sorted[1..], v);
    }
  }

  /** The sort is stable: entries with the same count keep their input order. */
  lemma {:induction false} SortByCountDescendingIsStable(entries: seq<Entry>, v: int)
    ensures WithCount(SortByCountDescending(entries), v) == WithCount(entries, v)
  {
    if entries != [] {
      SortByCountDescendingIsStable(entries[1..], v);
      InsertByCountKeepsTies(entries[0], SortByCountDescending(entries[1..]), v);
    }
  }

  /** Filtering a prefix gives a prefix of the filtered whole. */
  lemma {:induction false} WithCountOfPrefix(s: seq<Entry>, k: nat, v: int)
    requires k <= |s|
    ensures WithCount(s[..k], v) <= WithCount(s, v)
  {
    if k > 0 {
      WithCountOfPrefix(s[1..], k - 1, v);
      assert s[..k][1..] == s[1..][..k - 1];
    }
  }

  /** `GetTopFive`: at most five entries of the leaderboard, highest count
      first, whose counts are at least those of every entry left out; a
      highest-count entry is always among them, and entries with equal counts
      appear in leaderboard order. The leaderboard is a value and is not
      changed. */
  function GetTopFive(leaderboard: seq<Entry>): (top: seq<Entry>)
    ensures |top| == if |leaderboard| < TopCount then |leaderboard| else TopCount
    ensures NonIncreasing(top)
    ensures multiset(top) <= multiset(leaderboard)
    ensures |leaderboard| > 0 ==> forall e :: e in leaderboard ==> e.1 <= top[0].1
    ensures |top| > 0 ==> forall e :: e in multiset(leaderboard) - multiset(top) ==> e.1 <= top[|top| - 1].1
    ensures forall v :: WithCount(top, v) <= WithCount(leaderboard, v)
  {
    var sorted := SortByCountDescending(leaderboard);
    var k := if |leaderboard| < TopCount then |leaderboard| else TopCount;
    SortedPrefixIsTop(leaderboard, k);
    sorted[..k]
  }

  /** `order` lists every name of the dictionary exactly once: the order in
      which the dictionary enumerates its entries. */
  ghost predicate EnumerationOrder(board: map<string, int>, order: seq<string>) {
    && (forall i :: 0 <= i < |order| ==> order[i] in board)
    && (forall n :: n in board ==> n in order)
    && (forall i, j :: 0 <= i < j < |order| ==> order[i] != order[j])
  }

  /** The leaderboard dictionary's entries in the order it enumerates them:
      entry i is the i-th name with its count, and when the order names each
      key exactly once the entries are exactly the dictionary's name-count
      pairs, as many as it has keys. */
  function Enumerate(board: map<string, int>, order: seq<string>): (entries: seq<Entry>)
    requires forall i :: 0 <= i < |order| ==> order[i] in board
    ensures |entries| == |order|
    ensures forall i :: 0 <= i < |order| ==> entries[i] == (order[i], board[order[i]])
    ensures EnumerationOrder(board, order) ==> |entries| == |board|
    ensures forall e :: e in entries ==> e.0 in board && board[e.0] == e.1
    ensures EnumerationOrder(board, order) ==> forall n :: n in board ==> (n, board[n]) in entries
  {
    var entries := seq(|order|, i requires 0 <= i < |order| => (order[i], board[order[i]]));
    assert EnumerationOrder(board, order) ==> |order| == |board| && forall n :: n in board ==> (n, board[n]) in entries by {
      if EnumerationOrder(board, order) {
        EnumerationLength(board, order);
        forall n | n in board ensures (n, board[n]) in entries {
          var i :| 0 <= i < |order| && order[i] == n;
          assert entries[i] == (n, board[n]);
        }
      }
    }
    entries
  }

  /** An enumeration order is as long as the dictionary. */
  lemma {:induction false} EnumerationLength(board: map<string, int>, order: seq<string>)
    requires EnumerationOrder(board, order)
    ensures |order| == |board|
    decreases |order|
  {
    if order == [] {
      assert board.Keys == {};
    } else {
      var last := order[|order| - 1];
      var init := order[..|order| - 1];
      var rest := board - {last};
      forall n | n in rest ensures n in init {
        var j :| 0 <= j < |order| && order[j] == n;
        assert init[j] == n;
      }
      forall i | 0 <= i < |init| ensures init[i] in rest {
        assert init[i] == order[i] != last;
      }
      EnumerationLength(rest, init);
      assert rest.Keys == board.Keys - {last};
    }
  }

  /** The top five of a leaderboard dictionary, enumerated in some order:
      min(5, n) entries, each a name of the dictionary with its count; no
      name counts more than the first entry, and no name left out counts
      more than the last one kept. */
  lemma TopFiveOfLeaderboard(board: map<string, int>, order: seq<string>)
    requires EnumerationOrder(board, order)
    ensures var top := GetTopFive(Enumerate(board, order));
            && |top| == (if |board| < TopCount then |board| else TopCount)
            && (forall e :: e in top ==> e.0 in board && board[e.0] == e.1)
            && (|board| > 0 ==> forall n :: n in board ==> board[n] <= top[0].1)
            && (|top| > 0 ==> forall n :: n in board && (n, board[n]) !in top ==> board[n] <= top[|top| - 1].1)
  {
    var entries := Enumerate(board, order);
    var top := GetTopFive(entries);
    TopFiveFromEntries(entries, top);
    if |top| > 0 {
      forall n | n in board && (n, board[n]) !in top ensures board[n] <= top[|top| - 1].1 {
        LeftOutEntry(entries, top, (n, board[n]));
      }
    }
  }

  /** Entries of the top five are entries of the leaderboard. */
  lemma TopFiveFromEntries(entries: seq<Entry>, top: seq<Entry>)
    requires top == GetTopFive(entries)
    ensures forall e :: e in top ==> e in entries
  {
    forall e | e in top ensures e in entries {
      assert e in multiset(top);
    }
  }

  /** A leaderboard entry that the top five does not hold counts no more
      than the last one it keeps. */
  lemma LeftOutEntry(entries: seq<Entry>, top: seq<Entry>, e: Entry)
    requires top == GetTopFive(entries) && |top| > 0
    requires e in entries && e !in top
    ensures e.1 <= top[|top| - 1].1
  {
    assert e in multiset(entries) - multiset(top);
  }

  /** The first `k` entries of the sorted leaderboard are its top `k`. */
  lemma SortedPrefixIsTop(leaderboard: seq<Entry>, k: nat)
    requires k <= |leaderboard|
    ensures var sorted := SortByCountDescending(leaderboard);
            && |sorted| == |leaderboard|
            && NonIncreasing(sorted[..k])
            && multiset(sorted[..k]) <= multiset(leaderboard)
            && (|leaderboard| > 0 ==> forall e :: e in leaderboard ==> e.1 <= sorted[0].1)
            && (k > 0 ==> forall e :: e in multiset(leaderboard) - multiset(sorted[..k]) ==> e.1 <= sorted[k - 1].1)
            && (forall v :: WithCount(sorted[..k], v) <= WithCount(leaderboard, v))
  {
    var sorted := SortByCountDescending(leaderboard);
    SortedHasMaxFirst(sorted, leaderboard);
    SortedPrefixBoundsRest(sorted, leaderboard, k);
    forall v ensures WithCount(sorted[..k], v) <= WithCount(leaderboard, v) {
      WithCountOfPrefix(sorted, k, v);
      SortByCountDescendingIsStable(leaderboard, v);
    }
  }

  /** A sorted arrangement of some entries starts with one of highest count. */
  lemma SortedHasMaxFirst(sorted: seq<Entry>, entries: seq<Entry>)
    requires NonIncreasing(sorted) && multiset(sorted) == multiset(entries)
    ensures |sorted| == |entries|
    ensures |entries| > 0 ==> forall e :: e in entries ==> e.1 <= sorted[0].1
  {
    assert |sorted| == |multiset(sorted)|;
    if |entries| > 0 {
      assert sorted[0..] == sorted;
      CountsAtMost(sorted, 0);
      forall e | e in entries ensures e.1 <= sorted[0].1 {
        assert e in multiset(entries);
      }
    }
  }

  /** In a sorted arrangement of some entries, the first `k` form a
      sub-multiset whose last one counts at least every entry left out. */
  lemma SortedPrefixBoundsRest(sorted: seq<Entry>, entries: seq<Entry>, k: nat)
    requires NonIncreasing(sorted) && multiset(sorted) == multiset(entries) && k <= |sorted|
    ensures multiset(sorted[..k]) <= multiset(entries)
    ensures k > 0 ==> forall e :: e in multiset(entries) - multiset(sorted[..k]) ==> e.1 <= sorted[k - 1].1
  {
    SplitMultiset(sorted, k);
    if k > 0 {
      assert multiset(sorted[k - 1..]) == multiset{sorted[k - 1]} + multiset(sorted[k..]) by {
        assert sorted[k - 1..] == [sorted[k - 1]] + sorted[k..];
      }
      CountsAtMost(sorted, k - 1);
    }
  }

  /** No entry of a sorted sequence counts more than the one at `i`, from `i` on. */
  lemma CountsAtMost(sorted: seq<Entry>, i: nat)
    requires NonIncreasing(sorted) && i < |sorted|
    ensures forall e :: e in multiset(sorted[i..]) ==> e.1 <= sorted[i].1
  {
    forall e | e in multiset(sorted[i..]) ensures e.1 <= sorted[i].1 {
      var j :| 0 <= j < |sorted[i..]| && sorted[i..][j] == e;
      assert sorted[i + j] == e;
    }
  }

  /** A sequence's entries are those of a prefix plus those after it. */
  lemma SplitMultiset(s: seq<Entry>, k: nat)
    requires k <= |s|
    ensures multiset(s) == multiset(s[..k]) + multiset(s[k..])
  {
    assert s == s[..k] + s[k..];
  }
}
