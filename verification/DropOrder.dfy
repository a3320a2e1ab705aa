/**
 Exactly which rows a "select the first n and forget them" drops: those with fewer than n
 matching rows ahead of them, where rows that the order does not tell apart stand as in the table.
 */
module DropOrder {
  import opened Prelude
  import opened WorkRows

  function NotBehind(p: Row -> bool, rank: Row -> Rank, x: Row): Row -> bool {
    r => p(r) && !Before(rank(x), rank(r))
  }

  function InFront(p: Row -> bool, rank: Row -> Rank, x: Row): Row -> bool {
    r => p(r) && Before(rank(r), rank(x))
  }

  /** The matching rows that are served before row `j`. */
  function Ahead(rows: seq<Row>, p: Row -> bool, rank: Row -> Rank, j: nat): nat
    requires j < |rows|
  {
    Count(rows[..j], NotBehind(p, rank, rows[j])) + Count(rows[j + 1..], InFront(p, rank, rows[j]))
  }

  /** The first row has nothing before it in the table that is as good. */
  lemma {:induction false} FirstBeatsEarlier(rows: seq<Row>, p: Row -> bool, rank: Row -> Rank, j: nat)
    requires First(rows, p, rank).Some? && j < First(rows, p, rank).value && p(rows[j])
    ensures Before(rank(rows[First(rows, p, rank).value]), rank(rows[j]))
  {
    var n := |rows| - 1;
    if First(rows, p, rank).value < n {
      FirstBeatsEarlier(rows[..n], p, rank, j);
    } else {
      FirstIsFirst(rows[..n], p, rank, j);
    }
  }

  lemma NothingAheadOfFirst(rows: seq<Row>, p: Row -> bool, rank: Row -> Rank)
    requires First(rows, p, rank).Some?
    ensures Ahead(rows, p, rank, First(rows, p, rank).value) == 0
  {
    var i := First(rows, p, rank).value;
    var early, late := rows[..i], rows[i + 1..];
    forall k | 0 <= k < |early|
      ensures !NotBehind(p, rank, rows[i])(early[k])
    {
      if p(rows[k]) {
        FirstBeatsEarlier(rows, p, rank, k);
      }
    }
    CountZero(early, NotBehind(p, rank, rows[i]));
    forall k | 0 <= k < |late|
      ensures !InFront(p, rank, rows[i])(late[k])
    {
      if p(rows[i + 1 + k]) {
        FirstIsFirst(rows, p, rank, i + 1 + k);
      }
    }
    CountZero(late, InFront(p, rank, rows[i]));
  }

  /** Where row `j` stands after row `i` is gone. */
  function Shifted(i: nat, j: nat): nat {
    if j > i then j - 1 else j
  }

  lemma RemovedBefore(rows: seq<Row>, i: nat, j: nat)
    requires i < j < |rows|
    ensures var left := RemoveAt(rows, i);
            left[j - 1] == rows[j] && left[..j - 1] == RemoveAt(rows[..j], i) && left[j..] == rows[j + 1..]
  {
  }

  lemma RemovedBehind(rows: seq<Row>, i: nat, j: nat)
    requires j < i < |rows|
    ensures var left := RemoveAt(rows, i);
            left[j] == rows[j] && left[..j] == rows[..j] && left[j + 1..] == RemoveAt(rows[j + 1..], i - j - 1)
  {
    var left, late := RemoveAt(rows, i), rows[j + 1..];
    assert left[j + 1..] == rows[j + 1..i] + rows[i + 1..];
    assert late[..i - j - 1] == rows[j + 1..i] && late[i - j..] == rows[i + 1..];
  }

  lemma AheadWithoutEarlier(rows: seq<Row>, p: Row -> bool, rank: Row -> Rank, i: nat, j: nat)
    requires i < j < |rows| && p(rows[i]) && !Before(rank(rows[j]), rank(rows[i]))
    ensures RemoveAt(rows, i)[j - 1] == rows[j]
    ensures Ahead(RemoveAt(rows, i), p, rank, j - 1) == Ahead(rows, p, rank, j) - 1
  {
    RemovedBefore(rows, i, j);
    CountRemoveAt(rows[..j], i, NotBehind(p, rank, rows[j]));
  }

  lemma AheadWithoutLater(rows: seq<Row>, p: Row -> bool, rank: Row -> Rank, i: nat, j: nat)
    requires j < i < |rows| && p(rows[i]) && Before(rank(rows[i]), rank(rows[j]))
    ensures RemoveAt(rows, i)[j] == rows[j]
    ensures Ahead(RemoveAt(rows, i), p, rank, j) == Ahead(rows, p, rank, j) - 1
  {
    RemovedBehind(rows, i, j);
    CountRemoveAt(rows[j + 1..], i - j - 1, InFront(p, rank, rows[j]));
  }

  /** Dropping the first row moves every other matching row up by one. */
  lemma AheadAfterFirst(rows: seq<Row>, p: Row -> bool, rank: Row -> Rank, j: nat)
    requires First(rows, p, rank).Some? && j < |rows| && j != First(rows, p, rank).value && p(rows[j])
    ensures var i := First(rows, p, rank).value;
            && Shifted(i, j) < |rows| - 1 && RemoveAt(rows, i)[Shifted(i, j)] == rows[j]
            && Ahead(RemoveAt(rows, i), p, rank, Shifted(i, j)) == Ahead(rows, p, rank, j) - 1
  {
    var i := First(rows, p, rank).value;
    FirstIsFirst(rows, p, rank, j);
    if i < j {
      AheadWithoutEarlier(rows, p, rank, i, j);
    } else {
      FirstBeatsEarlier(rows, p, rank, j);
      AheadWithoutLater(rows, p, rank, i, j);
    }
  }

  lemma KeyedWithout(rows: seq<Row>, i: nat)
    requires Keyed(rows) && i < |rows|
    ensures Keyed(RemoveAt(rows, i)) && rows[i] !in RemoveAt(rows, i)
  {
    var left := RemoveAt(rows, i);
    forall k | 0 <= k < |left|
      ensures left[k] == rows[if k < i then k else k + 1]
    {
    }
  }

  /** A matching row is dropped exactly when fewer than `n` matching rows are ahead of it. */
  lemma {:induction false} DroppedIffFewAhead(rows: seq<Row>, p: Row -> bool, rank: Row -> Rank, n: nat, j: nat)
    requires Keyed(rows) && j < |rows| && p(rows[j])
    ensures rows[j] in DropFirst(rows, p, rank, n) <==> Ahead(rows, p, rank, j) >= n
    decreases n
  {
    if n > 0 {
      FirstIsFirst(rows, p, rank, j);
      var i := First(rows, p, rank).value;
      KeyedWithout(rows, i);
      if j == i {
        NothingAheadOfFirst(rows, p, rank);
        DropFirstKeeps(RemoveAt(rows, i), p, rank, n - 1, rows[j]);
      } else {
        AheadAfterFirst(rows, p, rank, j);
        DroppedIffFewAhead(RemoveAt(rows, i), p, rank, n - 1, Shifted(i, j));
      }
    }
  }

  lemma {:induction false} KeyedKeep(rows: seq<Row>, p: Row -> bool)
    requires Keyed(rows)
    ensures Keyed(Keep(rows, p))
  {
    if rows != [] {
      var front, last := rows[..|rows| - 1], rows[|rows| - 1];
      KeyedKeep(front, p);
      var kept := Keep(front, p);
      forall i | 0 <= i < |kept|
        ensures kept[i].cid != last.cid
      {
        KeepMembers(front, p, kept[i]);
      }
    }
  }
}
