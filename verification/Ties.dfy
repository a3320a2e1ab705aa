/**
 docs/PROTOCOL.md shows "the unique winner" of a vote; observer/labels.py shows the first-seen
 key of maximal votes.  The two agree exactly when one key leads, and exactly then the order of
 the ballots does not matter.
 */
module Ties {
  import opened Prelude
  import opened Labels

  function Leading(poll: Poll): nat {
    Top(poll.order, poll.votes)
  }

  /** No two keys share the most votes: something the tallies show. */
  predicate OneLeader(poll: Poll) {
    forall i, j :: 0 <= i < j < |poll.order| && poll.order[i] in poll.votes && poll.order[j] in poll.votes ==>
      !(poll.votes[poll.order[i]] == Leading(poll) && poll.votes[poll.order[j]] == Leading(poll))
  }

  /** Strictly more votes than any other key. */
  ghost predicate Ahead(poll: Poll, k: string) {
    k in poll.votes && forall x :: x in poll.votes && x != k ==> poll.votes[x] < poll.votes[k]
  }

  /** The documented unique winner: the key shown is strictly ahead. */
  ghost predicate UniqueWinner(poll: Poll) {
    WinningKey(poll).Some? && Ahead(poll, WinningKey(poll).value)
  }

  /** The winner of a poll leads, and nobody seen earlier does. */
  lemma WinnerLeads(poll: Poll)
    requires Keyed(poll) && poll.order != []
    ensures WinningKey(poll).Some? && WinningKey(poll).value in poll.votes
    ensures poll.votes[WinningKey(poll).value] == Leading(poll)
    ensures poll.order[0] in poll.votes && poll.votes[poll.order[0]] == Leading(poll) ==>
              WinningKey(poll) == Some(poll.order[0])
    ensures forall x :: x in poll.votes ==> poll.votes[x] <= Leading(poll)
  {
    FirstWithFacts(poll.order, poll.votes, Leading(poll));
    assert poll.order[0] in poll.votes;
    forall x | x in poll.votes
      ensures poll.votes[x] <= Leading(poll)
    {
      assert x in poll.order;
    }
  }

  /** The winner is strictly ahead exactly when one key leads. */
  lemma AheadIffOneLeader(poll: Poll)
    requires Keyed(poll) && poll.order != []
    ensures UniqueWinner(poll) <==> OneLeader(poll)
  {
    WinnerLeads(poll);
    var k := WinningKey(poll).value;
    var n :| 0 <= n < |poll.order| && poll.order[n] == k;
    if OneLeader(poll) {
      forall x | x in poll.votes && x != k
        ensures poll.votes[x] < poll.votes[k]
      {
        var i :| 0 <= i < |poll.order| && poll.order[i] == x;
        assert poll.votes[x] <= Leading(poll);
        assert i < n || n < i;
      }
    }
  }

  // ---------------------------------------------------------------- the order of the ballots

  function WithoutAt(items: seq<Item>, i: nat): seq<Item>
    requires i < |items|
  {
    items[..i] + items[i + 1..]
  }

  lemma TakenOut(items: seq<Item>, i: nat)
    requires i < |items|
    ensures multiset(items) == multiset(WithoutAt(items, i)) + multiset{items[i]}
    ensures multiset(WithoutAt(items, i)) == multiset(items) - multiset{items[i]}
  {
    assert items == items[..i] + [items[i]] + items[i + 1..];
  }

  lemma VotesTakenOut(items: seq<Item>, i: nat, k: string)
    requires i < |items|
    ensures VotesFor(items, k) == VotesFor(WithoutAt(items, i), k) + (if items[i].key == k then 1 else 0)
  {
    assert items == items[..i + 1] + items[i + 1..];
    VotesAppend(items[..i + 1], items[i + 1..], k);
    VotesAppend(items[..i], items[i + 1..], k);
    assert items[..i + 1][..i] == items[..i];
  }

  lemma {:induction false} VotesAreAMultiset(a: seq<Item>, b: seq<Item>, k: string)
    requires multiset(a) == multiset(b)
    ensures VotesFor(a, k) == VotesFor(b, k)
    decreases |a|
  {
    assert |a| == |multiset(a)| == |multiset(b)| == |b|;
    if a != [] {
      var n := |a| - 1;
      assert a[n] in multiset(b);
      var i :| 0 <= i < |b| && b[i] == a[n];
      TakenOut(a, n);
      TakenOut(b, i);
      VotesAreAMultiset(WithoutAt(a, n), WithoutAt(b, i), k);
      VotesTakenOut(a, n, k);
      VotesTakenOut(b, i, k);
    }
  }

  /** A key that comes first is seen first. */
  lemma {:induction false} FirstKeyLeads(items: seq<Item>)
    requires items != [] && items[0].key != ""
    ensures Count(items).order != [] && Count(items).order[0] == items[0].key
  {
    if |items| > 1 {
      FirstKeyLeads(items[..|items| - 1]);
    } else {
      assert items[..0] == [];
    }
  }

  lemma {:induction false} SomeBallot(items: seq<Item>, k: string) returns (i: nat)
    requires VotesFor(items, k) > 0
    ensures i < |items| && items[i].key == k
  {
    if items[|items| - 1].key == k {
      i := |items| - 1;
    } else {
      i := SomeBallot(items[..|items| - 1], k);
    }
  }

  /** The same ballots with a given key's ballot heard first. */
  lemma HeardFirst(items: seq<Item>, z: string) returns (other: seq<Item>)
    requires z != "" && VotesFor(items, z) > 0
    ensures multiset(other) == multiset(items) && other != [] && other[0].key == z
  {
    var i := SomeBallot(items, z);
    other := [items[i]] + WithoutAt(items, i);
    TakenOut(items, i);
  }

  lemma SameVotes(a: seq<Item>, b: seq<Item>)
    requires multiset(a) == multiset(b)
    ensures Count(a).votes == Count(b).votes
  {
    forall k
      ensures k in Count(a).votes <==> k in Count(b).votes
      ensures k in Count(a).votes ==> Count(a).votes[k] == Count(b).votes[k]
    {
      VotesAreAMultiset(a, b, k);
      CountExact(a, k);
      CountExact(b, k);
    }
  }

  lemma SamePolls(a: seq<Item>, b: seq<Item>)
    requires multiset(a) == multiset(b)
    ensures Count(a).votes == Count(b).votes && Keyed(Count(a)) && Keyed(Count(b))
    ensures Count(a).order == [] <==> Count(b).order == []
  {
    SameVotes(a, b);
    CountKeepsVotes(a);
    CountKeepsVotes(b);
    NoKeysNoVotes(Count(a));
    NoKeysNoVotes(Count(b));
  }

  lemma NoKeysNoVotes(poll: Poll)
    requires Keyed(poll)
    ensures poll.order == [] <==> poll.votes == map[]
  {
    if poll.order != [] {
      assert poll.order[0] in poll.votes;
    }
  }

  lemma SameLeading(a: Poll, b: Poll)
    requires Keyed(a) && Keyed(b) && a.votes == b.votes && a.order != [] && b.order != []
    ensures Leading(a) == Leading(b)
  {
    WinnerLeads(a);
    WinnerLeads(b);
  }

  /** Another order of the same ballots has the same winner. */
  ghost predicate OrderDoesNotMatter(items: seq<Item>) {
    forall other: seq<Item> :: multiset(other) == multiset(items) ==>
      WinningKey(Count(other)) == WinningKey(Count(items))
  }

  lemma OneLeaderAnyOrder(items: seq<Item>, other: seq<Item>)
    requires OneLeader(Count(items)) && multiset(other) == multiset(items)
    ensures WinningKey(Count(other)) == WinningKey(Count(items))
  {
    SamePolls(items, other);
    var a, b := Count(items), Count(other);
    if a.order != [] {
      AheadIffOneLeader(a);
      WinnerLeads(a);
      WinnerLeads(b);
      SameLeading(a, b);
    }
  }

  lemma TieNeedsAnOrder(items: seq<Item>) returns (other: seq<Item>)
    requires !OneLeader(Count(items))
    ensures multiset(other) == multiset(items) && WinningKey(Count(other)) != WinningKey(Count(items))
  {
    var a := Count(items);
    CountFacts(items);
    WinnerLeads(a);
    var i, j :| 0 <= i < j < |a.order| && a.order[i] in a.votes && a.order[j] in a.votes
      && a.votes[a.order[i]] == Leading(a) && a.votes[a.order[j]] == Leading(a);
    var z := if WinningKey(a) == Some(a.order[i]) then a.order[j] else a.order[i];
    other := HeardFirst(items, z);
    FirstKeyLeads(other);
    SamePolls(items, other);
    SameLeading(a, Count(other));
    WinnerLeads(Count(other));
  }

  /** The winner is a matter of the ballots alone, and not of their order, exactly when one key leads. */
  lemma OrderMattersIffTied(items: seq<Item>)
    ensures OrderDoesNotMatter(items) <==> OneLeader(Count(items))
  {
    if OneLeader(Count(items)) {
      forall other: seq<Item> | multiset(other) == multiset(items)
        ensures WinningKey(Count(other)) == WinningKey(Count(items))
      {
        OneLeaderAnyOrder(items, other);
      }
    } else {
      var other := TieNeedsAnOrder(items);
    }
  }

  /** Two ballots for two keys: the one heard first wins, without more votes than the other. */
  lemma TieGoesToTheFirst()
    ensures var ab := [Item("a", "a"), Item("b", "b")];
            WinningKey(Count(ab)) == Some("a") && !UniqueWinner(Count(ab))
    ensures WinningKey(Count([Item("b", "b"), Item("a", "a")])) == Some("b")
  {
    TwoBallots("a", "b");
    TwoBallots("b", "a");
  }

  lemma TwoBallots(a: string, b: string)
    requires a != "" && b != "" && a != b
    ensures var poll := Count([Item(a, a), Item(b, b)]);
            poll.order == [a, b] && poll.votes == map[a := 1, b := 1] && WinningKey(poll) == Some(a)
  {
    var items := [Item(a, a), Item(b, b)];
    assert items[..1] == [Item(a, a)] && [Item(a, a)][..0] == [];
    assert Count([Item(a, a)]) == Poll([a], map[a := 1], map[a := a]);
    var poll := Count(items);
    assert poll.order == [a, b];
    CountFacts(items);
    WinnerLeads(poll);
  }

  /** What holds of every poll: unique winner, one leader and independence of the order go together. */
  ghost predicate TieRule(items: seq<Item>, poll: Poll) {
    && poll == Count(items)
    && (UniqueWinner(poll) <==> poll.order != [] && OneLeader(poll))
    && (OrderDoesNotMatter(items) <==> OneLeader(poll))
  }

  lemma PollFacts(items: seq<Item>)
    ensures TieRule(items, Count(items))
  {
    CountKeepsVotes(items);
    OrderMattersIffTied(items);
    if Count(items).order != [] {
      AheadIffOneLeader(Count(items));
    }
  }

  /** For the labels shown: the tallies tell whether field and topic are unique winners. */
  lemma UniqueLabels(norms: Norms, rows: seq<LabelRow>)
    ensures var t := TallyOf(norms, rows);
            && t.field == Winner(t.fieldPoll) && TieRule(FieldItems(norms, Latest(rows)), t.fieldPoll)
            && t.topic == Winner(t.topicPoll) && TieRule(TopicItems(norms, Latest(rows)), t.topicPoll)
  {
    PollFacts(FieldItems(norms, Latest(rows)));
    PollFacts(TopicItems(norms, Latest(rows)));
  }
}
