/**
 `independent_publishers` of observer/labels.py, a list made by a query, a filter and a
 dictionary, names exactly the publishers that the skip-hook counts.
 */
module Voters {
  import opened Prelude
  import opened Catalog
  import opened SkipHook
  import opened Votes
  import L = Labels

  /** How a stored classify appears to the labels; topic and keywords play no part here. */
  ghost predicate Viewing(view: Row -> L.LabelRow) {
    forall r ::
      view(r).cid == r.key.cid && view(r).publisher == r.key.publisher
      && view(r).reuse == r.key.reuse && view(r).at == r.at
  }

  function Viewed(view: Row -> L.LabelRow, rows: seq<Row>): (vs: seq<L.LabelRow>)
    ensures |vs| == |rows| && forall i :: 0 <= i < |rows| ==> vs[i] == view(rows[i])
  {
    if rows == [] then [] else Viewed(view, rows[..|rows| - 1]) + [view(rows[|rows| - 1])]
  }

  function Publishers(ballots: seq<L.LabelRow>): (ps: seq<Peer>)
    ensures |ps| == |ballots| && forall i :: 0 <= i < |ballots| ==> ps[i] == ballots[i].publisher
  {
    if ballots == [] then [] else Publishers(ballots[..|ballots| - 1]) + [ballots[|ballots| - 1].publisher]
  }

  /** The rows of a CID in order of time, those of its own making, the latest of each publisher. */
  function IndependentPublishers(view: Row -> L.LabelRow, rows: seq<Row>, c: Cid): seq<Peer> {
    var ofCid := L.ByTime(L.Where(Viewed(view, rows), L.Of(c)));
    Publishers(L.Latest(L.Where(ofCid, L.Original())))
  }

  lemma {:induction false} ByTimeMembers(rows: seq<L.LabelRow>)
    ensures forall r :: r in L.ByTime(rows) <==> r in rows
  {
    if rows != [] {
      var front, last := rows[..|rows| - 1], rows[|rows| - 1];
      ByTimeMembers(front);
      L.ByTimeSorted(front);
      L.InsertSorted(L.ByTime(front), last);
      assert rows == front + [last];
    }
  }

  /** A publisher has a ballot exactly when it has a row. */
  lemma BallotIffRow(rows: seq<L.LabelRow>, p: Peer)
    ensures p in Publishers(L.Latest(rows)) <==> exists r :: r in rows && r.publisher == p
  {
    L.BallotIsLastWord(rows, p);
    L.LastWordIsLatest(rows, p);
    var ballots := L.Latest(rows);
    var i := L.IndexOf(ballots, p);
    if i < |ballots| {
      assert Publishers(ballots)[i] == p;
    }
  }

  lemma {:induction false} DistinctCount(ps: seq<Peer>)
    requires forall i, j :: 0 <= i < j < |ps| ==> ps[i] != ps[j]
    ensures |(set p | p in ps)| == |ps|
  {
    if ps != [] {
      var front, last := ps[..|ps| - 1], ps[|ps| - 1];
      assert ps == front + [last];
      DistinctCount(front);
      assert (set p | p in ps) == (set p | p in front) + {last};
    }
  }

  lemma VoterIffRow(view: Row -> L.LabelRow, rows: seq<Row>, c: Cid, p: Peer)
    requires Viewing(view)
    ensures p in IndependentPublishers(view, rows, c) <==> p in Independent(rows, c)
  {
    var vs := Viewed(view, rows);
    var own := L.Where(vs, L.Of(c));
    var kept := L.Where(L.ByTime(own), L.Original());
    L.WhereMembers(vs, L.Of(c));
    ByTimeMembers(own);
    L.WhereMembers(L.ByTime(own), L.Original());
    BallotIffRow(kept, p);
    if r :| r in rows && r.key.cid == c && !r.key.reuse && r.key.publisher == p {
      var i :| 0 <= i < |rows| && rows[i] == r;
      assert vs[i] in vs;
    }
    if v :| v in kept && v.publisher == p {
      var i :| 0 <= i < |vs| && vs[i] == v;
      assert rows[i] in rows;
    }
  }

  /** The list has no repeats and holds exactly the publishers with an independent classify. */
  lemma IndependentAreVoters(view: Row -> L.LabelRow, rows: seq<Row>, c: Cid)
    requires Viewing(view)
    ensures (set p | p in IndependentPublishers(view, rows, c)) == Independent(rows, c)
    ensures |IndependentPublishers(view, rows, c)| == |Independent(rows, c)|
  {
    var ps := IndependentPublishers(view, rows, c);
    forall p
      ensures p in ps <==> p in Independent(rows, c)
    {
      VoterIffRow(view, rows, c, p);
    }
    L.BallotIsLastWord(L.Where(L.ByTime(L.Where(Viewed(view, rows), L.Of(c))), L.Original()), "");
    DistinctCount(ps);
  }

  /** So with one classify per node, the list is as long as there are independent classifies. */
  lemma ListedVotersAreBallots(view: Row -> L.LabelRow, rows: seq<Row>, c: Cid)
    requires Viewing(view) && OnePerNode(rows)
    ensures |IndependentPublishers(view, rows, c)| == Ballots(rows, c)
  {
    IndependentAreVoters(view, rows, c);
    BallotsAreVoters(rows, c);
  }

  /** In every legal run without `wrong` reports the labels list at most two voters. */
  lemma AtMostTwoListed(env: Env, events: seq<Event>, view: Row -> L.LabelRow, c: Cid)
    requires Legal(env, events) && NobodyObjects(events) && Viewing(view)
    ensures |IndependentPublishers(view, Play(env, events).classifies, c)| <= 2
  {
    AtMostTwoVotes(env, events);
    OneClassifyPerNode(env, events);
    ListedVotersAreBallots(view, Play(env, events).classifies, c);
  }
}
