/**
 The voting protocol: many nodes, one up-to-date catalog, each step either a node
 publishing what the skip-hook allows or gossip that is not a classify.
 */
module Votes {
  import opened Prelude
  import opened Catalog
  import opened Erasure
  import opened SkipHook

  datatype Event =
    | Vote(msg: Msg, now: int, hit: Hit, later: int)
    | Gossip(msg: Msg, now: int)
    | Tick(now: int)

  /** The publishing node's view of the shared catalog. */
  function At(env: Env, p: Peer): Env {
    env.(me := Some(p))
  }

  /** What `process_one` allows: the hook lets the publisher through, and reuse yields to a due vote. */
  ghost predicate Allowed(env: Env, db: Db, e: Event) {
    match e
    case Vote(m, now, hit, later) =>
      && m.kind == Classify
      && Lookup(At(env, m.publisher), db, m.cid, now, hit)
      && Proceeds(At(env, m.publisher), db, m.cid, hit, later)
      && (m.reuse ==> !MustClassify(At(env, m.publisher), db, m.cid))
    case Gossip(m, now) => m.kind != Classify
    case Tick(now) => true
  }

  function After(env: Env, db: Db, e: Event): Db {
    match e
    case Vote(m, now, _, _) => Ingest(env, db, m, now)
    case Gossip(m, now) => Ingest(env, db, m, now)
    case Tick(now) => Expire(env, db, now)
  }

  function Play(env: Env, events: seq<Event>): Db {
    if events == [] then EMPTY
    else After(env, Play(env, events[..|events| - 1]), events[|events| - 1])
  }

  ghost predicate Legal(env: Env, events: seq<Event>) {
    forall i :: 0 <= i < |events| ==> Allowed(env, Play(env, events[..i]), events[i])
  }

  /** No publisher has two classifies of one CID. */
  ghost predicate OnePerNode(rows: seq<Row>) {
    forall i, j :: 0 <= i < j < |rows| && rows[i].key.cid == rows[j].key.cid ==>
      rows[i].key.publisher != rows[j].key.publisher
  }

  /** Independent classifies of a CID. */
  function Ballots(rows: seq<Row>, c: Cid): nat {
    if rows == [] then 0
    else
      var last := rows[|rows| - 1];
      Ballots(rows[..|rows| - 1], c) + (if last.key.cid == c && !last.key.reuse then 1 else 0)
  }

  lemma {:induction false} BallotsAreVoters(rows: seq<Row>, c: Cid)
    requires OnePerNode(rows)
    ensures Ballots(rows, c) == |Independent(rows, c)|
  {
    if rows != [] {
      var front, last := rows[..|rows| - 1], rows[|rows| - 1];
      assert rows == front + [last];
      BallotsAreVoters(front, c);
      IndependentSnoc(front, last, c);
      if last.key.cid == c && !last.key.reuse {
        assert last.key.publisher !in Independent(front, c);
      }
    }
  }

  lemma IndependentSnoc(rows: seq<Row>, row: Row, c: Cid)
    ensures Independent(rows + [row], c) ==
            Independent(rows, c) + (if row.key.cid == c && !row.key.reuse then {row.key.publisher} else {})
  {
  }

  /** An allowed classify comes from a node with none of its own, and opens the CID or reruns it. */
  lemma VoterIsNew(env: Env, db: Db, e: Event)
    requires SearchTables(db) && e.Vote? && Allowed(env, db, e)
    ensures !HasRowBy(db.classifies, e.msg.cid, e.msg.publisher)
    ensures e.msg.cid !in db.docs || MustClassify(At(env, e.msg.publisher), db, e.msg.cid)
  {
    var c := e.msg.cid;
    EarliestMembers(db.classifies, c);
    if c !in db.docs {
      assert Earliest(db.classifies, c) == None;
    }
  }

  lemma {:induction false} NoRowsNoBallots(rows: seq<Row>, c: Cid)
    requires forall r :: r in rows ==> r.key.cid != c
    ensures Ballots(rows, c) == 0
  {
    if rows != [] {
      assert rows[|rows| - 1] in rows;
      NoRowsNoBallots(rows[..|rows| - 1], c);
    }
  }

  ghost predicate NoWrong(db: Db) {
    forall k :: k in db.reports ==> db.reports[k].reason != "wrong"
  }

  /** The protocol invariant: consistent tables, one classify per node, two ballots at most. */
  ghost predicate Fair(env: Env, db: Db) {
    Consistent(env, db) && OnePerNode(db.classifies)
  }

  ghost predicate AtMostTwo(db: Db) {
    forall c :: Ballots(db.classifies, c) <= 2
  }

  lemma OneMoreVoter(rows: seq<Row>, row: Row)
    requires OnePerNode(rows) && !HasRowBy(rows, row.key.cid, row.key.publisher)
    ensures OnePerNode(rows + [row])
  {
  }

  lemma StepFair(env: Env, db: Db, e: Event)
    requires Fair(env, db) && Allowed(env, db, e)
    ensures Fair(env, After(env, db, e))
  {
    match e
    case Vote(m, now, _, _) =>
      StepConsistent(env, db, DoIngest(m, now));
      VoterIsNew(env, db, e);
      OneMoreVoter(db.classifies, RowOf(env, m, now));
    case Gossip(m, now) => StepConsistent(env, db, DoIngest(m, now));
    case Tick(now) => StepConsistent(env, db, DoExpire(now));
  }

  lemma VoteKeepsTwo(env: Env, db: Db, e: Event, c: Cid)
    requires Fair(env, db) && NoWrong(db) && e.Vote? && Allowed(env, db, e)
    requires Ballots(db.classifies, c) <= 2
    ensures Ballots(After(env, db, e).classifies, c) <= 2
  {
    var m := e.msg;
    VoterIsNew(env, db, e);
    BallotsAreVoters(db.classifies, c);
    EarliestMembers(db.classifies, c);
    if m.cid == c && c !in db.docs {
      NoRowsNoBallots(db.classifies, c);
    }
  }

  lemma StepAtMostTwo(env: Env, db: Db, e: Event)
    requires Fair(env, db) && NoWrong(db) && AtMostTwo(db) && Allowed(env, db, e)
    ensures AtMostTwo(After(env, db, e))
  {
    if e.Vote? {
      forall c
        ensures Ballots(After(env, db, e).classifies, c) <= 2
      {
        VoteKeepsTwo(env, db, e, c);
      }
    }
  }

  lemma {:induction false} PlayFair(env: Env, events: seq<Event>)
    requires Legal(env, events)
    ensures Fair(env, Play(env, events))
  {
    if events == [] {
      EmptyConsistent(env);
    } else {
      var front := events[..|events| - 1];
      LegalPrefix(env, events);
      PlayFair(env, front);
      StepFair(env, Play(env, front), events[|events| - 1]);
    }
  }

  lemma LegalPrefix(env: Env, events: seq<Event>)
    requires Legal(env, events) && events != []
    ensures Legal(env, events[..|events| - 1])
    ensures Allowed(env, Play(env, events[..|events| - 1]), events[|events| - 1])
  {
    var front := events[..|events| - 1];
    forall i | 0 <= i < |front|
      ensures Allowed(env, Play(env, front[..i]), front[i])
    {
      assert front[..i] == events[..i];
    }
  }

  /** In every legal run each node has at most one classify of a CID, reports or not. */
  lemma OneClassifyPerNode(env: Env, events: seq<Event>)
    requires Legal(env, events)
    ensures OnePerNode(Play(env, events).classifies)
  {
    PlayFair(env, events);
  }

  ghost predicate NobodyObjects(events: seq<Event>) {
    forall i :: 0 <= i < |events| && events[i].Gossip? && events[i].msg.kind == Report ==>
      events[i].msg.reason != "wrong"
  }

  /** While nobody reports `wrong`, no CID ever gets a third independent classify. */
  lemma {:induction false} AtMostTwoVotes(env: Env, events: seq<Event>)
    requires Legal(env, events) && NobodyObjects(events)
    ensures AtMostTwo(Play(env, events)) && NoWrong(Play(env, events))
  {
    if events != [] {
      var front, last := events[..|events| - 1], events[|events| - 1];
      LegalPrefix(env, events);
      AtMostTwoVotes(env, front);
      PlayFair(env, front);
      StepAtMostTwo(env, Play(env, front), last);
    }
  }

  /** A `wrong` report reopens a classified CID to every node that has not classified it. */
  lemma ReportReopens(env: Env, db: Db, m: Msg, now: int, later: int)
    requires m.kind == Classify && !m.reuse && m.cid in db.docs
    requires NeedsReview(db, m.cid)
    ensures Allowed(env, db, Vote(m, now, HitClassify(db.docs[m.cid]), later)) <==>
            !HasRowBy(db.classifies, m.cid, m.publisher)
  {
  }

  /**
   A second vote is let through exactly while there is one: on a CID nobody objects to, a node
   may classify if and only if it has no classify of it and there is one independent ballot.
   */
  lemma SecondVoteIff(env: Env, db: Db, m: Msg, now: int, later: int)
    requires m.kind == Classify && !m.reuse && m.cid in db.docs && OnePerNode(db.classifies)
    requires forall k :: k in db.reports && k.0 == m.cid ==> db.reports[k].reason != "wrong"
    ensures Allowed(env, db, Vote(m, now, HitClassify(db.docs[m.cid]), later)) <==>
            !HasRowBy(db.classifies, m.cid, m.publisher) && Ballots(db.classifies, m.cid) == 1
  {
    BallotsAreVoters(db.classifies, m.cid);
  }

  /** Reuse never adds to a CID that has its search row. */
  lemma NoReuseOnKnown(env: Env, db: Db, m: Msg, now: int, hit: Hit, later: int)
    requires m.reuse && m.cid in db.docs
    ensures !Allowed(env, db, Vote(m, now, hit, later))
  {
  }

  lemma {:induction false} NobodyBlacklisted(env: Env, events: seq<Event>)
    ensures Play(env, events).blacklisted == {}
  {
    if events != [] {
      NobodyBlacklisted(env, events[..|events| - 1]);
    }
  }

  lemma {:induction false} LoggedHasRow(env: Env, log: seq<Entry>, m: Msg)
    requires m.kind == Classify && Logged(log, m)
    ensures HasRowBy(ClassifiesView(env, log), m.cid, m.publisher)
  {
    var front, last := log[..|log| - 1], log[|log| - 1];
    var rows := ClassifiesView(env, front);
    if last.msg == m {
      assert ClassifiesView(env, log)[|rows|] == RowOf(env, m, last.at);
    } else {
      var i :| 0 <= i < |log| && log[i].msg == m;
      assert front[i].msg == m;
      LoggedHasRow(env, front, m);
      var j :| 0 <= j < |rows| && rows[j].key.cid == m.cid && rows[j].key.publisher == m.publisher;
      assert ClassifiesView(env, log)[j] == rows[j];
    }
  }

  lemma LegalSnoc(env: Env, events: seq<Event>, e: Event)
    requires Legal(env, events) && Allowed(env, Play(env, events), e)
    ensures Legal(env, events + [e]) && Play(env, events + [e]) == After(env, Play(env, events), e)
  {
    assert (events + [e])[..|events|] == events;
    forall i | 0 <= i < |events + [e]|
      ensures Allowed(env, Play(env, (events + [e])[..i]), (events + [e])[i])
    {
      if i < |events| {
        assert (events + [e])[..i] == events[..i];
      }
    }
  }

  /**
   From a legal run that ends with one ballot, any node without a classify of that CID takes
   the run on to two, whatever its clock.
   */
  lemma SecondVoteFollows(env: Env, events: seq<Event>, m: Msg, now: int, later: int)
    requires Legal(env, events) && m.kind == Classify && !m.reuse && Acceptable(env, EMPTY, m)
    requires Ballots(Play(env, events).classifies, m.cid) == 1
    requires !HasRowBy(Play(env, events).classifies, m.cid, m.publisher)
    ensures m.cid in Play(env, events).docs
    ensures var e := Vote(m, now, HitClassify(Play(env, events).docs[m.cid]), later);
            && Legal(env, events + [e])
            && Ballots(Play(env, events + [e]).classifies, m.cid) == 2
            && HasRowBy(Play(env, events + [e]).classifies, m.cid, m.publisher)
  {
    var db := Play(env, events);
    PlayFair(env, events);
    NobodyBlacklisted(env, events);
    if m.cid !in db.docs {
      EarliestMembers(db.classifies, m.cid);
      NoRowsNoBallots(db.classifies, m.cid);
    }
    BallotsAreVoters(db.classifies, m.cid);
    var e := Vote(m, now, HitClassify(db.docs[m.cid]), later);
    LegalSnoc(env, events, e);
    if Logged(db.messages, m) {
      LoggedHasRow(env, db.messages, m);
    }
    var rows := After(env, db, e).classifies;
    assert rows[..|rows| - 1] == db.classifies && rows[|rows| - 1].key == m;
  }
}
