/** What the indexer sends is a step of the voting protocol, so the bound on votes is about it. */
module Publishing {
  import opened Prelude
  import opened Assembly
  import opened Fetch
  import opened Catalog
  import opened Erasure
  import opened SkipHook
  import opened Indexer
  import opened Votes

  /** The message a node `p` gossips for a publication that is no skip. */
  predicate Announces(m: Msg, p: Peer, cid: Cid, pub: Publication) {
    m.kind == Classify && m.publisher == p && m.cid == cid && (m.reuse <==> pub.verdict == ReuseVerdict)
  }

  /** A classify that `process_one` sends, on what the hook told it, is allowed by the protocol. */
  lemma SentIsAllowed(env: Env, db: Db, p: Peer, cid: Cid, now: int, hit: Hit, later: int,
                      html: Bytes -> bool, world: World, s: Sample, o: Outcome, m: Msg)
    requires Lookup(At(env, p), db, cid, now, hit) && Proceeds(At(env, p), db, cid, hit, later)
    requires Handled(At(env, p), db, cid, html, world, s, o) && o.sent.Some?
    requires o.sent.value.verdict != SkipVerdict && Announces(m, p, cid, o.sent.value)
    ensures Allowed(env, db, Vote(m, now, hit, later))
  {
  }

  /** A run in which every classify comes out of `process_one` on the catalog as it then is. */
  ghost predicate Honest(env: Env, events: seq<Event>) {
    forall i :: 0 <= i < |events| ==> Arises(env, Play(env, events[..i]), events[i])
  }

  ghost predicate Arises(env: Env, db: Db, e: Event) {
    match e
    case Gossip(m, now) => m.kind != Classify
    case Tick(now) => true
    case Vote(m, now, hit, later) =>
      && Lookup(At(env, m.publisher), db, m.cid, now, hit) && Proceeds(At(env, m.publisher), db, m.cid, hit, later)
      && exists html, world, s, o ::
           && Handled(At(env, m.publisher), db, m.cid, html, world, s, o) && o.sent.Some?
           && o.sent.value.verdict != SkipVerdict && Announces(m, m.publisher, m.cid, o.sent.value)
  }

  lemma HonestIsLegal(env: Env, events: seq<Event>)
    requires Honest(env, events)
    ensures Legal(env, events)
  {
    forall i | 0 <= i < |events|
      ensures Allowed(env, Play(env, events[..i]), events[i])
    {
      if events[i].Vote? {
        var m, db := events[i].msg, Play(env, events[..i]);
        var html, world, s, o :|
          && Handled(At(env, m.publisher), db, m.cid, html, world, s, o) && o.sent.Some?
          && o.sent.value.verdict != SkipVerdict && Announces(m, m.publisher, m.cid, o.sent.value);
        SentIsAllowed(env, db, m.publisher, m.cid, events[i].now, events[i].hit, events[i].later, html, world, s, o, m);
      }
    }
  }

  /** So nodes that run `process_one` never cast a third independent vote without a `wrong` report. */
  lemma HonestNodesVoteTwice(env: Env, events: seq<Event>)
    requires Honest(env, events)
    ensures OnePerNode(Play(env, events).classifies)
    ensures NobodyObjects(events) ==> AtMostTwo(Play(env, events))
  {
    HonestIsLegal(env, events);
    OneClassifyPerNode(env, events);
    if NobodyObjects(events) {
      AtMostTwoVotes(env, events);
    }
  }
}
