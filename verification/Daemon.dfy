/** The order of checks in clubd's `acceptGossip`, after the signature has been verified. */
module Daemon {
  import opened Prelude
  import opened Catalog
  import opened Limit
  import opened Leases

  datatype Answer = Appended | DuplicateDropped | RateLimited | ClaimRefused

  /** A verified message: its payload hash, whether it is rate limited, and the clock readings. */
  datatype Gossip = Gossip(msg: Msg, hash: string, rateLimit: bool, early: int, now: int)

  /** The publisher may not send now. */
  predicate OverRate(granted: seq<int>, window: int, max: nat, g: Gossip) {
    g.rateLimit && (g.msg.publisher == "" || InWindow(granted, window, g.now) >= max)
  }

  /** Duplicate, then rate, then claim policy, then the inbox. */
  function AnswerTo(known: bool, overRate: bool, claimOk: bool): Answer {
    if known then DuplicateDropped
    else if overRate then RateLimited
    else if !claimOk then ClaimRefused
    else Appended
  }

  class Clubd {
    const limiter: Limiter
    const tracker: ClaimTracker
    var inbox: seq<Msg>

    ghost predicate Valid()
      reads this, limiter
    {
      limiter.Valid() && |limiter.hashes| <= limiter.hashCap
    }

    constructor (limiter: Limiter, tracker: ClaimTracker)
      requires limiter.Valid() && |limiter.hashes| <= limiter.hashCap
      ensures Valid() && inbox == [] && this.limiter == limiter && this.tracker == tracker
    {
      this.limiter, this.tracker, inbox := limiter, tracker, [];
    }

    method ApplyClaimPolicy(m: Msg, early: int, now: int) returns (ok: bool)
      modifies tracker
      ensures ok <==> ClaimOk(old(tracker.live), m, early, now)
      ensures tracker.live == if ok then LiveAfter(old(tracker.live), m) else old(tracker.live)
    {
      ok := true;
      if m.kind == Claim {
        ok := tracker.Allow(m.publisher, m.cid, m.until, early, now);
      } else if m.kind == Classify || m.kind == Skip {
        tracker.Clear(m.publisher, m.cid);
      }
    }

    /** The hash is remembered before the later checks may refuse the message. */
    method AcceptGossip(g: Gossip) returns (a: Answer)
      requires Valid() && g.now >= limiter.clock && g.hash != ""
      modifies this`inbox, limiter, tracker
      ensures Valid() && limiter.clock <= g.now
      // Each answer, exactly.
      ensures a == AnswerTo(g.hash in old(limiter.hashes),
                            OverRate(old(limiter.History(g.msg.publisher)), limiter.window, limiter.max, g),
                            ClaimOk(old(tracker.live), g.msg, g.early, g.now))
      ensures a == DuplicateDropped <==> g.hash in old(limiter.hashes)
      ensures a == RateLimited <==>
              g.hash !in old(limiter.hashes) && g.rateLimit &&
              (g.msg.publisher == "" ||
               InWindow(old(limiter.History(g.msg.publisher)), limiter.window, g.now) >= limiter.max)
      ensures a == ClaimRefused ==>
                g.msg.kind == Claim &&
                (g.msg.until <= g.early ||
                 (g.msg.publisher in old(tracker.live) && old(tracker.live)[g.msg.publisher].cid != g.msg.cid
                  && old(tracker.live)[g.msg.publisher].until > g.now))
      ensures a == Appended && g.msg.kind == Claim && g.msg.publisher != "" && g.msg.cid != "" ==>
                && g.msg.until > g.early
                && tracker.live == old(tracker.live)[g.msg.publisher := Lease(g.msg.cid, g.msg.until)]
      ensures a == Appended && (g.msg.kind == Classify || g.msg.kind == Skip) && g.msg.publisher in old(tracker.live)
              && g.msg.publisher != "" && old(tracker.live)[g.msg.publisher].cid == g.msg.cid ==>
                g.msg.publisher !in tracker.live
      // Each table, exactly.
      ensures limiter.hashes == Remember(old(limiter.hashes), limiter.hashCap, limiter.window, g.hash, g.now)
      ensures limiter.History(g.msg.publisher) == old(limiter.History(g.msg.publisher)) +
              (if g.rateLimit && (a == ClaimRefused || a == Appended) then [g.now] else [])
      ensures forall q :: q != g.msg.publisher ==> limiter.History(q) == old(limiter.History(q))
      ensures tracker.live == if a == Appended then LiveAfter(old(tracker.live), g.msg) else old(tracker.live)
      ensures inbox == if a == Appended then old(inbox) + [g.msg] else old(inbox)
    {
      RememberFits(limiter.hashes, limiter.hashCap, limiter.window, g.hash, g.now);
      var dup := limiter.Duplicate(g.hash, g.now);
      if dup {
        return DuplicateDropped;
      }
      if g.rateLimit {
        var ok := limiter.Allow(g.msg.publisher, g.now);
        if !ok {
          return RateLimited;
        }
      }
      var ok := ApplyClaimPolicy(g.msg, g.early, g.now);
      if !ok {
        return ClaimRefused;
      }
      inbox := inbox + [g.msg];
      return Appended;
    }
  }

  // ---------------------------------------------------------------- runs

  /** The tables as a value; a publisher without grants has no entry. */
  datatype State = State(
    hashes: map<string, int>, granted: map<Peer, seq<int>>, live: map<Peer, Lease>, inbox: seq<Msg>)

  datatype Bounds = Bounds(window: int, max: nat, hashCap: nat)

  const START := State(map[], map[], map[], [])

  function Answered(b: Bounds, s: State, g: Gossip): Answer {
    AnswerTo(g.hash in s.hashes, OverRate(Stored(s.granted, g.msg.publisher), b.window, b.max, g),
             ClaimOk(s.live, g.msg, g.early, g.now))
  }

  /** Past the duplicate and the rate check. */
  predicate Passes(b: Bounds, s: State, g: Gossip) {
    Answered(b, s, g) == ClaimRefused || Answered(b, s, g) == Appended
  }

  function Handle(b: Bounds, s: State, g: Gossip): State {
    var a, p := Answered(b, s, g), g.msg.publisher;
    State(Remember(s.hashes, b.hashCap, b.window, g.hash, g.now),
          if g.rateLimit && Passes(b, s, g) then s.granted[p := Stored(s.granted, p) + [g.now]] else s.granted,
          if a == Appended then LiveAfter(s.live, g.msg) else s.live,
          if a == Appended then s.inbox + [g.msg] else s.inbox)
  }

  function Served(b: Bounds, gs: seq<Gossip>): State {
    if gs == [] then START else Handle(b, Served(b, gs[..|gs| - 1]), gs[|gs| - 1])
  }

  /** The daemon's tables are the state `s`. */
  ghost predicate Shows(d: Clubd, s: State)
    reads d, d.limiter, d.tracker
  {
    && d.limiter.hashes == s.hashes && d.tracker.live == s.live && d.inbox == s.inbox
    && forall p :: d.limiter.History(p) == Stored(s.granted, p)
  }

  lemma HistoryAfter(b: Bounds, s: State, g: Gossip, p: Peer)
    ensures Stored(Handle(b, s, g).granted, p) == Stored(s.granted, p) +
            (if p == g.msg.publisher && g.rateLimit && Passes(b, s, g) then [g.now] else [])
  {
    assert Stored(s.granted, p) + [] == Stored(s.granted, p);
  }

  /** Statement by statement and as a value: one step is the same step. */
  method Serve(d: Clubd, g: Gossip, ghost b: Bounds, ghost s: State) returns (a: Answer)
    requires d.Valid() && g.now >= d.limiter.clock && g.hash != "" && Shows(d, s)
    requires b == Bounds(d.limiter.window, d.limiter.max, d.limiter.hashCap)
    modifies d`inbox, d.limiter, d.tracker
    ensures d.Valid() && a == Answered(b, s, g) && Shows(d, Handle(b, s, g))
  {
    a := d.AcceptGossip(g);
    forall p
      ensures d.limiter.History(p) == Stored(Handle(b, s, g).granted, p)
    {
      HistoryAfter(b, s, g, p);
      assert old(d.limiter.History(p)) + [] == old(d.limiter.History(p));
    }
  }

  /** What passed the first two checks, each with the time the catalog hears of it. */
  function Deliveries(b: Bounds, gs: seq<Gossip>, later: int -> int): seq<Delivery> {
    if gs == [] then []
    else
      var front, g := gs[..|gs| - 1], gs[|gs| - 1];
      if Passes(b, Served(b, front), g)
      then Deliveries(b, front, later) + [Delivery(g.msg, g.early, g.now, later(g.now))]
      else Deliveries(b, front, later)
  }

  /** The daemon's leases are those of the two-sided protocol on what passed. */
  lemma {:induction false} LeasesAreDelivered(b: Bounds, gs: seq<Gossip>, later: int -> int)
    ensures Served(b, gs).live == Leased(Deliveries(b, gs, later)).live
  {
    if gs != [] {
      var front, g := gs[..|gs| - 1], gs[|gs| - 1];
      LeasesAreDelivered(b, front, later);
      var ds, d := Deliveries(b, front, later), Delivery(g.msg, g.early, g.now, later(g.now));
      assert (ds + [d])[..|ds|] == ds;
    }
  }

  /** So if no lease shrinks late, the catalog turns away no claim that the daemon appends. */
  lemma AppendedClaimIsNotTurnedAway(b: Bounds, gs: seq<Gossip>, g: Gossip, later: int -> int)
    requires var ds, d := Deliveries(b, gs, later), Delivery(g.msg, g.early, g.now, later(g.now));
             Timed(ds + [d]) && NoLateShrink(ds)
    requires Answered(b, Served(b, gs), g) == Appended
    ensures !TurnedAway(Leased(Deliveries(b, gs, later)), Delivery(g.msg, g.early, g.now, later(g.now)))
  {
    LeasesAreDelivered(b, gs, later);
    NothingIsTurnedAway(Deliveries(b, gs, later), Delivery(g.msg, g.early, g.now, later(g.now)));
  }

  function Arrivals(gs: seq<Gossip>): (r: seq<Arrival>)
    ensures |r| == |gs|
  {
    if gs == [] then [] else Arrivals(gs[..|gs| - 1]) + [Arrival(gs[|gs| - 1].hash, gs[|gs| - 1].now)]
  }

  function ServedFrom(b: Bounds, s: State, gs: seq<Gossip>): State {
    if gs == [] then s else Handle(b, ServedFrom(b, s, gs[..|gs| - 1]), gs[|gs| - 1])
  }

  lemma {:induction false} HashesAreATable(b: Bounds, s: State, gs: seq<Gossip>)
    ensures ServedFrom(b, s, gs).hashes == Table(s.hashes, b.hashCap, b.window, Arrivals(gs))
  {
    if gs != [] {
      HashesAreATable(b, s, gs[..|gs| - 1]);
      assert Arrivals(gs)[..|gs| - 1] == Arrivals(gs[..|gs| - 1]);
    }
  }

  ghost predicate Others(gs: seq<Gossip>, hash: string) {
    forall i :: 0 <= i < |gs| ==> gs[i].hash != hash
  }

  lemma {:induction false} OthersArrive(gs: seq<Gossip>, hash: string)
    requires Others(gs, hash)
    ensures NotAmong(hash, Arrivals(gs))
  {
    if gs != [] {
      OthersArrive(gs[..|gs| - 1], hash);
    }
  }

  /**
   A payload that was refused, sent again after any other traffic, is dropped as a duplicate
   exactly when no full table has flushed its hash in between; with room for the traffic it is lost.
   */
  lemma RefusedIsLost(b: Bounds, s: State, g: Gossip, gs: seq<Gossip>, again: Gossip)
    requires b.hashCap > 0 && |s.hashes| <= b.hashCap && g.hash != ""
    requires Answered(b, s, g) != Appended && again.hash == g.hash && Others(gs, g.hash)
    ensures var after := Handle(b, s, g);
            && (Answered(b, ServedFrom(b, after, gs), again) == DuplicateDropped <==>
                  !FlushedIn(after.hashes, b.hashCap, b.window, g.hash, Arrivals(gs)))
            && (|after.hashes| + |gs| <= b.hashCap ==>
                  Answered(b, ServedFrom(b, after, gs), again) == DuplicateDropped)
  {
    var after := Handle(b, s, g);
    RememberFits(s.hashes, b.hashCap, b.window, g.hash, g.now);
    HashesAreATable(b, after, gs);
    OthersArrive(gs, g.hash);
    TabledIffNotFlushed(after.hashes, b.hashCap, b.window, g.hash, Arrivals(gs));
    if |after.hashes| + |gs| <= b.hashCap {
      RoomMeansKept(after.hashes, b.hashCap, b.window, g.hash, Arrivals(gs));
    }
  }
}
