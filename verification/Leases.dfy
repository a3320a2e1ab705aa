/**
 Work leases: clubd's tracker (clubd/claims.go) decides, the catalog (observer/store.py)
 follows.  The theorem says exactly when the two stay in step.
 */
module Leases {
  import opened Prelude
  import opened Catalog

  /** One accepted or refused lease request, against the leases clubd holds. */
  predicate Grantable(live: map<Peer, Lease>, p: Peer, cid: Cid, until: int, early: int, now: int) {
    until > early && !(p in live && live[p].until > now && live[p].cid != cid)
  }

  class ClaimTracker {
    var live: map<Peer, Lease>

    constructor ()
      ensures live == map[]
    {
      live := map[];
    }

    /** The clock is read twice: before the lock is taken and after. */
    method Allow(p: Peer, cid: Cid, until: int, early: int, now: int) returns (ok: bool)
      modifies this
      ensures p == "" || cid == "" ==> ok && live == old(live)
      // Granted exactly while it is live and its publisher holds no live lease on another CID.
      ensures p != "" && cid != "" ==>
                (ok <==> until > early &&
                         (p !in old(live) || old(live)[p].cid == cid || old(live)[p].until <= now))
      ensures p != "" && cid != "" ==>
                live == if ok then old(live)[p := Lease(cid, until)] else old(live)
    {
      if p == "" || cid == "" {
        return true;
      }
      if until <= early {
        return false;
      }
      if p in live && live[p].until > now && live[p].cid != cid {
        return false;
      }
      live := live[p := Lease(cid, until)];
      return true;
    }

    method Clear(p: Peer, cid: Cid)
      modifies this
      // The lease goes if it is the one on this CID, or whatever it is on when none is named.
      ensures p != "" && p in old(live) && (cid == "" || old(live)[p].cid == cid) ==> live == old(live) - {p}
      ensures p == "" || p !in old(live) || (cid != "" && old(live)[p].cid != cid) ==> live == old(live)
    {
      if p == "" {
        return;
      }
      if p in live && (cid == "" || live[p].cid == cid) {
        live := live - {p};
      }
    }
  }

  function Cleared(live: map<Peer, Lease>, p: Peer, cid: Cid): map<Peer, Lease> {
    if p != "" && p in live && (cid == "" || live[p].cid == cid) then live - {p} else live
  }

  /** clubd's verdict on a message: only a claim with a publisher and a CID can be refused. */
  predicate ClaimOk(live: map<Peer, Lease>, m: Msg, early: int, now: int) {
    m.kind == Claim && m.publisher != "" && m.cid != "" ==>
      Grantable(live, m.publisher, m.cid, m.until, early, now)
  }

  /** The leases after a message that was accepted. */
  function LiveAfter(live: map<Peer, Lease>, m: Msg): map<Peer, Lease> {
    match m.kind
    case Claim => if m.publisher != "" && m.cid != "" then live[m.publisher := Lease(m.cid, m.until)] else live
    case Classify => Cleared(live, m.publisher, m.cid)
    case Skip => Cleared(live, m.publisher, m.cid)
    case _ => live
  }

  /** A publisher that has classified or skipped its CID may claim any other at once. */
  lemma VerdictFreesPublisher(live: map<Peer, Lease>, m: Msg, cid: Cid, until: int, early: int, now: int)
    requires (m.kind == Classify || m.kind == Skip) && m.publisher in live && live[m.publisher].cid == m.cid
    requires m.publisher != "" && cid != m.cid && live[m.publisher].until > now && until > early
    ensures !Grantable(live, m.publisher, cid, until, early, now)
    ensures Grantable(LiveAfter(live, m), m.publisher, cid, until, early, now)
  {
  }

  // ---------------------------------------------------------------- both sides in step

  /** A verified payload reaching clubd at `early`/`now` and the catalog at `later`. */
  datatype Delivery = Delivery(msg: Msg, early: int, now: int, later: int)

  datatype Pair = Pair(live: map<Peer, Lease>, claims: map<Peer, Lease>)

  predicate Accepted(s: Pair, d: Delivery) {
    ClaimOk(s.live, d.msg, d.early, d.now)
  }

  /** clubd applies its policy; only what it accepts reaches the catalog. */
  function Deliver(s: Pair, d: Delivery): Pair {
    if !Accepted(s, d) then s
    else Pair(LiveAfter(s.live, d.msg), IngestClaims(s.claims, d.msg, d.later))
  }

  /** Every lease the catalog still honours at `t` is the one clubd holds for that publisher. */
  ghost predicate InStep(s: Pair, t: int) {
    forall p :: p in s.claims && s.claims[p].until > t ==> p in s.live && s.live[p] == s.claims[p]
  }

  /** The catalog turns an accepted claim away because it honours another lease of that peer. */
  predicate TurnedAway(s: Pair, d: Delivery) {
    var p := d.msg.publisher;
    && d.msg.kind == Claim && d.msg.until > d.later
    && p in s.claims && s.claims[p].cid != d.msg.cid && s.claims[p].until > d.later
  }

  /** A refresh that shortens a live lease and reaches the catalog only after it has run out. */
  predicate LateShrink(s: Pair, d: Delivery) {
    var p := d.msg.publisher;
    && d.msg.kind == Claim && Accepted(s, d) && d.msg.until <= d.later
    && p in s.claims && s.claims[p].until > d.later
  }

  /** Named publisher and CID, and the catalog's clock never behind clubd's. */
  predicate WellTimed(d: Delivery) {
    d.msg.publisher != "" && d.msg.cid != "" && d.early <= d.now <= d.later
  }

  /** From states in step: no accepted claim is turned away, and step is lost exactly by a late shrink. */
  lemma DeliverInStep(s: Pair, d: Delivery, t: int)
    requires InStep(s, t) && WellTimed(d) && t <= d.later
    ensures Accepted(s, d) ==> !TurnedAway(s, d)
    ensures InStep(Deliver(s, d), d.later) <==> !LateShrink(s, d)
  {
    var m, s' := d.msg, Deliver(s, d);
    if LateShrink(s, d) {
      assert s'.claims[m.publisher] == s.claims[m.publisher];
    }
  }

  function Leased(ds: seq<Delivery>): Pair {
    if ds == [] then Pair(map[], map[]) else Deliver(Leased(ds[..|ds| - 1]), ds[|ds| - 1])
  }

  /** Deliveries in order, on clocks that do not go back. */
  predicate Timed(ds: seq<Delivery>) {
    ds == [] ||
    (var front, last := ds[..|ds| - 1], ds[|ds| - 1];
     Timed(front) && WellTimed(last) && EndOf(front, last.later) <= last.later)
  }

  function EndOf(ds: seq<Delivery>, default: int): int {
    if ds == [] then default else ds[|ds| - 1].later
  }

  /** No delivery of the history is a late shrink. */
  predicate NoLateShrink(ds: seq<Delivery>) {
    ds == [] || (NoLateShrink(ds[..|ds| - 1]) && !LateShrink(Leased(ds[..|ds| - 1]), ds[|ds| - 1]))
  }

  /** The two sides are in step after every delivery of the history. */
  ghost predicate AlwaysInStep(ds: seq<Delivery>) {
    ds == [] || (AlwaysInStep(ds[..|ds| - 1]) && InStep(Leased(ds), ds[|ds| - 1].later))
  }

  /** Over whole histories: the two sides are always in step exactly when no lease shrinks late. */
  lemma {:induction false} InStepIffNoLateShrink(ds: seq<Delivery>)
    requires Timed(ds)
    ensures AlwaysInStep(ds) <==> NoLateShrink(ds)
  {
    if ds != [] {
      var front, last := ds[..|ds| - 1], ds[|ds| - 1];
      InStepIffNoLateShrink(front);
      if AlwaysInStep(front) {
        DeliverInStep(Leased(front), last, EndOf(front, last.later));
      }
    }
  }

  /** In such a history the catalog never turns away a claim clubd accepted. */
  lemma NothingIsTurnedAway(ds: seq<Delivery>, d: Delivery)
    requires Timed(ds + [d]) && NoLateShrink(ds) && Accepted(Leased(ds), d)
    ensures !TurnedAway(Leased(ds), d)
  {
    assert (ds + [d])[..|ds|] == ds;
    InStepIffNoLateShrink(ds);
    DeliverInStep(Leased(ds), d, EndOf(ds, d.later));
  }

  /** A publisher that never asks for an earlier end than it holds cannot shrink a lease. */
  lemma LongerRefreshesAreSafe(s: Pair, d: Delivery, t: int)
    requires InStep(s, t) && WellTimed(d) && t <= d.later
    requires d.msg.publisher in s.live ==> d.msg.until >= s.live[d.msg.publisher].until
    ensures !LateShrink(s, d)
  {
  }

  function ClaimMsg(cid: Cid, until: int): Msg {
    Msg(Claim, "", cid, "p", "", until, "", "", "", "", false, 0)
  }

  /** Three claims of one peer after which the catalog refuses what clubd accepted. */
  lemma ShrinkingLeaseIsTurnedAway()
    ensures var ds := [Delivery(ClaimMsg("c", 1000), 0, 0, 0), Delivery(ClaimMsg("c", 10), 5, 5, 20)];
            var d := Delivery(ClaimMsg("d", 500), 30, 30, 31);
            && Timed(ds + [d]) && Accepted(Leased(ds), d) && TurnedAway(Leased(ds), d)
  {
    var d1, d2 := Delivery(ClaimMsg("c", 1000), 0, 0, 0), Delivery(ClaimMsg("c", 10), 5, 5, 20);
    var ds := [d1, d2];
    assert ds[..1] == [d1] && [d1][..0] == [];
    assert Leased([d1]) == Pair(map["p" := Lease("c", 1000)], map["p" := Lease("c", 1000)]);
    assert Leased(ds) == Pair(map["p" := Lease("c", 10)], map["p" := Lease("c", 1000)]);
    var d := Delivery(ClaimMsg("d", 500), 30, 30, 31);
    assert ds + [d] == [d1, d2, d];
    assert Timed([]) && Timed([d1]) && Timed(ds) && (ds + [d])[..2] == ds;
  }
}
