/**
 Whole-run theorems about the catalog: the tables are always views of the log, the
 first classify stays, and blacklisting a publisher erases it from history.
 */
module Erasure {
  import opened Prelude
  import opened Catalog

  lemma {:induction false} RunConsistent(env: Env, start: Db, ops: seq<Op>)
    requires Consistent(env, start)
    ensures Consistent(env, Run(env, start, ops))
  {
    if ops != [] {
      RunConsistent(env, start, ops[..|ops| - 1]);
      StepConsistent(env, Run(env, start, ops[..|ops| - 1]), ops[|ops| - 1]);
    }
  }

  lemma EmptyConsistent(env: Env)
    ensures Consistent(env, EMPTY) && FirstSeen(EMPTY)
  {
  }

  /** The ingest clock never runs backwards. */
  ghost predicate Clocked(ops: seq<Op>) {
    forall i, j :: 0 <= i < j < |ops| && ops[i].DoIngest? && ops[j].DoIngest? ==> ops[i].now <= ops[j].now
  }

  ghost predicate AllBy(ops: seq<Op>, now: int) {
    forall i :: 0 <= i < |ops| && ops[i].DoIngest? ==> ops[i].now <= now
  }

  lemma StepTimes(env: Env, db: Db, op: Op, now: int)
    requires NotBefore(db.classifies, now) && (op.DoIngest? ==> op.now <= now)
    ensures NotBefore(Step(env, db, op).classifies, now)
  {
    match op
    case DoBlacklist(p) => KeptRows(db.classifies, NotBy(p));
    case DoPurge => KeptRows(db.classifies, Usable(env));
    case _ =>
  }

  lemma {:induction false} RunTimes(env: Env, ops: seq<Op>, now: int)
    requires AllBy(ops, now)
    ensures NotBefore(Run(env, EMPTY, ops).classifies, now)
  {
    if ops != [] {
      RunTimes(env, ops[..|ops| - 1], now);
      StepTimes(env, Run(env, EMPTY, ops[..|ops| - 1]), ops[|ops| - 1], now);
    }
  }

  /** After any run, `docs` holds the earliest classify of each CID. */
  lemma {:induction false} RunFirstSeen(env: Env, ops: seq<Op>)
    requires Clocked(ops) && Idempotent(env.norm)
    ensures FirstSeen(Run(env, EMPTY, ops))
  {
    if ops != [] {
      var front, last := ops[..|ops| - 1], ops[|ops| - 1];
      RunFirstSeen(env, front);
      EmptyConsistent(env);
      RunConsistent(env, EMPTY, front);
      if last.DoIngest? {
        RunTimes(env, front, last.now);
      }
      StepFirstSeen(env, Run(env, EMPTY, front), last);
    }
  }

  // ---------------------------------------------------------------- erasure

  predicate Concerns(op: Op, p: Peer) {
    match op
    case DoIngest(m, now) => m.publisher == p
    case DoBlacklist(q) => q == p
    case DoUnblacklist(q) => q == p
    case _ => false
  }

  /** The history in which `p` never published and was never judged. */
  function WithoutPeer(ops: seq<Op>, p: Peer): seq<Op> {
    if ops == [] then []
    else
      var front, last := WithoutPeer(ops[..|ops| - 1], p), ops[|ops| - 1];
      if Concerns(last, p) then front else front + [last]
  }

  lemma {:induction false} WithoutPeerClocked(ops: seq<Op>, p: Peer)
    requires Clocked(ops)
    ensures Clocked(WithoutPeer(ops, p))
    ensures forall op :: op in WithoutPeer(ops, p) ==> op in ops
  {
    if ops != [] {
      var front, last := ops[..|ops| - 1], ops[|ops| - 1];
      assert ops == front + [last];
      WithoutPeerClocked(front, p);
      var kept := WithoutPeer(front, p);
      forall i | 0 <= i < |kept| && kept[i].DoIngest? && last.DoIngest?
        ensures kept[i].now <= last.now
      {
        assert kept[i] in front;
        var j :| 0 <= j < |front| && front[j] == kept[i];
        assert ops[j].now <= ops[|front|].now;
      }
    }
  }

  lemma {:induction false} KeepCommutes(log: seq<Entry>, f: Msg -> bool, g: Msg -> bool)
    ensures KeepEntries(KeepEntries(log, f), g) == KeepEntries(KeepEntries(log, g), f)
  {
    if log != [] {
      var front, last := log[..|log| - 1], log[|log| - 1];
      KeepCommutes(front, f, g);
    }
  }

  lemma {:induction false} KeepIdempotent(log: seq<Entry>, f: Msg -> bool)
    ensures KeepEntries(KeepEntries(log, f), f) == KeepEntries(log, f)
  {
    if log != [] {
      var front, last := log[..|log| - 1], log[|log| - 1];
      KeepIdempotent(front, f);
    }
  }

  /** The two runs side by side: the second never saw `p`. */
  ghost predicate Erased(a: Db, b: Db, p: Peer) {
    && KeepEntries(a.messages, NotBy(p)) == b.messages
    && a.blacklisted - {p} == b.blacklisted
  }

  lemma IngestErased(env: Env, a: Db, b: Db, m: Msg, now: int, p: Peer)
    requires Erased(a, b, p)
    ensures Erased(Ingest(env, a, m, now), if m.publisher == p then b else Ingest(env, b, m, now), p)
  {
    if m.publisher != p {
      LoggedKept(a.messages, NotBy(p), m);
      assert Admits(env, a, m) <==> Admits(env, b, m);
    }
  }

  /** What a blacklisting of `q` does to the log. */
  ghost predicate LogBlacklisted(env: Env, db: Db, db': Db, q: Peer) {
    if q == "" || env.me == Some(q) then
      db'.messages == db.messages && db'.blacklisted == db.blacklisted
    else
      db'.messages == KeepEntries(db.messages, NotBy(q)) && db'.blacklisted == db.blacklisted + {q}
  }

  lemma BlacklistLog(env: Env, db: Db, q: Peer)
    ensures LogBlacklisted(env, db, Blacklist(env, db, q), q)
  {
  }

  lemma BlacklistErased(env: Env, a: Db, a': Db, b: Db, b': Db, q: Peer, p: Peer)
    requires Erased(a, b, p) && LogBlacklisted(env, a, a', q) && LogBlacklisted(env, b, b', q)
    ensures Erased(a', if q == p then b else b', p)
  {
    if q == p {
      KeepIdempotent(a.messages, NotBy(p));
    } else {
      KeepCommutes(a.messages, NotBy(q), NotBy(p));
      assert a.blacklisted + {q} - {p} == a.blacklisted - {p} + {q};
    }
  }

  lemma BlacklistStepErased(env: Env, a: Db, b: Db, q: Peer, p: Peer)
    requires Erased(a, b, p)
    ensures Erased(Blacklist(env, a, q), if q == p then b else Blacklist(env, b, q), p)
  {
    BlacklistLog(env, a, q);
    BlacklistLog(env, b, q);
    BlacklistErased(env, a, Blacklist(env, a, q), b, Blacklist(env, b, q), q, p);
  }

  lemma PurgeErased(env: Env, a: Db, b: Db, p: Peer)
    requires Erased(a, b, p)
    ensures Erased(Purge(env, a), Purge(env, b), p)
  {
    KeepCommutes(a.messages, Usable(env), NotBy(p));
  }

  lemma UnblacklistErased(a: Db, b: Db, q: Peer, p: Peer)
    requires Erased(a, b, p)
    ensures Erased(Unblacklist(a, q), if q == p then b else Unblacklist(b, q), p)
  {
    assert a.blacklisted - {q} - {p} == a.blacklisted - {p} - {q};
  }

  /** The step of the run without `p` that answers a step of the other run. */
  function Counterpart(env: Env, b: Db, op: Op, p: Peer): Db {
    if Concerns(op, p) then b else Step(env, b, op)
  }

  lemma ExpireErased(env: Env, a: Db, b: Db, now: int, p: Peer)
    requires Erased(a, b, p)
    ensures Erased(Expire(env, a, now), Expire(env, b, now), p)
  {
  }

  lemma StepErased(env: Env, a: Db, b: Db, op: Op, p: Peer)
    requires Erased(a, b, p)
    ensures Erased(Step(env, a, op), Counterpart(env, b, op, p), p)
  {
    match op
    case DoIngest(m, now) => IngestErased(env, a, b, m, now, p);
    case DoBlacklist(q) => BlacklistStepErased(env, a, b, q, p);
    case DoUnblacklist(q) => UnblacklistErased(a, b, q, p);
    case DoPurge => PurgeErased(env, a, b, p);
    case DoExpire(now) => ExpireErased(env, a, b, now, p);
  }

  lemma LoggedKept(log: seq<Entry>, f: Msg -> bool, m: Msg)
    requires f(m)
    ensures Logged(KeepEntries(log, f), m) <==> Logged(log, m)
  {
    KeptEntries(log, f);
    var kept := KeepEntries(log, f);
    if i :| 0 <= i < |log| && log[i].msg == m {
      assert log[i] in kept;
    }
    if i :| 0 <= i < |kept| && kept[i].msg == m {
      assert kept[i] in log;
    }
  }

  lemma {:induction false} RunErased(env: Env, ops: seq<Op>, p: Peer)
    ensures Erased(Run(env, EMPTY, ops), Run(env, EMPTY, WithoutPeer(ops, p)), p)
  {
    if ops != [] {
      var front, last := ops[..|ops| - 1], ops[|ops| - 1];
      RunErased(env, front, p);
      StepErased(env, Run(env, EMPTY, front), Run(env, EMPTY, WithoutPeer(front, p)), last, p);
      var kept := WithoutPeer(front, p);
      assert (kept + [last])[..|kept|] == kept;
    }
  }

  /** Equal logs mean equal views, and first-seen search rows follow from the classifies. */
  lemma SameLogSameTables(env: Env, a: Db, b: Db)
    requires Consistent(env, a) && Consistent(env, b) && FirstSeen(a) && FirstSeen(b)
    requires a.messages == b.messages
    ensures a.classifies == b.classifies && a.reports == b.reports && a.aliases == b.aliases
    ensures a.docs == b.docs && a.fts == b.fts && a.count == b.count
  {
    assert a.docs.Keys == b.docs.Keys;
    assert a.docs == b.docs;
  }

  /**
   Blacklisting erases: after any history, the log and every table the search, the votes
   and the reports read are those of the history without `p`.
   */
  lemma BlacklistErases(env: Env, ops: seq<Op>, p: Peer)
    requires Clocked(ops) && Idempotent(env.norm)
    requires p != "" && env.me != Some(p)
    ensures var a := Blacklist(env, Run(env, EMPTY, ops), p);
            var b := Run(env, EMPTY, WithoutPeer(ops, p));
            && a.messages == b.messages && a.classifies == b.classifies
            && a.docs == b.docs && a.fts == b.fts && a.count == b.count
            && a.reports == b.reports && a.aliases == b.aliases
            && a.blacklisted == b.blacklisted + {p}
  {
    var before, b := Run(env, EMPTY, ops), Run(env, EMPTY, WithoutPeer(ops, p));
    WithoutPeerClocked(ops, p);
    RunSound(env, ops);
    RunSound(env, WithoutPeer(ops, p));
    RunErased(env, ops, p);
    ErasedTables(env, before, b, p);
  }

  /** Every run leaves consistent tables with first-seen search rows. */
  lemma RunSound(env: Env, ops: seq<Op>)
    requires Clocked(ops) && Idempotent(env.norm)
    ensures Consistent(env, Run(env, EMPTY, ops)) && FirstSeen(Run(env, EMPTY, ops))
  {
    EmptyConsistent(env);
    RunConsistent(env, EMPTY, ops);
    RunFirstSeen(env, ops);
  }

  /** Logs that differ by one publisher become equal tables when it is blacklisted. */
  lemma ErasedTables(env: Env, before: Db, b: Db, p: Peer)
    requires Consistent(env, before) && Consistent(env, b) && FirstSeen(before) && FirstSeen(b)
    requires Erased(before, b, p) && Idempotent(env.norm) && p != "" && env.me != Some(p)
    ensures var a := Blacklist(env, before, p);
            && a.messages == b.messages && a.classifies == b.classifies
            && a.docs == b.docs && a.fts == b.fts && a.count == b.count
            && a.reports == b.reports && a.aliases == b.aliases
            && a.blacklisted == b.blacklisted + {p}
  {
    StepConsistent(env, before, DoBlacklist(p));
    StepFirstSeen(env, before, DoBlacklist(p));
    BlacklistLog(env, before, p);
    SameLogSameTables(env, Blacklist(env, before, p), b);
  }

  /** A classify of `cid` with field `x`, and a report on the same CID by another peer. */
  function Witness(c: Cid, q: Peer, p: Peer, x: string): seq<Op> {
    [DoIngest(Msg(Classify, "", c, q, "", 0, "", "", x, "", false, 1), 1),
     DoIngest(Msg(Report, "", c, p, "wrong", 0, "", "", "", "", false, 0), 2)]
  }

  lemma WitnessRun(env: Env, c: Cid, q: Peer, p: Peer, x: string)
    requires c != "" && env.valid(c) && q != "" && p != "" && p != q
    ensures var ops := Witness(c, q, p, x);
            var row := RowOf(env, ops[0].msg, 1);
            var a, b := Run(env, EMPTY, ops), Run(env, EMPTY, WithoutPeer(ops, p));
            && a.classifies == [row] && (c, p) in a.reports
            && b.docs == map[c := DocOf(row)]
  {
    var ops := Witness(c, q, p, x);
    assert ops[..1] == [ops[0]] && [ops[0]][..0] == [];
    assert Run(env, EMPTY, []) == EMPTY;
    var db1 := Run(env, EMPTY, [ops[0]]);
    assert db1 == Ingest(env, EMPTY, ops[0].msg, 1);
    assert db1.messages == [Entry(ops[0].msg, 1)];
    assert Run(env, EMPTY, ops) == Ingest(env, db1, ops[1].msg, 2);
    assert WithoutPeer([], p) == [];
    assert WithoutPeer([ops[0]], p) == [ops[0]];
    assert WithoutPeer(ops, p) == [ops[0]];
  }

  lemma RebuildsOnReport(env: Env, db: Db, row: Row, c: Cid, p: Peer)
    requires db.classifies == [row] && row.key.cid == c && row.key.publisher != p
    requires (c, p) in db.reports && p != "" && env.me != Some(p)
    ensures var docs := Blacklist(env, db, p).docs; c in docs && docs[c] == RebuiltDoc(env, row)
  {
    assert c in Affected(db, p);
    assert [row][..0] == [] && KeepRows([], NotBy(p)) == [];
    assert KeepRows([row], NotBy(p)) == [] + [row];
    EarliestSnoc([], row, c);
    assert Earliest([row], c) == Some(row);
  }

  /** Where normalising is not idempotent, a report and a blacklisting rewrite a search row. */
  lemma NormalisingTwiceBreaksErasure(env: Env, c: Cid, q: Peer, p: Peer, x: string)
    requires env.norm(env.norm(x)) != env.norm(x)
    requires c != "" && env.valid(c) && q != "" && p != "" && p != q && env.me != Some(p)
    ensures var ops := Witness(c, q, p, x);
            && Clocked(ops)
            && Blacklist(env, Run(env, EMPTY, ops), p).docs != Run(env, EMPTY, WithoutPeer(ops, p)).docs
  {
    var ops := Witness(c, q, p, x);
    WitnessRun(env, c, q, p, x);
    WitnessClocked(c, q, p, x);
    RebuiltDiffers(env, Run(env, EMPTY, ops), Run(env, EMPTY, WithoutPeer(ops, p)), ops[0].msg, p);
  }

  lemma WitnessClocked(c: Cid, q: Peer, p: Peer, x: string)
    ensures Clocked(Witness(c, q, p, x))
  {
  }

  lemma RebuiltDiffers(env: Env, a: Db, b: Db, m: Msg, p: Peer)
    requires env.norm(env.norm(m.field)) != env.norm(m.field)
    requires var row := RowOf(env, m, 1); a.classifies == [row] && b.docs == map[m.cid := DocOf(row)]
    requires (m.cid, p) in a.reports && p != "" && p != m.publisher && env.me != Some(p)
    ensures Blacklist(env, a, p).docs != b.docs
  {
    var row := RowOf(env, m, 1);
    RebuildsOnReport(env, a, row, m.cid, p);
    RebuiltIsOriginal(env, m, 1);
    assert Blacklist(env, a, p).docs[m.cid] != b.docs[m.cid];
  }

  /**
   So erasure of search rows holds for all histories exactly when normalisation is
   idempotent, given some valid CID and two publishers other than this node.
   */
  lemma ErasureNeedsIdempotence(env: Env, c: Cid, q: Peer, p: Peer)
    requires c != "" && env.valid(c) && q != "" && p != "" && p != q && env.me != Some(p)
    ensures Idempotent(env.norm) <==>
            forall ops: seq<Op> :: Clocked(ops) ==>
              Blacklist(env, Run(env, EMPTY, ops), p).docs == Run(env, EMPTY, WithoutPeer(ops, p)).docs
  {
    if Idempotent(env.norm) {
      forall ops: seq<Op> | Clocked(ops)
        ensures Blacklist(env, Run(env, EMPTY, ops), p).docs ==
                Run(env, EMPTY, WithoutPeer(ops, p)).docs
      {
        BlacklistErases(env, ops, p);
      }
    } else {
      var x :| env.norm(env.norm(x)) != env.norm(x);
      NormalisingTwiceBreaksErasure(env, c, q, p, x);
    }
  }

  // ---------------------------------------------------------------- stability

  ghost predicate KeepsDocs(ops: seq<Op>) {
    forall i :: 0 <= i < |ops| ==> !ops[i].DoBlacklist? && !ops[i].DoPurge?
  }

  /** Once a CID has a search row, no message and no expiry replaces it. */
  lemma {:induction false} FirstDocStays(env: Env, db: Db, ops: seq<Op>, c: Cid)
    requires c in db.docs && KeepsDocs(ops)
    ensures c in Run(env, db, ops).docs && Run(env, db, ops).docs[c] == db.docs[c]
  {
    if ops != [] {
      FirstDocStays(env, db, ops[..|ops| - 1], c);
      assert !ops[|ops| - 1].DoBlacklist? && !ops[|ops| - 1].DoPurge?;
    }
  }
}
