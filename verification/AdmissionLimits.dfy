/** How far admission really goes: the lane bound is reached. */
module AdmissionLimits {
  import opened Prelude
  import opened WorkRows
  import opened Admission

  // ---------------------------------------------------------------- the bound is reached

  /** A queue of size `m` in which any peer's want counts. */
  function Roomy(m: nat): Config {
    Config(m, m, 0, 0, 1, 0, (c: Cid) => true, (c: Cid) => if |c| > 0 && c[0] == 'd' then DagPb else Raw,
           (b: Bytes) => "")
  }

  function NewCid(kind: char, n: nat): (c: Cid)
    ensures |c| == n + 1 && c[0] == kind
  {
    [kind] + seq(n, i => kind)
  }

  /** The `n`-th want: raw cids fill the HTML lane to the brim, then dag-pb roots take what the PDF lane has left. */
  function NthWant(m: nat, n: nat): Want {
    Want(NewCid(if n < m then 'r' else 'd', n), "peer", 0)
  }

  function NthSight(m: nat, n: nat): Event {
    Sighting(Some(NthWant(m, n)), 0)
  }

  function Fill(m: nat, n: nat): (es: seq<Event>)
    ensures |es| == n
  {
    if n == 0 then [] else Fill(m, n - 1) + [NthSight(m, n - 1)]
  }

  ghost predicate NoLonger(rows: seq<Row>, n: nat) {
    forall i :: 0 <= i < |rows| ==> |rows[i].cid| <= n
  }

  ghost predicate HeardOf(peers: map<Cid, set<Peer>>, n: nat) {
    forall c :: c in peers ==> |c| <= n
  }

  /** The database after `n` of these sightings. */
  ghost predicate FilledAt(m: nat, db: Db, n: nat) {
    && Count(db.rows, LiveHtml) == Min(n, m)
    && Count(db.rows, LivePdf) == Count(db.rows, LiveProbe) == n - Min(n, m)
    && NoLonger(db.rows, n) && HeardOf(db.peers, n)
    && db.evicted == map[] && db.unprocessable == {}
  }

  lemma InsertCounts(rows: seq<Row>, r: Row)
    requires Live(r) && !Kept(r) && !PdfName(r)
    ensures Count(rows + [r], LiveHtml) == Count(rows, LiveHtml) + (if r.codec == DagPb then 0 else 1)
    ensures Count(rows + [r], LivePdf) == Count(rows, LivePdf) + (if r.codec == DagPb then 1 else 0)
    ensures Count(rows + [r], LiveProbe) == Count(rows, LiveProbe) + (if r.codec == DagPb then 1 else 0)
  {
    CountSnoc(rows, r, LiveHtml);
    CountSnoc(rows, r, LivePdf);
    CountSnoc(rows, r, LiveProbe);
  }

  lemma NoLongerSnoc(rows: seq<Row>, r: Row, n: nat)
    requires NoLonger(rows, n) && |r.cid| == n + 1
    ensures NoLonger(rows + [r], n + 1)
  {
  }

  /** A first sighting with room for it adds one row. */
  lemma SightAdds(cfg: Config, db: Db, w: Want, now: int)
    requires Queueable(cfg, db, w.cid) && w.cid !in db.evicted && Find(db.rows, w.cid) == None
    requires cfg.preferPeers <= 1 && RoomFor(cfg, db.rows, cfg.codecOf(w.cid))
    ensures var peers := AddPeer(db.peers, w.cid, w.peer);
            Record(cfg, db, Some(w), now).db ==
            Db(db.rows + [Sniffed(cfg, w, |peers[w.cid]|, now)], peers, db.evicted, db.unprocessable,
               FirstSight(db.seen, w))
  {
    assert db.evicted - {w.cid} == db.evicted;
    var peers := AddPeer(db.peers, w.cid, w.peer);
    assert w.peer in peers[w.cid];
  }

  lemma InsertFills(m: nat, n: nat, db: Db, r: Row, peers: map<Cid, set<Peer>>, seen: map<Cid, int>)
    requires n < m + Spare(m) && FilledAt(m, db, n) && HeardOf(peers, n + 1)
    requires |r.cid| == n + 1 && Live(r) && !Kept(r) && !PdfName(r) && (r.codec == DagPb <==> n >= m)
    ensures FilledAt(m, Db(db.rows + [r], peers, map[], {}, seen), n + 1)
  {
    InsertCounts(db.rows, r);
    NoLongerSnoc(db.rows, r, n);
  }

  lemma RoomAt(m: nat, n: nat, db: Db)
    requires n < m + Spare(m) && FilledAt(m, db, n)
    ensures RoomFor(Roomy(m), db.rows, if n < m then Raw else DagPb)
  {
  }

  /** The next sighting finds room and takes it. */
  lemma SightFills(m: nat, n: nat, db: Db, after: Db)
    requires n < m + Spare(m) && FilledAt(m, db, n) && after == Apply(Roomy(m), db, NthSight(m, n))
    ensures FilledAt(m, after, n + 1)
  {
    var w := NthWant(m, n);
    var peers := AddPeer(db.peers, w.cid, w.peer);
    FindNone(db.rows, w.cid);
    RoomAt(m, n, db);
    SightAdds(Roomy(m), db, w, 0);
    InsertFills(m, n, db, Sniffed(Roomy(m), w, |peers[w.cid]|, 0), peers, FirstSight(db.seen, w));
  }

  /** Whatever applies the events: what each sighting does, all of them do. */
  function FillDb(apply: (Db, Event) -> Db, m: nat, n: nat): Db {
    if n == 0 then EMPTY else apply(FillDb(apply, m, n - 1), NthSight(m, n - 1))
  }

  lemma {:induction false} FillFills(apply: (Db, Event) -> Db, m: nat, n: nat)
    requires n <= m + Spare(m)
    requires forall k: nat, db :: k < n && FilledAt(m, db, k) ==> FilledAt(m, apply(db, NthSight(m, k)), k + 1)
    ensures FilledAt(m, FillDb(apply, m, n), n)
  {
    if n > 0 {
      FillFills(apply, m, n - 1);
    }
  }

  lemma {:induction false} FillRuns(apply: (Db, Event) -> Db, m: nat, n: nat)
    requires forall db, e :: apply(db, e) == Apply(Roomy(m), db, e)
    ensures Run(Roomy(m), Fill(m, n)) == Trace(FillDb(apply, m, n), 0, 0)
  {
    if n > 0 {
      FillRuns(apply, m, n - 1);
      assert Fill(m, n)[..n - 1] == Fill(m, n - 1);
    }
  }

  lemma EachFills(apply: (Db, Event) -> Db, m: nat)
    requires forall db, e :: apply(db, e) == Apply(Roomy(m), db, e)
    ensures forall k: nat, db :: k < m + Spare(m) && FilledAt(m, db, k) ==>
              FilledAt(m, apply(db, NthSight(m, k)), k + 1)
  {
    forall k: nat, db | k < m + Spare(m) && FilledAt(m, db, k)
      ensures FilledAt(m, apply(db, NthSight(m, k)), k + 1)
    {
      SightFills(m, k, db, apply(db, NthSight(m, k)));
    }
  }

  lemma FullIsLive(m: nat, db: Db)
    requires FilledAt(m, db, m + Spare(m))
    ensures Count(db.rows, Live) == m + Spare(m)
  {
    LanesPartition(db.rows);
  }

  lemma FillIsFull(apply: (Db, Event) -> Db, m: nat)
    requires forall db, e :: apply(db, e) == Apply(Roomy(m), db, e)
    ensures Count(FillDb(apply, m, m + Spare(m)).rows, Live) == m + Spare(m)
  {
    EachFills(apply, m);
    FillFills(apply, m, m + Spare(m));
    FullIsLive(m, FillDb(apply, m, m + Spare(m)));
  }

  /** For every queue size some run without unchecked arrivals reaches the bound exactly. */
  lemma BoundIsReached(m: nat)
    ensures var t := Run(Roomy(m), Fill(m, m + Spare(m)));
            t.pdf == t.html == 0 && Count(t.db.rows, Live) == m + Spare(m)
  {
    var apply := (db: Db, e: Event) => Apply(Roomy(m), db, e);
    FillRuns(apply, m, m + Spare(m));
    FillIsFull(apply, m);
  }
}
