/**
 When a folder that was dropped comes back.  observer/work.py says later wants are ignored unless
 peers grow; observer/spool.py counts the distinct peers heard since, and releases the folder at
 the first sighting that finds as many as it had.
 */
module Eviction {
  import opened Prelude
  import opened WorkRows
  import opened Admission

  function Heard(peers: seq<Peer>): set<Peer> {
    set p <- peers
  }

  /** Sightings of one cid by these peers, one after the other. */
  function Wanted(cfg: Config, db: Db, cid: Cid, peers: seq<Peer>, now: int): Db {
    if peers == [] then db
    else
      var before := Wanted(cfg, db, cid, peers[..|peers| - 1], now);
      Record(cfg, before, Some(Want(cid, peers[|peers| - 1], now)), now).db
  }

  /** Still in the ledger with the same count, all later peers recorded, and the queue as it was. */
  ghost predicate Held(db: Db, rows: seq<Row>, cid: Cid, k: nat, peers: seq<Peer>) {
    cid in db.evicted && db.evicted[cid] == k && PeersOf(db.peers, cid) == Heard(peers) && db.rows == rows
  }

  lemma HeardMore(peers: seq<Peer>)
    requires peers != []
    ensures Heard(peers) == Heard(peers[..|peers| - 1]) + {peers[|peers| - 1]}
    ensures |Heard(peers[..|peers| - 1])| <= |Heard(peers)|
  {
    var front, p := peers[..|peers| - 1], peers[|peers| - 1];
    assert peers == front + [p];
    if p in Heard(front) {
      assert Heard(peers) == Heard(front);
    }
  }

  /** A cid that is not queued is queued by a sighting exactly when enough peers want it and its lane has room. */
  predicate Enters(cfg: Config, rows: seq<Row>, cid: Cid, peers: nat) {
    (cfg.codecOf(cid) == DagPb || peers >= cfg.preferPeers) && RoomFor(cfg, rows, cfg.codecOf(cid))
  }

  lemma {:induction false} FindAppended(rows: seq<Row>, r: Row)
    ensures Find(rows + [r], r.cid).Some?
  {
  }

  lemma SightOfHeld(cfg: Config, db: Db, rows: seq<Row>, cid: Cid, k: nat, peers: seq<Peer>, now: int)
    requires peers != [] && Queueable(cfg, db, cid) && Held(db, rows, cid, k, peers[..|peers| - 1])
    requires Find(rows, cid) == None
    ensures var after := Record(cfg, db, Some(Want(cid, peers[|peers| - 1], now)), now).db;
            Queueable(cfg, after, cid) &&
            (if |Heard(peers[..|peers| - 1])| < k then Held(after, rows, cid, k, peers)
             else cid !in after.evicted && (Find(after.rows, cid).Some? <==> Enters(cfg, rows, cid, |Heard(peers)|)))
  {
    HeardMore(peers);
    FindAppended(rows, Sniffed(cfg, Want(cid, peers[|peers| - 1], now), |Heard(peers)|, now));
  }

  /** The first sighting that finds enough peers recorded. */
  predicate Releases(k: nat, peers: seq<Peer>) {
    peers != [] && !StillHeld(k, peers) && StillHeld(k, peers[..|peers| - 1])
  }

  predicate StillHeld(k: nat, peers: seq<Peer>) {
    peers == [] || |Heard(peers[..|peers| - 1])| < k
  }

  lemma {:induction false} StaysQueueable(cfg: Config, db: Db, cid: Cid, peers: seq<Peer>, now: int)
    requires Queueable(cfg, db, cid)
    ensures Queueable(cfg, Wanted(cfg, db, cid, peers, now), cid)
  {
    if peers != [] {
      StaysQueueable(cfg, db, cid, peers[..|peers| - 1], now);
    }
  }

  lemma {:induction false} StaysHeld(cfg: Config, db: Db, cid: Cid, k: nat, peers: seq<Peer>, now: int)
    requires Queueable(cfg, db, cid) && Held(db, db.rows, cid, k, []) && Find(db.rows, cid) == None
    requires StillHeld(k, peers)
    ensures Held(Wanted(cfg, db, cid, peers, now), db.rows, cid, k, peers)
  {
    if peers != [] {
      var front := peers[..|peers| - 1];
      if front != [] {
        HeardMore(front);
      }
      StaysHeld(cfg, db, cid, k, front, now);
      StaysQueueable(cfg, db, cid, front, now);
      SightOfHeld(cfg, Wanted(cfg, db, cid, front, now), db.rows, cid, k, peers, now);
    }
  }

  lemma ReleasedNow(cfg: Config, db: Db, cid: Cid, k: nat, peers: seq<Peer>, now: int)
    requires Queueable(cfg, db, cid) && Held(db, db.rows, cid, k, []) && Find(db.rows, cid) == None
    requires Releases(k, peers)
    ensures var after := Wanted(cfg, db, cid, peers, now);
            cid !in after.evicted && (Find(after.rows, cid).Some? <==> Enters(cfg, db.rows, cid, |Heard(peers)|))
  {
    var front := peers[..|peers| - 1];
    StaysHeld(cfg, db, cid, k, front, now);
    StaysQueueable(cfg, db, cid, front, now);
    SightOfHeld(cfg, Wanted(cfg, db, cid, front, now), db.rows, cid, k, peers, now);
  }

  lemma {:induction false} StaysReleased(cfg: Config, db: Db, cid: Cid, k: nat, peers: seq<Peer>, now: int)
    requires Queueable(cfg, db, cid) && Held(db, db.rows, cid, k, []) && Find(db.rows, cid) == None
    requires !StillHeld(k, peers)
    ensures cid !in Wanted(cfg, db, cid, peers, now).evicted
  {
    var front := peers[..|peers| - 1];
    if StillHeld(k, front) {
      ReleasedNow(cfg, db, cid, k, peers, now);
    } else {
      StaysReleased(cfg, db, cid, k, front, now);
    }
  }

  lemma DroppedIsHeld(cfg: Config, db: Db, cid: Cid)
    requires Queueable(cfg, db, cid)
    ensures var d := DropDirectory(db, cid);
            Queueable(cfg, d, cid) && Held(d, d.rows, cid, FolderPeers(db.rows, cid), []) && Find(d.rows, cid) == None
  {
    var rows := Keep(db.rows, NotCid(cid));
    FindNone(rows, cid);
    forall i | 0 <= i < |rows|
      ensures rows[i].cid != cid
    {
      KeepMembers(db.rows, NotCid(cid), rows[i]);
    }
    assert PeersOf(DropDirectory(db, cid).peers, cid) == Heard([]);
  }

  /**
   A dropped folder stays in the ledger, and out of the queue, exactly until a sighting finds as
   many distinct peers recorded since the drop as it had before, whoever makes that sighting; and
   that sighting queues it again exactly when its lane has room.
   */
  lemma ReturnsWhenAsManyPeers(cfg: Config, db: Db, cid: Cid, peers: seq<Peer>, now: int)
    requires Queueable(cfg, db, cid)
    ensures var d, k := DropDirectory(db, cid), FolderPeers(db.rows, cid);
            var after := Wanted(cfg, d, cid, peers, now);
            && (cid in after.evicted <==> StillHeld(k, peers))
            && (StillHeld(k, peers) ==> after.rows == d.rows && Find(after.rows, cid) == None)
            && (Releases(k, peers) ==> (Find(after.rows, cid).Some? <==> Enters(cfg, d.rows, cid, |Heard(peers)|)))
  {
    var d, k := DropDirectory(db, cid), FolderPeers(db.rows, cid);
    DroppedIsHeld(cfg, db, cid);
    if StillHeld(k, peers) {
      StaysHeld(cfg, d, cid, k, peers, now);
    } else {
      StaysReleased(cfg, d, cid, k, peers, now);
    }
    if Releases(k, peers) {
      ReleasedNow(cfg, d, cid, k, peers, now);
    }
  }

  /** So interest need not grow: a folder one peer wanted returns when that peer asks twice. */
  lemma SamePeerTwice(cfg: Config, db: Db, cid: Cid, p: Peer, now: int)
    requires Queueable(cfg, db, cid) && FolderPeers(db.rows, cid) == 1
    ensures var d := DropDirectory(db, cid);
            var once, twice := Wanted(cfg, d, cid, [p], now), Wanted(cfg, d, cid, [p, p], now);
            && cid in once.evicted && Find(once.rows, cid) == None
            && cid !in twice.evicted && (Find(twice.rows, cid).Some? <==> Enters(cfg, d.rows, cid, 1))
  {
    assert [p][..0] == [] && [p, p][..1] == [p];
    assert Heard([]) == {} && Heard([p]) == {p} && Heard([p, p]) == {p};
    ReturnsWhenAsManyPeers(cfg, db, cid, [p], now);
    ReturnsWhenAsManyPeers(cfg, db, cid, [p, p], now);
  }
}
