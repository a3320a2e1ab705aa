/**
 What enters the work queue and when it is taken, column by column: sightings (observer/spool.py),
 documents of a folder, reviews, and the claim of a batch (observer/work.py).
 */
module Entering {
  import opened Prelude
  import opened WorkRows
  import opened Listing
  import opened Keeping
  import opened Admission
  import opened Scheduler
  import opened Settling
  import Indexer
  import Pruning
  import D = DagPb

  // ---------------------------------------------------------------- sightings

  /** The distinct peers recorded for a cid once this sighting is in. */
  function Interest(db: Admission.Db, w: Want): nat {
    |(if w.cid in db.peers then db.peers[w.cid] else {}) + {w.peer}|
  }

  /** A folder that was dropped is let back in once as many peers as it had are recorded. */
  predicate Released(db: Admission.Db, cid: Cid) {
    cid in db.evicted ==> (if cid in db.peers then |db.peers[cid]| else 0) >= db.evicted[cid]
  }

  /** The lane of a codec has room: the lane holds less than the queue without the other lane's reserved half. */
  predicate LaneOpen(cfg: Admission.Config, rows: seq<Row>, codec: Codec) {
    var pdf, html, half := Count(rows, LivePdf), Count(rows, LiveHtml), Max(1, cfg.maxQueue / 2);
    if codec == DagPb then pdf + Min(html, half) < cfg.maxQueue && Count(rows, LiveProbe) < cfg.maxDirQueue
    else html + Min(pdf, half) < cfg.maxQueue
  }

  /** A cid that is not queued gets a row exactly when it is worth one and its lane has room; the row waits. */
  lemma NewCidIsQueuedIff(cfg: Admission.Config, db: Admission.Db, w: Want, now: int)
    requires Find(db.rows, w.cid) == None
    ensures var after, codec := Record(cfg, db, Some(w), now), cfg.codecOf(w.cid);
            && (after.inserted == 1 <==>
                  && cfg.valid(w.cid) && w.cid !in db.unprocessable
                  && codec !in {Libp2pKey, JsonBlock, DagJson, DagCbor}
                  && Released(db, w.cid)
                  && (codec == DagPb || Interest(db, w) >= cfg.preferPeers)
                  && LaneOpen(cfg, db.rows, codec))
            && (after.inserted == 1 ==> after.db.rows == db.rows + [SightedRow(w, codec, Interest(db, w), now)])
            && (after.inserted != 1 ==> after.inserted == 0 && after.db.rows == db.rows)
  {
    InterestIs(db, w);
  }

  /** The row of a first sighting: it waits, with the spool's time as the first and now as the last. */
  function SightedRow(w: Want, codec: Codec, peers: nat, now: int): Row {
    Row(w.cid, codec, w.ts, now, peers, peers, Discovered, 0, None, None, None, None, Sniff)
  }

  lemma InterestIs(db: Admission.Db, w: Want)
    ensures |AddPeer(db.peers, w.cid, w.peer)[w.cid]| == Interest(db, w)
    ensures HeldBack(db, w.cid) <==> !Released(db, w.cid)
  {
  }

  /** A further sighting of a queued cid moves its time on, counts the want, and sets the peers heard. */
  lemma QueuedCidIsRefreshed(cfg: Admission.Config, db: Admission.Db, w: Want, now: int)
    requires Find(db.rows, w.cid).Some? && Queueable(cfg, db, w.cid) && Released(db, w.cid)
    ensures var i, after := Find(db.rows, w.cid).value, Record(cfg, db, Some(w), now).db.rows;
            && |after| == |db.rows| && after[i].lastSeen >= now && after[i].lastSeen >= db.rows[i].lastSeen
            && after[i].wantCount == db.rows[i].wantCount + 1 && after[i].peerCount == Interest(db, w)
            && after[i].status == db.rows[i].status && after[i].firstSeen == db.rows[i].firstSeen
            && forall j :: 0 <= j < |after| && j != i ==> after[j] == db.rows[j]
  {
  }

  /** Sightings alone never take the unidentified roots above their cap. */
  lemma SightingKeepsRoots(cfg: Admission.Config, db: Admission.Db, w: Want, now: int)
    ensures Count(Record(cfg, db, Some(w), now).db.rows, LiveProbe) <= Max(Count(db.rows, LiveProbe), cfg.maxDirQueue)
  {
    match Find(db.rows, w.cid)
    case Some(i) => CountUpdate(db.rows, i, Seen(db.rows[i], Interest(db, w), now), LiveProbe);
    case None =>
      NewCidIsQueuedIff(cfg, db, w, now);
      CountSnoc(db.rows, Sniffed(cfg, w, Interest(db, w), now), LiveProbe);
  }

  // ---------------------------------------------------------------- documents of a folder

  /** The row of a document: named, waiting, and old enough to be taken at once. */
  predicate NamedRow(cfg: Admission.Config, l: Doc, now: int, r: Row) {
    && r.cid == l.cid && r.codec == cfg.codecOf(l.cid) && r.filename == Some(l.filename) && r.source == Named
    && r.status == Discovered && r.attempts == 0 && r.peerCount == 1 && r.wantCount == 1
    && now - r.firstSeen > cfg.minAge && r.lastSeen == now && r.error == None
  }

  /** A row that stood in the table, at most with a name where it had none. */
  ghost predicate Stood(rows: seq<Row>, r: Row) {
    exists s :: s in rows && r.cid == s.cid && r == s.(filename := r.filename) && (s.filename.Some? ==> r == s)
  }

  ghost predicate FromLink(cfg: Admission.Config, links: seq<Doc>, welcome: Doc -> bool, now: int, r: Row) {
    exists l :: l in links && welcome(l) && NamedRow(cfg, l, now, r)
  }

  lemma StoodItself(rows: seq<Row>, r: Row)
    requires r in rows
    ensures Stood(rows, r)
  {
    assert r.cid == r.cid && r == r.(filename := r.filename);
  }

  /** Naming a row, or dropping one and adding another, brings in nothing else. */
  lemma StoodThroughName(rows: seq<Row>, i: nat, name: string, r: Row)
    requires i < |rows| && Stood(rows[i := WithName(rows[i], name)], r)
    ensures Stood(rows, r)
  {
    var named := rows[i := WithName(rows[i], name)];
    var s :| s in named && r.cid == s.cid && r == s.(filename := r.filename) && (s.filename.Some? ==> r == s);
    var j :| 0 <= j < |named| && named[j] == s;
    var t := rows[j];
    assert t in rows && r.cid == t.cid && r == t.(filename := r.filename) && (t.filename.Some? ==> r == t);
  }

  lemma StoodOrAdded(rows: seq<Row>, rest: seq<Row>, child: Row, r: Row)
    requires (forall s :: s in rest ==> s in rows) && child.filename.Some? && Stood(rest + [child], r)
    ensures Stood(rows, r) || r == child
  {
    var s :| s in rest + [child] && r.cid == s.cid && r == s.(filename := r.filename) && (s.filename.Some? ==> r == s);
    if s in rest {
      assert s in rows && r.cid == s.cid && r == s.(filename := r.filename) && (s.filename.Some? ==> r == s);
    }
  }

  lemma RoomTakesOnly(cfg: Admission.Config, db: Admission.Db, s: Row)
    requires MakeRoom(cfg, db).Some? && s in MakeRoom(cfg, db).value.rows
    ensures s in db.rows
  {
    match First(db.rows, WaitingProbe, ByAge)
    case Some(i) => MemberRemoveAt(db.rows, i, s);
    case None =>
  }

  lemma ChildIsNamedRow(cfg: Admission.Config, links: seq<Doc>, welcome: Doc -> bool, now: int)
    requires links != [] && welcome(links[0])
    ensures FromLink(cfg, links, welcome, now, Child(cfg, links[0], now))
  {
    assert NamedRow(cfg, links[0], now, Child(cfg, links[0], now)) && links[0] in links;
  }

  lemma FromLaterLink(cfg: Admission.Config, links: seq<Doc>, welcome: Doc -> bool, now: int, r: Row)
    requires links != [] && FromLink(cfg, links[1..], welcome, now, r)
    ensures FromLink(cfg, links, welcome, now, r)
  {
    var l :| l in links[1..] && welcome(l) && NamedRow(cfg, l, now, r);
    assert l in links;
  }

  /** Adopting adds rows for welcome documents and touches nothing but missing names. */
  lemma {:induction false} AdoptedRows(cfg: Admission.Config, db: Admission.Db, links: seq<Doc>, named: nat,
                                       welcome: Doc -> bool, now: int, r: Row)
    requires r in Adopt(cfg, db, links, named, welcome, now).db.rows
    ensures Stood(db.rows, r) || FromLink(cfg, links, welcome, now, r)
    decreases |links|
  {
    if r in db.rows {
      StoodItself(db.rows, r);
    } else if !welcome(links[0]) {
      AdoptedRows(cfg, db, links[1..], named, welcome, now, r);
    } else if Find(db.rows, links[0].cid).Some? {
      var i := Find(db.rows, links[0].cid).value;
      var rows := db.rows[i := WithName(db.rows[i], links[0].filename)];
      AdoptedRows(cfg, db.(rows := rows), links[1..], named, welcome, now, r);
      if Stood(rows, r) {
        StoodThroughName(db.rows, i, links[0].filename, r);
      }
    } else {
      var room, child := MakeRoom(cfg, db).value, Child(cfg, links[0], now);
      AdoptedRows(cfg, Insert(room, child), links[1..], named + 1, welcome, now, r);
      ChildIsNamedRow(cfg, links, welcome, now);
      if Stood(room.rows + [child], r) {
        forall s | s in room.rows
          ensures s in db.rows
        {
          RoomTakesOnly(cfg, db, s);
        }
        StoodOrAdded(db.rows, room.rows, child, r);
      }
    }
    if links != [] && FromLink(cfg, links[1..], welcome, now, r) {
      FromLaterLink(cfg, links, welcome, now, r);
    }
  }

  /** A welcome document that was not queued is queued, unless named documents or their lane are at the limit. */
  predicate Full(cfg: Admission.Config, db: Admission.Db, named: int) {
    named >= cfg.maxNamed
    || (Count(db.rows, LivePdf) + Min(Count(db.rows, LiveHtml), Max(1, cfg.maxQueue / 2)) >= cfg.maxQueue
        && Count(db.rows, WaitingProbe) == 0)
  }

  lemma FullIff(cfg: Admission.Config, db: Admission.Db)
    ensures MakeRoom(cfg, db) == None <==>
            Count(db.rows, LivePdf) + Min(Count(db.rows, LiveHtml), Max(1, cfg.maxQueue / 2)) >= cfg.maxQueue
            && Count(db.rows, WaitingProbe) == 0
  {
    FoundIffAny(db.rows, WaitingProbe, ByAge);
  }

  /** The named row of a cid stays where it is. */
  ghost predicate HasNamed(rows: seq<Row>, cid: Cid) {
    exists r :: r in rows && r.cid == cid && r.source == Named
  }

  lemma NamedStays(cfg: Admission.Config, db: Admission.Db, l: Doc, now: int, cid: Cid)
    requires HasNamed(db.rows, cid)
    ensures Find(db.rows, l.cid).Some? ==>
              var i := Find(db.rows, l.cid).value; HasNamed(db.rows[i := WithName(db.rows[i], l.filename)], cid)
    ensures MakeRoom(cfg, db).Some? ==> HasNamed(Insert(MakeRoom(cfg, db).value, Child(cfg, l, now)).rows, cid)
  {
    var r :| r in db.rows && r.cid == cid && r.source == Named;
    var j :| 0 <= j < |db.rows| && db.rows[j] == r;
    if Find(db.rows, l.cid).Some? {
      var i := Find(db.rows, l.cid).value;
      var rows := db.rows[i := WithName(db.rows[i], l.filename)];
      assert rows[j] in rows && rows[j].cid == cid && rows[j].source == Named;
    }
    if MakeRoom(cfg, db).Some? {
      var room := MakeRoom(cfg, db).value;
      if First(db.rows, WaitingProbe, ByAge).Some? {
        MemberRemoveAt(db.rows, First(db.rows, WaitingProbe, ByAge).value, r);
      }
      assert r in room.rows;
      assert r in Insert(room, Child(cfg, l, now)).rows;
    }
  }

  lemma {:induction false} NamedStaysAll(cfg: Admission.Config, db: Admission.Db, links: seq<Doc>, named: nat,
                                         welcome: Doc -> bool, now: int, cid: Cid)
    requires HasNamed(db.rows, cid)
    ensures HasNamed(Adopt(cfg, db, links, named, welcome, now).db.rows, cid)
    decreases |links|
  {
    if links != [] && named < cfg.maxNamed {
      if !welcome(links[0]) {
        NamedStaysAll(cfg, db, links[1..], named, welcome, now, cid);
      } else {
        NamedStays(cfg, db, links[0], now, cid);
        match Find(db.rows, links[0].cid)
        case Some(i) =>
          var rows := db.rows[i := WithName(db.rows[i], links[0].filename)];
          NamedStaysAll(cfg, db.(rows := rows), links[1..], named, welcome, now, cid);
        case None =>
          if MakeRoom(cfg, db).Some? {
            var room, child := MakeRoom(cfg, db).value, Child(cfg, links[0], now);
            NamedStaysAll(cfg, Insert(room, child), links[1..], named + 1, welcome, now, cid);
          }
      }
    }
  }

  lemma StillUnqueued(cfg: Admission.Config, db: Admission.Db, l: Doc, now: int, cid: Cid)
    requires Find(db.rows, cid) == None
    ensures Find(db.rows, l.cid).Some? ==>
              var i := Find(db.rows, l.cid).value; Find(db.rows[i := WithName(db.rows[i], l.filename)], cid) == None
    ensures MakeRoom(cfg, db).Some? && l.cid != cid ==>
              Find(Insert(MakeRoom(cfg, db).value, Child(cfg, l, now)).rows, cid) == None
  {
    FindNone(db.rows, cid);
    if Find(db.rows, l.cid).Some? {
      var i := Find(db.rows, l.cid).value;
      FindNone(db.rows[i := WithName(db.rows[i], l.filename)], cid);
    }
    if MakeRoom(cfg, db).Some? && l.cid != cid {
      var room, child := MakeRoom(cfg, db).value, Child(cfg, l, now);
      forall s | s in room.rows
        ensures s in db.rows
      {
        RoomTakesOnly(cfg, db, s);
      }
      var rows := room.rows + [child];
      FindNone(rows, cid);
      forall j | 0 <= j < |rows|
        ensures rows[j].cid != cid
      {
        assert j < |room.rows| ==> rows[j] in room.rows;
      }
    }
  }

  /** Adopting one more welcome document that was not queued, given what the rest of the links come to. */
  lemma FirstAdopted(cfg: Admission.Config, db: Admission.Db, links: seq<Doc>, named: nat, welcome: Doc -> bool,
                     now: int)
    requires links != [] && named < cfg.maxNamed && welcome(links[0]) && Find(db.rows, links[0].cid) == None
    ensures var t := Adopt(cfg, db, links, named, welcome, now);
            if MakeRoom(cfg, db) == None then t == Adopted(db, 0, 0)
            else
              var next := Insert(MakeRoom(cfg, db).value, Child(cfg, links[0], now));
              var rest := Adopt(cfg, next, links[1..], named + 1, welcome, now);
              t.db == rest.db && t.added == rest.added + 1 && HasNamed(t.db.rows, links[0].cid)
  {
    if MakeRoom(cfg, db).Some? {
      var child := Child(cfg, links[0], now);
      var next := Insert(MakeRoom(cfg, db).value, child);
      assert child in next.rows && child.cid == links[0].cid && child.source == Named;
      NamedStaysAll(cfg, next, links[1..], named + 1, welcome, now, links[0].cid);
    }
  }

  function Renamed(db: Admission.Db, l: Doc): Admission.Db
    requires Find(db.rows, l.cid).Some?
  {
    var i := Find(db.rows, l.cid).value;
    db.(rows := db.rows[i := WithName(db.rows[i], l.filename)])
  }

  /** Whatever counts as full when the walk stops: the document is queued, or the walk stopped short. */
  lemma {:induction false} QueuedOrStopped(cfg: Admission.Config, db: Admission.Db, links: seq<Doc>, named: nat,
                                           welcome: Doc -> bool, now: int, k: nat, full: (Admission.Db, int) -> bool)
    requires k < |links| && welcome(links[k]) && Find(db.rows, links[k].cid) == None
    requires forall d, n :: n >= cfg.maxNamed || MakeRoom(cfg, d) == None ==> full(d, n)
    ensures var t := Adopt(cfg, db, links, named, welcome, now);
            HasNamed(t.db.rows, links[k].cid) || full(t.db, named + t.added)
    decreases |links|, 1
  {
    if named < cfg.maxNamed {
      if !welcome(links[0]) {
        QueuedOrStopped(cfg, db, links[1..], named, welcome, now, k - 1, full);
      } else if Find(db.rows, links[0].cid).Some? {
        PastQueued(cfg, db, links, named, welcome, now, k, full);
      } else {
        PastAdopted(cfg, db, links, named, welcome, now, k, full);
      }
    }
  }

  lemma PastQueued(cfg: Admission.Config, db: Admission.Db, links: seq<Doc>, named: nat, welcome: Doc -> bool, now: int,
                   k: nat, full: (Admission.Db, int) -> bool)
    requires 0 < k < |links| && welcome(links[k]) && Find(db.rows, links[k].cid) == None
    requires named < cfg.maxNamed && welcome(links[0]) && Find(db.rows, links[0].cid).Some?
    requires forall d, n :: n >= cfg.maxNamed || MakeRoom(cfg, d) == None ==> full(d, n)
    ensures var t := Adopt(cfg, db, links, named, welcome, now);
            HasNamed(t.db.rows, links[k].cid) || full(t.db, named + t.added)
    decreases |links|, 0
  {
    StillUnqueued(cfg, db, links[0], now, links[k].cid);
    QueuedOrStopped(cfg, Renamed(db, links[0]), links[1..], named, welcome, now, k - 1, full);
  }

  lemma PastAdopted(cfg: Admission.Config, db: Admission.Db, links: seq<Doc>, named: nat, welcome: Doc -> bool,
                    now: int, k: nat, full: (Admission.Db, int) -> bool)
    requires k < |links| && welcome(links[k]) && Find(db.rows, links[k].cid) == None
    requires named < cfg.maxNamed && welcome(links[0]) && Find(db.rows, links[0].cid) == None
    requires forall d, n :: n >= cfg.maxNamed || MakeRoom(cfg, d) == None ==> full(d, n)
    ensures var t := Adopt(cfg, db, links, named, welcome, now);
            HasNamed(t.db.rows, links[k].cid) || full(t.db, named + t.added)
    decreases |links|, 0
  {
    FirstAdopted(cfg, db, links, named, welcome, now);
    if MakeRoom(cfg, db).Some? && links[0].cid != links[k].cid {
      StillUnqueued(cfg, db, links[0], now, links[k].cid);
      var next := Insert(MakeRoom(cfg, db).value, Child(cfg, links[0], now));
      QueuedOrStopped(cfg, next, links[1..], named + 1, welcome, now, k - 1, full);
    }
  }

  /** Every welcome document that was not queued gets its row, unless the limits are reached at the end. */
  lemma WelcomeIsQueued(cfg: Admission.Config, db: Admission.Db, links: seq<Doc>, named: nat, welcome: Doc -> bool,
                        now: int, k: nat)
    requires k < |links| && welcome(links[k]) && Find(db.rows, links[k].cid) == None
    ensures var t := Adopt(cfg, db, links, named, welcome, now);
            HasNamed(t.db.rows, links[k].cid) || Full(cfg, t.db, named + t.added)
  {
    forall d, n | n >= cfg.maxNamed || MakeRoom(cfg, d) == None
      ensures Full(cfg, d, n)
    {
      FullIff(cfg, d);
    }
    QueuedOrStopped(cfg, db, links, named, welcome, now, k, (d, n) => Full(cfg, d, n));
  }

  lemma RoomCostsNoName(cfg: Admission.Config, db: Admission.Db)
    requires MakeRoom(cfg, db).Some?
    ensures Count(MakeRoom(cfg, db).value.rows, LiveNamed) == Count(db.rows, LiveNamed)
  {
    if !PdfCanAdmit(cfg.maxQueue, db.rows) {
      CountRemoveAt(db.rows, First(db.rows, WaitingProbe, ByAge).value, LiveNamed);
    }
  }

  /** The live named rows grow by the documents added, and those stop at the cap. */
  lemma {:induction false} NamedWithinCap(cfg: Admission.Config, db: Admission.Db, links: seq<Doc>, named: nat,
                                          welcome: Doc -> bool, now: int)
    ensures var t := Adopt(cfg, db, links, named, welcome, now);
            && Count(t.db.rows, LiveNamed) == Count(db.rows, LiveNamed) + t.added
            && named + t.added <= Max(named, cfg.maxNamed)
    decreases |links|
  {
    if links != [] && named < cfg.maxNamed {
      if !welcome(links[0]) {
        NamedWithinCap(cfg, db, links[1..], named, welcome, now);
      } else {
        match Find(db.rows, links[0].cid)
        case Some(i) =>
          var r := WithName(db.rows[i], links[0].filename);
          CountUpdate(db.rows, i, r, LiveNamed);
          NamedWithinCap(cfg, db.(rows := db.rows[i := r]), links[1..], named, welcome, now);
        case None =>
          if MakeRoom(cfg, db).Some? {
            var room, child := MakeRoom(cfg, db).value, Child(cfg, links[0], now);
            RoomCostsNoName(cfg, db);
            CountSnoc(room.rows, child, LiveNamed);
            NamedWithinCap(cfg, Insert(room, child), links[1..], named + 1, welcome, now);
          }
      }
    }
  }

  lemma StoodBefore(rows: seq<Row>, keep: Row -> bool, r: Row)
    ensures Stood(Keep(rows, keep), r) ==> Stood(rows, r)
  {
    if Stood(Keep(rows, keep), r) {
      var s :| && s in Keep(rows, keep) && r.cid == s.cid
               && r == s.(filename := r.filename) && (s.filename.Some? ==> r == s);
      KeepMembers(rows, keep, s);
    }
  }

  /** A folder's documents, told by its listing: the first PDF names, as many as are wanted of one folder. */
  lemma FolderAdds(cfg: Admission.Config, db: Admission.Db, listing: seq<D.Link>, skip: Option<Cid>,
                   settled: Cid -> bool, now: int, r: Row)
    requires r in Children(cfg, db, listing, skip, settled, now).db.rows && !Stood(db.rows, r)
    ensures exists l :: l in DocLinks(cfg.decode, listing, cfg.maxDirDocs) && NamedRow(cfg, l, now, r)
                        && cfg.valid(l.cid) && l.cid !in db.unprocessable && !settled(l.cid) && skip != Some(l.cid)
  {
    var links := DocLinks(cfg.decode, listing, cfg.maxDirDocs);
    if links == [] {
      StoodItself(db.rows, r);
    } else {
      var d := ForgetWhere(db, NotNamedNotPdf);
      var welcome := l => Welcome(cfg, db, l, skip, settled);
      AdoptedRows(cfg, d, links, Count(d.rows, LiveNamed), welcome, now, r);
      StoodBefore(db.rows, NotNamedNotPdf, r);
      var l :| l in links && welcome(l) && NamedRow(cfg, l, now, r);
    }
  }

  // ---------------------------------------------------------------- what is taken, and when

  /** A row may be taken: waiting, wanted, old enough, seen lately or kept, not tried too often, of a readable codec. */
  lemma EligibleIff(plan: Plan, now: int, peers: int, r: Row)
    ensures Eligible(plan, now, peers, r) <==>
            && r.status == Discovered && r.peerCount >= peers
            && now - r.firstSeen >= plan.minAge
            && (r.source != Sniff || now - r.lastSeen <= plan.maxAge)
            && r.attempts <= Max(plan.maxRetries, plan.maxTimeoutRetries)
            && r.codec !in {Libp2pKey, JsonBlock, DagJson}
  {
  }

  /** A document of a folder may be taken at once, by a scheduler with the same settings. */
  lemma DocumentIsReady(cfg: Admission.Config, plan: Plan, l: Doc, now: int, r: Row)
    requires NamedRow(cfg, l, now, r) && plan.minAge == cfg.minAge && plan.minPeers <= 1
    requires r.codec !in {Libp2pKey, JsonBlock, DagJson}
    ensures Documents(plan, now)(r)
  {
  }

  /** So may a CID called up for review, whatever had become of it. */
  lemma ReviewIsReady(cfg: Admission.Config, plan: Plan, db: Admission.Db, cid: Cid, now: int) returns (j: nat)
    requires cfg.valid(cid) && plan.minAge == cfg.minAge && plan.minPeers <= 1
    requires match Find(db.rows, cid)
             case Some(i) => db.rows[i].codec !in {Libp2pKey, JsonBlock, DagJson}
             case None => cfg.codecOf(cid) !in {Libp2pKey, JsonBlock, DagJson}
    ensures var rows := QueueReview(cfg, db, cid, false, now).rows;
            && j < |rows| && rows[j].cid == cid && rows[j].source == Report && rows[j].status == Discovered
            && rows[j].error == None && Reports(plan, now)(rows[j])
  {
    j := match Find(db.rows, cid) case Some(i) => i case None => |db.rows|;
  }

  /** The kinds of work, in the order they are taken: documents by source or name, pages by name, roots, the rest. */
  function Kind(r: Row): nat {
    if r.source != Sniff || PdfNamed(r) then 0
    else if NamedAs(r, ".html") || NamedAs(r, ".htm") then 1
    else if r.codec == DagPb then 2 else 3
  }

  /** One row is taken before another: by kind, then by how many want it, then by when it was last seen. */
  predicate TakenBefore(r: Row, s: Row) {
    || Kind(r) < Kind(s)
    || (Kind(r) == Kind(s) && r.peerCount > s.peerCount)
    || (Kind(r) == Kind(s) && r.peerCount == s.peerCount && r.lastSeen >= s.lastSeen)
  }

  lemma FirstByWorth(rows: seq<Row>, p: Row -> bool, j: nat)
    requires j < |rows| && p(rows[j])
    ensures First(rows, p, ByWorth).Some? && TakenBefore(rows[First(rows, p, ByWorth).value], rows[j])
  {
    FirstIsFirst(rows, p, ByWorth, j);
    PdfNamedIsPdfName(rows[j]);
    PdfNamedIsPdfName(rows[First(rows, p, ByWorth).value]);
  }

  /** The row a lane offers: documents before roots, roots only within their budget, and nothing better passed over. */
  lemma LaneOffersItsBest(plan: Plan, rows: seq<Row>, now: int, j: nat)
    requires j < |rows|
    ensures Documents(plan, now)(rows[j]) ==>
              var b := NextPdf(plan, rows, now);
              b.Some? && Documents(plan, now)(rows[b.value]) && TakenBefore(rows[b.value], rows[j])
    ensures Roots(plan, now)(rows[j]) && Count(rows, Documents(plan, now)) == 0 ==>
              var b := NextPdf(plan, rows, now);
              && (b.Some? <==> Count(rows, BusyProbe) < plan.maxDirProbes)
              && (b.Some? ==> Probe(rows[b.value]) && TakenBefore(rows[b.value], rows[j]))
    ensures Pages(plan, now)(rows[j]) ==>
              var b := NextHtml(plan, rows, now);
              b.Some? && Pages(plan, now)(rows[b.value]) && TakenBefore(rows[b.value], rows[j])
  {
    FoundIffAny(rows, Documents(plan, now), ByWorth);
    if Documents(plan, now)(rows[j]) {
      FirstByWorth(rows, Documents(plan, now), j);
    } else if Roots(plan, now)(rows[j]) {
      FirstByWorth(rows, Roots(plan, now), j);
    }
    if Pages(plan, now)(rows[j]) {
      FirstByWorth(rows, Pages(plan, now), j);
    }
  }

  // ---------------------------------------------------------------- what leaves, and what is not called up

  /** A dropped folder is entered with the peers it had, one at least, and nothing else is touched. */
  lemma FolderLedger(db: Admission.Db, cid: Cid, r: Row)
    requires Keyed(db.rows)
    ensures var after := DropDirectory(db, cid);
            && cid in after.evicted && cid !in after.peers && after.unprocessable == db.unprocessable
            && (r in after.rows <==> r in db.rows && r.cid != cid)
            && (r in db.rows && r.cid == cid ==> after.evicted[cid] == Max(1, r.peerCount))
            && forall other :: other != cid ==> (other in after.evicted <==> other in db.evicted)
  {
    KeepMembers(db.rows, NotCid(cid), r);
    FindNone(db.rows, cid);
    if r in db.rows && r.cid == cid {
      var i :| 0 <= i < |db.rows| && db.rows[i] == r;
      assert Find(db.rows, cid) == Some(i);
    }
  }

  /** A node's own classify, or a malformed CID, is never called up; and a call touches no other row. */
  lemma ReviewTouchesOne(cfg: Admission.Config, db: Admission.Db, cid: Cid, mine: bool, now: int, i: nat)
    requires i < |db.rows|
    ensures var after := QueueReview(cfg, db, cid, mine, now);
            && (mine || !cfg.valid(cid) ==> after == db)
            && i < |after.rows| && (db.rows[i].cid != cid ==> after.rows[i] == db.rows[i])
            && |after.rows| <= |db.rows| + 1 && after.evicted == db.evicted && after.peers == db.peers
  {
  }
}
