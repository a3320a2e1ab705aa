/** The work database as observer/work.py and observer/spool.py change it, statement by statement. */
module WorkDb {
  import opened Prelude
  import opened WorkRows
  import A = Admission
  import opened Listing
  import D = DagPb

  class Conn {
    var rows: seq<Row>
    var peers: map<Cid, set<Peer>>
    var evicted: map<Cid, nat>
    var unprocessable: set<Cid>
    var seen: map<Cid, int>

    constructor ()
      ensures Value() == A.EMPTY
    {
      rows, peers, evicted, unprocessable, seen := [], map[], map[], {}, map[];
    }

    ghost function Value(): A.Db
      reads this
    {
      A.Db(rows, peers, evicted, unprocessable, seen)
    }

    method ForgetAt(i: nat)
      requires i < |rows|
      modifies this
      ensures Value() == A.ForgetAt(old(Value()), i)
    {
      peers := peers - {rows[i].cid};
      rows := RemoveAt(rows, i);
    }

    /** Selects the first `n` matching rows, one by one, and forgets them. */
    method ForgetFirst(p: Row -> bool, rank: Row -> Rank, n: nat)
      modifies this`rows, this`peers
      ensures rows == DropFirst(old(rows), p, rank, n)
      ensures Narrows(peers, old(peers))
    {
      var left := n;
      while left > 0
        invariant Narrows(peers, old(peers))
        invariant DropFirst(rows, p, rank, left) == DropFirst(old(rows), p, rank, n)
      {
        var first := First(rows, p, rank);
        if first == None {
          return;
        }
        peers := peers - {rows[first.value].cid};
        rows := RemoveAt(rows, first.value);
        left := left - 1;
      }
    }

    /** Selects the rows that do not satisfy `keep` and forgets them. */
    method ForgetWhere(keep: Row -> bool)
      modifies this`rows, this`peers
      ensures Value() == A.ForgetWhere(old(Value()), keep)
    {
      var kept, gone := Select(rows, keep);
      peers := peers - gone;
      rows := kept;
    }
  }

  /** Peers are forgotten with their cid, never changed. */
  ghost predicate Narrows(now: map<Cid, set<Peer>>, before: map<Cid, set<Peer>>) {
    forall c :: c in now ==> c in before && now[c] == before[c]
  }

  lemma SelectSnoc(rows: seq<Row>, i: nat, keep: Row -> bool)
    requires i < |rows|
    ensures Keep(rows[..i + 1], keep) ==
            if keep(rows[i]) then Keep(rows[..i], keep) + [rows[i]] else Keep(rows[..i], keep)
    ensures A.Dropped(rows[..i + 1], keep) == A.Dropped(rows[..i], keep) + if keep(rows[i]) then {} else {rows[i].cid}
  {
    assert rows[..i + 1] == rows[..i] + [rows[i]];
    assert rows[..i + 1][..i] == rows[..i];
  }

  method Select(rows: seq<Row>, keep: Row -> bool) returns (kept: seq<Row>, gone: set<Cid>)
    ensures kept == Keep(rows, keep) && gone == A.Dropped(rows, keep)
  {
    kept, gone := [], {};
    for i := 0 to |rows|
      invariant kept == Keep(rows[..i], keep) && gone == A.Dropped(rows[..i], keep)
    {
      SelectSnoc(rows, i, keep);
      if keep(rows[i]) {
        kept := kept + [rows[i]];
      } else {
        gone := gone + {rows[i].cid};
      }
    }
    assert rows[..|rows|] == rows;
  }

  /** `_record` of observer/spool.py. */
  method Record(conn: Conn, cfg: A.Config, line: Option<A.Want>, now: int) returns (inserted: nat, skipped: nat)
    modifies conn
    ensures A.Recorded(conn.Value(), inserted, skipped) == A.Record(cfg, old(conn.Value()), line, now)
  {
    if line == None {
      return 0, 0;
    }
    var w := line.value;
    var codec := cfg.codecOf(w.cid);
    if !cfg.valid(w.cid) || A.SkipCodec(codec) || w.cid in conn.unprocessable {
      return 0, 1;
    }
    if w.cid !in conn.seen {
      conn.seen := conn.seen[w.cid := w.ts];
    }
    if w.cid in conn.evicted && |A.PeersOf(conn.peers, w.cid)| + 1 <= conn.evicted[w.cid] {
      conn.peers := A.AddPeer(conn.peers, w.cid, w.peer);
      return 0, 1;
    }
    conn.evicted := conn.evicted - {w.cid};
    conn.peers := A.AddPeer(conn.peers, w.cid, w.peer);
    inserted, skipped := Enqueue(conn, cfg, w, |conn.peers[w.cid]|, now);
  }

  method Enqueue(conn: Conn, cfg: A.Config, w: A.Want, n: nat, now: int) returns (inserted: nat, skipped: nat)
    modifies conn`rows
    ensures match A.Queue(cfg, old(conn.rows), w, n, now)
            case Some(rows) => conn.rows == rows && inserted == 1 && skipped == 0
            case None => conn.rows == old(conn.rows) && inserted == 0 && skipped == 1
  {
    var codec, at := cfg.codecOf(w.cid), Find(conn.rows, w.cid);
    if at.Some? {
      var r := conn.rows[at.value];
      r := r.(lastSeen := Max(r.lastSeen, now), wantCount := r.wantCount + 1, peerCount := n);
      conn.rows := conn.rows[at.value := r];
      return 1, 0;
    }
    if codec != DagPb && n < cfg.preferPeers {
      return 0, 1;
    }
    var pdf, html := Count(conn.rows, LivePdf), Count(conn.rows, LiveHtml);
    if codec == DagPb {
      if !(pdf < cfg.maxQueue - Min(html, A.LaneCap(cfg.maxQueue))) || Count(conn.rows, LiveProbe) >= cfg.maxDirQueue {
        return 0, 1;
      }
    } else if !(html < cfg.maxQueue - Min(pdf, A.LaneCap(cfg.maxQueue))) {
      return 0, 1;
    }
    conn.rows := conn.rows + [A.Sniffed(cfg, w, n, now)];
    return 1, 0;
  }

  /** `enqueue_review` of observer/work.py; `mine` says that this node has classified the CID. */
  method EnqueueReview(conn: Conn, cfg: A.Config, cid: Cid, mine: bool, now: int) returns (queued: bool)
    modifies conn
    ensures conn.Value() == A.QueueReview(cfg, old(conn.Value()), cid, mine, now)
    ensures queued <==> cfg.valid(cid) && !mine
  {
    if !cfg.valid(cid) || mine {
      return false;
    }
    var first, at := now - cfg.minAge - 1, Find(conn.rows, cid);
    if at.Some? {
      conn.rows := conn.rows[at.value := A.Reviewed(conn.rows[at.value], first, now)];
    } else {
      conn.rows := conn.rows + [A.ForReview(cfg, cid, first, now)];
    }
    return true;
  }

  /** `drop_directory` of observer/work.py. */
  method DropDirectory(conn: Conn, cid: Cid)
    modifies conn
    ensures conn.Value() == A.DropDirectory(old(conn.Value()), cid)
  {
    var at, peers := Find(conn.rows, cid), 1;
    if at.Some? && conn.rows[at.value].peerCount > 0 {
      peers := conn.rows[at.value].peerCount;
    }
    conn.evicted := conn.evicted[cid := peers];
    conn.peers := conn.peers - {cid};
    var kept, _ := Select(conn.rows, A.NotCid(cid));
    conn.rows := kept;
  }

  /** `enqueue_doc_children` of observer/work.py. */
  method EnqueueDocChildren(conn: Conn, cfg: A.Config, listing: seq<D.Link>, skip: Option<Cid>,
                            settled: Cid -> bool, now: int)
    returns (n: nat)
    modifies conn
    ensures conn.Value() == A.Children(cfg, old(conn.Value()), listing, skip, settled, now).db
    ensures n == A.Children(cfg, old(conn.Value()), listing, skip, settled, now).added
  {
    var links := DocChildLinks(cfg.decode, listing, cfg.maxDirDocs);
    if links == [] {
      return 0;
    }
    ghost var db := conn.Value();
    conn.ForgetWhere(A.NotNamedNotPdf);
    var named := Count(conn.rows, LiveNamed);
    var blocked := conn.unprocessable;
    var welcome := (l: Doc) => Some(l.cid) != skip && cfg.valid(l.cid) && l.cid !in blocked && !settled(l.cid);
    n := AdoptAll(conn, cfg, links, named, welcome, now);
    SameWelcome(cfg, A.ForgetWhere(db, A.NotNamedNotPdf), links, named, welcome,
                l => A.Welcome(cfg, db, l, skip, settled), now);
  }

  /** Only what the test answers matters. */
  lemma {:induction false} SameWelcome(cfg: A.Config, db: A.Db, links: seq<Doc>, named: nat,
                                       p: Doc -> bool, q: Doc -> bool, now: int)
    requires forall l :: p(l) == q(l)
    ensures A.Adopt(cfg, db, links, named, p, now) == A.Adopt(cfg, db, links, named, q, now)
    decreases |links|
  {
    if links != [] && named < cfg.maxNamed {
      if !p(links[0]) {
        SameWelcome(cfg, db, links[1..], named, p, q, now);
      } else {
        match Find(db.rows, links[0].cid)
        case Some(i) =>
          var r := A.WithName(db.rows[i], links[0].filename);
          SameWelcome(cfg, db.(rows := db.rows[i := r]), links[1..], named, p, q, now);
        case None =>
          match A.MakeRoom(cfg, db)
          case None =>
          case Some(room) =>
            SameWelcome(cfg, A.Insert(room, A.Child(cfg, links[0], now)), links[1..], named + 1, p, q, now);
      }
    }
  }

  method AdoptAll(conn: Conn, cfg: A.Config, links: seq<Doc>, named0: nat, welcome: Doc -> bool, now: int)
    returns (n: nat)
    modifies conn
    ensures conn.Value() == A.Adopt(cfg, old(conn.Value()), links, named0, welcome, now).db
    ensures n == A.Adopt(cfg, old(conn.Value()), links, named0, welcome, now).added
  {
    ghost var whole := A.Adopt(cfg, conn.Value(), links, named0, welcome, now);
    var named: nat, i := named0, 0;
    n := 0;
    while i < |links|
      invariant 0 <= i <= |links|
      invariant A.Adopt(cfg, conn.Value(), links[i..], named, welcome, now).db == whole.db
      invariant n + A.Adopt(cfg, conn.Value(), links[i..], named, welcome, now).added == whole.added
    {
      var l := links[i];
      assert links[i..][1..] == links[i + 1..];
      if named >= cfg.maxNamed {
        return;
      }
      i := i + 1;
      if welcome(l) {
        var step := AdoptOne(conn, cfg, l, now);
        if step == None {
          return;
        }
        n, named := n + step.value, named + step.value;
      }
    }
  }

  /** One welcome link: rename the queued row, or insert a child if there is room; `None` stops the loop. */
  method AdoptOne(conn: Conn, cfg: A.Config, l: Doc, now: int) returns (added: Option<nat>)
    modifies conn
    ensures match Find(old(conn.rows), l.cid)
            case Some(i) =>
              added == Some(0) &&
              conn.Value() == old(conn.Value()).(rows := old(conn.rows)[i := A.WithName(old(conn.rows)[i], l.filename)])
            case None =>
              match A.MakeRoom(cfg, old(conn.Value()))
              case None => added == None && conn.Value() == old(conn.Value())
              case Some(room) => added == Some(1) && conn.Value() == A.Insert(room, A.Child(cfg, l, now))
  {
    var at := Find(conn.rows, l.cid);
    if at.Some? {
      var r := conn.rows[at.value];
      conn.rows := conn.rows[at.value := if r.filename.Some? then r else r.(filename := Some(l.filename))];
      return Some(0);
    }
    if !A.PdfCanAdmit(cfg.maxQueue, conn.rows) {
      var oldest := First(conn.rows, WaitingProbe, ByAge);
      if oldest == None {
        return None;
      }
      conn.ForgetAt(oldest.value);
    }
    conn.rows := conn.rows + [A.Child(cfg, l, now)];
    return Some(1);
  }
}
