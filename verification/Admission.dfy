/**
 Admission into the two lanes of the work queue: sightings from the spool (observer/spool.py)
 and documents named by a directory (observer/work.py).  Every run keeps one lane near half,
 so the lanes together never hold much more than the queue's size.
 */
module Admission {
  import opened Prelude
  import opened WorkRows
  import opened Listing
  import D = DagPb

  /** One parsed spool line. */
  datatype Want = Want(cid: Cid, peer: Peer, ts: int)

  datatype Config = Config(
    maxQueue: nat,
    maxDirQueue: int,
    maxNamed: int,
    maxDirDocs: int,
    preferPeers: int,
    minAge: int,
    valid: Cid -> bool,
    codecOf: Cid -> Codec,
    decode: Bytes -> string)

  /** The tables of the work database. */
  datatype Db = Db(
    rows: seq<Row>,
    peers: map<Cid, set<Peer>>,
    evicted: map<Cid, nat>,
    unprocessable: set<Cid>,
    seen: map<Cid, int>)

  const EMPTY := Db([], map[], map[], {}, map[])

  // ---------------------------------------------------------------- lane capacity

  /** Slots reserved for each kind of document. */
  function LaneCap(m: nat): nat {
    Max(1, m / 2)
  }

  predicate HtmlCanAdmit(m: nat, rows: seq<Row>) {
    Count(rows, LiveHtml) < m - Min(Count(rows, LivePdf), LaneCap(m))
  }

  predicate PdfCanAdmit(m: nat, rows: seq<Row>) {
    Count(rows, LivePdf) < m - Min(Count(rows, LiveHtml), LaneCap(m))
  }

  /** What one lane leaves to itself when the other is full. */
  function Spare(m: nat): nat {
    Max(0, m - LaneCap(m))
  }

  /** `a` and `b` count the arrivals that no lane was asked about. */
  predicate Within(m: nat, pdf: nat, html: nat, a: nat, b: nat) {
    pdf <= m + a && html <= m + b && (pdf <= Spare(m) + a || html <= Spare(m) + b)
  }

  predicate LanesWithin(m: nat, rows: seq<Row>, a: nat, b: nat) {
    Within(m, Count(rows, LivePdf), Count(rows, LiveHtml), a, b)
  }

  /** A lane that passes its check may grow by one. */
  lemma Admitted(m: nat, pdf: nat, html: nat, a: nat, b: nat)
    requires Within(m, pdf, html, a, b)
    ensures pdf < m - Min(html, LaneCap(m)) ==> Within(m, pdf + 1, html, a, b)
    ensures html < m - Min(pdf, LaneCap(m)) ==> Within(m, pdf, html + 1, a, b)
  {
  }

  lemma InsertKeepsLanes(m: nat, rows: seq<Row>, r: Row, a: nat, b: nat)
    requires LanesWithin(m, rows, a, b) && Live(r)
    requires if PdfLane(r) then PdfCanAdmit(m, rows) else HtmlCanAdmit(m, rows)
    ensures LanesWithin(m, rows + [r], a, b)
  {
    CountSnoc(rows, r, LivePdf);
    CountSnoc(rows, r, LiveHtml);
    Admitted(m, Count(rows, LivePdf), Count(rows, LiveHtml), a, b);
  }

  // ---------------------------------------------------------------- spool

  datatype Recorded = Recorded(db: Db, inserted: nat, skipped: nat)

  predicate SkipCodec(c: Codec) {
    c == Libp2pKey || c == JsonBlock || c == DagJson || c == DagCbor
  }

  /** A cid the spool may queue at all. */
  predicate Queueable(cfg: Config, db: Db, cid: Cid) {
    cfg.valid(cid) && !SkipCodec(cfg.codecOf(cid)) && cid !in db.unprocessable
  }

  function PeersOf(peers: map<Cid, set<Peer>>, cid: Cid): set<Peer> {
    if cid in peers then peers[cid] else {}
  }

  function AddPeer(peers: map<Cid, set<Peer>>, cid: Cid, peer: Peer): map<Cid, set<Peer>> {
    peers[cid := PeersOf(peers, cid) + {peer}]
  }

  function Sniffed(cfg: Config, w: Want, n: nat, now: int): Row {
    Row(w.cid, cfg.codecOf(w.cid), w.ts, now, n, n, Discovered, 0, None, None, None, None, Sniff)
  }

  /** A further sighting of a queued cid. */
  function Seen(r: Row, n: nat, now: int): Row {
    r.(lastSeen := Max(r.lastSeen, now), wantCount := r.wantCount + 1, peerCount := n)
  }

  predicate RoomFor(cfg: Config, rows: seq<Row>, codec: Codec) {
    if codec == DagPb then
      PdfCanAdmit(cfg.maxQueue, rows) && Count(rows, LiveProbe) < cfg.maxDirQueue
    else HtmlCanAdmit(cfg.maxQueue, rows)
  }

  function Queue(cfg: Config, rows: seq<Row>, w: Want, n: nat, now: int): Option<seq<Row>> {
    match Find(rows, w.cid)
    case Some(i) => Some(rows[i := Seen(rows[i], n, now)])
    case None =>
      var codec := cfg.codecOf(w.cid);
      if codec != DagPb && n < cfg.preferPeers then None
      else if RoomFor(cfg, rows, codec) then Some(rows + [Sniffed(cfg, w, n, now)])
      else None
  }

  /** An evicted cid stays away while its recorded peers are fewer than when it was evicted. */
  predicate HeldBack(db: Db, cid: Cid) {
    cid in db.evicted && |PeersOf(db.peers, cid)| + 1 <= db.evicted[cid]
  }

  function Admit(cfg: Config, db: Db, w: Want, now: int): Recorded {
    var peers := AddPeer(db.peers, w.cid, w.peer);
    if HeldBack(db, w.cid) then Recorded(db.(peers := peers), 0, 1)
    else
      var db1 := db.(peers := peers, evicted := db.evicted - {w.cid});
      match Queue(cfg, db.rows, w, |peers[w.cid]|, now)
      case Some(rows) => Recorded(db1.(rows := rows), 1, 0)
      case None => Recorded(db1, 0, 1)
  }

  function FirstSight(seen: map<Cid, int>, w: Want): map<Cid, int> {
    if w.cid in seen then seen else seen[w.cid := w.ts]
  }

  /** One spool line; a line that does not parse is `None`. */
  function Record(cfg: Config, db: Db, line: Option<Want>, now: int): Recorded {
    match line
    case None => Recorded(db, 0, 0)
    case Some(w) =>
      if !Queueable(cfg, db, w.cid) then Recorded(db, 0, 1)
      else Admit(cfg, db.(seen := FirstSight(db.seen, w)), w, now)
  }

  lemma SeenKeepsLanes(m: nat, rows: seq<Row>, i: nat, n: nat, now: int, a: nat, b: nat)
    requires i < |rows| && LanesWithin(m, rows, a, b)
    ensures LanesWithin(m, rows[i := Seen(rows[i], n, now)], a, b)
  {
    CountUpdate(rows, i, Seen(rows[i], n, now), LivePdf);
    CountUpdate(rows, i, Seen(rows[i], n, now), LiveHtml);
  }

  lemma QueueKeepsLanes(cfg: Config, rows: seq<Row>, w: Want, n: nat, now: int, a: nat, b: nat)
    requires LanesWithin(cfg.maxQueue, rows, a, b) && Queue(cfg, rows, w, n, now).Some?
    ensures LanesWithin(cfg.maxQueue, Queue(cfg, rows, w, n, now).value, a, b)
  {
    match Find(rows, w.cid)
    case Some(i) => SeenKeepsLanes(cfg.maxQueue, rows, i, n, now, a, b);
    case None => InsertKeepsLanes(cfg.maxQueue, rows, Sniffed(cfg, w, n, now), a, b);
  }

  lemma RecordKeepsLanes(cfg: Config, db: Db, line: Option<Want>, now: int, a: nat, b: nat)
    requires LanesWithin(cfg.maxQueue, db.rows, a, b)
    ensures LanesWithin(cfg.maxQueue, Record(cfg, db, line, now).db.rows, a, b)
  {
    if line.Some? {
      var w := line.value;
      var n := |AddPeer(db.peers, w.cid, w.peer)[w.cid]|;
      if Queue(cfg, db.rows, w, n, now).Some? {
        QueueKeepsLanes(cfg, db.rows, w, n, now, a, b);
      }
    }
  }

  // ---------------------------------------------------------------- directories

  function NotCid(cid: Cid): Row -> bool {
    (r: Row) => r.cid != cid
  }

  /** How many peers wanted a folder, as the ledger counts them. */
  function FolderPeers(rows: seq<Row>, cid: Cid): (k: nat)
    ensures k >= 1
  {
    match Find(rows, cid)
    case Some(i) => Max(1, rows[i].peerCount)
    case None => 1
  }

  /** `drop_directory`: the folder leaves the queue and enters the ledger of evicted cids. */
  function DropDirectory(db: Db, cid: Cid): Db {
    db.(rows := Keep(db.rows, NotCid(cid)),
        peers := db.peers - {cid},
        evicted := db.evicted[cid := FolderPeers(db.rows, cid)])
  }

  predicate NamedNotPdf(r: Row) {
    r.source == Named && r.status == Discovered && !PdfName(r)
  }

  predicate NotNamedNotPdf(r: Row) {
    !NamedNotPdf(r)
  }

  /** A link worth queueing: not the folder itself, valid, and not settled already. */
  predicate Welcome(cfg: Config, db: Db, l: Doc, skip: Option<Cid>, settled: Cid -> bool) {
    Some(l.cid) != skip && cfg.valid(l.cid) && l.cid !in db.unprocessable && !settled(l.cid)
  }

  function Child(cfg: Config, l: Doc, now: int): Row {
    Row(l.cid, cfg.codecOf(l.cid), now - cfg.minAge - 1, now, 1, 1, Discovered, 0,
        None, Some(l.filename), None, None, Named)
  }

  /** COALESCE(filename, name). */
  function WithName(r: Row, name: string): Row {
    if r.filename.Some? then r else r.(filename := Some(name))
  }

  /** Room in the PDF lane, made at the cost of one waiting probe if need be. */
  function MakeRoom(cfg: Config, db: Db): Option<Db> {
    if PdfCanAdmit(cfg.maxQueue, db.rows) then Some(db)
    else match First(db.rows, WaitingProbe, ByAge)
      case Some(i) => Some(ForgetAt(db, i))
      case None => None
  }

  /** `forget_cid`: the row and the peers that wanted it. */
  function ForgetAt(db: Db, i: nat): Db
    requires i < |db.rows|
  {
    db.(rows := RemoveAt(db.rows, i), peers := db.peers - {db.rows[i].cid})
  }

  function Insert(db: Db, r: Row): Db {
    db.(rows := db.rows + [r])
  }

  /** `moves` counts the queued rows that the new name carries into the PDF lane. */
  datatype Adopted = Adopted(db: Db, added: nat, moves: nat)

  predicate Moves(r: Row, name: string) {
    LiveHtml(r) && LivePdf(WithName(r, name))
  }

  function Adopt(cfg: Config, db: Db, links: seq<Doc>, named: nat, welcome: Doc -> bool, now: int): Adopted
    decreases |links|
  {
    if links == [] || named >= cfg.maxNamed then Adopted(db, 0, 0)
    else if !welcome(links[0]) then Adopt(cfg, db, links[1..], named, welcome, now)
    else match Find(db.rows, links[0].cid)
      case Some(i) =>
        var r := WithName(db.rows[i], links[0].filename);
        var t := Adopt(cfg, db.(rows := db.rows[i := r]), links[1..], named, welcome, now);
        t.(moves := t.moves + if Moves(db.rows[i], links[0].filename) then 1 else 0)
      case None =>
        match MakeRoom(cfg, db)
        case None => Adopted(db, 0, 0)
        case Some(room) =>
          var t := Adopt(cfg, Insert(room, Child(cfg, links[0], now)), links[1..], named + 1, welcome, now);
          t.(added := t.added + 1)
  }

  lemma NamedKeepsLanes(m: nat, rows: seq<Row>, i: nat, name: string, a: nat, b: nat)
    requires i < |rows| && LanesWithin(m, rows, a, b)
    ensures LanesWithin(m, rows[i := WithName(rows[i], name)], a + (if Moves(rows[i], name) then 1 else 0), b)
  {
    CountUpdate(rows, i, WithName(rows[i], name), LivePdf);
    CountUpdate(rows, i, WithName(rows[i], name), LiveHtml);
  }

  /** A named child enters by capacity, or in the place of a probe of the same lane. */
  lemma ChildKeepsLanes(cfg: Config, db: Db, child: Row, a: nat, b: nat)
    requires LanesWithin(cfg.maxQueue, db.rows, a, b) && LivePdf(child) && MakeRoom(cfg, db).Some?
    ensures LanesWithin(cfg.maxQueue, Insert(MakeRoom(cfg, db).value, child).rows, a, b)
  {
    if PdfCanAdmit(cfg.maxQueue, db.rows) {
      InsertKeepsLanes(cfg.maxQueue, db.rows, child, a, b);
    } else {
      var i := First(db.rows, WaitingProbe, ByAge).value;
      SwapKeepsLanes(cfg.maxQueue, db.rows, i, child, a, b);
    }
  }

  lemma SwapKeepsLanes(m: nat, rows: seq<Row>, i: nat, child: Row, a: nat, b: nat)
    requires i < |rows| && LivePdf(rows[i]) && LivePdf(child) && LanesWithin(m, rows, a, b)
    ensures LanesWithin(m, RemoveAt(rows, i) + [child], a, b)
  {
    CountRemoveAt(rows, i, LivePdf);
    CountRemoveAt(rows, i, LiveHtml);
    CountSnoc(RemoveAt(rows, i), child, LivePdf);
    CountSnoc(RemoveAt(rows, i), child, LiveHtml);
  }

  lemma {:induction false} AdoptKeepsLanes(cfg: Config, db: Db, links: seq<Doc>, named: nat,
                                           welcome: Doc -> bool, now: int, a: nat, b: nat)
    requires LanesWithin(cfg.maxQueue, db.rows, a, b)
    ensures var t := Adopt(cfg, db, links, named, welcome, now);
            LanesWithin(cfg.maxQueue, t.db.rows, a + t.moves, b)
    decreases |links|
  {
    if links != [] && named < cfg.maxNamed {
      if !welcome(links[0]) {
        AdoptKeepsLanes(cfg, db, links[1..], named, welcome, now, a, b);
      } else {
        match Find(db.rows, links[0].cid)
        case Some(i) =>
          var r := WithName(db.rows[i], links[0].filename);
          var a1 := a + if Moves(db.rows[i], links[0].filename) then 1 else 0;
          NamedKeepsLanes(cfg.maxQueue, db.rows, i, links[0].filename, a, b);
          AdoptKeepsLanes(cfg, db.(rows := db.rows[i := r]), links[1..], named, welcome, now, a1, b);
        case None =>
          if MakeRoom(cfg, db).Some? {
            var child := Child(cfg, links[0], now);
            ChildKeepsLanes(cfg, db, child, a, b);
            AdoptKeepsLanes(cfg, Insert(MakeRoom(cfg, db).value, child), links[1..], named + 1, welcome, now, a, b);
          }
      }
    }
  }

  /** Forgets every row that does not satisfy `keep`, with its peers. */
  function ForgetWhere(db: Db, keep: Row -> bool): Db {
    db.(rows := Keep(db.rows, keep), peers := db.peers - Dropped(db.rows, keep))
  }

  function Dropped(rows: seq<Row>, keep: Row -> bool): set<Cid> {
    set r <- rows | !keep(r) :: r.cid
  }

  /** The whole of enqueue_doc_children. */
  function Children(cfg: Config, db: Db, listing: seq<D.Link>, skip: Option<Cid>, settled: Cid -> bool,
                    now: int): Adopted {
    var links := DocLinks(cfg.decode, listing, cfg.maxDirDocs);
    if links == [] then Adopted(db, 0, 0)
    else
      var d := ForgetWhere(db, NotNamedNotPdf);
      Adopt(cfg, d, links, Count(d.rows, LiveNamed), l => Welcome(cfg, db, l, skip, settled), now)
  }

  lemma KeepKeepsLanes(m: nat, rows: seq<Row>, p: Row -> bool, a: nat, b: nat)
    requires LanesWithin(m, rows, a, b)
    ensures LanesWithin(m, Keep(rows, p), a, b)
  {
    KeepCount(rows, p, LivePdf);
    KeepCount(rows, p, LiveHtml);
  }

  lemma ChildrenKeepLanes(cfg: Config, db: Db, listing: seq<D.Link>, skip: Option<Cid>, settled: Cid -> bool, now: int,
                          a: nat, b: nat)
    requires LanesWithin(cfg.maxQueue, db.rows, a, b)
    ensures var t := Children(cfg, db, listing, skip, settled, now);
            LanesWithin(cfg.maxQueue, t.db.rows, a + t.moves, b)
  {
    var links := DocLinks(cfg.decode, listing, cfg.maxDirDocs);
    if links != [] {
      var d := ForgetWhere(db, NotNamedNotPdf);
      KeepKeepsLanes(cfg.maxQueue, db.rows, NotNamedNotPdf, a, b);
      AdoptKeepsLanes(cfg, d, links, Count(d.rows, LiveNamed), l => Welcome(cfg, db, l, skip, settled), now, a, b);
    }
  }

  // ---------------------------------------------------------------- runs

  /**
   Everything that happens to the table: sightings, directories, deletions of any kind, any
   rewriting of one row (status, name, source, requeueing), a review of a new cid, and any
   change of the ledgers beside it.
   */
  datatype Event =
    | Sighting(line: Option<Want>, at: int)
    | Directory(listing: seq<D.Link>, skip: Option<Cid>, settled: Cid -> bool, on: int)
    | Forget(keep: Row -> bool)
    | Ledgers(peers: map<Cid, set<Peer>>, evicted: map<Cid, nat>, unprocessable: set<Cid>)
    | Rewrite(i: nat, row: Row)
    | Review(row: Row)

  function Apply(cfg: Config, db: Db, e: Event): Db {
    match e
    case Sighting(line, now) => Record(cfg, db, line, now).db
    case Directory(listing, skip, settled, now) => Children(cfg, db, listing, skip, settled, now).db
    case Forget(keep) => ForgetWhere(db, keep)
    case Ledgers(p, v, u) => db.(peers := p, evicted := v, unprocessable := u)
    case Rewrite(i, row) => if i < |db.rows| then db.(rows := db.rows[i := row]) else db
    case Review(row) => db.(rows := db.rows + [row])
  }

  /** Arrivals in the PDF lane that no capacity check was asked about. */
  function PdfCharge(cfg: Config, db: Db, e: Event): nat {
    match e
    case Directory(listing, skip, settled, now) => Children(cfg, db, listing, skip, settled, now).moves
    case Rewrite(i, row) => if i < |db.rows| && LivePdf(row) && !LivePdf(db.rows[i]) then 1 else 0
    case Review(row) => if LivePdf(row) then 1 else 0
    case _ => 0
  }

  function HtmlCharge(db: Db, e: Event): nat {
    match e
    case Rewrite(i, row) => if i < |db.rows| && LiveHtml(row) && !LiveHtml(db.rows[i]) then 1 else 0
    case Review(row) => if LiveHtml(row) then 1 else 0
    case _ => 0
  }

  lemma RewriteKeepsLanes(m: nat, rows: seq<Row>, i: nat, row: Row, a: nat, b: nat)
    requires i < |rows| && LanesWithin(m, rows, a, b)
    ensures LanesWithin(m, rows[i := row],
                        a + (if LivePdf(row) && !LivePdf(rows[i]) then 1 else 0),
                        b + (if LiveHtml(row) && !LiveHtml(rows[i]) then 1 else 0))
  {
    CountUpdate(rows, i, row, LivePdf);
    CountUpdate(rows, i, row, LiveHtml);
  }

  lemma ApplyKeepsLanes(cfg: Config, db: Db, e: Event, a: nat, b: nat)
    requires LanesWithin(cfg.maxQueue, db.rows, a, b)
    ensures LanesWithin(cfg.maxQueue, Apply(cfg, db, e).rows, a + PdfCharge(cfg, db, e), b + HtmlCharge(db, e))
  {
    match e
    case Sighting(line, now) => RecordKeepsLanes(cfg, db, line, now, a, b);
    case Directory(listing, skip, settled, now) => ChildrenKeepLanes(cfg, db, listing, skip, settled, now, a, b);
    case Forget(keep) => KeepKeepsLanes(cfg.maxQueue, db.rows, keep, a, b);
    case Ledgers(p, v, u) =>
    case Rewrite(i, row) =>
      if i < |db.rows| {
        RewriteKeepsLanes(cfg.maxQueue, db.rows, i, row, a, b);
      }
    case Review(row) =>
      CountSnoc(db.rows, row, LivePdf);
      CountSnoc(db.rows, row, LiveHtml);
  }

  /** A queued row called up for review. */
  function Reviewed(r: Row, first: int, now: int): Row {
    r.(lastSeen := now, firstSeen := Min(r.firstSeen, first), source := Report,
       peerCount := Max(r.peerCount, 1), status := Discovered, attempts := 0, error := None)
  }

  /** A new row for review. */
  function ForReview(cfg: Config, cid: Cid, first: int, now: int): Row {
    Row(cid, cfg.codecOf(cid), first, now, 1, 1, Discovered, 0, None, None, None, None, Report)
  }

  /** `enqueue_review`: a CID this node has classified itself is not looked at again. */
  function QueueReview(cfg: Config, db: Db, cid: Cid, mine: bool, now: int): Db {
    var first := now - cfg.minAge - 1;
    if !cfg.valid(cid) || mine then db
    else match Find(db.rows, cid)
      case Some(i) => db.(rows := db.rows[i := Reviewed(db.rows[i], first, now)])
      case None => Insert(db, ForReview(cfg, cid, first, now))
  }

  /** Reviews are among the events of a run, and cost the bound at most one row each. */
  lemma ReviewIsAnEvent(cfg: Config, db: Db, cid: Cid, mine: bool, now: int) returns (e: Event)
    ensures Apply(cfg, db, e) == QueueReview(cfg, db, cid, mine, now)
    ensures PdfCharge(cfg, db, e) + HtmlCharge(db, e) <= 1
  {
    var first := now - cfg.minAge - 1;
    if !cfg.valid(cid) || mine {
      e := Ledgers(db.peers, db.evicted, db.unprocessable);
    } else {
      match Find(db.rows, cid)
      case Some(i) => e := Rewrite(i, Reviewed(db.rows[i], first, now));
      case None => e := Review(ForReview(cfg, cid, first, now));
    }
  }

  datatype Trace = Trace(db: Db, pdf: nat, html: nat)

  /** The database after the events, with the charges they ran up. */
  function Run(cfg: Config, events: seq<Event>): Trace {
    if events == [] then Trace(EMPTY, 0, 0)
    else
      var t := Run(cfg, events[..|events| - 1]);
      var e := events[|events| - 1];
      Trace(Apply(cfg, t.db, e), t.pdf + PdfCharge(cfg, t.db, e), t.html + HtmlCharge(t.db, e))
  }

  lemma {:induction false} RunKeepsLanes(cfg: Config, events: seq<Event>)
    ensures var t := Run(cfg, events); LanesWithin(cfg.maxQueue, t.db.rows, t.pdf, t.html)
  {
    if events != [] {
      var t := Run(cfg, events[..|events| - 1]);
      RunKeepsLanes(cfg, events[..|events| - 1]);
      ApplyKeepsLanes(cfg, t.db, events[|events| - 1], t.pdf, t.html);
    }
  }

  /**
   In every run the live rows number at most twice the queue's size less the reserve, plus the
   arrivals that were never checked; without such arrivals one lane is at most at its share.
   */
  lemma LiveRowsAreBounded(cfg: Config, events: seq<Event>)
    ensures var t := Run(cfg, events);
            Count(t.db.rows, Live) <= cfg.maxQueue + Spare(cfg.maxQueue) + t.pdf + t.html
    ensures var t := Run(cfg, events);
            t.pdf == t.html == 0 ==>
              Count(t.db.rows, LivePdf) <= Spare(cfg.maxQueue) || Count(t.db.rows, LiveHtml) <= Spare(cfg.maxQueue)
  {
    RunKeepsLanes(cfg, events);
    LanesPartition(Run(cfg, events).db.rows);
  }
}
