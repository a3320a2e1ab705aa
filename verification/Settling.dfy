/**
 What `process_one` leaves in the work queue: the mark it ends with, and for a folder its
 documents in place of itself (observer/indexer.py).
 */
module Settling {
  import opened Prelude
  import opened WorkRows
  import opened Listing
  import opened Fetch
  import opened Indexer
  import opened WorkDb
  import opened Eviction
  import Assembly
  import FileDag
  import Catalog
  import SkipHook
  import A = Admission
  import D = DagPb

  /** The row of `cid` with a new status and error. */
  function Marked(cid: Cid, status: Status, error: Option<string>, r: Row): Row {
    if r.cid == cid then r.(status := status, error := error) else r
  }

  function MarkAll(rows: seq<Row>, cid: Cid, status: Status, error: Option<string>): (r: seq<Row>)
    ensures |r| == |rows| && forall i :: 0 <= i < |rows| ==> r[i] == Marked(cid, status, error, rows[i])
  {
    if rows == [] then []
    else MarkAll(rows[..|rows| - 1], cid, status, error) + [Marked(cid, status, error, rows[|rows| - 1])]
  }

  function RowForgotten(db: A.Db, cid: Cid): A.Db {
    db.(rows := Keep(db.rows, A.NotCid(cid)), peers := db.peers - {cid})
  }

  /** A folder's documents are queued first, then the folder is dropped. */
  function FolderSettled(cfg: A.Config, db: A.Db, cid: Cid, links: seq<D.Link>, settled: Cid -> bool, now: int): A.Db {
    A.DropDirectory(A.Children(cfg, db, links, Some(cid), settled, now).db, cid)
  }

  function LinksOf(sample: Option<Sample>): seq<D.Link> {
    if sample.Some? && sample.value.Folder? then sample.value.links else []
  }

  /** The queue after the indexer's mark; `retry` is the error noted on a row that is queued again. */
  function Settle(cfg: A.Config, db: A.Db, cid: Cid, mark: Mark, links: seq<D.Link>, settled: Cid -> bool,
                  retry: Option<string>, now: int): A.Db {
    match mark
    case Forgotten => RowForgotten(db, cid)
    case MarkedSkipped(reason) => db.(rows := MarkAll(db.rows, cid, Skipped, Some(reason)))
    case MarkedIndexed => db.(rows := MarkAll(db.rows, cid, Indexed, None))
    case Requeued => db.(rows := MarkAll(db.rows, cid, Discovered, retry))
    case FolderDropped => FolderSettled(cfg, db, cid, links, settled, now)
    case Remembered => RowForgotten(db.(unprocessable := db.unprocessable + {cid}), cid)
  }

  ghost predicate NotBusy(rows: seq<Row>, cid: Cid) {
    forall r :: r in rows && r.cid == cid ==> !Busy(r)
  }

  /** Whatever the outcome, the row is no longer being processed. */
  lemma NothingLeftProcessing(cfg: A.Config, db: A.Db, cid: Cid, mark: Mark, links: seq<D.Link>,
                              settled: Cid -> bool, retry: Option<string>, now: int)
    ensures NotBusy(Settle(cfg, db, cid, mark, links, settled, retry, now).rows, cid)
  {
    var after := Settle(cfg, db, cid, mark, links, settled, retry, now);
    var before := if mark == FolderDropped then A.Children(cfg, db, links, Some(cid), settled, now).db else db;
    forall r | r in after.rows && r.cid == cid
      ensures !Busy(r)
    {
      KeepMembers(before.rows, A.NotCid(cid), r);
    }
  }

  /** The status and the error each mark leaves in the row; what is queued again waits. */
  lemma MarkIsWritten(cfg: A.Config, db: A.Db, cid: Cid, mark: Mark, links: seq<D.Link>, settled: Cid -> bool,
                      retry: Option<string>, now: int, i: nat)
    requires i < |db.rows| && (mark.MarkedSkipped? || mark == MarkedIndexed || mark == Requeued)
    ensures var after := Settle(cfg, db, cid, mark, links, settled, retry, now);
            && |after.rows| == |db.rows| && after == db.(rows := after.rows)
            && (db.rows[i].cid != cid ==> after.rows[i] == db.rows[i])
            && (db.rows[i].cid == cid ==>
                  && after.rows[i] == db.rows[i].(status := after.rows[i].status, error := after.rows[i].error)
                  && (mark.MarkedSkipped? ==>
                        after.rows[i].status == Skipped && after.rows[i].error == Some(mark.reason))
                  && (mark == MarkedIndexed ==> after.rows[i].status == Indexed && after.rows[i].error == None)
                  && (mark == Requeued ==> after.rows[i].status == Discovered && after.rows[i].error == retry))
  {
  }

  /** A forgotten cid has no row and no peers left; one that is remembered is never queued from a sighting again. */
  lemma ForgottenIsGone(cfg: A.Config, db: A.Db, cid: Cid, mark: Mark, links: seq<D.Link>, settled: Cid -> bool,
                        retry: Option<string>, now: int, w: A.Want, later: int, r: Row)
    requires (mark == Forgotten || mark == Remembered) && w.cid == cid
    ensures var after := Settle(cfg, db, cid, mark, links, settled, retry, now);
            && (r in after.rows <==> r in db.rows && r.cid != cid)
            && cid !in after.peers
            && (mark == Remembered ==> A.Record(cfg, after, Some(w), later) == A.Recorded(after, 0, 1))
  {
    KeepMembers(db.rows, A.NotCid(cid), r);
  }

  /** A processed folder is out of the queue, and only as many peers as it had bring it back. */
  lemma FolderIsGone(cfg: A.Config, db: A.Db, cid: Cid, links: seq<D.Link>, settled: Cid -> bool, now: int,
                     peers: seq<Peer>, later: int)
    requires A.Queueable(cfg, A.Children(cfg, db, links, Some(cid), settled, now).db, cid)
    ensures var adopted := A.Children(cfg, db, links, Some(cid), settled, now).db;
            var after := FolderSettled(cfg, db, cid, links, settled, now);
            && Find(after.rows, cid) == None
            && (cid in Wanted(cfg, after, cid, peers, later).evicted <==>
                  StillHeld(A.FolderPeers(adopted.rows, cid), peers))
  {
    var adopted := A.Children(cfg, db, links, Some(cid), settled, now).db;
    DroppedIsHeld(cfg, adopted, cid);
    ReturnsWhenAsManyPeers(cfg, adopted, cid, peers, later);
  }

  /** The statements behind each mark. */
  method SettleRow(conn: Conn, cfg: A.Config, cid: Cid, mark: Mark, links: seq<D.Link>, settled: Cid -> bool,
                   retry: Option<string>, now: int)
    modifies conn
    ensures conn.Value() == Settle(cfg, old(conn.Value()), cid, mark, links, settled, retry, now)
  {
    match mark
    case Forgotten => ForgetCid(conn, cid);
    case MarkedSkipped(reason) => conn.rows := MarkAll(conn.rows, cid, Skipped, Some(reason));
    case MarkedIndexed => conn.rows := MarkAll(conn.rows, cid, Indexed, None);
    case Requeued => conn.rows := MarkAll(conn.rows, cid, Discovered, retry);
    case FolderDropped =>
      var added := EnqueueDocChildren(conn, cfg, links, Some(cid), settled, now);
      DropDirectory(conn, cid);
    case Remembered =>
      conn.unprocessable := conn.unprocessable + {cid};
      ForgetCid(conn, cid);
  }

  method ForgetCid(conn: Conn, cid: Cid)
    modifies conn
    ensures conn.Value() == RowForgotten(old(conn.Value()), cid)
  {
    var kept, _ := Select(conn.rows, A.NotCid(cid));
    conn.rows := kept;
    conn.peers := conn.peers - {cid};
  }

  /** One CID from fetch to queue: the sample decides the mark, and the mark and its links the queue. */
  method ProcessRow(conn: Conn, queue: A.Config, cfg: Assembly.Config, net: Assembly.Net, ghost dag: FileDag.Dag,
                    html: Bytes -> bool, look: Bytes -> Look, env: Catalog.Env, db: Catalog.Db, cid: Cid, codec: Codec,
                    hit: SkipHook.Hit, later: int, world: World, t: nat, settled: Cid -> bool,
                    retry: Option<string>, now: int)
    returns (o: Outcome, ghost sample: Option<Sample>)
    requires net.Serves(dag)
    modifies conn
    ensures NotBusy(conn.rows, cid)
    ensures sample.Some? ==> Fetched(net, dag, html, cid, codec, t, sample.value)
                             && Handled(env, db, cid, html, world, sample.value, o)
    ensures sample == None ==> o.sent == None && Stopped(env, cid, hit, o.mark)
    ensures conn.Value() == Settle(queue, old(conn.Value()), cid, o.mark, LinksOf(sample), settled, retry, now)
    ensures sample.Some? && sample.value.Folder? ==>
              conn.Value() == FolderSettled(queue, old(conn.Value()), cid, sample.value.links, settled, now)
  {
    ghost var before := conn.Value();
    var result: Option<Sample>;
    o, result := ProcessOne(cfg, net, dag, html, look, env, db, cid, codec, hit, later, world, t);
    sample := result;
    SettleRow(conn, queue, cid, o.mark, LinksOf(result), settled, retry, now);
    NothingLeftProcessing(queue, before, cid, o.mark, LinksOf(result), settled, retry, now);
  }
}
