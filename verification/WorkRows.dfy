/**
 Rows of the local work queue (observer/work.py), the lane conditions on them, and the two
 questions every operation asks of the table: how many, and which comes first.
 The cid is the primary key, so a statement about one cid is about one position.
 */
module WorkRows {
  import opened Prelude
  import opened Text

  datatype Source = Sniff | Named | Report

  datatype Status = Discovered | Processing | Indexed | Skipped

  datatype Row = Row(
    cid: Cid,
    codec: Codec,
    firstSeen: int,
    lastSeen: int,
    peerCount: nat,
    wantCount: nat,
    status: Status,
    attempts: nat,
    mime: Option<string>,
    filename: Option<string>,
    lastChecked: Option<int>,
    error: Option<string>,
    source: Source)

  // ---------------------------------------------------------------- conditions on a row

  /** SQL's `lower(name) LIKE '%ext'`. */
  predicate Ends(name: string, ext: string) {
    |ext| <= |name| && Lowered(name[|name| - |ext|..]) == ext
  }

  predicate NamedAs(r: Row, ext: string) {
    r.filename.Some? && Ends(r.filename.value, ext)
  }

  predicate PdfName(r: Row) {
    NamedAs(r, ".pdf")
  }

  /** Reported or named by a directory: kept when the queue is cut. */
  predicate Kept(r: Row) {
    r.source == Report || r.source == Named
  }

  predicate Live(r: Row) {
    r.status == Discovered || r.status == Processing
  }

  predicate Busy(r: Row) {
    r.status == Processing
  }

  /** A sniffed dag-pb root: a folder or a file, nobody knows before its first block. */
  predicate Probe(r: Row) {
    r.codec == DagPb && !Kept(r) && !PdfName(r)
  }

  predicate PdfLane(r: Row) {
    PdfName(r) || r.source == Named || r.codec == DagPb
  }

  predicate HtmlLane(r: Row) {
    !PdfLane(r)
  }

  predicate LivePdf(r: Row) {
    Live(r) && PdfLane(r)
  }

  predicate LiveHtml(r: Row) {
    Live(r) && HtmlLane(r)
  }

  predicate LiveProbe(r: Row) {
    Live(r) && Probe(r)
  }

  predicate WaitingProbe(r: Row) {
    r.status == Discovered && Probe(r)
  }

  predicate WaitingHtml(r: Row) {
    r.status == Discovered && HtmlLane(r)
  }

  predicate BusyPdf(r: Row) {
    Busy(r) && PdfLane(r)
  }

  predicate BusyHtml(r: Row) {
    Busy(r) && HtmlLane(r)
  }

  predicate BusyProbe(r: Row) {
    Busy(r) && Probe(r)
  }

  predicate LiveKept(r: Row) {
    Live(r) && Kept(r)
  }

  predicate LiveNamed(r: Row) {
    Live(r) && r.source == Named
  }

  // ---------------------------------------------------------------- how many

  function Count(rows: seq<Row>, p: Row -> bool): nat {
    if rows == [] then 0
    else Count(rows[..|rows| - 1], p) + (if p(rows[|rows| - 1]) then 1 else 0)
  }

  lemma CountSnoc(rows: seq<Row>, r: Row, p: Row -> bool)
    ensures Count(rows + [r], p) == Count(rows, p) + (if p(r) then 1 else 0)
  {
    assert (rows + [r])[..|rows|] == rows;
  }

  lemma {:induction false} CountConcat(a: seq<Row>, b: seq<Row>, p: Row -> bool)
    ensures Count(a + b, p) == Count(a, p) + Count(b, p)
  {
    if b == [] {
      assert a + b == a;
    } else {
      var front, last := b[..|b| - 1], b[|b| - 1];
      CountConcat(a, front, p);
      CountSnoc(a + front, last, p);
      assert a + b == (a + front) + [last];
    }
  }

  lemma CountSplitAt(rows: seq<Row>, i: nat, p: Row -> bool)
    requires i < |rows|
    ensures Count(rows, p) == Count(rows[..i], p) + (if p(rows[i]) then 1 else 0) + Count(rows[i + 1..], p)
  {
    CountAround(rows[..i], rows[i], rows[i + 1..], p);
    assert rows == rows[..i] + [rows[i]] + rows[i + 1..];
  }

  lemma CountAround(a: seq<Row>, r: Row, b: seq<Row>, p: Row -> bool)
    ensures Count(a + [r] + b, p) == Count(a, p) + (if p(r) then 1 else 0) + Count(b, p)
  {
    CountConcat(a + [r], b, p);
    CountSnoc(a, r, p);
  }

  function RemoveAt(rows: seq<Row>, i: nat): (r: seq<Row>)
    requires i < |rows|
    ensures |r| == |rows| - 1
  {
    rows[..i] + rows[i + 1..]
  }

  lemma CountRemoveAt(rows: seq<Row>, i: nat, p: Row -> bool)
    requires i < |rows|
    ensures Count(RemoveAt(rows, i), p) == Count(rows, p) - (if p(rows[i]) then 1 else 0)
  {
    CountSplitAt(rows, i, p);
    CountConcat(rows[..i], rows[i + 1..], p);
  }

  lemma CountUpdate(rows: seq<Row>, i: nat, r: Row, p: Row -> bool)
    requires i < |rows|
    ensures Count(rows[i := r], p) ==
            Count(rows, p) - (if p(rows[i]) then 1 else 0) + (if p(r) then 1 else 0)
  {
    CountSplitAt(rows, i, p);
    CountSplitAt(rows[i := r], i, p);
    assert rows[i := r][..i] == rows[..i] && rows[i := r][i + 1..] == rows[i + 1..];
  }

  lemma {:induction false} CountMonotone(rows: seq<Row>, p: Row -> bool, q: Row -> bool)
    requires forall r :: p(r) ==> q(r)
    ensures Count(rows, p) <= Count(rows, q)
  {
    if rows != [] {
      CountMonotone(rows[..|rows| - 1], p, q);
    }
  }

  lemma {:induction false} CountParts(rows: seq<Row>, all: Row -> bool, p: Row -> bool, q: Row -> bool)
    requires forall r :: (all(r) <==> p(r) || q(r)) && !(p(r) && q(r))
    ensures Count(rows, all) == Count(rows, p) + Count(rows, q)
  {
    if rows != [] {
      CountParts(rows[..|rows| - 1], all, p, q);
    }
  }

  /** The lanes share out every row. */
  lemma LanesPartition(rows: seq<Row>)
    ensures Count(rows, Live) == Count(rows, LivePdf) + Count(rows, LiveHtml)
    ensures Count(rows, Busy) == Count(rows, BusyPdf) + Count(rows, BusyHtml)
  {
    CountParts(rows, Live, LivePdf, LiveHtml);
    CountParts(rows, Busy, BusyPdf, BusyHtml);
  }

  lemma {:induction false} CountZero(rows: seq<Row>, p: Row -> bool)
    ensures Count(rows, p) == 0 <==> forall i :: 0 <= i < |rows| ==> !p(rows[i])
  {
    if rows != [] {
      CountZero(rows[..|rows| - 1], p);
    }
  }

  /** `DELETE ... WHERE NOT p`. */
  function Keep(rows: seq<Row>, p: Row -> bool): seq<Row> {
    if rows == [] then []
    else
      var front, last := Keep(rows[..|rows| - 1], p), rows[|rows| - 1];
      if p(last) then front + [last] else front
  }

  lemma {:induction false} CountAll(rows: seq<Row>, p: Row -> bool)
    requires forall i :: 0 <= i < |rows| ==> p(rows[i])
    ensures Count(rows, p) == |rows| && Keep(rows, p) == rows
  {
    if rows != [] {
      var front, last := rows[..|rows| - 1], rows[|rows| - 1];
      assert forall i :: 0 <= i < |front| ==> front[i] == rows[i];
      CountAll(front, p);
      assert p(last);
      assert rows == front + [last];
    }
  }

  lemma {:induction false} KeepCount(rows: seq<Row>, p: Row -> bool, q: Row -> bool)
    ensures Count(Keep(rows, p), q) <= Count(rows, q)
  {
    if rows != [] {
      var front, last := rows[..|rows| - 1], rows[|rows| - 1];
      KeepCount(front, p, q);
      CountSnoc(Keep(front, p), last, q);
    }
  }

  lemma {:induction false} KeepMembers(rows: seq<Row>, p: Row -> bool, r: Row)
    ensures r in Keep(rows, p) <==> r in rows && p(r)
  {
    if rows != [] {
      KeepMembers(rows[..|rows| - 1], p, r);
      assert rows == rows[..|rows| - 1] + [rows[|rows| - 1]];
    }
  }

  // ---------------------------------------------------------------- which comes first

  /** An ORDER BY of three columns, smallest first. */
  datatype Rank = Rank(a: int, b: int, c: int)

  predicate Before(x: Rank, y: Rank) {
    x.a < y.a || (x.a == y.a && (x.b < y.b || (x.b == y.b && x.c < y.c)))
  }

  /** ORDER BY last_seen ASC. */
  function ByAge(r: Row): Rank {
    Rank(0, r.lastSeen, 0)
  }

  /** `SELECT ... WHERE p ORDER BY rank LIMIT 1`. */
  function First(rows: seq<Row>, p: Row -> bool, rank: Row -> Rank): (b: Option<nat>)
    ensures b.Some? ==> b.value < |rows| && p(rows[b.value])
  {
    if rows == [] then None
    else
      var n := |rows| - 1;
      var b := First(rows[..n], p, rank);
      if p(rows[n]) && (b == None || Before(rank(rows[n]), rank(rows[b.value]))) then Some(n) else b
  }

  /** Nothing is found only when nothing matches, and what is found has nothing before it. */
  lemma {:induction false} FirstIsFirst(rows: seq<Row>, p: Row -> bool, rank: Row -> Rank, j: nat)
    requires j < |rows| && p(rows[j])
    ensures First(rows, p, rank).Some?
    ensures !Before(rank(rows[j]), rank(rows[First(rows, p, rank).value]))
  {
    if j < |rows| - 1 {
      FirstIsFirst(rows[..|rows| - 1], p, rank, j);
    }
  }

  lemma FoundIffAny(rows: seq<Row>, p: Row -> bool, rank: Row -> Rank)
    ensures First(rows, p, rank).Some? <==> Count(rows, p) > 0
  {
    CountZero(rows, p);
    if Count(rows, p) > 0 {
      var j :| 0 <= j < |rows| && p(rows[j]);
      FirstIsFirst(rows, p, rank, j);
    }
  }

  /** Selects the `n` first matching rows and forgets them. */
  function DropFirst(rows: seq<Row>, p: Row -> bool, rank: Row -> Rank, n: nat): seq<Row>
    decreases n
  {
    if n == 0 then rows
    else match First(rows, p, rank)
      case None => rows
      case Some(i) => DropFirst(RemoveAt(rows, i), p, rank, n - 1)
  }

  /** Exactly as many matching rows go as were asked for, or all of them. */
  lemma {:induction false} DropFirstCount(rows: seq<Row>, p: Row -> bool, rank: Row -> Rank, n: nat)
    ensures Count(DropFirst(rows, p, rank, n), p) == Max(0, Count(rows, p) - n)
    decreases n
  {
    FoundIffAny(rows, p, rank);
    if n > 0 && First(rows, p, rank).Some? {
      var i := First(rows, p, rank).value;
      CountRemoveAt(rows, i, p);
      DropFirstCount(RemoveAt(rows, i), p, rank, n - 1);
    }
  }

  /** Other counts never grow. */
  lemma {:induction false} DropFirstShrinks(rows: seq<Row>, p: Row -> bool, rank: Row -> Rank, n: nat, q: Row -> bool)
    ensures Count(DropFirst(rows, p, rank, n), q) <= Count(rows, q)
    decreases n
  {
    if n > 0 && First(rows, p, rank).Some? {
      var i := First(rows, p, rank).value;
      CountRemoveAt(rows, i, q);
      DropFirstShrinks(RemoveAt(rows, i), p, rank, n - 1, q);
    }
  }

  /** Counts of rows that do not match stay what they were. */
  lemma {:induction false} DropFirstOthers(rows: seq<Row>, p: Row -> bool, rank: Row -> Rank, n: nat, q: Row -> bool)
    requires forall r :: !(p(r) && q(r))
    ensures Count(DropFirst(rows, p, rank, n), q) == Count(rows, q)
    decreases n
  {
    if n > 0 && First(rows, p, rank).Some? {
      var i := First(rows, p, rank).value;
      CountRemoveAt(rows, i, q);
      DropFirstOthers(RemoveAt(rows, i), p, rank, n - 1, q);
    }
  }

  lemma MemberRemoveAt(rows: seq<Row>, i: nat, r: Row)
    requires i < |rows|
    ensures r in RemoveAt(rows, i) ==> r in rows
    ensures r in rows && r != rows[i] ==> r in RemoveAt(rows, i)
  {
    assert rows == rows[..i] + [rows[i]] + rows[i + 1..];
  }

  /** Rows that do not match stay. */
  lemma {:induction false} DropFirstKeeps(rows: seq<Row>, p: Row -> bool, rank: Row -> Rank, n: nat, r: Row)
    ensures r in DropFirst(rows, p, rank, n) ==> r in rows
    ensures r in rows && !p(r) ==> r in DropFirst(rows, p, rank, n)
    decreases n
  {
    if n > 0 && First(rows, p, rank).Some? {
      var i := First(rows, p, rank).value;
      MemberRemoveAt(rows, i, r);
      DropFirstKeeps(RemoveAt(rows, i), p, rank, n - 1, r);
    }
  }

  /** No row that was dropped comes after a matching row that stays. */
  lemma {:induction false} FirstGoFirst(rows: seq<Row>, p: Row -> bool, rank: Row -> Rank, n: nat, r: Row, s: Row)
    requires r in rows && r !in DropFirst(rows, p, rank, n)
    requires s in DropFirst(rows, p, rank, n) && p(s)
    ensures p(r) && !Before(rank(s), rank(r))
    decreases n
  {
    DropFirstKeeps(rows, p, rank, n, r);
    DropFirstKeeps(rows, p, rank, n, s);
    var i := First(rows, p, rank).value;
    if r in RemoveAt(rows, i) {
      FirstGoFirst(RemoveAt(rows, i), p, rank, n - 1, r, s);
    } else {
      MemberRemoveAt(rows, i, r);
      var j :| 0 <= j < |rows| && rows[j] == s;
      FirstIsFirst(rows, p, rank, j);
    }
  }

  // ---------------------------------------------------------------- by primary key

  function Find(rows: seq<Row>, cid: Cid): (b: Option<nat>)
    ensures b.Some? ==> b.value < |rows| && rows[b.value].cid == cid
  {
    if rows == [] then None
    else if rows[|rows| - 1].cid == cid then Some(|rows| - 1)
    else Find(rows[..|rows| - 1], cid)
  }

  lemma {:induction false} FindNone(rows: seq<Row>, cid: Cid)
    ensures Find(rows, cid) == None <==> forall i :: 0 <= i < |rows| ==> rows[i].cid != cid
  {
    if rows != [] {
      FindNone(rows[..|rows| - 1], cid);
    }
  }

  /** The primary key holds. */
  ghost predicate Keyed(rows: seq<Row>) {
    forall i, j :: 0 <= i < j < |rows| ==> rows[i].cid != rows[j].cid
  }
}
