/**
 `take_batch` of observer/work.py: reports first, then the PDF and HTML lanes in balance,
 with a budget for unidentified roots.
 */
module Scheduler {
  import opened Prelude
  import opened WorkRows
  import opened WorkDb

  datatype Plan = Plan(
    concurrency: int,
    maxDirProbes: int,
    minPeers: int,
    preferPeers: int,
    minAge: int,
    maxAge: int,
    maxRetries: nat,
    maxTimeoutRetries: nat)

  /** Workers for each kind of document. */
  function Half(plan: Plan): nat {
    Max(1, plan.concurrency / 2)
  }

  function Prefer(plan: Plan): int {
    Max(plan.minPeers, plan.preferPeers)
  }

  // ---------------------------------------------------------------- candidates

  predicate Eligible(plan: Plan, now: int, peers: int, r: Row) {
    && r.status == Discovered && peers <= r.peerCount
    && r.firstSeen <= now - plan.minAge
    && (r.lastSeen >= now - plan.maxAge || Kept(r))
    && r.attempts < Max(plan.maxRetries, plan.maxTimeoutRetries) + 1
    && r.codec != Libp2pKey && r.codec != JsonBlock && r.codec != DagJson
  }

  function Reports(plan: Plan, now: int): Row -> bool {
    r => Eligible(plan, now, plan.minPeers, r) && r.source == Report
  }

  function Documents(plan: Plan, now: int): Row -> bool {
    r => Eligible(plan, now, plan.minPeers, r) && (Kept(r) || PdfName(r))
  }

  function Roots(plan: Plan, now: int): Row -> bool {
    r => Eligible(plan, now, plan.minPeers, r) && Probe(r)
  }

  function Pages(plan: Plan, now: int): Row -> bool {
    r => Eligible(plan, now, Prefer(plan), r) && HtmlLane(r)
  }

  /** Named documents, then pages by name, then roots, then the rest; most wanted and newest first. */
  function ByWorth(r: Row): Rank {
    var class_ :=
      if Kept(r) || PdfName(r) then 0
      else if NamedAs(r, ".html") || NamedAs(r, ".htm") then 1
      else if r.codec == DagPb then 2 else 3;
    Rank(class_, -(r.peerCount as int), -r.lastSeen)
  }

  function NextPdf(plan: Plan, rows: seq<Row>, now: int): (b: Option<nat>)
    ensures b.Some? ==> b.value < |rows| && rows[b.value].status == Discovered
  {
    var named := First(rows, Documents(plan, now), ByWorth);
    if named.Some? then named
    else if Count(rows, BusyProbe) < plan.maxDirProbes then First(rows, Roots(plan, now), ByWorth)
    else None
  }

  function NextHtml(plan: Plan, rows: seq<Row>, now: int): (b: Option<nat>)
    ensures b.Some? ==> b.value < |rows| && rows[b.value].status == Discovered
  {
    First(rows, Pages(plan, now), ByWorth)
  }

  // ---------------------------------------------------------------- one pick

  datatype Lane = Pdf | Html

  /** Which lane is served, given how busy each is and whether it has work. */
  function Serve(half: nat, pdfBusy: nat, htmlBusy: nat, pdf: bool, html: bool): Option<Lane> {
    if pdf && html then
      if pdfBusy < half && pdfBusy <= htmlBusy then Some(Pdf)
      else if htmlBusy < half then Some(Html)
      else if pdfBusy < half then Some(Pdf)
      else None
    else if pdf then Some(Pdf)
    else if html then Some(Html)
    else None
  }

  datatype Pick = Idle | Picked(i: nat, lane: Option<Lane>)

  /** One turn of the loop; the extras are the picks this batch has made in each lane. */
  function PickOne(plan: Plan, rows: seq<Row>, now: int, pdfExtra: nat, htmlExtra: nat): (p: Pick)
    ensures !p.Idle? ==> p.i < |rows| && rows[p.i].status == Discovered
  {
    var report := First(rows, Reports(plan, now), ByWorth);
    if report.Some? then Picked(report.value, None)
    else
      var pdf, html := NextPdf(plan, rows, now), NextHtml(plan, rows, now);
      match Serve(Half(plan), Count(rows, BusyPdf) + pdfExtra, Count(rows, BusyHtml) + htmlExtra, pdf.Some?, html.Some?)
      case Some(Pdf) => Picked(pdf.value, Some(Pdf))
      case Some(Html) => Picked(html.value, Some(Html))
      case None => Idle
  }

  function Claim(rows: seq<Row>, i: nat): seq<Row>
    requires i < |rows|
  {
    rows[i := rows[i].(status := Processing)]
  }

  function Extra(p: Pick, lane: Lane): nat {
    if p.Picked? && p.lane == Some(lane) then 1 else 0
  }

  /** The table and the picks of a batch so far, and whether it has found nothing to take. */
  datatype Batch = Batch(rows: seq<Row>, picks: seq<nat>, pdfExtra: nat, htmlExtra: nat, stopped: bool)

  function Turn(plan: Plan, now: int, b: Batch): Batch {
    if b.stopped then b
    else
      var p := PickOne(plan, b.rows, now, b.pdfExtra, b.htmlExtra);
      if p.Idle? then b.(stopped := true)
      else
        Batch(Claim(b.rows, p.i), b.picks + [p.i], b.pdfExtra + Extra(p, Pdf), b.htmlExtra + Extra(p, Html), false)
  }

  function Turns(turn: Batch -> Batch, start: Batch, n: nat): Batch {
    if n == 0 then start else turn(Turns(turn, start, n - 1))
  }

  function TakeBatch(plan: Plan, rows: seq<Row>, now: int, limit: nat): Batch {
    Turns(b => Turn(plan, now, b), Batch(rows, [], 0, 0, false), limit)
  }

  /** What every turn keeps, a batch keeps. */
  lemma {:induction false} TurnsKeep(turn: Batch -> Batch, keeps: Batch -> bool, start: Batch, n: nat)
    requires keeps(start) && forall b :: keeps(b) ==> keeps(turn(b))
    ensures keeps(Turns(turn, start, n))
  {
    if n > 0 {
      TurnsKeep(turn, keeps, start, n - 1);
    }
  }

  // ---------------------------------------------------------------- a batch is sound

  ghost predicate Waiting(rows: seq<Row>, picks: seq<nat>) {
    forall k :: 0 <= k < |picks| ==> picks[k] < |rows| && rows[picks[k]].status == Discovered
  }

  ghost predicate Distinct(picks: seq<nat>) {
    forall k, l :: 0 <= k < l < |picks| ==> picks[k] != picks[l]
  }

  ghost predicate Marked(rows: seq<Row>, after: seq<Row>, picks: seq<nat>) {
    |after| == |rows| &&
    forall i :: 0 <= i < |rows| ==> after[i] == if i in picks then rows[i].(status := Processing) else rows[i]
  }

  /** The picks are distinct waiting rows, and nothing else changed. */
  ghost predicate Claimed(rows: seq<Row>, after: seq<Row>, picks: seq<nat>) {
    Waiting(rows, picks) && Distinct(picks) && Marked(rows, after, picks)
  }

  lemma ClaimMore(rows: seq<Row>, after: seq<Row>, picks: seq<nat>, i: nat)
    requires Claimed(rows, after, picks) && i < |after| && after[i].status == Discovered
    ensures Claimed(rows, Claim(after, i), picks + [i])
  {
    assert i !in picks && rows[i].status == Discovered;
  }

  lemma TurnClaims(plan: Plan, now: int, rows: seq<Row>, b: Batch)
    requires Claimed(rows, b.rows, b.picks)
    ensures var t := Turn(plan, now, b); Claimed(rows, t.rows, t.picks)
  {
    if !b.stopped {
      var p := PickOne(plan, b.rows, now, b.pdfExtra, b.htmlExtra);
      if !p.Idle? {
        ClaimMore(rows, b.rows, b.picks, p.i);
      }
    }
  }

  lemma {:induction false} NoMoreThanAsked(turn: Batch -> Batch, start: Batch, n: nat)
    requires forall b :: |turn(b).picks| <= |b.picks| + 1
    ensures |Turns(turn, start, n).picks| <= |start.picks| + n
  {
    if n > 0 {
      NoMoreThanAsked(turn, start, n - 1);
    }
  }

  /** A batch holds distinct rows that were waiting, no more than asked for, and changes no other row. */
  lemma BatchClaims(plan: Plan, rows: seq<Row>, now: int, limit: nat)
    ensures var b := TakeBatch(plan, rows, now, limit); Claimed(rows, b.rows, b.picks) && |b.picks| <= limit
  {
    var turn, start := b => Turn(plan, now, b), Batch(rows, [], 0, 0, false);
    forall b: Batch | Claimed(rows, b.rows, b.picks)
      ensures Claimed(rows, turn(b).rows, turn(b).picks)
    {
      TurnClaims(plan, now, rows, b);
    }
    TurnsKeep(turn, (b: Batch) => Claimed(rows, b.rows, b.picks), start, limit);
    NoMoreThanAsked(turn, start, limit);
  }

  // ---------------------------------------------------------------- probes stay in budget

  /** A pick adds a busy probe only below the budget. */
  lemma PickKeepsProbes(plan: Plan, rows: seq<Row>, now: int, pdfExtra: nat, htmlExtra: nat)
    requires !PickOne(plan, rows, now, pdfExtra, htmlExtra).Idle?
    ensures Count(Claim(rows, PickOne(plan, rows, now, pdfExtra, htmlExtra).i), BusyProbe)
            <= Max(plan.maxDirProbes, Count(rows, BusyProbe))
  {
    var i := PickOne(plan, rows, now, pdfExtra, htmlExtra).i;
    CountUpdate(rows, i, rows[i].(status := Processing), BusyProbe);
    if Probe(rows[i]) {
      assert !Kept(rows[i]) && !PdfName(rows[i]) && !HtmlLane(rows[i]);
      assert Count(rows, BusyProbe) < plan.maxDirProbes;
    }
  }

  lemma TurnKeepsProbes(plan: Plan, now: int, b: Batch, most: int)
    requires Count(b.rows, BusyProbe) <= most && plan.maxDirProbes <= most
    ensures Count(Turn(plan, now, b).rows, BusyProbe) <= most
  {
    if !b.stopped && !PickOne(plan, b.rows, now, b.pdfExtra, b.htmlExtra).Idle? {
      PickKeepsProbes(plan, b.rows, now, b.pdfExtra, b.htmlExtra);
    }
  }

  lemma BatchKeepsProbes(plan: Plan, rows: seq<Row>, now: int, limit: nat)
    ensures Count(TakeBatch(plan, rows, now, limit).rows, BusyProbe) <= Max(plan.maxDirProbes, Count(rows, BusyProbe))
  {
    var most := Max(plan.maxDirProbes, Count(rows, BusyProbe));
    forall b: Batch | Count(b.rows, BusyProbe) <= most
      ensures Count(Turn(plan, now, b).rows, BusyProbe) <= most
    {
      TurnKeepsProbes(plan, now, b, most);
    }
    TurnsKeep(b => Turn(plan, now, b), (b: Batch) => Count(b.rows, BusyProbe) <= most,
              Batch(rows, [], 0, 0, false), limit);
  }

  /** What happens to the table: batches, deletions, arrivals and rewritten rows. */
  datatype Act =
    | Batched(limit: nat, now: int)
    | Forgotten(keep: Row -> bool)
    | Arrived(row: Row)
    | Rewritten(i: nat, row: Row)

  /** Only a batch starts work: nothing else turns a row into a busy probe. */
  predicate Fair(rows: seq<Row>, act: Act) {
    match act
    case Arrived(row) => !Busy(row)
    case Rewritten(i, row) => i < |rows| && (BusyProbe(row) ==> BusyProbe(rows[i]))
    case _ => true
  }

  function Do(plan: Plan, rows: seq<Row>, act: Act): seq<Row> {
    match act
    case Batched(limit, now) => TakeBatch(plan, rows, now, limit).rows
    case Forgotten(keep) => Keep(rows, keep)
    case Arrived(row) => rows + [row]
    case Rewritten(i, row) => if i < |rows| then rows[i := row] else rows
  }

  function After(plan: Plan, start: seq<Row>, acts: seq<Act>): seq<Row> {
    if acts == [] then start else Do(plan, After(plan, start, acts[..|acts| - 1]), acts[|acts| - 1])
  }

  predicate AllFair(plan: Plan, start: seq<Row>, acts: seq<Act>) {
    acts == [] ||
    (AllFair(plan, start, acts[..|acts| - 1])
     && Fair(After(plan, start, acts[..|acts| - 1]), acts[|acts| - 1]))
  }

  lemma DoKeepsProbes(plan: Plan, rows: seq<Row>, act: Act)
    requires Fair(rows, act)
    ensures Count(Do(plan, rows, act), BusyProbe) <= Max(plan.maxDirProbes, Count(rows, BusyProbe))
  {
    match act
    case Batched(limit, now) => BatchKeepsProbes(plan, rows, now, limit);
    case Forgotten(keep) => KeepCount(rows, keep, BusyProbe);
    case Arrived(row) => CountSnoc(rows, row, BusyProbe);
    case Rewritten(i, row) => CountUpdate(rows, i, row, BusyProbe);
  }

  /** In every run from a table with nothing processing, probes in flight stay within their budget. */
  lemma {:induction false} ProbesInBudget(plan: Plan, start: seq<Row>, acts: seq<Act>)
    requires Count(start, Busy) == 0 && AllFair(plan, start, acts)
    ensures Count(After(plan, start, acts), BusyProbe) <= Max(0, plan.maxDirProbes)
  {
    if acts == [] {
      CountMonotone(start, BusyProbe, Busy);
    } else {
      ProbesInBudget(plan, start, acts[..|acts| - 1]);
      DoKeepsProbes(plan, After(plan, start, acts[..|acts| - 1]), acts[|acts| - 1]);
    }
  }

  // ---------------------------------------------------------------- balance

  /** The third branch for two busy lanes is never taken: two tests decide. */
  lemma ThirdBranchIsDead(half: nat, pdfBusy: nat, htmlBusy: nat)
    ensures Serve(half, pdfBusy, htmlBusy, true, true) ==
            if pdfBusy < half && pdfBusy <= htmlBusy then Some(Pdf)
            else if htmlBusy < half then Some(Html) else None
    ensures Serve(half, pdfBusy, htmlBusy, true, true) == None <==> pdfBusy >= half && htmlBusy >= half
  {
  }

  /** A waiting report is served before anything else, and the most wanted one first. */
  lemma ReportsComeFirst(plan: Plan, rows: seq<Row>, now: int, pdfExtra: nat, htmlExtra: nat, j: nat)
    requires j < |rows| && Reports(plan, now)(rows[j])
    ensures var p := PickOne(plan, rows, now, pdfExtra, htmlExtra);
            p.Picked? && p.lane == None && rows[p.i].source == Report && rows[p.i].peerCount >= rows[j].peerCount
  {
    FirstIsFirst(rows, Reports(plan, now), ByWorth, j);
  }

  /** How far the lead of the PDF lane is from 0 or 1. */
  function Imbalance(pdfBusy: int, htmlBusy: int): nat {
    var lead := pdfBusy - htmlBusy;
    if lead < 0 then -lead else if lead > 1 then lead - 1 else 0
  }

  function RowImbalance(rows: seq<Row>): nat {
    Imbalance(Count(rows, BusyPdf), Count(rows, BusyHtml))
  }

  lemma PdfCandidate(plan: Plan, rows: seq<Row>, now: int)
    requires First(rows, Reports(plan, now), ByWorth) == None && NextPdf(plan, rows, now).Some?
    ensures PdfLane(rows[NextPdf(plan, rows, now).value])
  {
    var i := NextPdf(plan, rows, now).value;
    if rows[i].source == Report && !Probe(rows[i]) {
      FirstIsFirst(rows, Reports(plan, now), ByWorth, i);
    }
  }

  /** Claiming a row makes its lane busier by one. */
  lemma ClaimCounts(rows: seq<Row>, i: nat)
    requires i < |rows| && rows[i].status == Discovered
    ensures Count(Claim(rows, i), BusyPdf) == Count(rows, BusyPdf) + (if PdfLane(rows[i]) then 1 else 0)
    ensures Count(Claim(rows, i), BusyHtml) == Count(rows, BusyHtml) + (if PdfLane(rows[i]) then 0 else 1)
  {
    CountUpdate(rows, i, rows[i].(status := Processing), BusyPdf);
    CountUpdate(rows, i, rows[i].(status := Processing), BusyHtml);
  }

  /** Both lanes have work and no report is waiting. */
  predicate Contended(plan: Plan, rows: seq<Row>, now: int) {
    First(rows, Reports(plan, now), ByWorth) == None
    && NextPdf(plan, rows, now).Some? && NextHtml(plan, rows, now).Some?
  }

  /**
   A worker's pick while both lanes have work leaves its lane within half the workers and brings
   the lanes one step closer to balance, where they then stay.
   */
  lemma PickBalances(plan: Plan, rows: seq<Row>, now: int)
    requires Contended(plan, rows, now) && !PickOne(plan, rows, now, 0, 0).Idle?
    ensures var i := PickOne(plan, rows, now, 0, 0).i;
            && RowImbalance(Claim(rows, i)) <= Max(0, RowImbalance(rows) - 1)
            && Count(Claim(rows, i), if PdfLane(rows[i]) then BusyPdf else BusyHtml) <= Half(plan)
  {
    ContendedChoice(plan, rows, now, 0, 0);
    ClaimCounts(rows, PickOne(plan, rows, now, 0, 0).i);
  }

  // ---------------------------------------------------------------- no worker idles without reason

  /** Something a worker could take: a report, a named document, a page, or a root within budget. */
  predicate WorkWaits(plan: Plan, rows: seq<Row>, now: int) {
    || Count(rows, Reports(plan, now)) > 0
    || Count(rows, Documents(plan, now)) > 0
    || Count(rows, Pages(plan, now)) > 0
    || (Count(rows, Roots(plan, now)) > 0 && Count(rows, BusyProbe) < plan.maxDirProbes)
  }

  /** A turn takes nothing exactly when nothing waits, or two loaded lanes both count as full. */
  lemma IdleIff(plan: Plan, rows: seq<Row>, now: int, pdfExtra: nat, htmlExtra: nat)
    ensures PickOne(plan, rows, now, pdfExtra, htmlExtra) == Idle <==>
            !WorkWaits(plan, rows, now) ||
            (Contended(plan, rows, now)
             && Count(rows, BusyPdf) + pdfExtra >= Half(plan) && Count(rows, BusyHtml) + htmlExtra >= Half(plan))
  {
    FoundIffAny(rows, Reports(plan, now), ByWorth);
    FoundIffAny(rows, Documents(plan, now), ByWorth);
    FoundIffAny(rows, Pages(plan, now), ByWorth);
    FoundIffAny(rows, Roots(plan, now), ByWorth);
  }

  // ---------------------------------------------------------------- batches of several rows

  /** How many of the picks were rows of this kind. */
  function PickCount(rows: seq<Row>, picks: seq<nat>, p: Row -> bool): nat {
    if picks == [] then 0
    else
      var i := picks[|picks| - 1];
      PickCount(rows, picks[..|picks| - 1], p) + (if i < |rows| && p(rows[i]) then 1 else 0)
  }

  lemma PickCountSnoc(rows: seq<Row>, picks: seq<nat>, i: nat, p: Row -> bool)
    ensures PickCount(rows, picks + [i], p) == PickCount(rows, picks, p) + (if i < |rows| && p(rows[i]) then 1 else 0)
  {
    assert (picks + [i])[..|picks|] == picks;
  }

  predicate OwnPdf(r: Row) {
    r.source != Report && PdfLane(r)
  }

  predicate OwnHtml(r: Row) {
    r.source != Report && HtmlLane(r)
  }

  /** What a batch has counted: its lane picks as extras, and all its picks among the busy rows. */
  ghost predicate Tallied(rows: seq<Row>, b: Batch) {
    && b.pdfExtra == PickCount(rows, b.picks, OwnPdf)
    && b.htmlExtra == PickCount(rows, b.picks, OwnHtml)
    && Count(b.rows, BusyPdf) == Count(rows, BusyPdf) + PickCount(rows, b.picks, PdfLane)
    && Count(b.rows, BusyHtml) == Count(rows, BusyHtml) + PickCount(rows, b.picks, HtmlLane)
  }

  /** A pick is a report, or a row of its lane that no one reported. */
  lemma PickIsOfItsLane(plan: Plan, rows: seq<Row>, now: int, pdfExtra: nat, htmlExtra: nat)
    requires !PickOne(plan, rows, now, pdfExtra, htmlExtra).Idle?
    ensures var p := PickOne(plan, rows, now, pdfExtra, htmlExtra);
            match p.lane
            case None => rows[p.i].source == Report
            case Some(Pdf) => OwnPdf(rows[p.i])
            case Some(Html) => OwnHtml(rows[p.i])
  {
    var p := PickOne(plan, rows, now, pdfExtra, htmlExtra);
    if p.lane.Some? && rows[p.i].source == Report {
      FirstIsFirst(rows, Reports(plan, now), ByWorth, p.i);
    }
    if p.lane == Some(Pdf) {
      PdfCandidate(plan, rows, now);
    }
  }

  /** A row that still waits in the batch's table waited from the start, unpicked. */
  lemma StillUntouched(rows: seq<Row>, after: seq<Row>, picks: seq<nat>, i: nat)
    requires Claimed(rows, after, picks) && i < |after| && after[i].status == Discovered
    ensures i < |rows| && rows[i] == after[i]
  {
    assert i !in picks;
  }

  lemma ClaimTallies(rows: seq<Row>, b: Batch, p: Pick)
    requires Tallied(rows, b) && p.Picked? && p.i < |b.rows| && b.rows[p.i].status == Discovered
    requires p.i < |rows| && rows[p.i] == b.rows[p.i]
    requires match p.lane
             case None => rows[p.i].source == Report
             case Some(Pdf) => OwnPdf(rows[p.i])
             case Some(Html) => OwnHtml(rows[p.i])
    ensures Tallied(rows, Batch(Claim(b.rows, p.i), b.picks + [p.i], b.pdfExtra + Extra(p, Pdf),
                                b.htmlExtra + Extra(p, Html), false))
  {
    ClaimCounts(b.rows, p.i);
    PickCountSnoc(rows, b.picks, p.i, OwnPdf);
    PickCountSnoc(rows, b.picks, p.i, OwnHtml);
    PickCountSnoc(rows, b.picks, p.i, PdfLane);
    PickCountSnoc(rows, b.picks, p.i, HtmlLane);
  }

  lemma TurnTallies(plan: Plan, now: int, rows: seq<Row>, b: Batch)
    requires Claimed(rows, b.rows, b.picks) && Tallied(rows, b)
    ensures var t := Turn(plan, now, b); Claimed(rows, t.rows, t.picks) && Tallied(rows, t)
  {
    TurnClaims(plan, now, rows, b);
    if !b.stopped {
      var p := PickOne(plan, b.rows, now, b.pdfExtra, b.htmlExtra);
      if !p.Idle? {
        PickIsOfItsLane(plan, b.rows, now, b.pdfExtra, b.htmlExtra);
        StillUntouched(rows, b.rows, b.picks, p.i);
        ClaimTallies(rows, b, p);
      }
    }
  }

  /** Every pick of a batch is among the busy rows already when its extra is added on top. */
  lemma BatchTallies(plan: Plan, rows: seq<Row>, now: int, limit: nat)
    ensures Tallied(rows, TakeBatch(plan, rows, now, limit))
  {
    var turn, start := b => Turn(plan, now, b), Batch(rows, [], 0, 0, false);
    forall b: Batch | Claimed(rows, b.rows, b.picks) && Tallied(rows, b)
      ensures Claimed(rows, turn(b).rows, turn(b).picks) && Tallied(rows, turn(b))
    {
      TurnTallies(plan, now, rows, b);
    }
    TurnsKeep(turn, (b: Batch) => Claimed(rows, b.rows, b.picks) && Tallied(rows, b), start, limit);
  }

  /**
   A batch under way stops exactly when nothing waits, or when both lanes have work and each is at
   half with the batch's own lane picks counted twice, though as busy rows they count once.
   */
  lemma BatchStopsIff(plan: Plan, rows: seq<Row>, now: int, limit: nat)
    requires !TakeBatch(plan, rows, now, limit).stopped
    ensures var b := TakeBatch(plan, rows, now, limit);
            TakeBatch(plan, rows, now, limit + 1).stopped <==>
            !WorkWaits(plan, b.rows, now) ||
            (Contended(plan, b.rows, now)
             && Count(rows, BusyPdf) + PickCount(rows, b.picks, PdfLane) + PickCount(rows, b.picks, OwnPdf)
                >= Half(plan)
             && Count(rows, BusyHtml) + PickCount(rows, b.picks, HtmlLane) + PickCount(rows, b.picks, OwnHtml)
                >= Half(plan))
  {
    var b := TakeBatch(plan, rows, now, limit);
    BatchTallies(plan, rows, now, limit);
    IdleIff(plan, b.rows, now, b.pdfExtra, b.htmlExtra);
    TakeOneMore(plan, rows, now, limit);
  }

  lemma TakeOneMore(plan: Plan, rows: seq<Row>, now: int, n: nat)
    ensures TakeBatch(plan, rows, now, n + 1) == Turn(plan, now, TakeBatch(plan, rows, now, n))
  {
    var turn := b => Turn(plan, now, b);
    assert TakeBatch(plan, rows, now, n + 1) == turn(TakeBatch(plan, rows, now, n));
  }

  /** Both lanes have work, and no report waits, at each of the first `n` turns. */
  ghost predicate Loaded(plan: Plan, rows: seq<Row>, now: int, n: nat) {
    forall k: nat :: k < n ==> Contended(plan, TakeBatch(plan, rows, now, k).rows, now)
  }

  /** How many rows of a lane this busy one batch can take: it counts each of them twice. */
  function LaneRoom(half: nat, busy: nat): nat {
    if busy >= half then 0 else (half - busy + 1) / 2
  }

  function BatchRoom(plan: Plan, rows: seq<Row>): nat {
    LaneRoom(Half(plan), Count(rows, BusyPdf)) + LaneRoom(Half(plan), Count(rows, BusyHtml))
  }

  /** A batch from lanes with `p` and `h` busy rows that has had only lane picks. */
  predicate Sharing(half: nat, p: nat, h: nat, b: Batch) {
    && Count(b.rows, BusyPdf) == p + b.pdfExtra && Count(b.rows, BusyHtml) == h + b.htmlExtra
    && b.pdfExtra <= LaneRoom(half, p) && b.htmlExtra <= LaneRoom(half, h)
    && |b.picks| == b.pdfExtra + b.htmlExtra
    && (b.stopped ==> b.pdfExtra == LaneRoom(half, p) && b.htmlExtra == LaneRoom(half, h))
  }

  /** With its picks counted twice, a lane is served only while it has room, and both are idle only without. */
  lemma ServeByRoom(half: nat, p: nat, h: nat, pdf: nat, html: nat)
    requires pdf <= LaneRoom(half, p) && html <= LaneRoom(half, h)
    ensures match Serve(half, p + pdf + pdf, h + html + html, true, true)
            case None => pdf == LaneRoom(half, p) && html == LaneRoom(half, h)
            case Some(Pdf) => pdf < LaneRoom(half, p)
            case Some(Html) => html < LaneRoom(half, h)
  {
  }

  /** A contended turn takes one row while either lane has room, and stops when neither has. */
  lemma SharingTurn(plan: Plan, now: int, p: nat, h: nat, b: Batch)
    requires Contended(plan, b.rows, now) && Sharing(Half(plan), p, h, b)
    ensures var t := Turn(plan, now, b);
            && Sharing(Half(plan), p, h, t)
            && (if |b.picks| < LaneRoom(Half(plan), p) + LaneRoom(Half(plan), h)
                then |t.picks| == |b.picks| + 1 else t.picks == b.picks)
  {
    if !b.stopped {
      ContendedChoice(plan, b.rows, now, b.pdfExtra, b.htmlExtra);
      ServeByRoom(Half(plan), p, h, b.pdfExtra, b.htmlExtra);
      var pick := PickOne(plan, b.rows, now, b.pdfExtra, b.htmlExtra);
      if !pick.Idle? {
        ClaimCounts(b.rows, pick.i);
      }
    }
  }

  lemma ContendedChoice(plan: Plan, rows: seq<Row>, now: int, pdfExtra: nat, htmlExtra: nat)
    requires Contended(plan, rows, now)
    ensures var p := PickOne(plan, rows, now, pdfExtra, htmlExtra);
            var lane := Serve(Half(plan), Count(rows, BusyPdf) + pdfExtra, Count(rows, BusyHtml) + htmlExtra,
                              true, true);
            if lane == None then p == Idle
            else p == Picked(p.i, lane) && (PdfLane(rows[p.i]) <==> lane.value == Pdf)
  {
    PdfCandidate(plan, rows, now);
  }

  /** After `n` contended turns. */
  predicate SizeIs(plan: Plan, rows: seq<Row>, b: Batch, n: nat) {
    Sharing(Half(plan), Count(rows, BusyPdf), Count(rows, BusyHtml), b) && |b.picks| == Min(n, BatchRoom(plan, rows))
  }

  lemma SizeStep(plan: Plan, rows: seq<Row>, now: int, n: nat)
    requires Contended(plan, TakeBatch(plan, rows, now, n).rows, now)
    requires SizeIs(plan, rows, TakeBatch(plan, rows, now, n), n)
    ensures SizeIs(plan, rows, TakeBatch(plan, rows, now, n + 1), n + 1)
  {
    SharingTurn(plan, now, Count(rows, BusyPdf), Count(rows, BusyHtml), TakeBatch(plan, rows, now, n));
    TakeOneMore(plan, rows, now, n);
  }

  /** While both lanes have work, the size of a batch is known from the busy rows it starts from. */
  lemma LoadedBatchSize(plan: Plan, rows: seq<Row>, now: int, limit: nat)
    requires Loaded(plan, rows, now, limit)
    ensures SizeIs(plan, rows, TakeBatch(plan, rows, now, limit), limit)
  {
    var holds := (n: nat) => SizeIs(plan, rows, TakeBatch(plan, rows, now, n), n);
    forall n: nat | n < limit && holds(n)
      ensures holds(n + 1)
    {
      SizeStep(plan, rows, now, n);
    }
    UpTo(holds, limit);
  }

  // ---------------------------------------------------------------- lanes loaded from the start

  /** No report waits, and each lane has a row for every turn: what the starting table shows. */
  predicate WellStocked(plan: Plan, rows: seq<Row>, now: int, limit: nat) {
    && Count(rows, Reports(plan, now)) == 0
    && Count(rows, Documents(plan, now)) >= limit && Count(rows, Pages(plan, now)) >= limit
  }

  /** A turn takes at most one row from what waits, and adds nothing. */
  lemma TurnStock(plan: Plan, now: int, b: Batch, k: nat)
    requires Count(b.rows, Reports(plan, now)) == 0
    requires Count(b.rows, Documents(plan, now)) >= k + 1 && Count(b.rows, Pages(plan, now)) >= k + 1
    ensures var t := Turn(plan, now, b);
            && Count(t.rows, Reports(plan, now)) == 0
            && Count(t.rows, Documents(plan, now)) >= k && Count(t.rows, Pages(plan, now)) >= k
  {
    if !b.stopped {
      var p := PickOne(plan, b.rows, now, b.pdfExtra, b.htmlExtra);
      if !p.Idle? {
        var claimed := b.rows[p.i].(status := Processing);
        CountUpdate(b.rows, p.i, claimed, Reports(plan, now));
        CountUpdate(b.rows, p.i, claimed, Documents(plan, now));
        CountUpdate(b.rows, p.i, claimed, Pages(plan, now));
      }
    }
  }

  lemma {:induction false} StockLasts(plan: Plan, rows: seq<Row>, now: int, limit: nat, n: nat)
    requires WellStocked(plan, rows, now, limit) && n <= limit
    ensures WellStocked(plan, TakeBatch(plan, rows, now, n).rows, now, limit - n)
  {
    if n > 0 {
      StockLasts(plan, rows, now, limit, n - 1);
      TurnStock(plan, now, TakeBatch(plan, rows, now, n - 1), limit - n);
      TakeOneMore(plan, rows, now, n - 1);
    }
  }

  lemma StockedIsContended(plan: Plan, rows: seq<Row>, now: int)
    requires WellStocked(plan, rows, now, 1)
    ensures Contended(plan, rows, now)
  {
    FoundIffAny(rows, Reports(plan, now), ByWorth);
    FoundIffAny(rows, Documents(plan, now), ByWorth);
    FoundIffAny(rows, Pages(plan, now), ByWorth);
  }

  lemma StockedIsLoaded(plan: Plan, rows: seq<Row>, now: int, limit: nat)
    requires WellStocked(plan, rows, now, limit)
    ensures Loaded(plan, rows, now, limit)
  {
    forall k: nat | k < limit
      ensures Contended(plan, TakeBatch(plan, rows, now, k).rows, now)
    {
      StockLasts(plan, rows, now, limit, k);
      StockedIsContended(plan, TakeBatch(plan, rows, now, k).rows, now);
    }
  }

  /** The batch leaves room asked for unused although a worker is free and work waits. */
  ghost predicate StopsShort(plan: Plan, rows: seq<Row>, now: int, limit: nat) {
    var b := TakeBatch(plan, rows, now, limit);
    |b.picks| < limit && Count(b.rows, Busy) < plan.concurrency
  }

  /** From a well-stocked table a batch has a known size, and stops short exactly by what the table shows. */
  lemma BatchStopsShortIff(plan: Plan, rows: seq<Row>, now: int, limit: nat)
    requires WellStocked(plan, rows, now, limit)
    ensures |TakeBatch(plan, rows, now, limit).picks| == Min(limit, BatchRoom(plan, rows))
    ensures StopsShort(plan, rows, now, limit) <==>
            BatchRoom(plan, rows) < limit && Count(rows, Busy) + BatchRoom(plan, rows) < plan.concurrency
  {
    StockedIsLoaded(plan, rows, now, limit);
    LoadedBatchSize(plan, rows, now, limit);
    LanesPartition(rows);
    LanesPartition(TakeBatch(plan, rows, now, limit).rows);
  }

  // ---------------------------------------------------------------- one batch for all workers

  /** `n` waiting documents and `n` waiting pages, and nobody at work. */
  function Stock(plan: Plan, now: int, n: nat): seq<Row> {
    seq(2 * n, (i: nat) => StockRow(plan, now, n, i))
  }

  function StockRow(plan: Plan, now: int, n: nat, i: nat): Row {
    Spread(plan, now, i >= n, false, i)
  }

  lemma StockFacts(plan: Plan, now: int, n: nat)
    ensures Keyed(Stock(plan, now, n)) && Count(Stock(plan, now, n), Busy) == 0
    ensures WellStocked(plan, Stock(plan, now, n), now, n)
  {
    var rows := Stock(plan, now, n);
    CountZero(rows, Busy);
    CountZero(rows, Reports(plan, now));
    CountRange(rows, Documents(plan, now), 0, n);
    CountRange(rows, Pages(plan, now), n, 2 * n);
    assert forall i :: 0 <= i < |rows| ==> |rows[i].cid| == i;
  }

  lemma IdleRoom(plan: Plan, rows: seq<Row>)
    requires Count(rows, Busy) == 0
    ensures BatchRoom(plan, rows) == 2 * ((Half(plan) + 1) / 2)
  {
    LanesPartition(rows);
  }

  /** Half of half the workers, rounded up, for each of two lanes is all of them only below three. */
  lemma RoomForAll(plan: Plan)
    requires plan.concurrency >= 1
    ensures 2 * ((Half(plan) + 1) / 2) < plan.concurrency <==> plan.concurrency >= 3
  {
  }

  /**
   Asked at once for as many rows as there are workers, an idle node with plenty of both kinds
   leaves workers idle exactly when it has three or more.
   */
  lemma FullBatchIdlesWorkers(plan: Plan, now: int)
    requires plan.concurrency >= 1
    ensures StopsShort(plan, Stock(plan, now, plan.concurrency), now, plan.concurrency) <==> plan.concurrency >= 3
  {
    StockFacts(plan, now, plan.concurrency);
    IdleRoom(plan, Stock(plan, now, plan.concurrency));
    RoomForAll(plan);
    BatchStopsShortIff(plan, Stock(plan, now, plan.concurrency), now, plan.concurrency);
  }

  /** Four workers and four rows of each kind: a batch of four takes two. */
  lemma FourWorkersTakeTwo(plan: Plan, now: int)
    requires plan.concurrency == 4
    ensures |TakeBatch(plan, Stock(plan, now, 4), now, 4).picks| == 2
  {
    StockFacts(plan, now, 4);
    IdleRoom(plan, Stock(plan, now, 4));
    BatchStopsShortIff(plan, Stock(plan, now, 4), now, 4);
  }

  /** With a free worker and work waiting, a call for one row never comes back empty. */
  ghost predicate WorkConserving(plan: Plan) {
    forall rows, now ::
      Keyed(rows) && Count(rows, Busy) < plan.concurrency && WorkWaits(plan, rows, now)
      ==> TakeBatch(plan, rows, now, 1).picks != []
  }

  lemma TakeOneIs(plan: Plan, rows: seq<Row>, now: int)
    ensures TakeBatch(plan, rows, now, 1).picks == [] <==> PickOne(plan, rows, now, 0, 0) == Idle
  {
    var turn, start := b => Turn(plan, now, b), Batch(rows, [], 0, 0, false);
    assert Turns(turn, start, 0) == start;
    assert TakeBatch(plan, rows, now, 1) == turn(start);
  }

  lemma ConservingWhenShared(plan: Plan, rows: seq<Row>, now: int)
    requires plan.concurrency <= 2 * Half(plan) && Count(rows, Busy) < plan.concurrency && WorkWaits(plan, rows, now)
    ensures TakeBatch(plan, rows, now, 1).picks != []
  {
    TakeOneIs(plan, rows, now);
    IdleIff(plan, rows, now, 0, 0);
    LanesPartition(rows);
  }

  // ---------------------------------------------------------------- the odd worker

  function Spread(plan: Plan, now: int, html: bool, busy: bool, i: nat): Row {
    Row(seq(i, j => 'x'), if html then Raw else DagPb, now - plan.minAge, now - plan.maxAge, Max(0, Prefer(plan)), 0,
        if busy then Processing else Discovered, 0, None, None, None, None, if html then Sniff else Named)
  }

  /** Half the workers on each kind, and one more row of each kind waiting. */
  function OddRow(plan: Plan, now: int, i: nat): Row {
    var h := Half(plan);
    Spread(plan, now, h <= i < 2 * h || i == 2 * h + 1, i < 2 * h, i)
  }

  function OddTable(plan: Plan, now: int): seq<Row> {
    seq(2 * Half(plan) + 2, (i: nat) => OddRow(plan, now, i))
  }

  lemma {:induction false} CountRange(rows: seq<Row>, p: Row -> bool, lo: nat, hi: nat)
    requires lo <= hi <= |rows| && forall i :: 0 <= i < |rows| ==> (p(rows[i]) <==> lo <= i < hi)
    ensures Count(rows, p) == hi - lo
  {
    if rows != [] {
      var n := |rows| - 1;
      assert forall i :: 0 <= i < n ==> rows[..n][i] == rows[i];
      CountRange(rows[..n], p, Min(lo, n), Min(hi, n));
    }
  }

  lemma OddTableCounts(plan: Plan, now: int)
    ensures Count(OddTable(plan, now), BusyPdf) == Half(plan)
    ensures Count(OddTable(plan, now), BusyHtml) == Half(plan)
  {
    CountRange(OddTable(plan, now), BusyPdf, 0, Half(plan));
    CountRange(OddTable(plan, now), BusyHtml, Half(plan), 2 * Half(plan));
  }

  lemma OddTableContended(plan: Plan, now: int)
    ensures Contended(plan, OddTable(plan, now), now) && WorkWaits(plan, OddTable(plan, now), now)
  {
    var rows, h := OddTable(plan, now), Half(plan);
    FirstIsFirst(rows, Documents(plan, now), ByWorth, 2 * h);
    FirstIsFirst(rows, Pages(plan, now), ByWorth, 2 * h + 1);
    FoundIffAny(rows, Documents(plan, now), ByWorth);
    CountZero(rows, Reports(plan, now));
    FoundIffAny(rows, Reports(plan, now), ByWorth);
  }

  lemma OddWorkerIdles(plan: Plan, now: int)
    requires plan.concurrency > 2 * Half(plan)
    ensures var rows := OddTable(plan, now);
            Keyed(rows) && Count(rows, Busy) < plan.concurrency && WorkWaits(plan, rows, now)
            && TakeBatch(plan, rows, now, 1).picks == []
  {
    var rows := OddTable(plan, now);
    OddTableCounts(plan, now);
    OddTableContended(plan, now);
    LanesPartition(rows);
    IdleIff(plan, rows, now, 0, 0);
    TakeOneIs(plan, rows, now);
    assert forall i :: 0 <= i < |rows| ==> |rows[i].cid| == i;
  }

  /** The scheduler is work-conserving exactly for an even number of workers, or a single one. */
  lemma ConservingIffEven(plan: Plan)
    ensures WorkConserving(plan) <==> plan.concurrency <= 1 || plan.concurrency % 2 == 0
  {
    if plan.concurrency <= 2 * Half(plan) {
      forall rows, now | Count(rows, Busy) < plan.concurrency && WorkWaits(plan, rows, now)
        ensures TakeBatch(plan, rows, now, 1).picks != []
      {
        ConservingWhenShared(plan, rows, now);
      }
    } else {
      OddWorkerIdles(plan, 0);
    }
  }

  // ---------------------------------------------------------------- the procedure

  method TakeRows(conn: Conn, plan: Plan, now: int, limit: nat) returns (taken: seq<nat>)
    modifies conn`rows
    ensures var b := TakeBatch(plan, old(conn.rows), now, limit); conn.rows == b.rows && taken == b.picks
  {
    var b := TakeTurns(b => Turn(plan, now, b), Batch(conn.rows, [], 0, 0, false), limit);
    conn.rows, taken := b.rows, b.picks;
  }

  /** The loop: at most `limit` turns, ending early once a turn finds nothing. */
  method TakeTurns(turn: Batch -> Batch, start: Batch, limit: nat) returns (b: Batch)
    requires !start.stopped && forall t: Batch :: t.stopped ==> turn(t) == t
    ensures b == Turns(turn, start, limit)
  {
    b := start;
    var n := 0;
    while n < limit && !b.stopped
      invariant 0 <= n <= limit && b == Turns(turn, start, n)
    {
      b, n := turn(b), n + 1;
    }
    StoppedStays(turn, start, n, limit);
  }

  lemma {:induction false} StoppedStays(turn: Batch -> Batch, start: Batch, n: nat, limit: nat)
    requires n <= limit && forall t: Batch :: t.stopped ==> turn(t) == t
    ensures Turns(turn, start, n).stopped ==> Turns(turn, start, limit) == Turns(turn, start, n)
  {
    if n < limit {
      StoppedStays(turn, start, n, limit - 1);
    }
  }
}
