/** `prune` of observer/work.py: which rows go, how many may stay, and which never go. */
module Pruning {
  import opened Prelude
  import opened Text
  import opened WorkRows
  import A = Admission
  import opened WorkDb
  import opened DropOrder

  datatype Limits = Limits(maxQueue: nat, maxDirQueue: int, preferPeers: int, maxAge: int, skipTtl: int)

  // ---------------------------------------------------------------- conditions

  /** Sniffed raw that too few peers want. */
  predicate Lonely(r: Row, need: int) {
    r.status == Discovered && !Kept(r) && r.codec != DagPb && !PdfName(r) && r.peerCount < need
  }

  function NotLonely(need: int): Row -> bool {
    r => !Lonely(r, need)
  }

  predicate Stale(r: Row, cutoff: int) {
    Live(r) && !Kept(r) && r.lastSeen < cutoff
  }

  function NotStale(cutoff: int): Row -> bool {
    r => !Stale(r, cutoff)
  }

  /** Live and not kept: what the last cut may take, even while it is processed. */
  predicate Loose(r: Row) {
    Live(r) && !Kept(r)
  }

  /** Unidentified roots go first, then raw, then the rest; within a class the oldest. */
  function ByClass(r: Row): Rank {
    Rank(if r.codec == DagPb && !PdfName(r) then 0 else if r.codec == Raw then 1 else 2, r.lastSeen, 0)
  }

  predicate Starts(s: Option<string>, prefix: string) {
    s.Some? && |prefix| <= |s.value| && Lowered(s.value[..|prefix|]) == prefix
  }

  function CheckedAt(r: Row): int {
    match r.lastChecked case Some(t) => t case None => r.lastSeen
  }

  /** A PDF verdict that is due for another pass. */
  predicate RetryPdf(r: Row, cutoff: int) {
    r.status == Skipped && r.mime == Some("application/pdf") && CheckedAt(r) < cutoff &&
    (r.error == Some("out_of_scope") || r.error == Some("not_academic") || r.error == Some("not_academic_document"))
  }

  predicate RetrySkip(r: Row, cutoff: int) {
    r.status == Skipped && CheckedAt(r) < cutoff &&
    (r.error == Some("unprocessable") || r.error == Some("llm_disagreed") || r.error == Some("incomplete")) &&
    !Starts(r.mime, "image/") && !Starts(r.mime, "video/") && !Starts(r.mime, "audio/")
  }

  predicate Expired(r: Row, cutoff: int) {
    RetryPdf(r, cutoff) || RetrySkip(r, cutoff)
  }

  function Retry(r: Row, cutoff: int): Row {
    if RetryPdf(r, cutoff) then r.(status := Discovered, attempts := 0, error := Some("pdf_retry"))
    else if RetrySkip(r, cutoff) then r.(status := Discovered, attempts := 0, error := Some("skip_expired"))
    else r
  }

  // ---------------------------------------------------------------- the stages

  function DropLonely(rows: seq<Row>, need: int): seq<Row> {
    if need <= 1 then rows else Keep(rows, NotLonely(need))
  }

  function Over(n: int): nat {
    Max(0, n)
  }

  function ExtraHtml(m: nat, rows: seq<Row>): int {
    Count(rows, LiveHtml) - (m - Min(Count(rows, LivePdf), A.LaneCap(m)))
  }

  /** The HTML count the code goes on with, whether or not that many rows could be dropped. */
  function ExtraPdf(m: nat, rows: seq<Row>): int {
    var html := Count(rows, LiveHtml) - Over(ExtraHtml(m, rows));
    Count(rows, LivePdf) - (m - Min(html, A.LaneCap(m)))
  }

  function CutLanes(m: nat, rows: seq<Row>): seq<Row> {
    var rows1 := DropFirst(rows, WaitingHtml, ByAge, Over(ExtraHtml(m, rows)));
    DropFirst(rows1, WaitingProbe, ByAge, Over(ExtraPdf(m, rows)))
  }

  function CutLive(m: nat, rows: seq<Row>): seq<Row> {
    DropFirst(rows, Loose, ByClass, Over(Count(rows, Live) - m))
  }

  function CutProbes(cap: int, rows: seq<Row>): seq<Row> {
    if cap == 0 then rows else DropFirst(rows, WaitingProbe, ByAge, Over(Count(rows, LiveProbe) - cap))
  }

  function Fresh(lim: Limits, rows: seq<Row>, now: int): seq<Row> {
    Keep(DropLonely(Keep(rows, A.NotNamedNotPdf), lim.preferPeers), NotStale(now - lim.maxAge))
  }

  function Cut(lim: Limits, rows: seq<Row>): seq<Row> {
    CutProbes(lim.maxDirQueue, CutLive(lim.maxQueue, CutLanes(lim.maxQueue, rows)))
  }

  function RetryAll(rows: seq<Row>, cutoff: int): seq<Row> {
    if rows == [] then [] else RetryAll(rows[..|rows| - 1], cutoff) + [Retry(rows[|rows| - 1], cutoff)]
  }

  function ExpireSkips(lim: Limits, rows: seq<Row>, now: int): seq<Row> {
    if lim.skipTtl <= 0 then rows else RetryAll(rows, now - lim.skipTtl)
  }

  function Pruned(lim: Limits, rows: seq<Row>, now: int): seq<Row> {
    DropLonely(ExpireSkips(lim, Cut(lim, Fresh(lim, rows, now)), now), lim.preferPeers)
  }

  // ---------------------------------------------------------------- how many stay

  lemma FreshShrinks(lim: Limits, rows: seq<Row>, now: int, q: Row -> bool)
    ensures Count(Fresh(lim, rows, now), q) <= Count(rows, q)
  {
    var rows1 := Keep(rows, A.NotNamedNotPdf);
    var rows2 := DropLonely(rows1, lim.preferPeers);
    KeepCount(rows, A.NotNamedNotPdf, q);
    DropLonelyShrinks(rows1, lim.preferPeers, q);
    KeepCount(rows2, NotStale(now - lim.maxAge), q);
  }

  lemma CutLanesShrinks(m: nat, rows: seq<Row>, q: Row -> bool)
    ensures Count(CutLanes(m, rows), q) <= Count(rows, q)
  {
    var rows1 := DropFirst(rows, WaitingHtml, ByAge, Over(ExtraHtml(m, rows)));
    DropFirstShrinks(rows, WaitingHtml, ByAge, Over(ExtraHtml(m, rows)), q);
    DropFirstShrinks(rows1, WaitingProbe, ByAge, Over(ExtraPdf(m, rows)), q);
  }

  lemma CutProbesShrinks(cap: int, rows: seq<Row>, q: Row -> bool)
    ensures Count(CutProbes(cap, rows), q) <= Count(rows, q)
  {
    DropFirstShrinks(rows, WaitingProbe, ByAge, Over(Count(rows, LiveProbe) - cap), q);
  }

  lemma CutLiveShrinks(m: nat, rows: seq<Row>, q: Row -> bool)
    ensures Count(CutLive(m, rows), q) <= Count(rows, q)
  {
    DropFirstShrinks(rows, Loose, ByClass, Over(Count(rows, Live) - m), q);
  }

  lemma CutShrinks(lim: Limits, rows: seq<Row>, q: Row -> bool)
    ensures Count(Cut(lim, rows), q) <= Count(rows, q)
  {
    var rows1 := CutLanes(lim.maxQueue, rows);
    CutLanesShrinks(lim.maxQueue, rows, q);
    CutLiveShrinks(lim.maxQueue, rows1, q);
    CutProbesShrinks(lim.maxDirQueue, CutLive(lim.maxQueue, rows1), q);
  }

  /** The last cut brings the queue down to its size, or to the kept rows alone, and no further. */
  lemma CutLiveBound(m: nat, rows: seq<Row>)
    ensures Count(CutLive(m, rows), Live) == Max(Min(Count(rows, Live), m), Count(rows, LiveKept))
  {
    var n := Over(Count(rows, Live) - m);
    CountParts(rows, Live, Loose, LiveKept);
    CountParts(CutLive(m, rows), Live, Loose, LiveKept);
    DropFirstCount(rows, Loose, ByClass, n);
    DropFirstOthers(rows, Loose, ByClass, n, LiveKept);
  }

  /** Unidentified roots likewise, down to their cap or to those being processed. */
  lemma CutProbesBound(cap: int, rows: seq<Row>)
    requires cap != 0
    ensures Count(CutProbes(cap, rows), LiveProbe) == Max(Min(Count(rows, LiveProbe), cap), Count(rows, BusyProbe))
  {
    var n := Over(Count(rows, LiveProbe) - cap);
    CountParts(rows, LiveProbe, WaitingProbe, BusyProbe);
    CountParts(CutProbes(cap, rows), LiveProbe, WaitingProbe, BusyProbe);
    DropFirstCount(rows, WaitingProbe, ByAge, n);
    DropFirstOthers(rows, WaitingProbe, ByAge, n, BusyProbe);
  }

  function ExpiredAt(lim: Limits, now: int): Row -> bool {
    r => lim.skipTtl > 0 && Expired(r, now - lim.skipTtl)
  }

  function ExpiredProbeAt(lim: Limits, now: int): Row -> bool {
    r => lim.skipTtl > 0 && Expired(r, now - lim.skipTtl) && Probe(r)
  }

  /** A requeued row keeps everything but its status, attempts and error. */
  lemma RetryKeepsLane(r: Row, cutoff: int)
    ensures Probe(Retry(r, cutoff)) == Probe(r) && Kept(Retry(r, cutoff)) == Kept(r)
    ensures Live(Retry(r, cutoff)) <==> Live(r) || Expired(r, cutoff)
    ensures Expired(r, cutoff) ==> !Live(r)
  {
  }

  /** Requeueing adds the expired ones among the rows counted, if it changes nothing else about them. */
  lemma {:induction false} RetryAllCount(rows: seq<Row>, cutoff: int, q: Row -> bool, e: Row -> bool)
    requires forall r :: (q(Retry(r, cutoff)) <==> q(r) || e(r)) && !(q(r) && e(r))
    ensures Count(RetryAll(rows, cutoff), q) == Count(rows, q) + Count(rows, e)
  {
    if rows != [] {
      var front, last := rows[..|rows| - 1], rows[|rows| - 1];
      RetryAllCount(front, cutoff, q, e);
      CountSnoc(RetryAll(front, cutoff), Retry(last, cutoff), q);
    }
  }

  lemma RetryAllLive(rows: seq<Row>, cutoff: int, e: Row -> bool, ep: Row -> bool)
    requires forall r :: (e(r) <==> Expired(r, cutoff)) && (ep(r) <==> Expired(r, cutoff) && Probe(r))
    ensures Count(RetryAll(rows, cutoff), Live) == Count(rows, Live) + Count(rows, e)
    ensures Count(RetryAll(rows, cutoff), LiveProbe) == Count(rows, LiveProbe) + Count(rows, ep)
  {
    forall r
      ensures Probe(Retry(r, cutoff)) == Probe(r)
      ensures Live(Retry(r, cutoff)) <==> Live(r) || Expired(r, cutoff)
      ensures Expired(r, cutoff) ==> !Live(r)
    {
      RetryKeepsLane(r, cutoff);
    }
    RetryAllCount(rows, cutoff, Live, e);
    RetryAllCount(rows, cutoff, LiveProbe, ep);
  }

  lemma NoneExpire(lim: Limits, rows: seq<Row>, now: int)
    requires lim.skipTtl <= 0
    ensures Count(rows, ExpiredAt(lim, now)) == Count(rows, ExpiredProbeAt(lim, now)) == 0
  {
    CountZero(rows, ExpiredAt(lim, now));
    CountZero(rows, ExpiredProbeAt(lim, now));
  }

  /** What the two tests for due skips say when skips do expire. */
  lemma ExpiryTests(lim: Limits, now: int)
    requires lim.skipTtl > 0
    ensures forall r :: (ExpiredAt(lim, now)(r) <==> Expired(r, now - lim.skipTtl)) &&
                        (ExpiredProbeAt(lim, now)(r) <==> Expired(r, now - lim.skipTtl) && Probe(r))
  {
  }

  lemma SomeExpire(lim: Limits, rows: seq<Row>, now: int)
    requires lim.skipTtl > 0
    ensures var after := RetryAll(rows, now - lim.skipTtl);
            && Count(after, Live) == Count(rows, Live) + Count(rows, ExpiredAt(lim, now))
            && Count(after, LiveProbe) == Count(rows, LiveProbe) + Count(rows, ExpiredProbeAt(lim, now))
  {
    ExpiryTests(lim, now);
    RetryAllLive(rows, now - lim.skipTtl, ExpiredAt(lim, now), ExpiredProbeAt(lim, now));
  }

  lemma ExpireSkipsCount(lim: Limits, rows: seq<Row>, now: int)
    ensures Count(ExpireSkips(lim, rows, now), Live) == Count(rows, Live) + Count(rows, ExpiredAt(lim, now))
    ensures Count(ExpireSkips(lim, rows, now), LiveProbe) ==
            Count(rows, LiveProbe) + Count(rows, ExpiredProbeAt(lim, now))
  {
    if lim.skipTtl <= 0 {
      NoneExpire(lim, rows, now);
    } else {
      SomeExpire(lim, rows, now);
    }
  }

  lemma DropLonelyShrinks(rows: seq<Row>, need: int, q: Row -> bool)
    ensures Count(DropLonely(rows, need), q) <= Count(rows, q)
  {
    KeepCount(rows, NotLonely(need), q);
  }

  lemma HtmlCut(rows: seq<Row>, n: nat)
    ensures Count(DropFirst(rows, WaitingHtml, ByAge, n), LiveHtml) ==
            Max(Count(rows, BusyHtml), Count(rows, LiveHtml) - n)
  {
    CountParts(rows, LiveHtml, WaitingHtml, BusyHtml);
    CountParts(DropFirst(rows, WaitingHtml, ByAge, n), LiveHtml, WaitingHtml, BusyHtml);
    DropFirstCount(rows, WaitingHtml, ByAge, n);
    DropFirstOthers(rows, WaitingHtml, ByAge, n, BusyHtml);
  }

  /** What the HTML lane should come down to. */
  function HtmlAim(m: nat, html: int, pdf: int): int {
    Min(html, m - Min(pdf, Max(1, m / 2)))
  }

  /**
   The HTML lane comes down to what the other lane leaves of the queue, which is half of it at
   least, or to what of it is being processed.
   */
  lemma HtmlShareKept(m: nat, rows: seq<Row>)
    ensures Count(CutLanes(m, rows), LiveHtml) ==
            Max(Count(rows, BusyHtml), HtmlAim(m, Count(rows, LiveHtml), Count(rows, LivePdf)))
  {
    CutLanesHtml(m, rows);
    HtmlCut(rows, Over(ExtraHtml(m, rows)));
    CountParts(rows, LiveHtml, WaitingHtml, BusyHtml);
    var html, pdf := Count(rows, LiveHtml), Count(rows, LivePdf);
    assert html - Over(ExtraHtml(m, rows)) == HtmlAim(m, html, pdf);
  }

  /** The PDF lane loses unidentified roots only, as many as it has above what the HTML lane should leave. */
  lemma PdfShareKept(m: nat, rows: seq<Row>)
    ensures var aim := HtmlAim(m, Count(rows, LiveHtml), Count(rows, LivePdf));
            Count(CutLanes(m, rows), LivePdf) ==
            Count(rows, LivePdf) -
            Min(Count(rows, WaitingProbe), Max(0, Count(rows, LivePdf) + Min(aim, Max(1, m / 2)) - m))
  {
    var html, pdf := Count(rows, LiveHtml), Count(rows, LivePdf);
    PdfAim(m, html, pdf);
    assert ExtraPdf(m, rows) == pdf + Min(HtmlAim(m, html, pdf), Max(1, m / 2)) - m;
    TwoCuts(rows, Over(ExtraHtml(m, rows)), Over(ExtraPdf(m, rows)));
  }

  /** The excess the code computes, on the counts alone. */
  lemma PdfAim(m: nat, html: int, pdf: int)
    ensures var left := html - Over(html - (m - Min(pdf, A.LaneCap(m))));
            pdf - (m - Min(left, A.LaneCap(m))) == pdf + Min(HtmlAim(m, html, pdf), Max(1, m / 2)) - m
  {
  }

  lemma TwoCuts(rows: seq<Row>, n: nat, k: nat)
    ensures Count(DropFirst(DropFirst(rows, WaitingHtml, ByAge, n), WaitingProbe, ByAge, k), LivePdf) ==
            Count(rows, LivePdf) - Min(Count(rows, WaitingProbe), k)
  {
    DropFirstOthers(rows, WaitingHtml, ByAge, n, LivePdf);
    DropFirstOthers(rows, WaitingHtml, ByAge, n, WaitingProbe);
    ProbesLeave(DropFirst(rows, WaitingHtml, ByAge, n), k);
  }

  lemma ProbesLeave(rows: seq<Row>, n: nat)
    ensures Count(DropFirst(rows, WaitingProbe, ByAge, n), LivePdf) ==
            Count(rows, LivePdf) - Min(Count(rows, WaitingProbe), n)
  {
    var rest := (r: Row) => LivePdf(r) && !WaitingProbe(r);
    CountParts(rows, LivePdf, WaitingProbe, rest);
    CountParts(DropFirst(rows, WaitingProbe, ByAge, n), LivePdf, WaitingProbe, rest);
    DropFirstCount(rows, WaitingProbe, ByAge, n);
    DropFirstOthers(rows, WaitingProbe, ByAge, n, rest);
  }

  /** Dropping roots leaves the HTML lane alone. */
  lemma CutLanesHtml(m: nat, rows: seq<Row>)
    ensures Count(CutLanes(m, rows), LiveHtml) ==
            Count(DropFirst(rows, WaitingHtml, ByAge, Over(ExtraHtml(m, rows))), LiveHtml)
  {
    var rows1 := DropFirst(rows, WaitingHtml, ByAge, Over(ExtraHtml(m, rows)));
    DropFirstOthers(rows1, WaitingProbe, ByAge, Over(ExtraPdf(m, rows)), LiveHtml);
  }

  /** The last cut takes documents only when no loose unidentified root is left, and older roots before newer. */
  lemma RootsGoFirst(m: nat, rows: seq<Row>, r: Row, s: Row)
    requires r in rows && r !in CutLive(m, rows) && s in CutLive(m, rows) && LiveProbe(s)
    ensures LiveProbe(r) && r.lastSeen <= s.lastSeen
  {
    FirstGoFirst(rows, Loose, ByClass, Over(Count(rows, Live) - m), r, s);
  }

  lemma CutToLiveBound(lim: Limits, rows: seq<Row>)
    ensures Count(Cut(lim, rows), Live) <= Max(lim.maxQueue, Count(rows, LiveKept))
  {
    var rows1 := CutLanes(lim.maxQueue, rows);
    CutLanesShrinks(lim.maxQueue, rows, LiveKept);
    CutLiveBound(lim.maxQueue, rows1);
    CutProbesShrinks(lim.maxDirQueue, CutLive(lim.maxQueue, rows1), Live);
  }

  lemma CutToProbeBound(lim: Limits, rows: seq<Row>)
    requires lim.maxDirQueue != 0
    ensures Count(Cut(lim, rows), LiveProbe) <= Max(lim.maxDirQueue, Count(rows, BusyProbe))
  {
    var rows1 := CutLanes(lim.maxQueue, rows);
    CutLanesShrinks(lim.maxQueue, rows, BusyProbe);
    var rows2 := CutLive(lim.maxQueue, rows1);
    CutLiveShrinks(lim.maxQueue, rows1, BusyProbe);
    CutProbesBound(lim.maxDirQueue, rows2);
  }

  /** After the cuts only requeued skips are added. */
  lemma RequeuedAfterCut(lim: Limits, rows: seq<Row>, now: int)
    ensures var cut := Cut(lim, Fresh(lim, rows, now));
            && Count(Pruned(lim, rows, now), Live) <= Count(cut, Live) + Count(rows, ExpiredAt(lim, now))
            && Count(Pruned(lim, rows, now), LiveProbe) <= Count(cut, LiveProbe) + Count(rows, ExpiredProbeAt(lim, now))
  {
    var fresh0 := Fresh(lim, rows, now);
    var cut := Cut(lim, fresh0);
    FreshShrinks(lim, rows, now, ExpiredAt(lim, now));
    FreshShrinks(lim, rows, now, ExpiredProbeAt(lim, now));
    CutShrinks(lim, fresh0, ExpiredAt(lim, now));
    CutShrinks(lim, fresh0, ExpiredProbeAt(lim, now));
    ExpireSkipsCount(lim, cut, now);
    DropLonelyShrinks(ExpireSkips(lim, cut, now), lim.preferPeers, Live);
    DropLonelyShrinks(ExpireSkips(lim, cut, now), lim.preferPeers, LiveProbe);
  }

  /**
   After pruning, the live rows number at most the queue's size or the kept rows, whichever is
   more, plus the skips that came due.
   */
  lemma PrunedLiveBound(lim: Limits, rows: seq<Row>, now: int)
    ensures Count(Pruned(lim, rows, now), Live) <=
            Max(lim.maxQueue, Count(rows, LiveKept)) + Count(rows, ExpiredAt(lim, now))
  {
    FreshShrinks(lim, rows, now, LiveKept);
    CutToLiveBound(lim, Fresh(lim, rows, now));
    RequeuedAfterCut(lim, rows, now);
  }

  /** Unidentified roots likewise, against their own cap and those being processed. */
  lemma PrunedProbeBound(lim: Limits, rows: seq<Row>, now: int)
    requires lim.maxDirQueue != 0
    ensures Count(Pruned(lim, rows, now), LiveProbe) <=
            Max(lim.maxDirQueue, Count(rows, BusyProbe)) + Count(rows, ExpiredProbeAt(lim, now))
  {
    FreshShrinks(lim, rows, now, BusyProbe);
    CutToProbeBound(lim, Fresh(lim, rows, now));
    RequeuedAfterCut(lim, rows, now);
  }

  // ---------------------------------------------------------------- what stays

  /** A reported dag-pb root, or a kept row named as a PDF. */
  predicate Protected(r: Row) {
    Kept(r) && (PdfName(r) || (r.source == Report && r.codec == DagPb))
  }

  /** What no stage of pruning matches. */
  predicate Safe(r: Row) {
    !Live(r) || (Kept(r) && (r.status == Processing || Protected(r)))
  }

  lemma FreshKeeps(lim: Limits, rows: seq<Row>, now: int, r: Row)
    requires r in rows && Safe(r)
    ensures r in Fresh(lim, rows, now)
  {
    var rows1 := Keep(rows, A.NotNamedNotPdf);
    KeepMembers(rows, A.NotNamedNotPdf, r);
    KeepMembers(rows1, NotLonely(lim.preferPeers), r);
    KeepMembers(DropLonely(rows1, lim.preferPeers), NotStale(now - lim.maxAge), r);
  }

  lemma CutLanesKeeps(m: nat, rows: seq<Row>, r: Row)
    ensures r in CutLanes(m, rows) ==> r in DropFirst(rows, WaitingHtml, ByAge, Over(ExtraHtml(m, rows))) && r in rows
    ensures r in rows && !WaitingHtml(r) && !WaitingProbe(r) ==> r in CutLanes(m, rows)
  {
    var rows1 := DropFirst(rows, WaitingHtml, ByAge, Over(ExtraHtml(m, rows)));
    DropFirstKeeps(rows, WaitingHtml, ByAge, Over(ExtraHtml(m, rows)), r);
    DropFirstKeeps(rows1, WaitingProbe, ByAge, Over(ExtraPdf(m, rows)), r);
  }

  lemma CutLiveKeeps(m: nat, rows: seq<Row>, r: Row)
    ensures r in CutLive(m, rows) ==> r in rows
    ensures r in rows && !Loose(r) ==> r in CutLive(m, rows)
  {
    DropFirstKeeps(rows, Loose, ByClass, Over(Count(rows, Live) - m), r);
  }

  lemma CutProbesKeeps(cap: int, rows: seq<Row>, r: Row)
    ensures r in CutProbes(cap, rows) ==> r in rows
    ensures r in rows && !WaitingProbe(r) ==> r in CutProbes(cap, rows)
  {
    DropFirstKeeps(rows, WaitingProbe, ByAge, Over(Count(rows, LiveProbe) - cap), r);
  }

  lemma CutKeeps(lim: Limits, rows: seq<Row>, r: Row)
    ensures r in Cut(lim, rows) ==>
              r in DropFirst(rows, WaitingHtml, ByAge, Over(ExtraHtml(lim.maxQueue, rows))) && r in rows
    ensures r in rows && Safe(r) ==> r in Cut(lim, rows)
  {
    var rows1 := CutLanes(lim.maxQueue, rows);
    CutLanesKeeps(lim.maxQueue, rows, r);
    CutLiveKeeps(lim.maxQueue, rows1, r);
    CutProbesKeeps(lim.maxDirQueue, CutLive(lim.maxQueue, rows1), r);
  }

  lemma {:induction false} RetryAllKeeps(rows: seq<Row>, cutoff: int, r: Row)
    requires r in rows
    ensures Retry(r, cutoff) in RetryAll(rows, cutoff)
  {
    var front := rows[..|rows| - 1];
    assert rows == front + [rows[|rows| - 1]];
    if r in front {
      RetryAllKeeps(front, cutoff, r);
    }
  }

  /** The row after its possible requeueing. */
  function Later(lim: Limits, r: Row, now: int): Row {
    if lim.skipTtl <= 0 then r else Retry(r, now - lim.skipTtl)
  }

  /** Safe rows survive, kept ones even when a skip is requeued on the way. */
  lemma SafeSurvives(lim: Limits, rows: seq<Row>, now: int, r: Row)
    requires r in rows && Safe(r) && !Lonely(Later(lim, r, now), lim.preferPeers)
    ensures Later(lim, r, now) in Pruned(lim, rows, now)
  {
    FreshKeeps(lim, rows, now, r);
    var rows1 := Cut(lim, Fresh(lim, rows, now));
    CutKeeps(lim, Fresh(lim, rows, now), r);
    if lim.skipTtl > 0 {
      RetryAllKeeps(rows1, now - lim.skipTtl, r);
    }
    KeepMembers(ExpireSkips(lim, rows1, now), NotLonely(lim.preferPeers), Later(lim, r, now));
  }

  /** Never dropped: a reported dag-pb root and a kept row named as a PDF. */
  lemma ProtectedSurvives(lim: Limits, rows: seq<Row>, now: int, r: Row)
    requires r in rows && Protected(r)
    ensures Later(lim, r, now) in Pruned(lim, rows, now)
  {
    RetryKeepsLane(r, now - lim.skipTtl);
    SafeSurvives(lim, rows, now, r);
  }

  /** Every survivor stood in the table before, as it was or as a skip that came due. */
  lemma {:induction false} RetryAllFrom(rows: seq<Row>, cutoff: int, s: Row) returns (r: Row)
    requires s in RetryAll(rows, cutoff)
    ensures r in rows && s == Retry(r, cutoff)
  {
    var front, last := rows[..|rows| - 1], rows[|rows| - 1];
    if s == Retry(last, cutoff) {
      r := last;
    } else {
      r := RetryAllFrom(front, cutoff, s);
    }
  }

  lemma PruneAddsNothing(lim: Limits, rows: seq<Row>, now: int, s: Row) returns (r: Row)
    requires s in Pruned(lim, rows, now)
    ensures r in rows && s == Later(lim, r, now)
  {
    var rows0 := Keep(rows, A.NotNamedNotPdf);
    var rows1 := Cut(lim, Fresh(lim, rows, now));
    KeepMembers(ExpireSkips(lim, rows1, now), NotLonely(lim.preferPeers), s);
    if lim.skipTtl <= 0 {
      r := s;
    } else {
      r := RetryAllFrom(rows1, now - lim.skipTtl, s);
    }
    CutKeeps(lim, Fresh(lim, rows, now), r);
    KeepMembers(DropLonely(rows0, lim.preferPeers), NotStale(now - lim.maxAge), r);
    KeepMembers(rows0, NotLonely(lim.preferPeers), r);
    KeepMembers(rows, A.NotNamedNotPdf, r);
  }

  /** A reported waiting row of the HTML lane can only go in the lane cut. */
  lemma ReportedOnlyLaneCut(lim: Limits, rows: seq<Row>, r: Row)
    requires r.source == Report && WaitingHtml(r)
    ensures r in Cut(lim, rows) <==> r in DropFirst(rows, WaitingHtml, ByAge, Over(ExtraHtml(lim.maxQueue, rows)))
  {
    var m := lim.maxQueue;
    var rows1 := DropFirst(rows, WaitingHtml, ByAge, Over(ExtraHtml(m, rows)));
    DropFirstKeeps(rows1, WaitingProbe, ByAge, Over(ExtraPdf(m, rows)), r);
    CutLiveKeeps(m, CutLanes(m, rows), r);
    CutProbesKeeps(lim.maxDirQueue, CutLive(m, CutLanes(m, rows)), r);
  }

  lemma FreshKeyed(lim: Limits, rows: seq<Row>, now: int)
    requires Keyed(rows)
    ensures Keyed(Fresh(lim, rows, now))
  {
    var rows1 := Keep(rows, A.NotNamedNotPdf);
    KeyedKeep(rows, A.NotNamedNotPdf);
    KeyedKeep(rows1, NotLonely(lim.preferPeers));
    KeyedKeep(DropLonely(rows1, lim.preferPeers), NotStale(now - lim.maxAge));
  }

  /** Requeueing neither changes a live row nor makes one out of another cid's. */
  lemma LiveAfterRetry(cut: seq<Row>, cutoff: int, rows: seq<Row>, r: Row)
    requires Live(r) && r in rows && Keyed(rows) && forall s :: s in cut ==> s in rows
    ensures r in RetryAll(cut, cutoff) <==> r in cut
  {
    if r in cut {
      RetryAllKeeps(cut, cutoff, r);
    }
    if r in RetryAll(cut, cutoff) {
      var s := RetryAllFrom(cut, cutoff, r);
      assert s in rows && s.cid == r.cid;
    }
  }

  /** What comes after the cuts drops a live row only if it is lonely. */
  lemma LiveAfterCut(lim: Limits, rows: seq<Row>, now: int, r: Row)
    requires Live(r) && Keyed(rows) && r in rows
    ensures r in Pruned(lim, rows, now) <==>
            r in Cut(lim, Fresh(lim, rows, now)) && (lim.preferPeers <= 1 || !Lonely(r, lim.preferPeers))
  {
    var cut := Cut(lim, Fresh(lim, rows, now));
    KeepMembers(ExpireSkips(lim, cut, now), NotLonely(lim.preferPeers), r);
    forall s | s in cut
      ensures s in rows
    {
      SurvivorStood(lim, rows, now, s);
    }
    LiveAfterRetry(cut, now - lim.skipTtl, rows, r);
  }

  lemma SurvivorStood(lim: Limits, rows: seq<Row>, now: int, s: Row)
    requires s in Cut(lim, Fresh(lim, rows, now))
    ensures s in rows
  {
    var rows1 := Keep(rows, A.NotNamedNotPdf);
    CutKeeps(lim, Fresh(lim, rows, now), s);
    KeepMembers(DropLonely(rows1, lim.preferPeers), NotStale(now - lim.maxAge), s);
    KeepMembers(rows1, NotLonely(lim.preferPeers), s);
    KeepMembers(rows, A.NotNamedNotPdf, s);
  }

  lemma ReportedIsFresh(lim: Limits, rows: seq<Row>, now: int, r: Row)
    requires r in rows && r.source == Report
    ensures r in Fresh(lim, rows, now)
  {
    var rows1 := Keep(rows, A.NotNamedNotPdf);
    KeepMembers(rows, A.NotNamedNotPdf, r);
    KeepMembers(rows1, NotLonely(lim.preferPeers), r);
    KeepMembers(DropLonely(rows1, lim.preferPeers), NotStale(now - lim.maxAge), r);
  }

  /**
   For a given table: a reported row waiting in the HTML lane goes exactly when fewer waiting HTML
   rows are ahead of it than the lane has to lose.
   */
  lemma ReportedGoesIff(lim: Limits, rows: seq<Row>, now: int, r: Row) returns (j: nat)
    requires Keyed(rows) && r in rows && r.source == Report && WaitingHtml(r)
    ensures j < |Fresh(lim, rows, now)| && Fresh(lim, rows, now)[j] == r
    ensures r !in Pruned(lim, rows, now) <==>
            Ahead(Fresh(lim, rows, now), WaitingHtml, ByAge, j) < Over(ExtraHtml(lim.maxQueue, Fresh(lim, rows, now)))
  {
    var fresh0 := Fresh(lim, rows, now);
    ReportedIsFresh(lim, rows, now, r);
    j :| 0 <= j < |fresh0| && fresh0[j] == r;
    LiveAfterCut(lim, rows, now, r);
    ReportedOnlyLaneCut(lim, fresh0, r);
    FreshKeyed(lim, rows, now);
    DroppedIffFewAhead(fresh0, WaitingHtml, ByAge, Over(ExtraHtml(lim.maxQueue, fresh0)), j);
  }

  /** With a queue of this size, pruning drops the row from some table. */
  ghost predicate MayGo(r: Row, m: nat) {
    exists lim: Limits, rows, now ::
      lim.maxQueue == m && Keyed(rows) && r in rows && Later(lim, r, now) !in Pruned(lim, rows, now)
  }

  /** Whatever the queue's size, a reported row is safe exactly in the PDF lane or while it is not waiting. */
  lemma ReportedRowsKept(r: Row, m: nat)
    requires r.source == Report
    ensures MayGo(r, m) <==> r.status == Discovered && HtmlLane(r)
  {
    if r.status == Discovered && HtmlLane(r) {
      ReportedRawDropped(r, m);
    } else {
      forall lim, rows, now | r in rows
        ensures Later(lim, r, now) in Pruned(lim, rows, now)
      {
        RetryKeepsLane(r, now - lim.skipTtl);
        SafeSurvives(lim, rows, now, r);
      }
    }
  }

  /** `n` later reports like `r`. */
  function Crowd(r: Row, n: nat): (rows: seq<Row>)
    ensures |rows| == n
  {
    if n == 0 then []
    else Crowd(r, n - 1) + [r.(cid := r.cid + seq(n, i => 'x'), lastSeen := r.lastSeen + 1)]
  }

  lemma {:induction false} CrowdIs(r: Row, n: nat)
    ensures forall i :: 0 <= i < n ==>
              |Crowd(r, n)[i].cid| == |r.cid| + i + 1 &&
              Crowd(r, n)[i] == r.(cid := Crowd(r, n)[i].cid, lastSeen := r.lastSeen + 1)
  {
    if n > 0 {
      CrowdIs(r, n - 1);
    }
  }

  lemma AllKept(rows: seq<Row>, p: Row -> bool)
    requires (forall i :: 0 <= i < |rows| ==> rows[i].source == Report) && forall r: Row :: r.source == Report ==> p(r)
    ensures Keep(rows, p) == rows
  {
    CountAll(rows, p);
  }

  lemma AllFresh(lim: Limits, rows: seq<Row>, now: int)
    requires lim.preferPeers == 0 && forall i :: 0 <= i < |rows| ==> rows[i].source == Report
    ensures Fresh(lim, rows, now) == rows
  {
    AllKept(rows, A.NotNamedNotPdf);
    AllKept(rows, NotStale(now - lim.maxAge));
  }

  /** The oldest row of a lane one over its share is the one that goes. */
  lemma OldestGoes(rows: seq<Row>, r: Row)
    requires WaitingHtml(r) && forall i :: 0 <= i < |rows| ==> rows[i].lastSeen > r.lastSeen
    ensures r !in DropFirst(rows + [r], WaitingHtml, ByAge, 1)
  {
    var all := rows + [r];
    FirstIsFirst(all, WaitingHtml, ByAge, |rows|);
    var i := First(all, WaitingHtml, ByAge).value;
    assert i == |rows|;
    assert RemoveAt(all, |rows|) == rows;
  }

  /** A full HTML lane drops a reported raw row like any sniffed one. */
  lemma ReportedRawDropped(r: Row, m: nat)
    requires r.source == Report && r.status == Discovered && HtmlLane(r)
    ensures MayGo(r, m)
  {
    var lim, rows := Limits(m, 0, 0, 0, 0), Crowd(r, m) + [r];
    CrowdIs(r, m);
    assert Keyed(rows) by {
      assert forall i :: 0 <= i < m ==> rows[i] == Crowd(r, m)[i];
    }
    AllFresh(lim, rows, 0);
    CountAll(rows, LiveHtml);
    CountZero(rows, LivePdf);
    assert ExtraHtml(m, rows) == 1;
    OldestGoes(Crowd(r, m), r);
    CutKeeps(lim, rows, r);
    assert Pruned(lim, rows, 0) == Cut(lim, rows);
    assert Later(lim, r, 0) !in Pruned(lim, rows, 0) && r in rows;
  }

  // ---------------------------------------------------------------- the procedure

  /** Drops lonely raw rows; their peers stay, so that a later want can promote them. */
  method DropLonelyRaw(conn: Conn, need: int)
    modifies conn`rows
    ensures conn.rows == DropLonely(old(conn.rows), need)
  {
    if need > 1 {
      var kept, _ := Select(conn.rows, NotLonely(need));
      conn.rows := kept;
    }
  }

  method ExpireLocalSkips(conn: Conn, lim: Limits, now: int) returns (n: nat)
    modifies conn`rows
    ensures conn.rows == ExpireSkips(lim, old(conn.rows), now)
    ensures n == Count(old(conn.rows), ExpiredAt(lim, now))
  {
    n := 0;
    var before := conn.rows;
    if lim.skipTtl <= 0 {
      NoneExpire(lim, before, now);
      return;
    }
    var after, cutoff := [], now - lim.skipTtl;
    for i := 0 to |before|
      invariant after == RetryAll(before[..i], cutoff)
      invariant n == Count(before[..i], ExpiredAt(lim, now))
    {
      assert before[..i + 1][..i] == before[..i];
      if Expired(before[i], cutoff) {
        n := n + 1;
      }
      after := after + [Retry(before[i], cutoff)];
    }
    assert before[..|before|] == before;
    conn.rows := after;
  }

  /** Forgets the overflow, if there is one. */
  method ForgetOver(conn: Conn, p: Row -> bool, rank: Row -> Rank, extra: int)
    modifies conn`rows, conn`peers
    ensures conn.rows == DropFirst(old(conn.rows), p, rank, Over(extra))
    ensures Narrows(conn.peers, old(conn.peers))
  {
    if extra > 0 {
      conn.ForgetFirst(p, rank, extra);
    }
  }

  /** Each lane down to its share; the second cut trusts the first to have found its rows. */
  method CutToLanes(conn: Conn, cap: nat)
    modifies conn`rows, conn`peers
    ensures conn.rows == CutLanes(cap, old(conn.rows))
    ensures Narrows(conn.peers, old(conn.peers))
  {
    var half, pdf, html: int := A.LaneCap(cap), Count(conn.rows, LivePdf), Count(conn.rows, LiveHtml);
    var extraHtml := html - (cap - Min(pdf, half));
    assert extraHtml == ExtraHtml(cap, old(conn.rows));
    ForgetOver(conn, WaitingHtml, ByAge, extraHtml);
    if extraHtml > 0 {
      html := html - extraHtml;
    }
    assert pdf - (cap - Min(html, half)) == ExtraPdf(cap, old(conn.rows));
    ForgetOver(conn, WaitingProbe, ByAge, pdf - (cap - Min(html, half)));
  }

  method CutToSize(conn: Conn, lim: Limits)
    modifies conn`rows, conn`peers
    ensures conn.rows == CutProbes(lim.maxDirQueue, CutLive(lim.maxQueue, old(conn.rows)))
    ensures Narrows(conn.peers, old(conn.peers))
  {
    ForgetOver(conn, Loose, ByClass, Count(conn.rows, Live) - lim.maxQueue);
    if lim.maxDirQueue != 0 {
      ForgetOver(conn, WaitingProbe, ByAge, Count(conn.rows, LiveProbe) - lim.maxDirQueue);
    }
  }

  method DropOutdated(conn: Conn, lim: Limits, now: int)
    modifies conn`rows, conn`peers
    ensures conn.rows == Fresh(lim, old(conn.rows), now)
    ensures Narrows(conn.peers, old(conn.peers))
  {
    conn.ForgetWhere(A.NotNamedNotPdf);
    DropLonelyRaw(conn, lim.preferPeers);
    conn.ForgetWhere(NotStale(now - lim.maxAge));
  }

  /** `prune`: rows dropped plus rows requeued. */
  method Prune(conn: Conn, lim: Limits, now: int) returns (n: int)
    modifies conn
    ensures conn.rows == Pruned(lim, old(conn.rows), now)
    ensures Narrows(conn.peers, old(conn.peers))
    ensures n == |old(conn.rows)| - |conn.rows| +
                 Count(Cut(lim, Fresh(lim, old(conn.rows), now)), ExpiredAt(lim, now))
  {
    var size := |conn.rows|;
    DropOutdated(conn, lim, now);
    CutToLanes(conn, lim.maxQueue);
    CutToSize(conn, lim);
    var requeued := ExpireLocalSkips(conn, lim, now);
    DropLonelyRaw(conn, lim.preferPeers);
    n := size - |conn.rows| + requeued;
  }
}
