/** What `prune` of observer/work.py keeps, said of the columns of a row. */
module Keeping {
  import opened Prelude
  import opened Text
  import opened WorkRows
  import A = Admission
  import opened Pruning

  /** The name ends in .pdf, in any case. */
  predicate PdfNamed(r: Row) {
    r.filename.Some? &&
    var name := r.filename.value;
    |name| >= 4 && name[|name| - 4] == '.' && name[|name| - 3] in {'p', 'P'} && name[|name| - 2] in {'d', 'D'}
    && name[|name| - 1] in {'f', 'F'}
  }

  lemma PdfNamedIsPdfName(r: Row)
    ensures PdfName(r) <==> PdfNamed(r)
  {
    if r.filename.Some? && |r.filename.value| >= 4 {
      FourLowered(r.filename.value[|r.filename.value| - 4..]);
    }
  }

  lemma FourLowered(s: string)
    requires |s| == 4
    ensures Lowered(s) == [Lower(s[0]), Lower(s[1]), Lower(s[2]), Lower(s[3])]
  {
    assert s[1..][1..] == s[2..] && s[2..][1..] == s[3..] && s[3..][1..] == "";
    assert Lowered(s[3..]) == [Lower(s[3])];
    assert Lowered(s[2..]) == [Lower(s[2])] + [Lower(s[3])];
    assert Lowered(s[1..]) == [Lower(s[1])] + ([Lower(s[2])] + [Lower(s[3])]);
  }

  /** The conditions every operation on the queue is written in, said of the columns. */
  lemma Columns(r: Row)
    ensures Live(r) <==> r.status != Indexed && r.status != Skipped
    ensures Kept(r) <==> r.source != Sniff
    ensures PdfLane(r) <==> r.codec == DagPb || r.source == Named || PdfNamed(r)
    ensures HtmlLane(r) <==> r.codec != DagPb && r.source != Named && !PdfNamed(r)
    ensures Probe(r) <==> r.codec == DagPb && r.source == Sniff && !PdfNamed(r)
  {
    PdfNamedIsPdfName(r);
  }

  /** A row that waits or is processed outlives the first stages exactly on these grounds. */
  predicate Current(lim: Limits, now: int, r: Row) {
    match r.source
    case Report => true
    case Named => r.status == Processing || PdfNamed(r)
    case Sniff =>
      && r.lastSeen >= now - lim.maxAge
      && (r.codec == DagPb || PdfNamed(r) || r.status == Processing || lim.preferPeers <= 1
          || r.peerCount >= lim.preferPeers)
  }

  lemma FreshIff(lim: Limits, rows: seq<Row>, now: int, r: Row)
    requires r.status == Discovered || r.status == Processing
    ensures r in Fresh(lim, rows, now) <==> r in rows && Current(lim, now, r)
  {
    var rows1 := Keep(rows, A.NotNamedNotPdf);
    PdfNamedIsPdfName(r);
    KeepMembers(rows, A.NotNamedNotPdf, r);
    KeepMembers(rows1, NotLonely(lim.preferPeers), r);
    KeepMembers(DropLonely(rows1, lim.preferPeers), NotStale(now - lim.maxAge), r);
  }

  /** What is left after the first stages fits the queue and the cap on unidentified roots. */
  ghost predicate Uncrowded(lim: Limits, rows: seq<Row>) {
    Count(rows, Live) <= lim.maxQueue && (lim.maxDirQueue == 0 || Count(rows, LiveProbe) <= lim.maxDirQueue)
  }

  lemma NothingCut(lim: Limits, rows: seq<Row>)
    requires Uncrowded(lim, rows)
    ensures Cut(lim, rows) == rows
  {
    LanesPartition(rows);
  }

  /**
   In a queue with room a live row stays exactly while it is current: reported, named as a PDF
   or being processed by name; or sniffed, seen within the last `maxAge` seconds, and dag-pb,
   named as a PDF, being processed, or wanted by enough peers.
   */
  lemma UncrowdedKeeps(lim: Limits, rows: seq<Row>, now: int, r: Row)
    requires Keyed(rows) && r in rows && (r.status == Discovered || r.status == Processing)
    requires Uncrowded(lim, Fresh(lim, rows, now))
    ensures r in Pruned(lim, rows, now) <==> Current(lim, now, r)
  {
    var fresh0 := Fresh(lim, rows, now);
    NothingCut(lim, fresh0);
    FreshIff(lim, rows, now, r);
    PdfNamedIsPdfName(r);
    LiveAfterCut(lim, rows, now, r);
  }

  /** However crowded the queue, no sniffed row that was live before and is out of date is left. */
  lemma NothingStaleIsLeft(lim: Limits, rows: seq<Row>, now: int, r: Row)
    requires Keyed(rows) && r in rows && (r.status == Discovered || r.status == Processing)
    requires r.source == Sniff && r.lastSeen < now - lim.maxAge
    ensures r !in Pruned(lim, rows, now)
  {
    FreshIff(lim, rows, now, r);
    LiveAfterCut(lim, rows, now, r);
    CutKeeps(lim, Fresh(lim, rows, now), r);
  }

  /** Each lane loses its oldest waiting rows, those seen least recently. */
  lemma LanesLoseTheirOldest(m: nat, rows: seq<Row>, r: Row, s: Row)
    requires r in rows && r !in CutLanes(m, rows) && s in CutLanes(m, rows) && s.status == Discovered
    requires HtmlLane(r) <==> HtmlLane(s)
    requires !HtmlLane(s) ==> s.codec == DagPb && s.source == Sniff && !PdfNamed(s)
    ensures r.status == Discovered && r.lastSeen <= s.lastSeen
    ensures !HtmlLane(r) ==> r.codec == DagPb && r.source == Sniff && !PdfNamed(r)
  {
    var n := Over(ExtraHtml(m, rows));
    var rows1 := DropFirst(rows, WaitingHtml, ByAge, n);
    PdfNamedIsPdfName(r);
    PdfNamedIsPdfName(s);
    DropFirstKeeps(rows1, WaitingProbe, ByAge, Over(ExtraPdf(m, rows)), s);
    DropFirstKeeps(rows1, WaitingProbe, ByAge, Over(ExtraPdf(m, rows)), r);
    DropFirstKeeps(rows, WaitingHtml, ByAge, n, r);
    if r in rows1 {
      FirstGoFirst(rows1, WaitingProbe, ByAge, Over(ExtraPdf(m, rows)), r, s);
    } else {
      FirstGoFirst(rows, WaitingHtml, ByAge, n, r, s);
    }
  }

  /** The place of a row in the last cut: unidentified roots, then raw blocks, then the rest. */
  function Class(r: Row): nat {
    if r.codec == DagPb && !PdfNamed(r) then 0 else if r.codec == Raw then 1 else 2
  }

  /** The last cut takes sniffed rows only, class by class and in each the oldest first. */
  lemma LastCutInOrder(m: nat, rows: seq<Row>, r: Row, s: Row)
    requires r in rows && r !in CutLive(m, rows)
    ensures Live(r) && r.source == Sniff
    ensures s in CutLive(m, rows) && Live(s) && s.source == Sniff ==>
              Class(r) < Class(s) || (Class(r) == Class(s) && r.lastSeen <= s.lastSeen)
  {
    PdfNamedIsPdfName(r);
    PdfNamedIsPdfName(s);
    CutLiveKeeps(m, rows, r);
    if s in CutLive(m, rows) && Live(s) && s.source == Sniff {
      FirstGoFirst(rows, Loose, ByClass, Over(Count(rows, Live) - m), r, s);
    }
  }

  // ---------------------------------------------------------------- skips that come due

  /** A skip that gets another pass: last looked at long enough ago, and not for good. */
  predicate Due(lim: Limits, r: Row, now: int) {
    && lim.skipTtl > 0 && r.status == Skipped && r.error.Some?
    && now - lim.skipTtl > (if r.lastChecked.Some? then r.lastChecked.value else r.lastSeen)
    && if r.error.value in {"unprocessable", "llm_disagreed", "incomplete"} then !Media(r)
       else r.error.value in {"out_of_scope", "not_academic", "not_academic_document"}
            && r.mime == Some("application/pdf")
  }

  predicate Media(r: Row) {
    Starts(r.mime, "image/") || Starts(r.mime, "video/") || Starts(r.mime, "audio/")
  }

  /** Requeueing changes exactly the due skips, and of those the status, the attempts and the error. */
  lemma RequeuedIff(lim: Limits, r: Row, now: int)
    ensures Later(lim, r, now) ==
            if Due(lim, r, now)
            then r.(status := Discovered, attempts := 0,
                    error := Some(if r.error.value in {"unprocessable", "llm_disagreed", "incomplete"}
                                  then "skip_expired" else "pdf_retry"))
            else r
  {
  }

  lemma SettledUnlessLonely(lim: Limits, rows: seq<Row>, now: int, r: Row)
    requires r in rows && !Live(r)
    ensures Later(lim, r, now) in Pruned(lim, rows, now) <==>
            lim.preferPeers <= 1 || !Lonely(Later(lim, r, now), lim.preferPeers)
  {
    var cut := Cut(lim, Fresh(lim, rows, now));
    FreshKeeps(lim, rows, now, r);
    CutKeeps(lim, Fresh(lim, rows, now), r);
    if lim.skipTtl > 0 {
      RetryAllKeeps(cut, now - lim.skipTtl, r);
    }
    KeepMembers(ExpireSkips(lim, cut, now), NotLonely(lim.preferPeers), Later(lim, r, now));
  }

  lemma LonelyWhenDue(lim: Limits, now: int, r: Row)
    requires r.status == Indexed || r.status == Skipped
    ensures Lonely(Later(lim, r, now), lim.preferPeers) <==>
            Due(lim, r, now) && r.source == Sniff && r.codec != DagPb && !PdfName(r) && r.peerCount < lim.preferPeers
  {
    RequeuedIff(lim, r, now);
  }

  /** A row that is not live is left alone, or requeued, unless it would then be raw and lonely. */
  lemma SettledRowsStay(lim: Limits, rows: seq<Row>, now: int, r: Row)
    requires r in rows && (r.status == Indexed || r.status == Skipped)
    ensures Later(lim, r, now) in Pruned(lim, rows, now) <==>
            !(Due(lim, r, now) && r.source == Sniff && r.codec != DagPb && !PdfNamed(r)
              && 1 < lim.preferPeers && r.peerCount < lim.preferPeers)
  {
    PdfNamedIsPdfName(r);
    SettledUnlessLonely(lim, rows, now, r);
    LonelyWhenDue(lim, now, r);
  }
}
