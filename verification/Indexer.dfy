/**
 `process_one` of observer/indexer.py: hook, fetch, judge, publish.  Content oracles
 (extraction, prior, model) and the fate of each publish are inputs.
 */
module Indexer {
  import opened Prelude
  import opened DagPb
  import opened FileDag
  import opened Assembly
  import opened WholeFile
  import opened Fetch
  import opened Catalog
  import opened SkipHook

  datatype Prior = Likely | Unlikely | Uncertain

  /** What the world answers while one CID is processed; every judgement is of a text. */
  datatype World = World(
    text: (Bytes, Mime) -> string,    // what extraction gets out of the bytes
    minPdfChars: nat,
    sticky: Mime -> bool,             // a type that must stay off the queue
    known: string -> bool,            // an earlier classify has this text's fingerprint
    prior: (string, Mime) -> Prior,
    modelUp: bool,
    model: (string, Mime) -> Option<bool>,   // None when the call failed
    publishes: bool,                  // clubd accepts the message
    claims: bool,                     // clubd accepts the lease
    give: bool)                       // the retry budget is used up

  /** What happens to the work row. */
  datatype Mark =
    | Forgotten
    | MarkedSkipped(reason: string)
    | MarkedIndexed
    | Requeued
    | FolderDropped
    | Remembered

  datatype Verdict = SkipVerdict | ReuseVerdict | ModelVerdict

  /** A message handed to clubd: the type it was judged as, and the text whose fingerprint it carries. */
  datatype Publication = Publication(verdict: Verdict, mime: Mime, text: string)

  datatype Outcome = Outcome(mark: Mark, sent: Option<Publication>, leased: bool)

  // ---------------------------------------------------------------- judging a text

  /** False for empty extracts and scanned PDFs. */
  predicate Usable(world: World, text: string, mime: Mime) {
    text != "" && (mime == Pdf ==> |text| >= world.minPdfChars)
  }

  /** What becomes of a usable text, said of the prior, the model and clubd alone. */
  ghost predicate Concluded(env: Env, db: Db, cid: Cid, text: string, mime: Mime, world: World, o: Outcome) {
    var reusable := world.known(text) && !MustClassify(env, db, cid);
    var prior, says := world.prior(text, mime), if world.modelUp then world.model(text, mime) else None;
    && (o.sent.Some? ==> o.sent.value.mime == mime && o.sent.value.text == text)
    // An earlier verdict on the same text is reused unless this node owes a vote of its own.
    && (Sent(o, ReuseVerdict) <==> world.publishes && reusable)
    // The model's yes counts unless the prior rules the text out.
    && (Sent(o, ModelVerdict) <==> world.publishes && !reusable && prior != Unlikely && says == Some(true))
    // A skip needs an unlikely prior, or the model's no to an uncertain one.
    && (Sent(o, SkipVerdict) <==>
          world.publishes && !reusable && (prior == Unlikely || (prior == Uncertain && says == Some(false))))
    && (o.mark == MarkedIndexed <==> Sent(o, ReuseVerdict) || Sent(o, ModelVerdict))
    && (o.mark == MarkedSkipped("out_of_scope") <==> Sent(o, SkipVerdict))
    && (o.mark == MarkedSkipped("llm_disagreed") <==> !reusable && prior == Likely && says == Some(false))
    && (o.mark == Requeued <==> o.sent == None && !(!reusable && prior == Likely && says == Some(false)))
    // A lease is taken exactly for a model call that clubd admits.
    && (o.leased <==> world.claims && world.modelUp && !reusable && prior != Unlikely)
  }

  /** A message of this kind was sent. */
  predicate Sent(o: Outcome, v: Verdict) {
    o.sent.Some? && o.sent.value.verdict == v
  }

  /** From usable text to a publication: reuse, prior, claim, model. */
  method Judge(env: Env, db: Db, cid: Cid, text: string, mime: Mime, world: World) returns (o: Outcome)
    ensures Concluded(env, db, cid, text, mime, world, o)
  {
    if world.known(text) && !MustClassify(env, db, cid) {
      return if world.publishes then Outcome(MarkedIndexed, Some(Publication(ReuseVerdict, mime, text)), false)
             else Outcome(Requeued, None, false);
    }
    var prior := world.prior(text, mime);
    if prior == Unlikely {
      return if world.publishes
             then Outcome(MarkedSkipped("out_of_scope"), Some(Publication(SkipVerdict, mime, text)), false)
             else Outcome(Requeued, None, false);
    }
    if !world.modelUp {
      return Outcome(Requeued, None, false);
    }
    var leased := world.claims;
    var meta := world.model(text, mime);
    if meta == None {
      return Outcome(Requeued, None, leased);
    }
    if !meta.value && prior == Likely {
      return Outcome(MarkedSkipped("llm_disagreed"), None, leased);
    }
    if !world.publishes {
      return Outcome(Requeued, None, leased);
    }
    if !meta.value {
      return Outcome(MarkedSkipped("out_of_scope"), Some(Publication(SkipVerdict, mime, text)), leased);
    }
    return Outcome(MarkedIndexed, Some(Publication(ModelVerdict, mime, text)), leased);
  }

  // ---------------------------------------------------------------- one CID

  /** A page, or a PDF that arrived whole, whose text is not empty and in a PDF not a scrap. */
  predicate Readable(html: Bytes -> bool, world: World, s: Sample) {
    s.Bytes? &&
    var mime := MimeOf(html, s);
    || (mime == Html && world.text(s.data, Html) != "")
    || (mime == Pdf && !s.truncated && |world.text(s.data, Pdf)| >= Max(1, world.minPdfChars))
  }

  /** The four magic bytes and the name decide on PDF, so a prefix of the bytes is enough. */
  lemma PdfShowsEarly(html: Bytes -> bool, s: Sample)
    requires s.Bytes?
    ensures SniffMime(html, Take(s.data, SNIFF_WINDOW), s.picked) == Pdf <==> MimeOf(html, s) == Pdf
  {
  }

  /** What becomes of a fetched sample. */
  ghost predicate Handled(env: Env, db: Db, cid: Cid, html: Bytes -> bool, world: World, s: Sample, o: Outcome) {
    match s
    case Missing => o == Outcome(if world.give then Forgotten else Requeued, None, false)
    case Folder(_, _) => o == Outcome(FolderDropped, None, false)
    case Bytes(data, truncated, _) =>
      var mime := MimeOf(html, s);
      if Readable(html, world, s) then Concluded(env, db, cid, world.text(data, mime), mime, world, o)
      else
        && o.sent == None && !o.leased
        // A PDF that did not arrive whole is put aside as incomplete.
        && o.mark == (if mime == Pdf && truncated then MarkedSkipped("incomplete")
                      else if world.sticky(mime) then Remembered else MarkedSkipped("unprocessable"))
  }

  /**
   Which message a sample leads to: reuse for a known text unless a vote is due, a classify
   when the model says yes, a skip when the prior rules the text out or the model says no.
   */
  lemma WhatIsSent(env: Env, db: Db, cid: Cid, html: Bytes -> bool, world: World, s: Sample, o: Outcome)
    requires s.Bytes? && Handled(env, db, cid, html, world, s, o)
    ensures var mime := MimeOf(html, s); var text := world.text(s.data, mime);
            var judged := mime != Other && text != "" && world.publishes
                          && (mime == Pdf ==> !s.truncated && |text| >= world.minPdfChars);
            var unheard := !world.known(text) || MustClassify(env, db, cid);
            var asked := judged && unheard && world.modelUp;
            && (o.sent.Some? ==> judged && o.sent.value.mime == mime && o.sent.value.text == text)
            && (Sent(o, ReuseVerdict) <==> judged && !unheard)
            && (Sent(o, ModelVerdict) <==>
                  asked && world.prior(text, mime) != Unlikely && world.model(text, mime) == Some(true))
            && (Sent(o, SkipVerdict) <==>
                  || (judged && unheard && world.prior(text, mime) == Unlikely)
                  || (asked && world.prior(text, mime) == Uncertain && world.model(text, mime) == Some(false)))
  {
  }

  /** How the row is marked, and that nothing but these marks is left. */
  lemma HowItIsMarked(env: Env, db: Db, cid: Cid, html: Bytes -> bool, world: World, s: Sample, o: Outcome)
    requires s.Bytes? && Handled(env, db, cid, html, world, s, o)
    ensures var mime := MimeOf(html, s); var text := world.text(s.data, mime);
            var unheard := !world.known(text) || MustClassify(env, db, cid);
            var cut := mime == Pdf && s.truncated;
            var junk := mime == Other || text == "" || (mime == Pdf && |text| < world.minPdfChars);
            && (o.mark == MarkedIndexed <==> Sent(o, ReuseVerdict) || Sent(o, ModelVerdict))
            && (o.mark == MarkedSkipped("out_of_scope") <==> Sent(o, SkipVerdict))
            && (o.mark == MarkedSkipped("incomplete") <==> cut)
            && (o.mark == MarkedSkipped("unprocessable") <==> !cut && junk && !world.sticky(mime))
            && (o.mark == Remembered <==> !cut && junk && world.sticky(mime))
            && (o.mark == MarkedSkipped("llm_disagreed") <==>
                  !cut && !junk && unheard && world.prior(text, mime) == Likely && world.modelUp
                  && world.model(text, mime) == Some(false))
            && (o.mark == Requeued <==>
                  !cut && !junk && o.sent == None && o.mark != MarkedSkipped("llm_disagreed"))
  {
  }

  /** From the fetched sample to the mark of the row. */
  method JudgeSample(env: Env, db: Db, cid: Cid, html: Bytes -> bool, world: World, result: Sample) returns (o: Outcome)
    ensures Handled(env, db, cid, html, world, result, o)
  {
    if result.Folder? {
      return Outcome(FolderDropped, None, false);
    }
    if result.Missing? {
      return Outcome(if world.give then Forgotten else Requeued, None, false);
    }
    PdfShowsEarly(html, result);
    if result.truncated && SniffMime(html, Take(result.data, SNIFF_WINDOW), result.picked) == Pdf {
      return Outcome(MarkedSkipped("incomplete"), None, false);
    }
    var mime := SniffMime(html, result.data, result.picked);
    var text := world.text(result.data, mime);
    if !Processable(mime) || !Usable(world, text, mime) {
      return Outcome(if world.sticky(mime) then Remembered else MarkedSkipped("unprocessable"), None, false);
    }
    o := Judge(env, db, cid, text, mime, world);
  }

  /** Whatever is sent about a PDF was judged on complete bytes: the file, exactly unless a later block is mixed. */
  lemma SentPdfIsWhole(net: Net, dag: Dag, env: Env, db: Db, cid: Cid, codec: Codec, t: nat, html: Bytes -> bool,
                       world: World, s: Sample, o: Outcome)
    requires dag.Valid() && Fetched(net, dag, html, cid, codec, t, s) && Handled(env, db, cid, html, world, s, o)
    requires o.sent.Some? && o.sent.value.mime == Pdf
    ensures s.Bytes? && Complete(net, dag, cid, codec, s.data)
    ensures o.sent.value.text == world.text(s.data, Pdf)
    ensures s.data == FileOf(net, dag, cid, codec) <==>
            Single(net, cid, codec) || NoLaterMixed(dag, net.parse(net.content(cid)).value)
    ensures WellFormed(net, dag, cid, codec) ==> s.data == FileOf(net, dag, cid, codec)
    ensures OnWholeFile(net, dag, cid, codec, world, Some(s), o)
  {
    if !Single(net, cid, codec) {
      UnflaggedIsWhole(dag, net.parse(net.content(cid)).value, s.data);
    }
  }

  /** A PDF that was had whole is judged on its whole text, whenever there is enough of it. */
  lemma WholePdfIsJudged(net: Net, dag: Dag, env: Env, db: Db, cid: Cid, codec: Codec, html: Bytes -> bool,
                         world: World, s: Sample, o: Outcome)
    requires dag.Valid() && s.Bytes? && !s.truncated && MimeOf(html, s) == Pdf
    requires s.data == CompleteOf(net, dag, cid, codec) && Handled(env, db, cid, html, world, s, o)
    ensures var text := world.text(CompleteOf(net, dag, cid, codec), Pdf);
            if text == "" || |text| < world.minPdfChars then o.sent == None && !o.leased
            else Concluded(env, db, cid, text, Pdf, world, o)
  {
  }

  /** A page too large for the byte budget is judged on the text of its first bytes. */
  lemma LargePageIsJudged(cfg: Config, net: Net, dag: Dag, env: Env, db: Db, cid: Cid, codec: Codec, t: nat,
                          html: Bytes -> bool, look: Bytes -> Look, world: World, s: Sample, o: Outcome)
    requires dag.Valid() && Prefixes(cfg, net, dag, html, look, cid, codec, t, s)
    requires Handled(env, db, cid, html, world, s, o)
    requires Opens(net, dag, html, look, cid, codec, t, Html)
    requires var root := net.parse(net.content(cid)).value;
             && |Blocks(dag, root.links)| <= cfg.maxChildBlocks
             && |Opening(dag, root).out| <= cfg.maxBytes < |Kept(dag, root)|
    ensures s.Bytes? && s.truncated && s.data == Kept(dag, net.parse(net.content(cid)).value)[..cfg.maxBytes]
    ensures var text := world.text(Kept(dag, net.parse(net.content(cid)).value)[..cfg.maxBytes], Html);
            MimeOf(html, s) == Html ==>
              if text == "" then o.sent == None && !o.leased else Concluded(env, db, cid, text, Html, world, o)
  {
  }

  /** What the hook lets a node fetch, case by case. */
  predicate Open(env: Env, db: Db, cid: Cid, hit: Hit, later: int) {
    || hit.NoHit?
    || ((hit.HitClassify? || hit.HitSkip?) && MustClassify(env, db, cid))
    || (hit.HitSkip? && hit.mime == "application/pdf"
        && (hit.reason == "out_of_scope" || hit.reason == "not_academic" || hit.reason == "directory"))
    || (hit.HitClaim? && (hit.until <= later || env.me == Some(hit.publisher)))
  }

  /** What is noted of a CID that is not fetched: the club's verdict, or another node's lease. */
  predicate Stopped(env: Env, cid: Cid, hit: Hit, mark: Mark) {
    if !env.valid(cid) then mark == Forgotten
    else match hit
    case HitSkip(_, reason) => mark == MarkedSkipped(if reason == "" then "club_skip" else reason)
    case HitClassify(_) => mark == MarkedIndexed
    case HitClaim(_, _) => mark == Requeued
    case NoHit => false
  }

  lemma OpenIsProceeds(env: Env, db: Db, cid: Cid, hit: Hit, later: int)
    ensures Open(env, db, cid, hit, later) <==> Proceeds(env, db, cid, hit, later)
  {
  }

  /** The text sent is that of complete bytes, and of the whole file when that is well formed. */
  ghost predicate OnWholeFile(net: Net, dag: Dag, cid: Cid, codec: Codec, world: World, sample: Option<Sample>,
                              o: Outcome)
    requires dag.Valid() && o.sent.Some?
  {
    && sample.Some? && sample.value.Bytes? && Complete(net, dag, cid, codec, sample.value.data)
    && o.sent.value.text == world.text(sample.value.data, Pdf)
    && (WellFormed(net, dag, cid, codec) ==> o.sent.value.text == world.text(FileOf(net, dag, cid, codec), Pdf))
  }

  /** The checks before a fetch: the mark of a CID that is not fetched. */
  method AskHook(env: Env, db: Db, cid: Cid, hit: Hit, later: int) returns (stop: Option<Mark>)
    ensures stop == None <==> env.valid(cid) && Open(env, db, cid, hit, later)
    ensures stop.Some? ==> Stopped(env, cid, hit, stop.value)
  {
    if !env.valid(cid) {
      return Some(Forgotten);
    }
    var rerun := MustClassify(env, db, cid);
    if hit.HitSkip? && !rerun && !PdfDeservesRetry(hit) {
      return Some(MarkedSkipped(if hit.reason != "" then hit.reason else "club_skip"));
    }
    if hit.HitClassify? && !rerun {
      return Some(MarkedIndexed);
    }
    if hit.HitClaim? && hit.until > later && env.me != Some(hit.publisher) {
      return Some(Requeued);
    }
    return None;
  }

  method ProcessOne(cfg: Config, net: Net, ghost dag: Dag, html: Bytes -> bool, look: Bytes -> Look,
                    env: Env, db: Db, cid: Cid, codec: Codec, hit: Hit, later: int, world: World, t: nat)
    returns (o: Outcome, sample: Option<Sample>)
    requires net.Serves(dag)
    // Exactly a valid CID that the hook lets through is fetched, and nothing is sent without a fetch.
    ensures sample.Some? <==> env.valid(cid) && Open(env, db, cid, hit, later)
    ensures sample == None ==> o.sent == None && !o.leased && Stopped(env, cid, hit, o.mark)
    ensures sample.Some? ==> Fetched(net, dag, html, cid, codec, t, sample.value)
    // What can be had is had whole; of what is too large a prefix is had.
    ensures sample.Some? && Obtainable(cfg, net, dag, html, look, cid, codec, t) ==>
              sample.value.Bytes? && !sample.value.truncated && sample.value.data == CompleteOf(net, dag, cid, codec)
    ensures sample.Some? ==> Prefixes(cfg, net, dag, html, look, cid, codec, t, sample.value)
    // What is sent, leased and marked follows from the sample.
    ensures sample.Some? ==> Handled(env, db, cid, html, world, sample.value, o)
    // Whatever is published about a PDF was judged on the text of the whole file.
    ensures o.sent.Some? && o.sent.value.mime == Pdf ==> OnWholeFile(net, dag, cid, codec, world, sample, o)
  {
    var stop := AskHook(env, db, cid, hit, later);
    if stop.Some? {
      return Outcome(stop.value, None, false), None;
    }
    var result := FetchCid(cfg, net, dag, html, look, cid, codec, t);
    sample := Some(result);
    o := JudgeSample(env, db, cid, html, world, result);
    if o.sent.Some? && o.sent.value.mime == Pdf {
      SentPdfIsWhole(net, dag, env, db, cid, codec, t, html, world, result, o);
    }
  }
}
