/**
 `fetch_cid` and the type sniffing around it: a sample that is finally taken for a PDF
 and is not flagged was recognised as a PDF while it was being assembled.
 */
module Fetch {
  import opened Prelude
  import opened DagPb
  import opened FileDag
  import opened Assembly
  import opened WholeFile

  /**
   What `pick_filename` and the extension table see of a link name: nothing usable, a
   plain name, or one with a listed extension (which may be a source-code one).
   */
  datatype Look = Ignored | Plain | Listed(source: bool)

  /** The first name with a listed extension, else the first plain one. */
  function Pick(look: Bytes -> Look, names: seq<Bytes>): (r: Option<Look>)
    ensures r.Some? ==> r.value != Ignored
  {
    if names == [] then None
    else
      var rest := Pick(look, names[1..]);
      match look(names[0])
      case Listed(s) => Some(Listed(s))
      case Ignored => rest
      case Plain => if rest.Some? && rest.value.Listed? then rest else Some(Plain)
  }

  predicate IsSource(r: Option<Look>) {
    r == Some(Listed(true))
  }

  const PDF_MAGIC: Bytes := [0x25, 0x50, 0x44, 0x46]

  /** A source-code name wins, then the PDF magic, then whatever else decides HTML. */
  function SniffMime(html: Bytes -> bool, data: Bytes, picked: Option<Look>): Mime {
    if IsSource(picked) then Other
    else if PDF_MAGIC <= data then Pdf
    else if html(data) then Html
    else Other
  }

  function Sniffer(html: Bytes -> bool, look: Bytes -> Look): (Bytes, seq<Bytes>) -> Mime {
    (data: Bytes, names: seq<Bytes>) => SniffMime(html, data, Pick(look, names))
  }

  /** A listed name keeps winning as more names are appended. */
  lemma {:induction false} PickIsStable(look: Bytes -> Look, names: seq<Bytes>, more: seq<Bytes>)
    requires Pick(look, names).Some? && Pick(look, names).value.Listed?
    ensures Pick(look, names + more) == Pick(look, names)
  {
    assert (names + more)[1..] == names[1..] + more;
    if !look(names[0]).Listed? {
      PickIsStable(look, names[1..], more);
    }
  }

  /** The sniff during assembly and the final sniff agree on PDF, whatever names came later. */
  lemma FinalPdfWasJudgedPdf(dag: Dag, html: Bytes -> bool, look: Bytes -> Look, root: Node,
                             names0: seq<Bytes>, data: Bytes, names: seq<Bytes>)
    requires dag.Valid() && data <= Kept(dag, root)
    requires Decided(dag, root, names0).names <= names
    requires SniffMime(html, data, Pick(look, names)) == Pdf
    ensures MimeAt(Sniffer(html, look), Decided(dag, root, names0)) == Some(Pdf)
    ensures Judged(dag, Sniffer(html, look), root, names0)
  {
    var h := Decided(dag, root, names0);
    NamesDoNotMatter(dag, Start(root, []), names0);
    SniffStops(dag, Start(root, names0));
    var kept := Kept(dag, root);
    assert kept == h.out + Leaves(dag, h.pending);
    assert PDF_MAGIC <= kept;
    assert h.pending == [] ==> Leaves(dag, h.pending) == [];
    assert h.out[..4] == kept[..4] == PDF_MAGIC;
    assert names == h.names + names[|h.names|..];
    if IsSource(Pick(look, h.names)) {
      PickIsStable(look, h.names, names[|h.names|..]);
    }
  }

  lemma {:induction false} SniffStops(dag: Dag, h: Head)
    requires dag.Valid()
    ensures var s := Sniffed(dag, h); |s.out| >= SNIFF_MIN || s.pending == []
    decreases |Blocks(dag, h.pending)|
  {
    if |h.out| < SNIFF_MIN && h.pending != [] {
      HeadStep(dag, h);
      SniffStops(dag, Advance(dag, h));
    }
  }

  /** What the indexer gets: no block, a folder, or bytes. */
  datatype Sample =
    | Missing
    | Folder(unixfsType: UnixfsType, links: seq<Link>)
    | Bytes(data: Bytes, truncated: bool, picked: Option<Look>)

  function LinkNames(links: seq<Link>): seq<Bytes> {
    if links == [] then [] else NameOf(links[0]) + LinkNames(links[1..])
  }

  /** A block that is its own file: not dag-pb, or not readable as such. */
  predicate Single(net: Net, cid: Cid, codec: Codec) {
    (codec != Codec.DagPb && codec != Codec.UnknownCodec) || net.parse(net.content(cid)) == None
  }

  /** The bytes are a single block, or everything a perfect walk of the file gives. */
  ghost predicate Complete(net: Net, dag: Dag, cid: Cid, codec: Codec, data: Bytes)
    requires dag.Valid()
  {
    if Single(net, cid, codec) then data == net.content(cid)
    else
      var root := net.parse(net.content(cid)).value;
      && !root.IsDirectory() && data == Kept(dag, root)
      && (root.filesize.Some? ==> root.filesize.value <= |data|)
  }

  /** The file a CID stands for: a single block, or the depth-first flattening. */
  ghost function FileOf(net: Net, dag: Dag, cid: Cid, codec: Codec): Bytes
    requires dag.Valid()
  {
    if Single(net, cid, codec) then net.content(cid) else Whole(dag, net.parse(net.content(cid)).value)
  }

  /** A file whose mixed blocks come early, or whose filesize is honest. */
  ghost predicate WellFormed(net: Net, dag: Dag, cid: Cid, codec: Codec)
    requires dag.Valid()
  {
    Single(net, cid, codec) ||
    var root := net.parse(net.content(cid)).value;
    NoLaterMixed(dag, root) || (root.filesize.Some? && root.filesize.value >= |Whole(dag, root)|)
  }

  /** For such a file complete bytes are the file. */
  lemma CompleteIsWhole(net: Net, dag: Dag, cid: Cid, codec: Codec, data: Bytes)
    requires dag.Valid() && Complete(net, dag, cid, codec, data) && WellFormed(net, dag, cid, codec)
    ensures data == FileOf(net, dag, cid, codec)
  {
    if !Single(net, cid, codec) {
      UnflaggedIsWhole(dag, net.parse(net.content(cid)).value, data);
    }
  }

  function MimeOf(html: Bytes -> bool, s: Sample): Mime
    requires s.Bytes?
  {
    SniffMime(html, s.data, s.picked)
  }

  /** What a fetch of `cid` promises about its sample. */
  ghost predicate Fetched(net: Net, dag: Dag, html: Bytes -> bool, cid: Cid, codec: Codec, t: nat, r: Sample)
    requires dag.Valid()
  {
    && (net.Received(t, cid) == None <==> r == Missing)
    && (r.Folder? <==> net.Received(t, cid).Some? && !Single(net, cid, codec)
                       && net.parse(net.content(cid)).value.IsDirectory())
    // An unflagged sample that sniffs as PDF is complete.
    && (r.Bytes? && !r.truncated && MimeOf(html, r) == Pdf ==> Complete(net, dag, cid, codec, r.data))
    // A flagged sample is never passed off as the block.
    && (r.Bytes? && r.truncated ==>
          !Single(net, cid, codec) && r.data <= Kept(dag, net.parse(net.content(cid)).value))
  }

  /** All of what a perfect fetch brings. */
  ghost function CompleteOf(net: Net, dag: Dag, cid: Cid, codec: Codec): Bytes
    requires dag.Valid()
  {
    if Single(net, cid, codec) then net.content(cid) else Kept(dag, net.parse(net.content(cid)).value)
  }

  /** The block arrives, and the rest of its file is judgeable, fits the budgets and is available. */
  ghost predicate Obtainable(cfg: Config, net: Net, dag: Dag, html: Bytes -> bool, look: Bytes -> Look,
                             cid: Cid, codec: Codec, t: nat)
    requires dag.Valid()
  {
    net.Received(t, cid).Some? &&
    (Single(net, cid, codec) ||
     var root, sniff := net.parse(net.content(cid)).value, Sniffer(html, look);
     && !root.IsDirectory() && net.Available(Blocks(dag, root.links))
     && Judged(dag, sniff, root, LinkNames(root.links)) && Fits(cfg, dag, sniff, root, LinkNames(root.links)))
  }

  /** The first block of a file whose opening is taken for `mime`, with every other block at hand. */
  ghost predicate Opens(net: Net, dag: Dag, html: Bytes -> bool, look: Bytes -> Look, cid: Cid, codec: Codec, t: nat,
                        mime: Mime)
    requires dag.Valid()
  {
    net.Received(t, cid).Some? && !Single(net, cid, codec) &&
    var root := net.parse(net.content(cid)).value;
    && !root.IsDirectory() && net.Available(Blocks(dag, root.links))
    && MimeAt(Sniffer(html, look), Opening(dag, root)) == Some(mime)
  }

  /** Where sniffing a file ends when nothing fails. */
  ghost function Opening(dag: Dag, root: Node): Head
    requires dag.Valid()
  {
    Decided(dag, root, LinkNames(root.links))
  }

  /** The opening of a file is the beginning of it. */
  lemma OpeningIsPrefix(dag: Dag, root: Node)
    requires dag.Valid()
    ensures Opening(dag, root).out <= Kept(dag, root)
  {
    NamesDoNotMatter(dag, Start(root, []), LinkNames(root.links));
  }

  /**
   What comes of a file that is too large or not to be had: of a page its first bytes, as many as the byte
   budget or as were sniffed, and of a PDF declared too large what was sniffed.
   */
  ghost predicate Prefixes(cfg: Config, net: Net, dag: Dag, html: Bytes -> bool, look: Bytes -> Look, cid: Cid,
                           codec: Codec, t: nat, r: Sample)
    requires dag.Valid()
  {
    var root, whole := net.parse(net.content(cid)), CompleteOf(net, dag, cid, codec);
    && (Opens(net, dag, html, look, cid, codec, t, Html) && |Blocks(dag, root.value.links)| <= cfg.maxChildBlocks ==>
          && r.Bytes?
          && r.data == Take(whole, Max(cfg.maxBytes, |Opening(dag, root.value).out|))
          && (|whole| > cfg.maxBytes ==> r.truncated))
    && (Opens(net, dag, html, look, cid, codec, t, Pdf) && root.value.filesize.Some?
        && root.value.filesize.value > cfg.maxPdfBytes ==>
          r.Bytes? && r.data == Opening(dag, root.value).out && r.truncated)
    // Whatever else fails, the root's own bytes are there, up to the smaller budget.
    && (r.Bytes? && !Single(net, cid, codec) ==>
          Take(root.value.inlineData, Min(cfg.maxBytes, cfg.maxPdfBytes)) <= r.data <= whole)
  }

  /** A name is picked when the file has a usable one anywhere, and a listed one when it has a listed one. */
  ghost predicate PickedFrom(dag: Dag, look: Bytes -> Look, links: seq<Link>, picked: Option<Look>)
    requires dag.Valid()
  {
    var names := AsSet(LinkNames(links)) + NamesUnder(dag, links);
    && (picked == None <==> forall n :: n in names ==> look(n) == Ignored)
    && (picked.Some? && picked.value.Listed? <==> exists n :: n in names && look(n).Listed?)
  }

  lemma {:induction false} PickFrom(look: Bytes -> Look, names: seq<Bytes>)
    ensures Pick(look, names) == None <==> forall n :: n in AsSet(names) ==> look(n) == Ignored
    ensures Pick(look, names).Some? && Pick(look, names).value.Listed? <==>
            exists n :: n in AsSet(names) && look(n).Listed?
  {
    if names != [] {
      PickFrom(look, names[1..]);
      assert AsSet(names) == {names[0]} + AsSet(names[1..]);
    }
  }

  /** The bytes of a root that is no folder; `a` is what the walk brought. */
  method FetchFile(cfg: Config, net: Net, ghost dag: Dag, html: Bytes -> bool, look: Bytes -> Look, root: Node, t: nat)
    returns (r: Sample, ghost a: Result)
    requires net.Serves(dag)
    ensures r == Sample.Bytes(a.data, a.truncated, Pick(look, a.names))
    ensures Take(root.inlineData, Min(cfg.maxBytes, cfg.maxPdfBytes)) <= r.data <= Kept(dag, root)
    ensures !r.truncated && MimeOf(html, r) == Pdf ==>
              r.data == Kept(dag, root) && (root.filesize.Some? ==> root.filesize.value <= |r.data|)
    ensures Judged(dag, Sniffer(html, look), root, LinkNames(root.links)) ==>
              Assembled(cfg, net, dag, Sniffer(html, look), root, LinkNames(root.links), a)
  {
    var names0 := LinkNames(root.links);
    var result := AssembleFile(cfg, net, dag, Sniffer(html, look), root, names0, t);
    a := result;
    if !result.truncated && SniffMime(html, result.data, Pick(look, result.names)) == Pdf {
      FinalPdfWasJudgedPdf(dag, html, look, root, names0, result.data, result.names);
    }
    r := Sample.Bytes(result.data, result.truncated, Pick(look, result.names));
  }

  /** What the walk promises, said of the sample. */
  lemma FileIsFetched(cfg: Config, net: Net, dag: Dag, html: Bytes -> bool, look: Bytes -> Look, cid: Cid, codec: Codec,
                      t: nat, root: Node, r: Sample, a: Result)
    requires dag.Valid() && !Single(net, cid, codec) && net.parse(net.content(cid)) == Some(root)
    requires net.Received(t, cid).Some? && !root.IsDirectory()
    requires r == Sample.Bytes(a.data, a.truncated, Pick(look, a.names))
    requires Take(root.inlineData, Min(cfg.maxBytes, cfg.maxPdfBytes)) <= r.data <= Kept(dag, root)
    requires !r.truncated && MimeOf(html, r) == Pdf ==>
               r.data == Kept(dag, root) && (root.filesize.Some? ==> root.filesize.value <= |r.data|)
    requires Judged(dag, Sniffer(html, look), root, LinkNames(root.links)) ==>
               Assembled(cfg, net, dag, Sniffer(html, look), root, LinkNames(root.links), a)
    ensures Fetched(net, dag, html, cid, codec, t, r) && Prefixes(cfg, net, dag, html, look, cid, codec, t, r)
    ensures Obtainable(cfg, net, dag, html, look, cid, codec, t) ==>
              !r.truncated && r.data == CompleteOf(net, dag, cid, codec) && PickedFrom(dag, look, root.links, r.picked)
  {
    OpeningIsPrefix(dag, root);
    PickFrom(look, a.names);
  }

  method FetchCid(cfg: Config, net: Net, ghost dag: Dag, html: Bytes -> bool, look: Bytes -> Look,
                  cid: Cid, codec: Codec, t: nat)
    returns (r: Sample)
    requires net.Serves(dag)
    ensures Fetched(net, dag, html, cid, codec, t, r)
    ensures Obtainable(cfg, net, dag, html, look, cid, codec, t) ==>
              r.Bytes? && !r.truncated && r.data == CompleteOf(net, dag, cid, codec)
              && (!Single(net, cid, codec) ==> PickedFrom(dag, look, net.parse(net.content(cid)).value.links, r.picked))
    ensures Prefixes(cfg, net, dag, html, look, cid, codec, t, r)
  {
    var block := net.Received(t, cid);
    if block == None {
      return Missing;
    }
    if codec != Codec.DagPb && codec != Codec.UnknownCodec {
      return Sample.Bytes(block.value, false, None);
    }
    var node := net.parse(block.value);
    if node == None {
      return Sample.Bytes(block.value, false, None);
    }
    var root := node.value;
    if root.IsDirectory() {
      return Folder(root.unixfsType.value, root.links);
    }
    ghost var a;
    r, a := FetchFile(cfg, net, dag, html, look, root, t + 1);
    FileIsFetched(cfg, net, dag, html, look, cid, codec, t, root, r, a);
  }
}
