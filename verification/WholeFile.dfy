/**
 What an unflagged download is worth: exactly when it is the file, and a chunked
 file encoded by tests/pdfdag.py coming back byte for byte.
 */
module WholeFile {
  import opened Prelude
  import opened CidText
  import opened DagPb
  import opened FileDag
  import opened Assembly

  /** No block fetched after the type was known carries both links and data. */
  ghost predicate NoLaterMixed(dag: Dag, root: Node)
    requires dag.Valid()
  {
    forall c :: c in LaterBlocks(dag, root) ==> !Mixed(dag, c)
  }

  /**
   An unflagged sample is the file exactly when no later block is mixed, and a declared
   filesize that is at least the true length rules the other case out.
   */
  lemma UnflaggedIsWhole(dag: Dag, root: Node, data: Bytes)
    requires dag.Valid() && data == Kept(dag, root)
    requires root.filesize.Some? ==> root.filesize.value <= |data|
    ensures data == Whole(dag, root) <==> NoLaterMixed(dag, root)
    ensures root.filesize.Some? && root.filesize.value >= |Whole(dag, root)| ==>
              data == Whole(dag, root) && root.filesize.value == |data|
  {
    KeptIsWhole(dag, root);
  }

  /** Without mixed later blocks every sample, flagged or not, is a prefix of the file. */
  lemma SampleIsPrefix(dag: Dag, root: Node, data: Bytes)
    requires dag.Valid() && NoLaterMixed(dag, root) && data <= Kept(dag, root)
    ensures data <= Whole(dag, root)
  {
    KeptIsWhole(dag, root);
  }

  /**
   Wherever a later block is mixed and no filesize betrays it, a file that fits and is available
   comes back shorter than it is, and unflagged.
   */
  method LosesDataUnflagged(cfg: Config, net: Net, ghost dag: Dag, sniff: (Bytes, seq<Bytes>) -> Mime,
                            root: Node, t0: nat)
    returns (r: Result)
    requires net.Serves(dag) && Judged(dag, sniff, root, []) && Fits(cfg, dag, sniff, root, [])
    requires net.Available(Blocks(dag, root.links)) && !NoLaterMixed(dag, root)
    ensures !r.truncated && |r.data| < |Whole(dag, root)|
  {
    KeptIsWhole(dag, root);
    r := AssembleFile(cfg, net, dag, sniff, root, [], t0);
  }

  /** A leaf under a block of one link. */
  lemma TwoLevels(dag: Dag, m: Link, x: Link)
    requires dag.Valid() && dag.part(m.cid).links == [x] && dag.part(x.cid).links == []
    ensures Blocks(dag, [m]) == [m.cid, x.cid]
  {
    BlocksUnfold(dag, m, []);
    BlocksUnfold(dag, x, []);
    assert [m] + [] == [m] && [x] + [] == [x];
  }

  lemma TwoLevelsData(dag: Dag, m: Link, x: Link)
    requires dag.Valid() && dag.part(m.cid).links == [x] && dag.part(x.cid).links == []
    ensures Flat(dag, [m]) == dag.part(m.cid).data + dag.part(x.cid).data && Leaves(dag, [m]) == dag.part(x.cid).data
  {
    TwoLevels(dag, m, x);
    DataCons(dag, m.cid, [x.cid]);
    DataCons(dag, x.cid, []);
    assert [m.cid] + [x.cid] == [m.cid, x.cid] && [x.cid] + [] == [x.cid];
  }

  const MAGIC: Bytes := [37, 80, 68, 70]

  /** A root with the PDF magic, a block "m" of byte 9 and a link, and a leaf "x" of byte 7. */
  function MixedNet(): Net {
    Net((b: Bytes) => if b == [1] then Some(Node(Some(File), [9], [Link(None, "x")], None)) else None,
        (c: Cid) => if c == "m" then [1] else if c == "x" then [7] else [],
        (c: Cid, b: Bytes) => b == (if c == "m" then [1] else if c == "x" then [7] else []),
        (n: nat, c: Cid) => Some(if c == "m" then [1] else if c == "x" then [7] else []))
  }

  const MIXED_ROOT := Node(Some(File), MAGIC, [Link(None, "m")], None)

  function MixedDag(): Dag {
    Dag((c: Cid) => if c == "m" then Part([9], [Link(None, "x")]) else if c == "x" then Part([7], []) else Part([], []),
        (c: Cid) => if c == "m" then 1 else 0)
  }

  lemma MixedSetUp()
    ensures MixedNet().Serves(MixedDag())
    ensures MixedNet().Available(Blocks(MixedDag(), MIXED_ROOT.links))
  {
  }

  lemma MixedFile()
    ensures MixedDag().Valid()
    ensures Blocks(MixedDag(), MIXED_ROOT.links) == ["m", "x"]
    ensures Whole(MixedDag(), MIXED_ROOT) == MAGIC + [9, 7] && Kept(MixedDag(), MIXED_ROOT) == MAGIC + [7]
  {
    TwoLevels(MixedDag(), Link(None, "m"), Link(None, "x"));
    TwoLevelsData(MixedDag(), Link(None, "m"), Link(None, "x"));
  }

  /** A concrete network whose file comes back unflagged without one of its bytes. */
  method MixedBlockLosesData(cfg: Config) returns (r: Result)
    requires cfg.maxPdfBytes > 5
    ensures MixedNet().Serves(MixedDag()) && MixedNet().Available(Blocks(MixedDag(), MIXED_ROOT.links))
    ensures !r.truncated && r.data == MAGIC + [7] && Whole(MixedDag(), MIXED_ROOT) == MAGIC + [9, 7]
  {
    MixedSetUp();
    MixedFile();
    var sniff := (data: Bytes, names: seq<Bytes>) => if MAGIC <= data then Pdf else Other;
    r := AssembleFile(cfg, MixedNet(), MixedDag(), sniff, MIXED_ROOT, [], 0);
  }

  /** The block a CID stands for, when the hash has no collisions. */
  ghost function Addressed(sha: Bytes -> Bytes, cid: Cid): Bytes {
    if exists b :: VerifyBlock(sha, cid, b) then
      var b :| VerifyBlock(sha, cid, b); b
    else []
  }

  /** Hash verification makes any gateway honest: what passes is the addressed block. */
  lemma VerifiedIsAddressed(sha: Bytes -> Bytes, cid: Cid, body: Bytes)
    requires CollisionFree(sha) && VerifyBlock(sha, cid, body)
    ensures body == Addressed(sha, cid)
  {
    VerifiedBlockIsUnique(sha, cid, body, Addressed(sha, cid));
  }

  // ---------------------------------------------------------------- chunked files

  function Chunks(payload: Bytes): (r: seq<Bytes>)
    ensures |r| >= 1
    ensures |payload| > 0 ==> |r| == (|payload| + UNIXFS_CHUNK - 1) / UNIXFS_CHUNK
  {
    if |payload| <= UNIXFS_CHUNK then [payload]
    else [payload[..UNIXFS_CHUNK]] + Chunks(payload[UNIXFS_CHUNK..])
  }

  function LeafBlock(chunk: Bytes): Bytes {
    PbNode(UnixfsData(2, chunk, Some(|chunk|), []), [])
  }

  function LeafLink(hashOf: Bytes -> Bytes, chunk: Bytes): LinkOut {
    LinkOut(hashOf(LeafBlock(chunk)), None, |LeafBlock(chunk)|)
  }

  function LeafLinks(hashOf: Bytes -> Bytes, chunks: seq<Bytes>): (r: seq<LinkOut>)
    ensures |r| == |chunks|
    ensures forall i :: 0 <= i < |r| ==> r[i] == LeafLink(hashOf, chunks[i])
  {
    seq(|chunks|, i requires 0 <= i < |chunks| => LeafLink(hashOf, chunks[i]))
  }

  /** The root block `file_dag` writes for a payload. */
  function RootBlock(hashOf: Bytes -> Bytes, payload: Bytes, sizes: seq<nat>): Bytes {
    var chunks := Chunks(payload);
    if |chunks| == 1 then PbNode(UnixfsData(2, payload, Some(|payload|), []), [])
    else PbNode(UnixfsData(2, [], Some(|payload|), sizes), LeafLinks(hashOf, chunks))
  }

  ghost predicate LeafOf(dag: Dag, l: Link, chunk: Bytes) {
    dag.part(l.cid) == Part(chunk, [])
  }

  lemma {:induction false} FlatOfLeaves(dag: Dag, links: seq<Link>, payload: Bytes)
    requires dag.Valid() && |links| == |Chunks(payload)|
    requires forall i :: 0 <= i < |links| ==> LeafOf(dag, links[i], Chunks(payload)[i])
    ensures Flat(dag, links) == payload && |Blocks(dag, links)| == |links|
    ensures forall c :: c in Blocks(dag, links) ==> !Mixed(dag, c)
    decreases |payload|
  {
    var l, rest := links[0], links[1..];
    assert links == [l] + rest;
    assert LeafOf(dag, l, Chunks(payload)[0]);
    FlatUnfold(dag, l, rest);
    BlocksUnfold(dag, l, rest);
    assert [] + rest == rest;
    if |payload| <= UNIXFS_CHUNK {
      assert rest == [];
    } else {
      forall i | 0 <= i < |rest|
        ensures LeafOf(dag, rest[i], Chunks(payload[UNIXFS_CHUNK..])[i])
      {
        assert LeafOf(dag, links[i + 1], Chunks(payload)[i + 1]);
      }
      FlatOfLeaves(dag, rest, payload[UNIXFS_CHUNK..]);
    }
  }

  lemma {:induction false} ChunksNonempty(payload: Bytes, i: nat)
    requires payload != [] && i < |Chunks(payload)|
    ensures Chunks(payload)[i] != []
    decreases |payload|
  {
    if |payload| > UNIXFS_CHUNK && i > 0 {
      ChunksNonempty(payload[UNIXFS_CHUNK..], i - 1);
    }
  }

  lemma {:induction false} LinksInAt(cidOf: Bytes -> Cid, links: seq<LinkOut>, i: nat)
    requires i < |links|
    ensures LinksIn(cidOf, links)[i] == LinkIn(cidOf, links[i])
  {
    if i < |links| - 1 {
      LinksInAt(cidOf, links[..|links| - 1], i);
    }
  }

  lemma LeafPart(cidOf: Bytes -> Cid, parse: Bytes -> Option<Node>, chunk: Bytes)
    requires parse(LeafBlock(chunk)) == ParseWith(cidOf, LeafBlock(chunk)) && chunk != []
    ensures ChildBytes(parse, LeafBlock(chunk)) == Part(chunk, [])
  {
    ParseOfEncode(cidOf, 2, chunk, Some(|chunk|), [], []);
  }

  /** The node the root block parses to. */
  ghost function RootNode(cidOf: Bytes -> Cid, hashOf: Bytes -> Bytes, payload: Bytes): Node {
    if |Chunks(payload)| == 1 then Node(Some(File), payload, [], Some(|payload|))
    else Node(Some(File), [], LinksIn(cidOf, LeafLinks(hashOf, Chunks(payload))), Some(|payload|))
  }

  lemma RootParses(cidOf: Bytes -> Cid, hashOf: Bytes -> Bytes, payload: Bytes, sizes: seq<nat>)
    ensures ParseWith(cidOf, RootBlock(hashOf, payload, sizes)) ==
            Some(RootNode(cidOf, hashOf, payload))
  {
    if |Chunks(payload)| == 1 {
      ParseOfEncode(cidOf, 2, payload, Some(|payload|), [], []);
    } else {
      ParseOfEncode(cidOf, 2, [], Some(|payload|), sizes, LeafLinks(hashOf, Chunks(payload)));
    }
  }

  /** Every chunk's leaf block is what its CID addresses. */
  ghost predicate Stores(net: Net, cidOf: Bytes -> Cid, hashOf: Bytes -> Bytes, payload: Bytes) {
    && (forall b :: net.parse(b) == ParseWith(cidOf, b))
    && forall i :: 0 <= i < |Chunks(payload)| ==>
         net.content(cidOf(hashOf(LeafBlock(Chunks(payload)[i])))) == LeafBlock(Chunks(payload)[i])
  }

  lemma ChunkedIsWhole(net: Net, dag: Dag, cidOf: Bytes -> Cid, hashOf: Bytes -> Bytes, payload: Bytes)
    requires net.Serves(dag) && Stores(net, cidOf, hashOf, payload) && payload != []
    ensures var root := RootNode(cidOf, hashOf, payload);
            && Kept(dag, root) == payload
            && |Blocks(dag, root.links)| <= |Chunks(payload)|
  {
    var root := RootNode(cidOf, hashOf, payload);
    var chunks := Chunks(payload);
    if |chunks| > 1 {
      forall i | 0 <= i < |chunks|
        ensures LeafOf(dag, root.links[i], chunks[i])
      {
        LinksInAt(cidOf, LeafLinks(hashOf, chunks), i);
        ChunksNonempty(payload, i);
        LeafPart(cidOf, net.parse, chunks[i]);
      }
      FlatOfLeaves(dag, root.links, payload);
      SniffedKeepsFile(dag, Start(root, []));
      KeptIsWhole(dag, root);
      assert [] + payload == payload;
    } else {
      assert payload + [] == payload;
    }
  }

  /**
   A chunked PDF under the byte budget comes back whole and unflagged: the block cap
   follows from the byte cap by ceiling division.
   */
  method FetchChunkedPdf(cfg: Config, net: Net, ghost dag: Dag, sniff: (Bytes, seq<Bytes>) -> Mime,
                         ghost cidOf: Bytes -> Cid, hashOf: Bytes -> Bytes, payload: Bytes,
                         sizes: seq<nat>, t0: nat)
    returns (r: Result)
    requires net.Serves(dag) && Stores(net, cidOf, hashOf, payload)
    requires 0 < |payload| < cfg.maxPdfBytes
    requires var root := RootNode(cidOf, hashOf, payload);
             && net.Available(Blocks(dag, root.links))
             && MimeAt(sniff, Decided(dag, root, [])) == Some(Pdf)
    ensures r.data == payload && !r.truncated
  {
    RootParses(cidOf, hashOf, payload, sizes);
    ChunkedIsWhole(net, dag, cidOf, hashOf, payload);
    var root := net.parse(RootBlock(hashOf, payload, sizes)).value;
    CapFollows(|payload|, cfg.maxPdfBytes);
    r := AssembleFile(cfg, net, dag, sniff, root, [], t0);
  }

  lemma CapFollows(n: nat, max: nat)
    requires 0 < n < max
    ensures (n + UNIXFS_CHUNK - 1) / UNIXFS_CHUNK <= (max + UNIXFS_CHUNK - 1) / UNIXFS_CHUNK
  {
  }
}
