/**
 A UnixFS file as a finite DAG of blocks, and the two flattenings of it that matter:
 the file itself, and what the wave phase of the downloader can recover.
 */
module FileDag {
  import opened Prelude
  import opened DagPb

  /** What one block adds to a file: its own bytes and the links to walk next. */
  datatype Part = Part(data: Bytes, links: seq<Link>)

  /** A raw leaf is its own bytes; a UnixFS wrapper gives inline data and links. */
  function ChildBytes(parse: Bytes -> Option<Node>, block: Bytes): Part {
    match parse(block)
    case None => Part(block, [])
    case Some(node) =>
      if node.IsDirectory() then Part([], [])
      else if node.IsFile() && (node.inlineData != [] || node.links != []) then
        Part(node.inlineData, node.links)
      else Part(block, [])
  }

  /** Content addressing makes the links acyclic; `rank` witnesses that. */
  datatype Dag = Dag(part: Cid -> Part, rank: Cid -> nat) {
    ghost predicate Valid() {
      forall c, i :: 0 <= i < |part(c).links| ==> rank(part(c).links[i].cid) < rank(c)
    }
  }

  function Height(dag: Dag, links: seq<Link>): nat {
    if links == [] then 0
    else Max(dag.rank(links[0].cid) + 1, Height(dag, links[1..]))
  }

  lemma {:induction false} HeightBelow(dag: Dag, links: seq<Link>, h: nat)
    requires forall i :: 0 <= i < |links| ==> dag.rank(links[i].cid) < h
    ensures Height(dag, links) <= h
  {
    if links != [] {
      assert dag.rank(links[0].cid) < h;
      HeightBelow(dag, links[1..], h);
    }
  }

  /** Every block under `links`, in depth-first order, once per path to it. */
  function Blocks(dag: Dag, links: seq<Link>): seq<Cid>
    requires dag.Valid()
    decreases Height(dag, links), |links|
  {
    if links == [] then []
    else
      var c := links[0].cid;
      HeightBelow(dag, dag.part(c).links, dag.rank(c));
      [c] + Blocks(dag, dag.part(c).links) + Blocks(dag, links[1..])
  }

  /** The bytes of a run of blocks. */
  function Data(dag: Dag, cids: seq<Cid>): Bytes {
    if cids == [] then [] else dag.part(cids[0]).data + Data(dag, cids[1..])
  }

  /** The bytes that survive when blocks with links lose their own data. */
  function LeafData(dag: Dag, cids: seq<Cid>): Bytes {
    if cids == [] then []
    else
      var p := dag.part(cids[0]);
      (if p.links == [] then p.data else []) + LeafData(dag, cids[1..])
  }

  /** The depth-first flattening of everything under `links`. */
  function Flat(dag: Dag, links: seq<Link>): Bytes
    requires dag.Valid()
  {
    Data(dag, Blocks(dag, links))
  }

  function Leaves(dag: Dag, links: seq<Link>): Bytes
    requires dag.Valid()
  {
    LeafData(dag, Blocks(dag, links))
  }

  /** A block that carries both links and data of its own. */
  predicate Mixed(dag: Dag, c: Cid) {
    dag.part(c).links != [] && dag.part(c).data != []
  }

  lemma {:induction false} BlocksAppend(dag: Dag, a: seq<Link>, b: seq<Link>)
    requires dag.Valid()
    ensures Blocks(dag, a + b) == Blocks(dag, a) + Blocks(dag, b)
  {
    if a == [] {
      assert a + b == b;
    } else {
      var l, rest := a[0], a[1..];
      BlocksAppend(dag, rest, b);
      assert a == [l] + rest && a + b == [l] + (rest + b);
      Assoc([l.cid] + Blocks(dag, dag.part(l.cid).links), Blocks(dag, rest), Blocks(dag, b));
    }
  }

  lemma {:induction false} DataAppend(dag: Dag, a: seq<Cid>, b: seq<Cid>)
    ensures Data(dag, a + b) == Data(dag, a) + Data(dag, b)
    ensures LeafData(dag, a + b) == LeafData(dag, a) + LeafData(dag, b)
  {
    if a == [] {
      assert a + b == b;
    } else {
      var c, rest := a[0], a[1..];
      DataAppend(dag, rest, b);
      assert a == [c] + rest && a + b == [c] + (rest + b);
      DataCons(dag, c, rest);
      DataCons(dag, c, rest + b);
      Assoc(dag.part(c).data, Data(dag, rest), Data(dag, b));
      Assoc(if dag.part(c).links == [] then dag.part(c).data else [], LeafData(dag, rest), LeafData(dag, b));
    }
  }

  lemma BlocksUnfold(dag: Dag, l: Link, rest: seq<Link>)
    requires dag.Valid()
    ensures Blocks(dag, [l] + rest) ==
            [l.cid] + Blocks(dag, dag.part(l.cid).links + rest)
  {
    BlocksAppend(dag, dag.part(l.cid).links, rest);
    assert ([l] + rest)[1..] == rest;
  }

  lemma DataCons(dag: Dag, c: Cid, rest: seq<Cid>)
    ensures Data(dag, [c] + rest) == dag.part(c).data + Data(dag, rest)
    ensures LeafData(dag, [c] + rest) ==
            (if dag.part(c).links == [] then dag.part(c).data else []) + LeafData(dag, rest)
  {
    assert ([c] + rest)[1..] == rest;
  }

  /** The defining equation of the flattening: a block's bytes, then its links. */
  lemma FlatUnfold(dag: Dag, l: Link, rest: seq<Link>)
    requires dag.Valid()
    ensures Flat(dag, [l] + rest) ==
            dag.part(l.cid).data + Flat(dag, dag.part(l.cid).links + rest)
    ensures Flat(dag, dag.part(l.cid).links + rest) ==
            Flat(dag, dag.part(l.cid).links) + Flat(dag, rest)
  {
    var links := dag.part(l.cid).links;
    BlocksUnfold(dag, l, rest);
    DataCons(dag, l.cid, Blocks(dag, links + rest));
    BlocksAppend(dag, links, rest);
    DataAppend(dag, Blocks(dag, links), Blocks(dag, rest));
  }

  lemma LeavesUnfold(dag: Dag, l: Link, rest: seq<Link>)
    requires dag.Valid()
    ensures var p := dag.part(l.cid);
            Leaves(dag, [l] + rest) ==
            (if p.links == [] then p.data else Leaves(dag, p.links)) + Leaves(dag, rest)
  {
    var links := dag.part(l.cid).links;
    BlocksUnfold(dag, l, rest);
    DataCons(dag, l.cid, Blocks(dag, links + rest));
    LeavesAppend(dag, links, rest);
  }

  lemma LeavesAppend(dag: Dag, a: seq<Link>, b: seq<Link>)
    requires dag.Valid()
    ensures Leaves(dag, a + b) == Leaves(dag, a) + Leaves(dag, b)
  {
    BlocksAppend(dag, a, b);
    DataAppend(dag, Blocks(dag, a), Blocks(dag, b));
  }

  /** Losing the data of link-bearing blocks loses nothing exactly when there is none to lose. */
  lemma {:induction false} LeavesVersusFlat(dag: Dag, cids: seq<Cid>)
    ensures |LeafData(dag, cids)| <= |Data(dag, cids)|
    ensures LeafData(dag, cids) == Data(dag, cids) <==>
            |LeafData(dag, cids)| == |Data(dag, cids)|
    ensures LeafData(dag, cids) == Data(dag, cids) <==>
            forall c :: c in cids ==> !Mixed(dag, c)
  {
    if cids != [] {
      LeavesVersusFlat(dag, cids[1..]);
      assert forall c :: c in cids <==> c == cids[0] || c in cids[1..];
      var p := dag.part(cids[0]);
      if Mixed(dag, cids[0]) {
        assert |LeafData(dag, cids)| < |Data(dag, cids)|;
      } else {
        assert Data(dag, cids)[|p.data|..] == Data(dag, cids[1..]);
        assert LeafData(dag, cids)[|p.data|..] == LeafData(dag, cids[1..]);
      }
    }
  }
}
