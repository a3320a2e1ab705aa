/**
 `_assemble_file` of observer/fetch.py: a one-block-at-a-time sniff phase, then
 parallel waves over a deque, under byte and block budgets and arbitrary failures.
 */
module Assembly {
  import opened Prelude
  import opened DagPb
  import opened FileDag

  const SNIFF_MIN: nat := 4
  const SNIFF_WINDOW: nat := 4096
  const UNIXFS_CHUNK: nat := 262144

  datatype Mime = Pdf | Html | Other

  predicate Processable(m: Mime) {
    m != Other
  }

  datatype Config = Config(maxBytes: nat, maxPdfBytes: nat, maxChildBlocks: nat, parallel: nat) {
    /** Ceiling division of the PDF byte budget by the chunk size, plus slack. */
    function MaxPdfChildBlocks(): nat {
      Max(maxChildBlocks, (maxPdfBytes + UNIXFS_CHUNK - 1) / UNIXFS_CHUNK + 8)
    }

    function Concurrency(): nat {
      Max(1, parallel)
    }

    function Budget(mime: Mime, filesize: Option<nat>): (nat, nat) {
      if mime != Pdf then (maxBytes, maxChildBlocks)
      else if filesize.Some? && filesize.value > maxPdfBytes then (0, 0)
      else (maxPdfBytes, MaxPdfChildBlocks())
    }
  }

  /**
   The network: `reply(n, c)` is whatever body the n-th request, made for `c`, brought;
   it is used only when it verifies against the CID.
   */
  datatype Net = Net(
    parse: Bytes -> Option<Node>, content: Cid -> Bytes,
    verify: (Cid, Bytes) -> bool, reply: (nat, Cid) -> Option<Bytes>)
  {
    function Received(n: nat, c: Cid): Option<Bytes> {
      match reply(n, c)
      case None => None
      case Some(b) => if verify(c, b) then Some(b) else None
    }

    /** Verified bodies are the addressed block, so the DAG is what the network can show. */
    ghost predicate Serves(dag: Dag) {
      && dag.Valid()
      && (forall c, b :: verify(c, b) ==> b == content(c))
      && (forall c :: dag.part(c) == ChildBytes(parse, content(c)))
    }

    ghost predicate Available(cids: seq<Cid>) {
      forall c, n: nat :: c in cids ==> Received(n, c) == Some(content(c))
    }
  }

  // ---------------------------------------------------------------- sniff phase

  /** Progress of the sniff phase. */
  datatype Head = Head(out: Bytes, pending: seq<Link>, names: seq<Bytes>, used: nat)

  function NameOf(l: Link): seq<Bytes> {
    if l.name.Some? && l.name.value != [] then [l.name.value] else []
  }

  function AsSet(names: seq<Bytes>): set<Bytes> {
    set n <- names
  }

  /** Every name a walk under these links comes across. */
  function NamesUnder(dag: Dag, links: seq<Link>): set<Bytes>
    requires dag.Valid()
    decreases Height(dag, links), |links|
  {
    if links == [] then {}
    else
      HeightBelow(dag, dag.part(links[0].cid).links, dag.rank(links[0].cid));
      AsSet(NameOf(links[0])) + NamesUnder(dag, dag.part(links[0].cid).links) + NamesUnder(dag, links[1..])
  }

  lemma {:induction false} NamesUnderAppend(dag: Dag, a: seq<Link>, b: seq<Link>)
    requires dag.Valid()
    ensures NamesUnder(dag, a + b) == NamesUnder(dag, a) + NamesUnder(dag, b)
  {
    if a == [] {
      assert a + b == b;
    } else {
      NamesUnderAppend(dag, a[1..], b);
      assert (a + b)[1..] == a[1..] + b;
    }
  }

  lemma NamesUnderOne(dag: Dag, l: Link)
    requires dag.Valid()
    ensures NamesUnder(dag, [l]) == AsSet(NameOf(l)) + NamesUnder(dag, dag.part(l.cid).links)
  {
    assert [l][1..] == [];
  }

  function Advance(dag: Dag, h: Head): Head
    requires h.pending != []
  {
    var l := h.pending[0];
    var p := dag.part(l.cid);
    Head(h.out + p.data, p.links + h.pending[1..], h.names + NameOf(l), h.used + 1)
  }

  /** Where the sniff phase ends when no fetch fails. */
  function Sniffed(dag: Dag, h: Head): Head
    requires dag.Valid()
    decreases |Blocks(dag, h.pending)|
  {
    if |h.out| >= SNIFF_MIN || h.pending == [] then h
    else
      HeadStep(dag, h);
      Sniffed(dag, Advance(dag, h))
  }

  lemma HeadStep(dag: Dag, h: Head)
    requires dag.Valid() && h.pending != []
    ensures Blocks(dag, h.pending) == [h.pending[0].cid] + Blocks(dag, Advance(dag, h).pending)
    ensures h.out + Flat(dag, h.pending) == Advance(dag, h).out + Flat(dag, Advance(dag, h).pending)
  {
    var l, rest := h.pending[0], h.pending[1..];
    assert h.pending == [l] + rest;
    BlocksUnfold(dag, l, rest);
    FlatUnfold(dag, l, rest);
  }

  /** Names heard so far and names still to come. */
  ghost function AllNames(dag: Dag, h: Head): set<Bytes>
    requires dag.Valid()
  {
    AsSet(h.names) + NamesUnder(dag, h.pending)
  }

  lemma NamesStep(dag: Dag, h: Head)
    requires dag.Valid() && h.pending != []
    ensures AllNames(dag, h) == AllNames(dag, Advance(dag, h))
  {
    var l, rest := h.pending[0], h.pending[1..];
    assert h.pending == [l] + rest;
    NamesUnderAppend(dag, [l], rest);
    NamesUnderOne(dag, l);
    NamesUnderAppend(dag, dag.part(l.cid).links, rest);
  }

  /** The sniff phase loses no name either. */
  lemma {:induction false} SniffedKeepsNames(dag: Dag, h: Head)
    requires dag.Valid()
    ensures AllNames(dag, Sniffed(dag, h)) == AllNames(dag, h)
    decreases |Blocks(dag, h.pending)|
  {
    if |h.out| < SNIFF_MIN && h.pending != [] {
      HeadStep(dag, h);
      NamesStep(dag, h);
      SniffedKeepsNames(dag, Advance(dag, h));
    }
  }

  lemma {:induction false} SniffedKeepsFile(dag: Dag, h: Head)
    requires dag.Valid()
    ensures var s := Sniffed(dag, h);
            && h.out <= s.out && h.names <= s.names && h.used <= s.used
            && h.out + Flat(dag, h.pending) == s.out + Flat(dag, s.pending)
            && h.used + |Blocks(dag, h.pending)| == s.used + |Blocks(dag, s.pending)|
            && (forall c :: c in Blocks(dag, s.pending) ==> c in Blocks(dag, h.pending))
    decreases |Blocks(dag, h.pending)|
  {
    if |h.out| < SNIFF_MIN && h.pending != [] {
      HeadStep(dag, h);
      SniffedKeepsFile(dag, Advance(dag, h));
    }
  }

  function Start(root: Node, names: seq<Bytes>): Head {
    Head(root.inlineData, root.links, names, 0)
  }

  /** The file: the root's bytes, then the flattening of its links. */
  function Whole(dag: Dag, root: Node): Bytes
    requires dag.Valid()
  {
    root.inlineData + Flat(dag, root.links)
  }

  /** What the walk assembles when nothing fails: later link-bearing blocks lose their data. */
  function Kept(dag: Dag, root: Node): Bytes
    requires dag.Valid()
  {
    var s := Sniffed(dag, Start(root, []));
    s.out + Leaves(dag, s.pending)
  }

  /** Blocks still to come when the type is known. */
  function LaterBlocks(dag: Dag, root: Node): seq<Cid>
    requires dag.Valid()
  {
    Blocks(dag, Sniffed(dag, Start(root, [])).pending)
  }

  lemma {:induction false} NamesDoNotMatter(dag: Dag, h: Head, names: seq<Bytes>)
    requires dag.Valid()
    ensures var s, s' := Sniffed(dag, h), Sniffed(dag, h.(names := names));
            s.out == s'.out && s.pending == s'.pending && s.used == s'.used
    decreases |Blocks(dag, h.pending)|
  {
    if |h.out| < SNIFF_MIN && h.pending != [] {
      HeadStep(dag, h);
      var names' := names + NameOf(h.pending[0]);
      assert Advance(dag, h).(names := names') == Advance(dag, h.(names := names));
      NamesDoNotMatter(dag, Advance(dag, h), names');
    }
  }

  /**
   The assembled bytes are the file exactly when no block fetched in a wave carries both
   links and data; a shorter length is the only way they can differ.
   */
  lemma KeptIsWhole(dag: Dag, root: Node)
    requires dag.Valid()
    ensures |Kept(dag, root)| <= |Whole(dag, root)|
    ensures Kept(dag, root) == Whole(dag, root) <==> |Kept(dag, root)| == |Whole(dag, root)|
    ensures Kept(dag, root) == Whole(dag, root) <==>
            forall c :: c in LaterBlocks(dag, root) ==> !Mixed(dag, c)
  {
    var s := Sniffed(dag, Start(root, []));
    SniffedKeepsFile(dag, Start(root, []));
    LeavesVersusFlat(dag, Blocks(dag, s.pending));
    assert Whole(dag, root) == s.out + Flat(dag, s.pending);
    assert Whole(dag, root)[|s.out|..] == Flat(dag, s.pending);
    assert Kept(dag, root)[|s.out|..] == Leaves(dag, s.pending);
  }

  /** The type decided at the end of the sniff phase; None for a file under four bytes. */
  function MimeAt(sniff: (Bytes, seq<Bytes>) -> Mime, h: Head): Option<Mime> {
    if |h.out| >= SNIFF_MIN then Some(sniff(Take(h.out, SNIFF_WINDOW), h.names)) else None
  }

  method SniffPhase(net: Net, ghost dag: Dag, h0: Head, t0: nat)
    returns (h: Head, failed: bool, t: nat)
    requires net.Serves(dag)
    ensures !failed ==> h == Sniffed(dag, h0)
    ensures failed ==> h0.out <= h.out <= Sniffed(dag, h0).out && h0.names <= h.names
    ensures net.Available(Blocks(dag, h0.pending)) ==> !failed
    ensures h.used <= Sniffed(dag, h0).used
  {
    h, failed, t := h0, false, t0;
    while |h.out| < SNIFF_MIN && h.pending != []
      invariant Sniffed(dag, h) == Sniffed(dag, h0) && !failed && h0.out <= h.out && h0.names <= h.names
      invariant forall c :: c in Blocks(dag, h.pending) ==> c in Blocks(dag, h0.pending)
      decreases |Blocks(dag, h.pending)|
    {
      var l := h.pending[0];
      HeadStep(dag, h);
      assert l.cid in Blocks(dag, h0.pending);
      var names := h.names + NameOf(l);
      var block := net.Received(t, l.cid);
      t := t + 1;
      if block == None {
        SniffedKeepsFile(dag, Advance(dag, h));
        h, failed := h.(pending := h.pending[1..], names := names, used := h.used + 1), true;
        return;
      }
      assert Sniffed(dag, h) == Sniffed(dag, Advance(dag, h));
      var p := ChildBytes(net.parse, block.value);
      h := Head(h.out + p.data, p.links + h.pending[1..], names, h.used + 1);
    }
  }

  // ---------------------------------------------------------------- wave phase

  /** A deque entry: a link still to fetch, or bytes already in hand kept in link order. */
  datatype Item = Fetch(link: Link) | Resolved(data: Bytes)

  function ItemLinks(items: seq<Item>): seq<Link> {
    if items == [] then []
    else (if items[0].Fetch? then [items[0].link] else []) + ItemLinks(items[1..])
  }

  function ItemBytes(dag: Dag, items: seq<Item>): Bytes
    requires dag.Valid()
  {
    if items == [] then [] else OneItem(dag, items[0]) + ItemBytes(dag, items[1..])
  }

  function OneItem(dag: Dag, item: Item): Bytes
    requires dag.Valid()
  {
    match item
    case Fetch(l) => Leaves(dag, [l])
    case Resolved(d) => d
  }

  function AsItems(links: seq<Link>): (r: seq<Item>)
    ensures |r| == |links| && forall i :: 0 <= i < |r| ==> r[i] == Fetch(links[i])
  {
    seq(|links|, i requires 0 <= i < |links| => Fetch(links[i]))
  }

  lemma {:induction false} ItemBytesAppend(dag: Dag, a: seq<Item>, b: seq<Item>)
    requires dag.Valid()
    ensures ItemBytes(dag, a + b) == ItemBytes(dag, a) + ItemBytes(dag, b)
  {
    if a == [] {
      assert a + b == b;
    } else {
      ItemBytesAppend(dag, a[1..], b);
      assert (a + b)[1..] == a[1..] + b;
    }
  }

  lemma {:induction false} ItemLinksAppend(a: seq<Item>, b: seq<Item>)
    ensures ItemLinks(a + b) == ItemLinks(a) + ItemLinks(b)
  {
    if a == [] {
      assert a + b == b;
    } else {
      ItemLinksAppend(a[1..], b);
      assert (a + b)[1..] == a[1..] + b;
      Assoc(if a[0].Fetch? then [a[0].link] else [], ItemLinks(a[1..]), ItemLinks(b));
    }
  }

  lemma {:induction false} ItemsOfLinks(dag: Dag, links: seq<Link>)
    requires dag.Valid()
    ensures ItemBytes(dag, AsItems(links)) == Leaves(dag, links)
    ensures ItemLinks(AsItems(links)) == links
  {
    if links != [] {
      ItemsOfLinks(dag, links[1..]);
      assert AsItems(links)[1..] == AsItems(links[1..]);
      assert links == [links[0]] + links[1..];
      LeavesAppend(dag, [links[0]], links[1..]);
    }
  }

  method TakeWave(items: seq<Item>, room: nat) returns (wave: seq<Link>, rest: seq<Item>)
    ensures items == AsItems(wave) + rest && |wave| <= room
    ensures |wave| == room || rest == [] || rest[0].Resolved?
  {
    wave, rest := [], items;
    while rest != [] && |wave| < room
      invariant items == AsItems(wave) + rest && |wave| <= room
      decreases |rest|
    {
      if rest[0].Resolved? {
        return;
      }
      assert AsItems(wave + [rest[0].link]) == AsItems(wave) + [rest[0]];
      wave, rest := wave + [rest[0].link], rest[1..];
    }
  }

  /** What the two sweeps of `_fetch_children` bring for the i-th sibling. */
  function SweptBlock(net: Net, wave: seq<Link>, t: nat, i: nat): Option<Bytes>
    requires i < |wave|
  {
    var first := net.Received(t + i, wave[i].cid);
    if first.Some? || (|wave| > 1 && AllMissing(net, wave, t)) then first
    else net.Received(t + |wave| + i, wave[i].cid)
  }

  predicate AllMissing(net: Net, wave: seq<Link>, t: nat) {
    forall i :: 0 <= i < |wave| ==> net.Received(t + i, wave[i].cid) == None
  }

  /** Siblings in link order; misses get one more sweep unless the whole wave missed. */
  method FetchChildren(net: Net, wave: seq<Link>, t: nat)
    returns (blocks: seq<Option<Bytes>>, t': nat)
    ensures |blocks| == |wave| && t' == t + 2 * |wave|
    ensures forall i :: 0 <= i < |wave| ==> blocks[i] == SweptBlock(net, wave, t, i)
    // A sibling is had at the first request, or at a second one unless every one of several missed.
    ensures forall i :: 0 <= i < |wave| ==>
              (blocks[i].Some? <==>
                 || net.Received(t + i, wave[i].cid).Some?
                 || (net.Received(t + |wave| + i, wave[i].cid).Some? &&
                     (|wave| == 1 || exists j :: 0 <= j < |wave| && net.Received(t + j, wave[j].cid).Some?)))
  {
    blocks, t' := [], t + 2 * |wave|;
    var missing := 0;
    for i := 0 to |wave|
      invariant |blocks| == i && 0 <= missing <= i
      invariant forall j :: 0 <= j < i ==> blocks[j] == net.Received(t + j, wave[j].cid)
      invariant missing == i <==> forall j :: 0 <= j < i ==> blocks[j] == None
      invariant missing == 0 <==> forall j :: 0 <= j < i ==> blocks[j].Some?
    {
      blocks := blocks + [net.Received(t + i, wave[i].cid)];
      if blocks[i] == None {
        missing := missing + 1;
      }
    }
    assert missing == |wave| <==> AllMissing(net, wave, t);
    if missing > 0 && !(missing == |wave| && |wave| > 1) {
      for i := 0 to |wave|
        invariant |blocks| == |wave|
        invariant forall j :: 0 <= j < i ==> blocks[j] == SweptBlock(net, wave, t, j)
        invariant forall j :: i <= j < |wave| ==> blocks[j] == net.Received(t + j, wave[j].cid)
      {
        if blocks[i] == None {
          blocks := blocks[i := net.Received(t + |wave| + i, wave[i].cid)];
        }
      }
    }
  }

  /** What a block puts in the place of its link: its own links, or its data. */
  function ItemsOf(p: Part): seq<Item> {
    if p.links != [] then AsItems(p.links) else if p.data != [] then [Resolved(p.data)] else []
  }

  /** The entries of a whole wave, in link order. */
  function Entries(dag: Dag, wave: seq<Link>): seq<Item> {
    if wave == [] then []
    else Entries(dag, wave[..|wave| - 1]) + ItemsOf(dag.part(wave[|wave| - 1].cid))
  }

  /** Turn a wave's blocks into deque entries; a link-bearing block contributes only its links. */
  method Expand(net: Net, ghost dag: Dag, wave: seq<Link>, blocks: seq<Option<Bytes>>)
    returns (ok: bool, items: seq<Item>)
    requires net.Serves(dag) && |blocks| == |wave|
    requires forall i :: 0 <= i < |wave| ==>
               blocks[i] == None || blocks[i] == Some(net.content(wave[i].cid))
    ensures ok <==> forall i :: 0 <= i < |wave| ==> blocks[i].Some?
    ensures ok ==> items == Entries(dag, wave)
  {
    ok, items := true, [];
    for i := 0 to |wave|
      invariant ok && forall j :: 0 <= j < i ==> blocks[j].Some?
      invariant items == Entries(dag, wave[..i])
    {
      if blocks[i] == None {
        return false, [];
      }
      assert wave[..i + 1][..i] == wave[..i];
      items := items + ItemsOf(ChildBytes(net.parse, blocks[i].value));
    }
    assert wave[..|wave|] == wave;
  }

  /** The entries stand for the wave's leaves, and need every block the wave needs but its own. */
  ghost predicate Expanded(dag: Dag, wave: seq<Link>, items: seq<Item>)
    requires dag.Valid()
  {
    && ItemBytes(dag, items) == Leaves(dag, wave)
    && |wave| + |Blocks(dag, ItemLinks(items))| == |Blocks(dag, wave)|
    && forall c :: c in Blocks(dag, ItemLinks(items)) ==> c in Blocks(dag, wave)
  }

  /** The wave's own names and those under the entries are the names under the wave. */
  ghost predicate Named(dag: Dag, wave: seq<Link>, items: seq<Item>)
    requires dag.Valid()
  {
    AsSet(Names(wave)) + NamesUnder(dag, ItemLinks(items)) == NamesUnder(dag, wave)
  }

  lemma {:induction false} EntriesStand(dag: Dag, wave: seq<Link>)
    requires dag.Valid()
    ensures Expanded(dag, wave, Entries(dag, wave)) && Named(dag, wave, Entries(dag, wave))
  {
    if wave != [] {
      var front, l := wave[..|wave| - 1], wave[|wave| - 1];
      assert wave == front + [l];
      EntriesStand(dag, front);
      ExpandStep(dag, front, l, Entries(dag, front), ItemsOf(dag.part(l.cid)));
      ExpandNames(dag, front, l, Entries(dag, front), ItemsOf(dag.part(l.cid)));
    }
  }

  lemma ExpandNames(dag: Dag, done: seq<Link>, l: Link, items: seq<Item>, more: seq<Item>)
    requires dag.Valid() && more == ItemsOf(dag.part(l.cid))
    requires Named(dag, done, items)
    ensures Named(dag, done + [l], items + more)
  {
    NamesAppend(done, [l]);
    assert [l][1..] == [];
    NamesUnderAppend(dag, done, [l]);
    NamesUnderOne(dag, l);
    ItemLinksAppend(items, more);
    NamesUnderAppend(dag, ItemLinks(items), ItemLinks(more));
    ItemsOfLinks(dag, dag.part(l.cid).links);
    assert ItemLinks(more) == dag.part(l.cid).links;
  }

  lemma {:induction false} NamesAppend(a: seq<Link>, b: seq<Link>)
    ensures Names(a + b) == Names(a) + Names(b)
  {
    if a == [] {
      assert a + b == b;
    } else {
      NamesAppend(a[1..], b);
      assert (a + b)[1..] == a[1..] + b;
      Assoc(NameOf(a[0]), Names(a[1..]), Names(b));
    }
  }

  lemma ExpandStep(dag: Dag, done: seq<Link>, l: Link, items: seq<Item>, more: seq<Item>)
    requires dag.Valid()
    requires more == ItemsOf(dag.part(l.cid))
    ensures ItemBytes(dag, items + more) == ItemBytes(dag, items) + Leaves(dag, [l])
    ensures Leaves(dag, done + [l]) == Leaves(dag, done) + Leaves(dag, [l])
    ensures Blocks(dag, ItemLinks(items + more)) ==
            Blocks(dag, ItemLinks(items)) + Blocks(dag, dag.part(l.cid).links)
    ensures Blocks(dag, done + [l]) ==
            Blocks(dag, done) + ([l.cid] + Blocks(dag, dag.part(l.cid).links))
  {
    var p := dag.part(l.cid);
    ItemBytesAppend(dag, items, more);
    ItemLinksAppend(items, more);
    ItemsOfLinks(dag, p.links);
    LeavesAppend(dag, done, [l]);
    BlocksAppend(dag, done, [l]);
    BlocksUnfold(dag, l, []);
    LeavesUnfold(dag, l, []);
    assert [l] + [] == [l] && p.links + [] == p.links;
    BlocksAppend(dag, ItemLinks(items), ItemLinks(more));
    if p.links != [] {
      assert ItemLinks(more) == p.links;
    } else {
      assert ItemLinks(more) == [];
    }
  }

  /** Move leading resolved bytes to the output. */
  method Drain(ghost dag: Dag, out0: Bytes, items0: seq<Item>) returns (out: Bytes, items: seq<Item>)
    requires dag.Valid()
    ensures out + ItemBytes(dag, items) == out0 + ItemBytes(dag, items0)
    ensures ItemLinks(items) == ItemLinks(items0) && out0 <= out
    ensures items == [] || items[0].Fetch?
  {
    out, items := out0, items0;
    while items != [] && items[0].Resolved?
      invariant out + ItemBytes(dag, items) == out0 + ItemBytes(dag, items0)
      invariant ItemLinks(items) == ItemLinks(items0) && out0 <= out
      decreases |items|
    {
      assert out0 <= out <= out + items[0].data;
      FirstResolved(dag, items);
      Assoc(out, items[0].data, ItemBytes(dag, items[1..]));
      out, items := out + items[0].data, items[1..];
    }
  }

  lemma FirstResolved(dag: Dag, items: seq<Item>)
    requires dag.Valid() && items != [] && items[0].Resolved?
    ensures ItemBytes(dag, items) == items[0].data + ItemBytes(dag, items[1..])
    ensures ItemLinks(items) == ItemLinks(items[1..])
  {
  }

  lemma WaveCovers(net: Net, dag: Dag, wave: seq<Link>, t: nat)
    requires net.Serves(dag)
    ensures forall i :: 0 <= i < |wave| ==>
              SweptBlock(net, wave, t, i) == None ||
              SweptBlock(net, wave, t, i) == Some(net.content(wave[i].cid))
    ensures net.Available(Blocks(dag, wave)) ==>
              forall i :: 0 <= i < |wave| ==> SweptBlock(net, wave, t, i).Some?
  {
    forall i | 0 <= i < |wave|
      ensures wave[i].cid in Blocks(dag, wave)
    {
      RootsAreBlocks(dag, wave, i);
    }
  }

  lemma {:induction false} RootsAreBlocks(dag: Dag, links: seq<Link>, i: nat)
    requires dag.Valid() && i < |links|
    ensures links[i].cid in Blocks(dag, links)
    ensures |Blocks(dag, links)| > 0
  {
    if i > 0 {
      RootsAreBlocks(dag, links[1..], i - 1);
    }
  }

  function Names(wave: seq<Link>): seq<Bytes> {
    if wave == [] then [] else NameOf(wave[0]) + Names(wave[1..])
  }

  /** How the deque changes when a whole wave arrives. */
  lemma WaveStep(dag: Dag, items: seq<Item>, wave: seq<Link>, rest: seq<Item>, more: seq<Item>)
    requires dag.Valid() && items == AsItems(wave) + rest
    requires ItemBytes(dag, more) == Leaves(dag, wave)
    requires |wave| + |Blocks(dag, ItemLinks(more))| == |Blocks(dag, wave)|
    requires forall c :: c in Blocks(dag, ItemLinks(more)) ==> c in Blocks(dag, wave)
    ensures ItemBytes(dag, more + rest) == ItemBytes(dag, items)
    ensures |wave| + |Blocks(dag, ItemLinks(more + rest))| == |Blocks(dag, ItemLinks(items))|
    ensures forall c :: c in Blocks(dag, ItemLinks(more + rest)) ==> c in Blocks(dag, ItemLinks(items))
    ensures forall c :: c in Blocks(dag, wave) ==> c in Blocks(dag, ItemLinks(items))
  {
    ItemsOfLinks(dag, wave);
    ItemBytesAppend(dag, AsItems(wave), rest);
    ItemBytesAppend(dag, more, rest);
    ItemLinksAppend(AsItems(wave), rest);
    ItemLinksAppend(more, rest);
    BlocksAppend(dag, wave, ItemLinks(rest));
    BlocksAppend(dag, ItemLinks(more), ItemLinks(rest));
  }

  lemma NamesOfWave(dag: Dag, items: seq<Item>, wave: seq<Link>, rest: seq<Item>, more: seq<Item>)
    requires dag.Valid() && items == AsItems(wave) + rest
    requires Named(dag, wave, more)
    ensures AsSet(Names(wave)) + NamesUnder(dag, ItemLinks(more + rest)) == NamesUnder(dag, ItemLinks(items))
  {
    ItemsOfLinks(dag, wave);
    ItemLinksAppend(AsItems(wave), rest);
    ItemLinksAppend(more, rest);
    NamesUnderAppend(dag, wave, ItemLinks(rest));
    NamesUnderAppend(dag, ItemLinks(more), ItemLinks(rest));
  }

  lemma WaveArrives(dag: Dag, items: seq<Item>, wave: seq<Link>, rest: seq<Item>)
    requires dag.Valid() && items == AsItems(wave) + rest
    ensures var next := Entries(dag, wave) + rest;
            && ItemBytes(dag, next) == ItemBytes(dag, items)
            && |wave| + |Blocks(dag, ItemLinks(next))| == |Blocks(dag, ItemLinks(items))|
            && (forall c :: c in Blocks(dag, ItemLinks(next)) ==> c in Blocks(dag, ItemLinks(items)))
            && AsSet(Names(wave)) + NamesUnder(dag, ItemLinks(next)) == NamesUnder(dag, ItemLinks(items))
  {
    EntriesStand(dag, wave);
    WaveStep(dag, items, wave, rest, Entries(dag, wave));
    NamesOfWave(dag, items, wave, rest, Entries(dag, wave));
  }

  lemma HeardMore(names: seq<Bytes>, more: seq<Bytes>, later: set<Bytes>, all: set<Bytes>)
    requires AsSet(more) + later == all
    ensures AsSet(names + more) + later == AsSet(names) + all
  {
    assert AsSet(names + more) == AsSet(names) + AsSet(more);
  }

  method WavePhase(net: Net, ghost dag: Dag, h: Head, budget: nat, maxBlocks: nat, parallel: nat,
                   t0: nat)
    returns (out: Bytes, items: seq<Item>, used: nat, names: seq<Bytes>, failed: bool, t: nat)
    requires net.Serves(dag) && parallel >= 1
    ensures out + ItemBytes(dag, items) == h.out + Leaves(dag, h.pending)
    ensures !failed ==> items == [] || |out| >= budget || used >= maxBlocks
    ensures !failed ==> used + |Blocks(dag, ItemLinks(items))| == h.used + |Blocks(dag, h.pending)|
    ensures items == [] || items[0].Fetch?
    ensures net.Available(Blocks(dag, h.pending)) ==> !failed
    ensures used <= Max(h.used, maxBlocks) && h.names <= names && h.out <= out
    ensures !failed ==> AsSet(names) + NamesUnder(dag, ItemLinks(items)) == AllNames(dag, h)
  {
    out, items, used, names, failed, t := h.out, AsItems(h.pending), h.used, h.names, false, t0;
    ItemsOfLinks(dag, h.pending);
    while items != [] && |out| < budget && used < maxBlocks
      invariant !failed && h.names <= names && h.out <= out && used <= Max(h.used, maxBlocks)
      invariant out + ItemBytes(dag, items) == h.out + Leaves(dag, h.pending)
      invariant used + |Blocks(dag, ItemLinks(items))| == h.used + |Blocks(dag, h.pending)|
      invariant forall c :: c in Blocks(dag, ItemLinks(items)) ==> c in Blocks(dag, h.pending)
      invariant AsSet(names) + NamesUnder(dag, ItemLinks(items)) == AllNames(dag, h)
      invariant items == [] || items[0].Fetch?
      decreases |Blocks(dag, ItemLinks(items))|
    {
      var wave, rest := TakeWave(items, Min(parallel, maxBlocks - used));
      assert wave != [];  // every wave makes progress
      WaveArrives(dag, items, wave, rest);
      HeardMore(names, Names(wave), NamesUnder(dag, ItemLinks(Entries(dag, wave) + rest)),
                NamesUnder(dag, ItemLinks(items)));
      names := names + Names(wave);
      var blocks;
      WaveCovers(net, dag, wave, t);
      assert forall c :: c in Blocks(dag, wave) ==> c in Blocks(dag, ItemLinks(items)) by {
        ItemsOfLinks(dag, wave);
        ItemLinksAppend(AsItems(wave), rest);
        BlocksAppend(dag, wave, ItemLinks(rest));
      }
      blocks, t := FetchChildren(net, wave, t);
      used := used + |wave|;
      var ok, more := Expand(net, dag, wave, blocks);
      if !ok {
        failed := true;
        return;
      }
      out, items := Drain(dag, out, more + rest);
    }
  }

  // ---------------------------------------------------------------- the whole operation

  datatype Result = Result(data: Bytes, truncated: bool, names: seq<Bytes>, fetched: nat)

  /** The head of the walk when nothing fails, and the type it decides. */
  ghost function Decided(dag: Dag, root: Node, names: seq<Bytes>): Head
    requires dag.Valid()
  {
    Sniffed(dag, Start(root, names))
  }

  ghost predicate Judged(dag: Dag, sniff: (Bytes, seq<Bytes>) -> Mime, root: Node, names: seq<Bytes>)
    requires dag.Valid()
  {
    var m := MimeAt(sniff, Decided(dag, root, names));
    m.Some? && Processable(m.value)
  }

  /** Byte budget and block cap that apply to the decided type. */
  ghost function BudgetOf(cfg: Config, dag: Dag, sniff: (Bytes, seq<Bytes>) -> Mime, root: Node, names: seq<Bytes>)
    : (nat, nat)
    requires dag.Valid() && Judged(dag, sniff, root, names)
  {
    cfg.Budget(MimeAt(sniff, Decided(dag, root, names)).value, root.filesize)
  }

  /** Room for the file: bytes strictly under the budget, one fetch per block, a true filesize. */
  ghost predicate Fits(cfg: Config, dag: Dag, sniff: (Bytes, seq<Bytes>) -> Mime, root: Node,
                       names: seq<Bytes>)
    requires dag.Valid() && Judged(dag, sniff, root, names)
  {
    && |Kept(dag, root)| < BudgetOf(cfg, dag, sniff, root, names).0
    && |Blocks(dag, root.links)| <= BudgetOf(cfg, dag, sniff, root, names).1
    && (root.filesize.Some? ==> root.filesize.value <= |Kept(dag, root)|)
  }

  /** One fetch per block is allowed, every block arrives, and the opening alone does not exceed the byte budget. */
  ghost predicate Reachable(cfg: Config, net: Net, dag: Dag, sniff: (Bytes, seq<Bytes>) -> Mime, root: Node,
                            names: seq<Bytes>)
    requires dag.Valid() && Judged(dag, sniff, root, names)
  {
    && |Blocks(dag, root.links)| <= BudgetOf(cfg, dag, sniff, root, names).1
    && net.Available(Blocks(dag, root.links))
    && |Decided(dag, root, names).out| <= BudgetOf(cfg, dag, sniff, root, names).0
  }

  /** The budget's worth of the bytes, flagged if there is more of them or the filesize asks for more. */
  predicate Sampled(r: Result, all: Bytes, budget: nat, filesize: Option<nat>) {
    && r.data == Take(all, budget)
    && (|all| > budget ==> r.truncated)
    && (|all| < budget ==> (r.truncated <==> filesize.Some? && filesize.value > |all|))
  }

  /** The byte budget is met with every block fetched, or fills before the blocks run out. */
  lemma BudgetFills(dag: Dag, h: Head, out: Bytes, items: seq<Item>, used: nat, budget: nat, maxBlocks: nat)
    requires dag.Valid() && out + ItemBytes(dag, items) == h.out + Leaves(dag, h.pending)
    requires items == [] || items[0].Fetch?
    requires items == [] || |out| >= budget || used >= maxBlocks
    requires used + |Blocks(dag, ItemLinks(items))| == h.used + |Blocks(dag, h.pending)|
    ensures Take(out, budget) <= h.out + Leaves(dag, h.pending)
    ensures items == [] ==> out == h.out + Leaves(dag, h.pending)
    ensures h.used + |Blocks(dag, h.pending)| <= maxBlocks ==>
              Take(out, budget) == Take(h.out + Leaves(dag, h.pending), budget) && (items != [] ==> |out| >= budget)
  {
    if items != [] {
      HeadIsCounted(dag, items);
    }
    assert out <= out + ItemBytes(dag, items);
  }

  /** What comes of the file once its opening and type are known. */
  ghost predicate Finished(cfg: Config, net: Net, dag: Dag, h: Head, mime: Mime, filesize: Option<nat>, r: Result)
    requires dag.Valid()
  {
    var all := h.out + Leaves(dag, h.pending);
    var (budget, maxBlocks) := cfg.Budget(mime, filesize);
    // Always a prefix; unflagged it is everything, and not short of the filesize.
    && r.data <= all
    && (!r.truncated ==> r.data == all && (filesize.Some? ==> filesize.value <= |r.data|))
    // Whatever fails, what was sniffed comes back, up to the budget.
    && Take(h.out, budget) <= r.data
    // With every block within reach exactly the budget's worth of the file comes back.
    && (|h.out| <= budget && h.used + |Blocks(dag, h.pending)| <= maxBlocks && net.Available(Blocks(dag, h.pending)) ==>
          Sampled(r, all, budget, filesize) && (|all| < budget ==> AsSet(r.names) == AllNames(dag, h)))
    // An opening beyond the budget is returned as it is, flagged, at no further cost.
    && (|h.out| > budget ==> r.data == h.out && r.truncated && r.fetched == h.used)
    && h.names <= r.names && r.fetched <= Max(h.used, maxBlocks)
  }

  /** Everything after the type is known. */
  method Finish(cfg: Config, net: Net, ghost dag: Dag, h: Head, mime: Mime, filesize: Option<nat>,
                t0: nat)
    returns (r: Result)
    requires net.Serves(dag)
    ensures Finished(cfg, net, dag, h, mime, filesize, r)
  {
    var (budget, maxBlocks) := cfg.Budget(mime, filesize);
    if |h.out| > budget {
      return Result(h.out, true, h.names, h.used);
    }
    var out, items, used, names, missed, t' :=
      WavePhase(net, dag, h, budget, maxBlocks, cfg.Concurrency(), t0);
    if missed {
      return Result(Take(out, budget), true, names, used);
    }
    BudgetFills(dag, h, out, items, used, budget, maxBlocks);
    var data := Take(out, budget);
    var truncated := items != [] || |out| > budget;
    if filesize.Some? && filesize.value != 0 && |data| < filesize.value {
      truncated := true;
    }
    return Result(data, truncated, names, used);
  }

  /** The opening in terms of the whole file: nothing is lost, and a root with enough bytes is its own opening. */
  lemma OpeningFacts(dag: Dag, root: Node, names: seq<Bytes>)
    requires dag.Valid()
    ensures var h := Decided(dag, root, names);
            && root.inlineData <= h.out && names <= h.names
            && Kept(dag, root) == h.out + Leaves(dag, h.pending)
            && h.used + |Blocks(dag, h.pending)| == |Blocks(dag, root.links)|
            && (forall c :: c in Blocks(dag, h.pending) ==> c in Blocks(dag, root.links))
            && AllNames(dag, h) == AsSet(names) + NamesUnder(dag, root.links)
            && (|root.inlineData| >= SNIFF_MIN ==> h == Start(root, names))
  {
    var h0 := Start(root, names);
    NamesDoNotMatter(dag, Start(root, []), names);
    SniffedKeepsFile(dag, h0);
    SniffedKeepsNames(dag, h0);
  }

  lemma PrefixOfPrefix(a: Bytes, b: Bytes, n: nat, m: nat, whole: Bytes)
    requires a <= b <= whole && n <= m
    ensures Take(a, n) <= Take(b, m) <= whole
  {
  }

  /** A budget of no bytes at all is for openings that are returned whole. */
  lemma BudgetIsEnough(cfg: Config, mime: Mime, filesize: Option<nat>, inlineData: Bytes, opening: Bytes, data: Bytes)
    requires inlineData <= opening && Take(opening, cfg.Budget(mime, filesize).0) <= data
    requires |opening| > cfg.Budget(mime, filesize).0 ==> data == opening
    ensures Take(inlineData, Min(cfg.maxBytes, cfg.maxPdfBytes)) <= data
    ensures cfg.Budget(mime, filesize).1 <= cfg.MaxPdfChildBlocks()
  {
  }

  /** What a judged file comes back as. */
  ghost predicate Assembled(cfg: Config, net: Net, dag: Dag, sniff: (Bytes, seq<Bytes>) -> Mime, root: Node,
                            names: seq<Bytes>, r: Result)
    requires dag.Valid() && Judged(dag, sniff, root, names)
  {
    var (budget, maxBlocks) := BudgetOf(cfg, dag, sniff, root, names);
    // Unflagged it is everything, and not short of the filesize.
    && (!r.truncated ==>
          r.data == Kept(dag, root) && (root.filesize.Some? ==> root.filesize.value <= |r.data|))
    // Every block available and enough of them allowed: the budget's worth of the file, and all its names.
    && (Reachable(cfg, net, dag, sniff, root, names) ==>
          && Sampled(r, Kept(dag, root), budget, root.filesize)
          && (|Kept(dag, root)| < budget ==> AsSet(r.names) == AsSet(names) + NamesUnder(dag, root.links)))
    // Room to spare and no failures: the sample is whole and not flagged.
    && (Fits(cfg, dag, sniff, root, names) && net.Available(Blocks(dag, root.links)) ==>
          !r.truncated && r.data == Kept(dag, root))
    // An opening beyond the budget, as of a PDF declared too large, comes back as it is.
    && (net.Available(Blocks(dag, root.links)) && |Decided(dag, root, names).out| > budget ==>
          r.data == Decided(dag, root, names).out && r.truncated && r.fetched == Decided(dag, root, names).used)
  }

  lemma FinishedIsAssembled(cfg: Config, net: Net, dag: Dag, sniff: (Bytes, seq<Bytes>) -> Mime, root: Node,
                            names: seq<Bytes>, r: Result)
    requires dag.Valid() && Judged(dag, sniff, root, names)
    requires Finished(cfg, net, dag, Decided(dag, root, names), MimeAt(sniff, Decided(dag, root, names)).value,
                      root.filesize, r)
    ensures Assembled(cfg, net, dag, sniff, root, names, r)
  {
    OpeningFacts(dag, root, names);
  }

  method AssembleFile(cfg: Config, net: Net, ghost dag: Dag,
                      sniff: (Bytes, seq<Bytes>) -> Mime, root: Node, names0: seq<Bytes>, t0: nat)
    returns (r: Result)
    requires net.Serves(dag)
    // Whatever fails, the sample is a prefix of what a perfect network would give, with the root's own bytes.
    ensures Take(root.inlineData, Min(cfg.maxBytes, cfg.maxPdfBytes)) <= r.data <= Kept(dag, root)
    // A sample of a judged type that is not flagged is all of it; within reach it is the budget's worth.
    ensures Judged(dag, sniff, root, names0) ==> Assembled(cfg, net, dag, sniff, root, names0, r)
    // A type nobody reads comes back as far as it was sniffed.
    ensures !Judged(dag, sniff, root, names0) && net.Available(Blocks(dag, root.links)) ==>
              && r.data == Take(Decided(dag, root, names0).out, cfg.maxBytes)
              && (r.truncated <==> |root.inlineData| < SNIFF_MIN && Decided(dag, root, names0).pending != [])
    // Names only accumulate after the type was decided.
    ensures !r.truncated ==> Decided(dag, root, names0).names <= r.names
    // An unprocessable file costs the sniff phase only; any other stays in its block budget.
    ensures !Judged(dag, sniff, root, names0) ==> r.fetched <= Decided(dag, root, names0).used
    ensures r.fetched <= Max(Decided(dag, root, names0).used, cfg.MaxPdfChildBlocks())
  {
    var h0 := Start(root, names0);
    OpeningFacts(dag, root, names0);
    ghost var kept, least := Kept(dag, root), Min(cfg.maxBytes, cfg.maxPdfBytes);
    PrefixOfPrefix(root.inlineData, Decided(dag, root, names0).out, least, cfg.maxBytes, kept);
    if |h0.out| >= SNIFF_MIN && !Processable(sniff(Take(h0.out, SNIFF_WINDOW), h0.names)) {
      return Result(Take(h0.out, cfg.maxBytes), false, h0.names, 0);
    }
    var h, failed, t := SniffPhase(net, dag, h0, t0);
    if failed {
      PrefixOfPrefix(root.inlineData, h.out, least, Max(least, |h.out|), kept);
      return Result(h.out, true, h.names, h.used);
    }
    var mime := MimeAt(sniff, h);
    if mime == None || !Processable(mime.value) {
      return Result(Take(h.out, cfg.maxBytes), h.pending != [], h.names, h.used);
    }
    r := Finish(cfg, net, dag, h, mime.value, root.filesize, t);
    BudgetIsEnough(cfg, mime.value, root.filesize, root.inlineData, h.out, r.data);
    FinishedIsAssembled(cfg, net, dag, sniff, root, names0, r);
  }

  lemma HeadIsCounted(dag: Dag, items: seq<Item>)
    requires dag.Valid() && items != [] && items[0].Fetch?
    ensures |Blocks(dag, ItemLinks(items))| > 0
  {
    RootsAreBlocks(dag, ItemLinks(items), 0);
  }
}
