/**
 The dag-pb and UnixFS decoder of observer/unixfs.py, and the encoder of
 tests/pdfdag.py that it must invert.
 */
module DagPb {
  import opened Prelude
  import opened CidText
  import Varint

  /** One protobuf field; `wire` is 5 or 1 for the fixed-width kinds. */
  datatype Field =
    | Number(num: nat, value: nat)
    | Blob(num: nat, bytes: Bytes)
    | FixedWidth(num: nat, wire: nat, bytes: Bytes)

  datatype Link = Link(name: Option<Bytes>, cid: Cid)

  datatype UnixfsType = Raw | Directory | File | Metadata | Symlink | HamtShard | Unknown

  datatype Node = Node(
    unixfsType: Option<UnixfsType>, inlineData: Bytes, links: seq<Link>, filesize: Option<nat>)
  {
    predicate IsDirectory() {
      unixfsType == Some(Directory) || unixfsType == Some(HamtShard)
    }

    predicate IsFile() {
      unixfsType == Some(File) || unixfsType == Some(UnixfsType.Raw)
    }
  }

  function TypeOf(code: nat): UnixfsType {
    match code
    case 0 => UnixfsType.Raw
    case 1 => Directory
    case 2 => File
    case 3 => Metadata
    case 4 => Symlink
    case 5 => HamtShard
    case _ => Unknown
  }

  // ---------------------------------------------------------------- field stream

  /** The first field and the offset after it, which may lie past the end; or why there is none. */
  datatype Step = Field(field: Field, next: nat) | Stop | Raise

  function FirstField(data: Bytes): (r: Step)
    requires data != []
    ensures r.Field? ==> r.next > 0
  {
    match Varint.Decode(data)
    case None => Raise
    case Some(key) =>
      var num, wire := key.value / 8, key.value % 8;
      var body := data[key.len..];
      match wire
      case 0 =>
        (match Varint.Decode(body)
         case None => Raise
         case Some(v) => Step.Field(Number(num, v.value), key.len + v.len))
      case 2 =>
        (match Varint.Decode(body)
         case None => Raise
         case Some(n) =>
           Step.Field(Blob(num, Take(body[n.len..], n.value)), key.len + n.len + n.value))
      case 5 => Step.Field(FixedWidth(num, 5, Take(body, 4)), key.len + 4)
      case 1 => Step.Field(FixedWidth(num, 1, Take(body, 8)), key.len + 8)
      case _ => Stop
  }

  /** Every field of a message; None when a varint is cut off. */
  function FieldsOf(data: Bytes): Option<seq<Field>>
    decreases |data|
  {
    if data == [] then Some([])
    else match FirstField(data)
      case Raise => None
      case Stop => Some([])
      case Field(f, next) =>
        match FieldsOf(Varint.Rest(data, next))
        case None => None
        case Some(fs) => Some([f] + fs)
  }

  /** The step for a wire type whose body starts with a varint, or is of fixed width. */
  lemma FirstFieldAt(data: Bytes, key: Varint.Read)
    requires data != [] && Varint.Decode(data) == Some(key)
    ensures var num, wire, body := key.value / 8, key.value % 8, data[key.len..];
            FirstField(data) ==
            if wire == 0 || wire == 2 then
              match Varint.Decode(body)
              case None => Raise
              case Some(v) =>
                if wire == 0 then Step.Field(Number(num, v.value), key.len + v.len)
                else Step.Field(Blob(num, Take(body[v.len..], v.value)), key.len + v.len + v.value)
            else if wire == 5 then Step.Field(FixedWidth(num, 5, Take(body, 4)), key.len + 4)
            else if wire == 1 then Step.Field(FixedWidth(num, 1, Take(body, 8)), key.len + 8)
            else Stop
  {
  }

  method ReadFirst(data: Bytes, pos: nat) returns (r: Step)
    requires pos < |data|
    ensures r == FirstField(data[pos..])
  {
    ghost var tail := data[pos..];
    var key := Varint.ReadVarint(data, pos);
    if key == None {
      return Raise;
    }
    FirstFieldAt(tail, key.value);
    var num, wire, p := key.value.value / 8, key.value.value % 8, pos + key.value.len;
    assert data[p..] == tail[key.value.len..];
    if wire == 0 || wire == 2 {
      var v := Varint.ReadVarint(data, p);
      if v == None {
        return Raise;
      }
      if wire == 0 {
        return Step.Field(Number(num, v.value.value), key.value.len + v.value.len);
      }
      var q := p + v.value.len;
      assert data[q..] == data[p..][v.value.len..];
      return Step.Field(Blob(num, Take(data[q..], v.value.value)),
                        key.value.len + v.value.len + v.value.value);
    } else if wire == 5 {
      return Step.Field(FixedWidth(num, 5, Take(data[p..], 4)), key.value.len + 4);
    } else if wire == 1 {
      return Step.Field(FixedWidth(num, 1, Take(data[p..], 8)), key.value.len + 8);
    }
    return Stop;
  }

  /** The fields read up to `pos`, and those still to come, are all the fields. */
  ghost predicate ReadUpTo(data: Bytes, pos: nat, fs: seq<Field>) {
    var rest := FieldsOf(Varint.Rest(data, pos));
    && (FieldsOf(data).Some? <==> rest.Some?)
    && (rest.Some? ==> FieldsOf(data).value == fs + rest.value)
  }

  function Follow(step: Step, rest: Option<seq<Field>>): Option<seq<Field>> {
    match step
    case Raise => None
    case Stop => Some([])
    case Field(f, _) => if rest == None then None else Some([f] + rest.value)
  }

  /** Joining one more step to what was read before. */
  lemma Join(whole: Option<seq<Field>>, fs: seq<Field>, here: Option<seq<Field>>, step: Step, rest: Option<seq<Field>>)
    requires (whole.Some? <==> here.Some?) && (here.Some? ==> whole.value == fs + here.value)
    requires here == Follow(step, rest)
    ensures match step
            case Raise => whole == None
            case Stop => whole == Some(fs)
            case Field(f, _) =>
              (whole.Some? <==> rest.Some?) && (rest.Some? ==> whole.value == (fs + [f]) + rest.value)
  {
    match step
    case Raise =>
    case Stop => assert fs + [] == fs;
    case Field(f, _) =>
      if rest.Some? {
        Assoc(fs, [f], rest.value);
      }
  }

  lemma ReadOne(data: Bytes, pos: nat, fs: seq<Field>, step: Step)
    requires pos < |data| && ReadUpTo(data, pos, fs) && step == FirstField(data[pos..])
    ensures match step
            case Raise => FieldsOf(data) == None
            case Stop => FieldsOf(data) == Some(fs)
            case Field(f, next) => ReadUpTo(data, pos + next, fs + [f])
  {
    var rest := if step.Field? then FieldsOf(Varint.Rest(data[pos..], step.next)) else None;
    Join(FieldsOf(data), fs, FieldsOf(data[pos..]), step, rest);
    if step.Field? {
      assert Varint.Rest(data[pos..], step.next) == Varint.Rest(data, pos + step.next);
    }
  }

  /** The generator loop; it always advances, so it ends on every input. */
  method ReadFields(data: Bytes) returns (r: Option<seq<Field>>)
    ensures r == FieldsOf(data)
  {
    var pos: nat, fs := 0, [];
    assert Varint.Rest(data, 0) == data;
    while pos < |data|
      invariant ReadUpTo(data, pos, fs)
      decreases |data| - pos
    {
      var step := ReadFirst(data, pos);
      ReadOne(data, pos, fs, step);
      match step
      case Raise => return None;
      case Stop => return Some(fs);
      case Field(f, next) => fs, pos := fs + [f], pos + next;
    }
    assert Varint.Rest(data, pos) == [];
    assert fs + [] == fs;
    r := Some(fs);
  }

  // ---------------------------------------------------------------- nodes

  /** A link's fields, the last occurrence of each winning. */
  function LinkFields(cidOf: Bytes -> Cid, fs: seq<Field>): (r: (Option<Bytes>, Option<Cid>)) {
    if fs == [] then (None, None)
    else
      var (name, cid) := LinkFields(cidOf, fs[..|fs| - 1]);
      match fs[|fs| - 1]
      case Blob(1, hash) => (name, Some(cidOf(hash)))
      case Blob(2, text) => (Some(text), cid)
      case _ => (name, cid)
  }

  datatype Body = Body(pbdata: Option<Bytes>, links: seq<Link>)

  /** The Data field and the links of a block, in order; None when a link is malformed. */
  function BodyOf(cidOf: Bytes -> Cid, fs: seq<Field>): Option<Body> {
    if fs == [] then Some(Body(None, []))
    else match BodyOf(cidOf, fs[..|fs| - 1])
      case None => None
      case Some(b) =>
        match fs[|fs| - 1]
        case Blob(1, bytes) => Some(b.(pbdata := Some(bytes)))
        case Blob(2, bytes) =>
          (match FieldsOf(bytes)
           case None => None
           case Some(lfs) => Some(b.(links := b.links + LinkOf(cidOf, lfs))))
        case _ => Some(b)
  }

  function LinkOf(cidOf: Bytes -> Cid, lfs: seq<Field>): seq<Link> {
    var (name, cid) := LinkFields(cidOf, lfs);
    if cid.Some? then [Link(name, cid.value)] else []
  }

  datatype Meta = Meta(unixfsType: Option<UnixfsType>, inlineData: Bytes, filesize: Option<nat>)

  function MetaOf(fs: seq<Field>): Meta {
    if fs == [] then Meta(None, [], None)
    else
      var m := MetaOf(fs[..|fs| - 1]);
      match fs[|fs| - 1]
      case Number(1, v) => m.(unixfsType := Some(TypeOf(v)))
      case Blob(2, bytes) => m.(inlineData := bytes)
      case Number(3, v) => m.(filesize := Some(v))
      case _ => m
  }

  function Assemble(body: Body): Option<Node> {
    match body.pbdata
    case None => Some(Node(None, [], body.links, None))
    case Some(pb) =>
      match FieldsOf(pb)
      case None => None
      case Some(fs) =>
        var m := MetaOf(fs);
        Some(Node(m.unixfsType, m.inlineData, body.links, m.filesize))
  }

  /** `parse_dag_pb`, for any way of printing a link's hash. */
  function ParseWith(cidOf: Bytes -> Cid, block: Bytes): Option<Node> {
    match FieldsOf(block)
    case None => None
    case Some(fs) =>
      match BodyOf(cidOf, fs)
      case None => None
      case Some(b) => Assemble(b)
  }

  function ParseDagPb(block: Bytes): Option<Node> {
    ParseWith(CidFromHash, block)
  }

  method ReadLink(val: Bytes) returns (r: Option<seq<Link>>)
    ensures FieldsOf(val) == None ==> r == None
    ensures FieldsOf(val).Some? ==> r == Some(LinkOf(CidFromHash, FieldsOf(val).value))
  {
    var fields := ReadFields(val);
    if fields == None {
      return None;
    }
    var fs := fields.value;
    var name: Option<Bytes>, cid: Option<Cid> := None, None;
    for i := 0 to |fs|
      invariant (name, cid) == LinkFields(CidFromHash, fs[..i])
    {
      assert fs[..i + 1][..i] == fs[..i];
      match fs[i]
      case Blob(1, hash) =>
        var text := CidFromHashLoop(hash);
        cid := Some(text);
      case Blob(2, text) => name := Some(text);
      case _ =>
    }
    assert fs[..|fs|] == fs;
    r := Some(if cid.Some? then [Link(name, cid.value)] else []);
  }

  method ReadBody(fs: seq<Field>) returns (r: Option<Body>)
    ensures r == BodyOf(CidFromHash, fs)
  {
    var b := Body(None, []);
    for i := 0 to |fs|
      invariant BodyOf(CidFromHash, fs[..i]) == Some(b)
    {
      assert fs[..i + 1][..i] == fs[..i];
      match fs[i]
      case Blob(1, bytes) => b := b.(pbdata := Some(bytes));
      case Blob(2, bytes) =>
        var links := ReadLink(bytes);
        if links == None {
          BodyFails(CidFromHash, fs, i + 1);
          return None;
        }
        b := b.(links := b.links + links.value);
      case _ =>
    }
    assert fs[..|fs|] == fs;
    r := Some(b);
  }

  lemma {:induction false} BodyFails(cidOf: Bytes -> Cid, fs: seq<Field>, i: nat)
    requires i <= |fs| && BodyOf(cidOf, fs[..i]) == None
    ensures BodyOf(cidOf, fs) == None
    decreases |fs| - i
  {
    if i == |fs| {
      assert fs[..i] == fs;
    } else {
      assert fs[..i + 1][..i] == fs[..i];
      BodyFails(cidOf, fs, i + 1);
    }
  }

  method ParseLoop(block: Bytes) returns (r: Option<Node>)
    ensures r == ParseDagPb(block)
  {
    var fields := ReadFields(block);
    if fields == None {
      return None;
    }
    var body := ReadBody(fields.value);
    if body == None {
      return None;
    }
    var node := Node(None, [], body.value.links, None);
    if body.value.pbdata.Some? {
      var inner := ReadFields(body.value.pbdata.value);
      if inner == None {
        return None;
      }
      var fs := inner.value;
      for i := 0 to |fs|
        invariant node.links == body.value.links
        invariant Meta(node.unixfsType, node.inlineData, node.filesize) == MetaOf(fs[..i])
      {
        assert fs[..i + 1][..i] == fs[..i];
        match fs[i]
        case Number(1, v) => node := node.(unixfsType := Some(TypeOf(v)));
        case Blob(2, bytes) => node := node.(inlineData := bytes);
        case Number(3, v) => node := node.(filesize := Some(v));
        case _ =>
      }
      assert fs[..|fs|] == fs;
    }
    r := Some(node);
  }

  // ---------------------------------------------------------------- the encoder

  function Tag(num: nat, wire: nat): Bytes {
    Varint.Encode(8 * num + wire)
  }

  function EncodeField(f: Field): Bytes {
    match f
    case Number(num, v) => Tag(num, 0) + Varint.Encode(v)
    case Blob(num, bytes) => Tag(num, 2) + Varint.Encode(|bytes|) + bytes
    case FixedWidth(num, wire, bytes) => Tag(num, wire) + bytes
  }

  function EncodeFields(fs: seq<Field>): Bytes {
    if fs == [] then [] else EncodeField(fs[0]) + EncodeFields(fs[1..])
  }

  ghost predicate Writable(fs: seq<Field>) {
    forall i :: 0 <= i < |fs| ==> !fs[i].FixedWidth?
  }

  lemma TagReadsBack(num: nat, wire: nat, body: Bytes)
    requires wire < 8
    ensures Varint.Decode(Tag(num, wire) + body) ==
            Some(Varint.Read(8 * num + wire, |Tag(num, wire)|))
    ensures (Tag(num, wire) + body)[|Tag(num, wire)|..] == body
  {
    Varint.RoundTrip(8 * num + wire, body);
  }

  lemma FirstOfNumber(num: nat, v: nat, rest: Bytes)
    ensures FirstField(Tag(num, 0) + (Varint.Encode(v) + rest)) ==
            Step.Field(Number(num, v), |Tag(num, 0)| + |Varint.Encode(v)|)
  {
    TagReadsBack(num, 0, Varint.Encode(v) + rest);
    Varint.RoundTrip(v, rest);
  }

  lemma FirstOfBlob(num: nat, bytes: Bytes, rest: Bytes)
    ensures FirstField(Tag(num, 2) + (Varint.Encode(|bytes|) + (bytes + rest))) ==
            Step.Field(Blob(num, bytes), |Tag(num, 2)| + |Varint.Encode(|bytes|)| + |bytes|)
  {
    var body := Varint.Encode(|bytes|) + (bytes + rest);
    TagReadsBack(num, 2, body);
    Varint.RoundTrip(|bytes|, bytes + rest);
    assert body[|Varint.Encode(|bytes|)|..] == bytes + rest;
    assert Take(bytes + rest, |bytes|) == bytes;
  }

  lemma FirstOfEncoded(f: Field, rest: Bytes)
    requires !f.FixedWidth?
    ensures var s := EncodeField(f) + rest;
            && s != []
            && FirstField(s) == Step.Field(f, |EncodeField(f)|)
            && Varint.Rest(s, |EncodeField(f)|) == rest
  {
    match f
    case Number(num, v) =>
      Assoc(Tag(num, 0), Varint.Encode(v), rest);
      FirstOfNumber(num, v, rest);
    case Blob(num, bytes) =>
      Assoc(Tag(num, 2) + Varint.Encode(|bytes|), bytes, rest);
      Assoc(Tag(num, 2), Varint.Encode(|bytes|), bytes + rest);
      FirstOfBlob(num, bytes, rest);
  }

  lemma FieldsStep(data: Bytes, f: Field, next: nat)
    requires data != [] && FirstField(data) == Step.Field(f, next)
    ensures FieldsOf(data) ==
            match FieldsOf(Varint.Rest(data, next))
            case None => None
            case Some(fs) => Some([f] + fs)
  {
  }

  lemma {:induction false} FieldsOfEncoded(fs: seq<Field>)
    requires Writable(fs)
    ensures FieldsOf(EncodeFields(fs)) == Some(fs)
  {
    if fs != [] {
      FieldsOfEncoded(fs[1..]);
      FirstOfEncoded(fs[0], EncodeFields(fs[1..]));
      FieldsStep(EncodeFields(fs), fs[0], |EncodeField(fs[0])|);
      assert fs == [fs[0]] + fs[1..];
    }
  }

  /** A link to write: raw CID bytes, an optional name and the cumulative size. */
  datatype LinkOut = LinkOut(hash: Bytes, name: Option<Bytes>, tsize: nat)

  function LinkOutFields(l: LinkOut): seq<Field> {
    [Blob(1, l.hash)] + (if l.name.Some? then [Blob(2, l.name.value)] else []) + [Number(3, l.tsize)]
  }

  function Numbers(num: nat, values: seq<nat>): (r: seq<Field>)
    ensures |r| == |values| && forall i :: 0 <= i < |r| ==> r[i] == Number(num, values[i])
  {
    seq(|values|, i requires 0 <= i < |values| => Number(num, values[i]))
  }

  function UnixfsFields(code: nat, data: Bytes, filesize: Option<nat>, sizes: seq<nat>): seq<Field> {
    [Number(1, code)]
    + (if data != [] then [Blob(2, data)] else [])
    + (if filesize.Some? then [Number(3, filesize.value)] else [])
    + Numbers(4, sizes)
  }

  function LinkBlob(l: LinkOut): Field {
    Blob(2, EncodeFields(LinkOutFields(l)))
  }

  function LinkBlobs(links: seq<LinkOut>): (r: seq<Field>)
    ensures |r| == |links| && Writable(r)
  {
    if links == [] then [] else LinkBlobs(links[..|links| - 1]) + [LinkBlob(links[|links| - 1])]
  }

  function UnixfsData(code: nat, data: Bytes, filesize: Option<nat>, sizes: seq<nat>): Bytes {
    EncodeFields(UnixfsFields(code, data, filesize, sizes))
  }

  /** Links first, then Data, as go-merkledag writes them. */
  function PbNode(pbdata: Bytes, links: seq<LinkOut>): Bytes {
    EncodeFields(LinkBlobs(links) + [Blob(1, pbdata)])
  }

  function LinkIn(cidOf: Bytes -> Cid, l: LinkOut): Link {
    Link(l.name, cidOf(l.hash))
  }

  function LinksIn(cidOf: Bytes -> Cid, links: seq<LinkOut>): (r: seq<Link>)
    ensures |r| == |links|
  {
    if links == [] then [] else LinksIn(cidOf, links[..|links| - 1]) + [LinkIn(cidOf, links[|links| - 1])]
  }

  lemma LinkOfEncoded(cidOf: Bytes -> Cid, l: LinkOut)
    ensures FieldsOf(EncodeFields(LinkOutFields(l))) == Some(LinkOutFields(l))
    ensures LinkOf(cidOf, LinkOutFields(l)) == [LinkIn(cidOf, l)]
  {
    var fs := LinkOutFields(l);
    FieldsOfEncoded(fs);
    var h := [Blob(1, l.hash)];
    assert h[..0] == [];
    assert LinkFields(cidOf, h) == (None, Some(cidOf(l.hash)));
    var m := fs[..|fs| - 1];
    if l.name.Some? {
      assert m[..1] == h;
    } else {
      assert m == h;
    }
    assert LinkFields(cidOf, m) == (l.name, Some(cidOf(l.hash)));
  }

  lemma {:induction false} BodyOfLinks(cidOf: Bytes -> Cid, links: seq<LinkOut>)
    ensures BodyOf(cidOf, LinkBlobs(links)) == Some(Body(None, LinksIn(cidOf, links)))
  {
    if links != [] {
      var front, l := links[..|links| - 1], links[|links| - 1];
      BodyOfLinks(cidOf, front);
      LinkOfEncoded(cidOf, l);
    }
  }

  lemma {:induction false} MetaIgnoresSizes(fs: seq<Field>, sizes: seq<nat>)
    ensures MetaOf(fs + Numbers(4, sizes)) == MetaOf(fs)
  {
    if sizes == [] {
      assert fs + Numbers(4, sizes) == fs;
    } else {
      var n := |sizes| - 1;
      MetaIgnoresSizes(fs, sizes[..n]);
      assert (fs + Numbers(4, sizes))[..|fs| + n] == fs + Numbers(4, sizes[..n]);
    }
  }

  lemma MetaOfSnoc(fs: seq<Field>, f: Field)
    ensures MetaOf(fs + [f]) ==
            match f
            case Number(1, v) => MetaOf(fs).(unixfsType := Some(TypeOf(v)))
            case Blob(2, bytes) => MetaOf(fs).(inlineData := bytes)
            case Number(3, v) => MetaOf(fs).(filesize := Some(v))
            case _ => MetaOf(fs)
  {
    assert (fs + [f])[..|fs|] == fs;
  }

  lemma MetaOfEncoded(code: nat, data: Bytes, filesize: Option<nat>, sizes: seq<nat>)
    ensures MetaOf(UnixfsFields(code, data, filesize, sizes)) ==
            Meta(Some(TypeOf(code)), data, filesize)
  {
    var a := [Number(1, code)];
    MetaOfSnoc([], Number(1, code));
    assert [] + [Number(1, code)] == a;
    var b := a + (if data != [] then [Blob(2, data)] else []);
    if data != [] {
      MetaOfSnoc(a, Blob(2, data));
    } else {
      assert b == a;
    }
    var c := b + (if filesize.Some? then [Number(3, filesize.value)] else []);
    if filesize.Some? {
      MetaOfSnoc(b, Number(3, filesize.value));
    } else {
      assert c == b;
    }
    MetaIgnoresSizes(c, sizes);
  }

  lemma AssembleEncoded(code: nat, data: Bytes, filesize: Option<nat>, sizes: seq<nat>,
                        links: seq<Link>)
    ensures Assemble(Body(Some(UnixfsData(code, data, filesize, sizes)), links)) ==
            Some(Node(Some(TypeOf(code)), data, links, filesize))
  {
    FieldsOfEncoded(UnixfsFields(code, data, filesize, sizes));
    MetaOfEncoded(code, data, filesize, sizes);
  }

  /** Parsing an encoded block gives back type, inline data, filesize and ordered links. */
  lemma ParseOfEncode(cidOf: Bytes -> Cid, code: nat, data: Bytes, filesize: Option<nat>, sizes: seq<nat>,
                      links: seq<LinkOut>)
    ensures ParseWith(cidOf, PbNode(UnixfsData(code, data, filesize, sizes), links)) ==
            Some(Node(Some(TypeOf(code)), data, LinksIn(cidOf, links), filesize))
  {
    var pb := UnixfsData(code, data, filesize, sizes);
    FieldsOfNode(pb, links);
    BodyOfNode(cidOf, pb, links);
    AssembleEncoded(code, data, filesize, sizes, LinksIn(cidOf, links));
  }

  lemma FieldsOfNode(pb: Bytes, links: seq<LinkOut>)
    ensures FieldsOf(PbNode(pb, links)) == Some(LinkBlobs(links) + [Blob(1, pb)])
  {
    FieldsOfEncoded(LinkBlobs(links) + [Blob(1, pb)]);
  }

  lemma BodyOfNode(cidOf: Bytes -> Cid, pb: Bytes, links: seq<LinkOut>)
    ensures BodyOf(cidOf, LinkBlobs(links) + [Blob(1, pb)]) == Some(Body(Some(pb), LinksIn(cidOf, links)))
  {
    var fs := LinkBlobs(links) + [Blob(1, pb)];
    BodyOfLinks(cidOf, links);
    assert fs[..|links|] == LinkBlobs(links);
  }
}
