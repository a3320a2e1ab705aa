/** Literal examples that fix the formats: varints, base58, base32, dag-pb blocks, names and types. */
module Vectors {
  import opened Prelude
  import opened Text
  import opened Digits
  import opened BaseText
  import opened CidText
  import opened DagPb
  import opened FileDag
  import opened Assembly
  import opened Fetch
  import opened WorkRows
  import opened Listing
  import opened FieldNames
  import Varint
  import Keeping

  // ---------------------------------------------------------------- numbers and bases

  /** The least significant seven bits come first. */
  lemma VarintVector()
    ensures Varint.Encode(1) == [1] && Varint.Encode(127) == [127] && Varint.Encode(300) == [0xAC, 0x02]
    ensures Varint.Decode([0xAC, 0x02, 0xFF]) == Some(Varint.Read(300, 2)) && Varint.Decode([0xAC]) == None
  {
    Varint.RoundTrip(300, [0xFF]);
    assert Varint.Encode(300) == [0xAC] + [0x02];
    assert [0xAC, 0x02] + [0xFF] == [0xAC, 0x02, 0xFF];
    assert [0xAC][1..] == [];
  }

  const BASE58: string :=
    "123456789" + "ABCDEFGH" + "JKLMN" + "PQRSTUVWXYZ" + "abcdefghijk" + "mnopqrstuvwxyz"

  const BASE32: string := "abcdefghijklmnopqrstuvwxyz234567"

  lemma Base58Alphabet(d: nat)
    requires d < 58
    ensures |BASE58| == 58 && B58Char(d) == BASE58[d]
    ensures B58Index(BASE58[d]) == Some(d)
  {
    B58IndexOfChar(d);
    if d < 9 {
      assert BASE58[d] == "123456789"[d];
    } else if d < 17 {
      assert BASE58[d] == "ABCDEFGH"[d - 9];
    } else if d < 22 {
      assert BASE58[d] == "JKLMN"[d - 17];
    } else if d < 33 {
      assert BASE58[d] == "PQRSTUVWXYZ"[d - 22];
    } else if d < 44 {
      assert BASE58[d] == "abcdefghijk"[d - 33];
    } else {
      assert BASE58[d] == "mnopqrstuvwxyz"[d - 44];
    }
  }

  /** Nothing else is read, so in particular not the four look-alikes left out. */
  lemma Base58Only(c: char)
    ensures B58Index(c).Some? <==> exists d :: 0 <= d < 58 && BASE58[d] == c
    ensures B58Index('0') == B58Index('O') == B58Index('I') == B58Index('l') == None
  {
    if B58Index(c).Some? {
      Base58Alphabet(B58Index(c).value);
    }
    if d :| 0 <= d < 58 && BASE58[d] == c {
      Base58Alphabet(d);
    }
  }

  lemma Base32Alphabet(d: nat)
    requires d < 32
    ensures |BASE32| == 32 && B32Char(d) == BASE32[d] && B32Index(BASE32[d], true) == Some(d)
  {
  }

  lemma LastDigit(q: nat, r: nat)
    requires r < 58 && 58 * q + r > 0
    ensures Minimal(58 * q + r, 58) == Minimal(q, 58) + [r]
  {
    DivModOf(q, r, 58);
  }

  lemma LastByte(front: seq<nat>, b: nat)
    ensures ToNat(front + [b], 256) == 256 * ToNat(front, 256) + b
  {
    assert (front + [b])[..|front|] == front;
  }

  lemma Numbers()
    ensures ToNat([0x61], 256) == 97 && ToNat([0, 0x61, 0x62], 256) == 24930
  {
    LastByte([], 0x61);
    LastByte([], 0);
    LastByte([0], 0x61);
    LastByte([0, 0x61], 0x62);
    assert [] + [0x61] == [0x61] && [] + [0] == [0];
    assert [0] + [0x61] == [0, 0x61] && [0, 0x61] + [0x62] == [0, 0x61, 0x62];
  }

  lemma TheirDigits()
    ensures Minimal(97, 58) == [1, 39] && Minimal(24930, 58) == [7, 23, 48]
  {
    LastDigit(0, 1);
    LastDigit(1, 39);
    LastDigit(0, 7);
    LastDigit(7, 23);
    LastDigit(429, 48);
    assert [] + [1] == [1] && [1] + [39] == [1, 39];
    assert [] + [7] == [7] && [7] + [23] == [7, 23] && [7, 23] + [48] == [7, 23, 48];
  }

  /** The bytes are one big-endian number, and each leading zero byte is a `1`. */
  lemma Base58Vector()
    ensures B58Encode([0x61]) == "2g" && B58Encode([0, 0x61, 0x62]) == "18Qq"
  {
    Numbers();
    TheirDigits();
    TwoDigits(1, 39);
    Encoded([0x61], 0, [1, 39]);
    assert "" + "2g" == "2g";
    LeadingZero();
  }

  lemma LeadingZero()
    ensures B58Encode([0, 0x61, 0x62]) == "18Qq"
  {
    Numbers();
    TheirDigits();
    ThreeDigits(7, 23, 48);
    Encoded([0, 0x61, 0x62], 1, [7, 23, 48]);
    assert "1" + "8Qq" == "18Qq";
  }

  lemma Encoded(raw: Bytes, zeros: nat, ds: seq<nat>)
    requires zeros < |raw| && raw[zeros] != 0 && forall i :: 0 <= i < zeros ==> raw[i] == 0
    requires InBase(ds, 58) && Minimal(ToNat(raw, 256), 58) == ds
    ensures B58Encode(raw) == seq(zeros, i => '1') + B58Text(ds)
  {
    assert Leading(raw, 0) == zeros;
  }

  lemma TwoDigits(a: nat, b: nat)
    requires a < 58 && b < 58
    ensures B58Text([a, b]) == [BASE58[a], BASE58[b]]
  {
    Base58Alphabet(a);
    Base58Alphabet(b);
    assert [a, b][..1] == [a] && [a][..0] == [];
    assert B58Text([a]) == [B58Char(a)];
  }

  lemma ThreeDigits(a: nat, b: nat, c: nat)
    requires a < 58 && b < 58 && c < 58
    ensures B58Text([a, b, c]) == [BASE58[a], BASE58[b], BASE58[c]]
  {
    TwoDigits(a, b);
    Base58Alphabet(c);
    assert [a, b, c][..2] == [a, b];
  }

  /** Five bits to a character, the last group filled up with zero bits. */
  lemma Base32Vector()
    ensures B32Digits([0x61, 0x62]) == [12, 5, 17, 0] && CidFromHash([0x61, 0x62]) == "bmfra"
  {
    LastByte([], 0x61);
    LastByte([0x61], 0x62);
    assert [] + [0x61] == [0x61] && [0x61] + [0x62] == [0x61, 0x62];
    assert Pow(2, 4) == 16;
    var n := 24930 * 16;
    assert Fixed(12, 32, 1) == [12];
    assert Fixed(389, 32, 2) == [12] + [5];
    assert Fixed(12465, 32, 3) == [12, 5] + [17];
    assert Fixed(n, 32, 4) == [12, 5, 17] + [0];
    FourLetters();
  }

  lemma FourLetters()
    ensures B32Text([12, 5, 17, 0]) == "mfra" && "b" + "mfra" == "bmfra"
  {
    assert [12, 5, 17, 0][..3] == [12, 5, 17] && [12, 5, 17][..2] == [12, 5] && [12, 5][..1] == [12] && [12][..0] == [];
    assert B32Text([12]) == "m";
    assert B32Text([12, 5]) == "m" + "f";
    assert B32Text([12, 5, 17]) == "mf" + "r";
  }

  /** Unpadded base32 is read exactly when its length leaves whole bytes and all its characters are in the table. */
  lemma UnpaddedIsRead(text: string)
    requires text == "" || text[|text| - 1] != '='
    ensures Unpad(text + Padding(text)) == if |text| % 8 in {0, 2, 4, 5, 7} then Some(text) else None
  {
    var pad := (8 - |text| % 8) % 8;
    PaddingSizes(|text|);
    RStripPadded(text, pad);
    assert Padding(text) == Repeat('=', pad);
    var padded := text + Repeat('=', pad);
    assert |padded| % 8 == 0 && |padded| - |text| == pad;
  }

  lemma PaddingSizes(n: nat)
    ensures GoodPadding((8 - n % 8) % 8) <==> n % 8 in {0, 2, 4, 5, 7}
    ensures (n + (8 - n % 8) % 8) % 8 == 0
  {
  }

  /** The other bases a CID may be written in: base58 after `z`, hex after `f` or `F`, upper-case base32 after `B`. */
  lemma OtherBase(cid: Cid, rest: string)
    requires cid != "" && cid[1..] == rest
    ensures cid[0] == 'z' ==> MultibaseBytes(cid) == B58Decode(rest)
    ensures cid[0] == 'f' || cid[0] == 'F' ==> MultibaseBytes(cid) == FromHex(rest)
    ensures cid[0] == 'B' ==> MultibaseBytes(cid) == B32Decode(rest + Padding(rest), false)
    ensures cid[0] !in {'b', 'B', 'z', 'f', 'F'} ==> MultibaseBytes(cid) == None
  {
  }

  lemma HexPair(a: char, b: char, rest: string)
    requires HexValue(a).Some?
    ensures FromHex([a, b] + rest) ==
            if HexValue(b).Some? && FromHex(rest).Some?
            then Some([16 * HexValue(a).value + HexValue(b).value] + FromHex(rest).value) else None
  {
    assert ([a, b] + rest)[2..] == rest;
  }

  lemma HexDigits(c: char)
    ensures '0' <= c <= '9' ==> HexValue(c) == Some(c as nat - '0' as nat)
    ensures 'a' <= c <= 'f' ==> HexValue(c) == Some(c as nat - 'a' as nat + 10)
    ensures 'A' <= c <= 'F' ==> HexValue(c) == Some(c as nat - 'A' as nat + 10)
    ensures HexValue(c).Some? ==> '0' <= c <= '9' || 'a' <= c <= 'f' || 'A' <= c <= 'F'
  {
  }

  // ---------------------------------------------------------------- blocks

  /** A directory with one link, as bytes: the link in field 2, the type in field 1. */
  const FOLDER: Bytes := [0x12] + [8] + LINK + ([0x0A] + [2] + [8, 1])
  const LINK: Bytes := [0x0A, 1, 7] + ([0x12, 1, 0x78] + [0x18, 5])


  lemma FolderVector(cidOf: Bytes -> Cid)
    ensures ParseWith(cidOf, FOLDER) == Some(Node(Some(Directory), [], [Link(Some([0x78]), cidOf([7]))], None))
  {
    var l := LinkOut([7], Some([0x78]), 5);
    ParseOfEncode(cidOf, 1, [], None, [], [l]);
    assert LinksIn(cidOf, [l]) == [LinkIn(cidOf, l)] by {
      assert [l][..0] == [];
    }
    FolderMeta();
    FolderBytes(l);
  }

  lemma FolderMeta()
    ensures UnixfsData(1, [], None, []) == [8, 1]
  {
    var f := Number(1, 1);
    assert UnixfsFields(1, [], None, []) == [f];
    FieldBytes(f, []);
    assert EncodeField(f) == [8, 1];
  }

  lemma FolderBytes(l: LinkOut)
    requires l == LinkOut([7], Some([0x78]), 5)
    ensures PbNode([8, 1], [l]) == FOLDER
  {
    TwoFields(l, [8, 1]);
    LinkBytes(l);
    BlobBytes(1, [8, 1], [0x0A], [2]);
    BlobBytes(2, LINK, [0x12], [8]);
  }

  lemma TwoFields(l: LinkOut, pbdata: Bytes)
    ensures PbNode(pbdata, [l]) == EncodeField(LinkBlob(l)) + EncodeField(Blob(1, pbdata))
  {
    var f, g := LinkBlob(l), Blob(1, pbdata);
    assert [l][..0] == [];
    assert LinkBlobs([l]) == [f];
    FieldBytes(g, []);
    FieldBytes(f, [g]);
  }

  lemma BlobBytes(num: nat, bytes: Bytes, tag: Bytes, size: Bytes)
    requires Varint.Encode(8 * num + 2) == tag && Varint.Encode(|bytes|) == size
    ensures EncodeField(Blob(num, bytes)) == tag + size + bytes
  {
  }

  lemma FieldBytes(f: DagPb.Field, rest: seq<DagPb.Field>)
    ensures EncodeFields([f] + rest) == EncodeField(f) + EncodeFields(rest)
    ensures [f] + [] == [f] && (rest == [] ==> EncodeFields([f]) == EncodeField(f))
  {
    assert ([f] + rest)[1..] == rest && [f][1..] == [];
  }

  lemma LinkBytes(l: LinkOut)
    requires l == LinkOut([7], Some([0x78]), 5)
    ensures EncodeFields(LinkOutFields(l)) == LINK
  {
    var a, b, c := Blob(1, [7]), Blob(2, [0x78]), Number(3, 5);
    assert LinkOutFields(l) == [a] + ([b] + [c]);
    FieldBytes(c, []);
    FieldBytes(b, [c]);
    FieldBytes(a, [b] + [c]);
    assert EncodeField(a) == [0x0A, 1, 7] && EncodeField(b) == [0x12, 1, 0x78] && EncodeField(c) == [0x18, 5];
  }

  /** The six types that have a meaning. */
  lemma TypeCodes()
    ensures TypeOf(0) == UnixfsType.Raw && TypeOf(1) == Directory && TypeOf(2) == File && TypeOf(3) == Metadata
    ensures TypeOf(4) == Symlink && TypeOf(5) == HamtShard && forall n: nat :: n > 5 ==> TypeOf(n) == Unknown
  {
  }

  /** What a block is worth inside a file: a folder nothing, a file or raw node its data and links, all else itself. */
  lemma BlockInFile(parse: Bytes -> Option<Node>, block: Bytes)
    ensures match parse(block)
            case None => ChildBytes(parse, block) == Part(block, [])
            case Some(Node(Some(Directory), _, _, _)) => ChildBytes(parse, block) == Part([], [])
            case Some(Node(Some(HamtShard), _, _, _)) => ChildBytes(parse, block) == Part([], [])
            case Some(Node(Some(File), data, links, _)) =>
              ChildBytes(parse, block) == if data == [] && links == [] then Part(block, []) else Part(data, links)
            case Some(Node(Some(Raw), data, links, _)) =>
              ChildBytes(parse, block) == if data == [] && links == [] then Part(block, []) else Part(data, links)
            case Some(_) => ChildBytes(parse, block) == Part(block, [])
  {
  }

  /** A block verifies exactly against the hash its CID names: sha2-256, or the bytes themselves. */
  lemma OwnBlockVerifies(sha: Bytes -> Bytes, digest: Bytes, block: Bytes)
    requires |digest| == 32
    ensures VerifyBlock(sha, CidFromHash(V0Bytes(digest)), block) <==> sha(block) == digest
  {
    V0RoundTrip(digest);
  }

  lemma OwnBlockVerifiesV1(sha: Bytes -> Bytes, codec: nat, code: nat, digest: Bytes, block: Bytes)
    requires codec < Pow(128, 10) && code <= 0x12 && 0 < |digest| < Pow(128, 10)
    ensures VerifyBlock(sha, CidFromHash(V1Bytes(codec, code, digest)), block) <==>
            if code == 0x12 then sha(block) == digest else code == 0 && block == digest
  {
    Ample();
    V1RoundTrip(codec, code, digest);
  }

  lemma Ample()
    ensures Pow(128, 10) > 128
  {
    assert Pow(128, 2) == 16384;
    assert Pow(128, 4) == 128 * (128 * Pow(128, 2));
    assert Pow(128, 10) == 128 * (128 * (128 * (128 * (128 * (128 * Pow(128, 4))))));
  }

  // ---------------------------------------------------------------- names and types

  /** A name decides by its extension first; then `%PDF` at the very front; then whatever looks like HTML. */
  lemma SniffVector(html: Bytes -> bool, rest: Bytes, picked: Option<Look>)
    ensures picked != Some(Listed(true)) ==> SniffMime(html, [0x25, 0x50, 0x44, 0x46] + rest, picked) == Pdf
    ensures SniffMime(html, rest, Some(Listed(true))) == Other
    ensures picked != Some(Listed(true)) && !([0x25, 0x50, 0x44, 0x46] <= rest) ==>
              (SniffMime(html, rest, picked) == Html <==> html(rest))
  {
  }

  /** The first name with a listed extension is picked, and only without one the first plain name. */
  lemma {:induction false} PickIsFirst(look: Bytes -> Look, names: seq<Bytes>, i: nat)
    requires i < |names| && forall j :: 0 <= j < i ==> !look(names[j]).Listed?
    ensures look(names[i]).Listed? ==> Pick(look, names) == Some(look(names[i]))
    ensures look(names[i]) == Plain && (forall j :: 0 <= j < |names| ==> !look(names[j]).Listed?) ==>
              Pick(look, names) == Some(Plain)
  {
    if i > 0 {
      PickIsFirst(look, names[1..], i - 1);
    }
    if forall j :: 0 <= j < |names| ==> !look(names[j]).Listed? {
      PickUnlisted(look, names[1..]);
    }
  }

  lemma {:induction false} PickUnlisted(look: Bytes -> Look, names: seq<Bytes>)
    requires forall j :: 0 <= j < |names| ==> !look(names[j]).Listed?
    ensures Pick(look, names) == None || Pick(look, names) == Some(Plain)
    ensures Pick(look, names) == None <==> forall j :: 0 <= j < |names| ==> look(names[j]) == Ignored
  {
    if names != [] {
      PickUnlisted(look, names[1..]);
      assert forall j :: 1 <= j < |names| ==> names[j] == names[1..][j - 1];
    }
  }

  /** The base name is what follows the last separator of either kind, or the whole name without one. */
  lemma {:induction false} BaseOfPath(dir: string, sep: char, base: string)
    requires (sep == '/' || sep == '\\') && NoSeparator(base)
    ensures LastPart(dir + [sep] + base) == base && LastPart(base) == base
  {
    var path := dir + [sep] + base;
    if base == "" {
      assert path[|path| - 1] == sep;
    } else {
      var front := base[..|base| - 1];
      BaseOfPath(dir, sep, front);
      assert path[..|path| - 1] == dir + [sep] + front && path[|path| - 1] == base[|base| - 1];
      assert base == front + [base[|base| - 1]];
    }
  }

  ghost predicate Blank(s: string) {
    forall i :: 0 <= i < |s| ==> Space(s[i])
  }

  /** Trimming takes the white space at both ends, and nothing else. */
  lemma {:induction false} TrimIs(l: string, core: string, r: string)
    requires Blank(l) && Blank(r) && core != "" && !Space(core[0]) && !Space(core[|core| - 1])
    ensures Trim(l + core + r) == core
  {
    TrimLeftIs(l, core + r);
    TrimRightIs(core, r);
    Assoc(l, core, r);
  }

  lemma {:induction false} TrimLeftIs(l: string, rest: string)
    requires Blank(l) && rest != "" && !Space(rest[0])
    ensures TrimLeft(l + rest) == rest
  {
    if l == "" {
      assert l + rest == rest;
    } else {
      assert (l + rest)[1..] == l[1..] + rest;
      TrimLeftIs(l[1..], rest);
    }
  }

  lemma {:induction false} TrimRightIs(core: string, r: string)
    requires Blank(r) && core != "" && !Space(core[|core| - 1])
    ensures TrimRight(core + r) == core
  {
    if r == "" {
      assert core + r == core;
    } else {
      var front := r[..|r| - 1];
      assert (core + r)[..|core + r| - 1] == core + front && (core + r)[|core + r| - 1] == r[|r| - 1];
      TrimRightIs(core, front);
    }
  }

  /** A listing entry is a document exactly when its base name, trimmed, ends in .pdf and is not too long. */
  lemma EntryIsDocument(decode: Bytes -> string, raw: Bytes, cid: Cid, dir: string, sep: char, l: string, core: string,
                        r: string)
    requires decode(raw) == dir + [sep] + (l + core + r) && (sep == '/' || sep == '\\') && cid != ""
    requires NoSeparator(l + core + r) && Blank(l) && Blank(r)
    requires core != "" && !Space(core[0]) && !Space(core[|core| - 1])
    ensures var n := |core|;
            DocOfEntry(decode, Link(Some(raw), cid)) ==
            if 4 <= n <= 180 && core[n - 4] == '.' && core[n - 3] in {'p', 'P'} && core[n - 2] in {'d', 'D'}
               && core[n - 1] in {'f', 'F'}
            then Some(Doc(core, cid)) else None
  {
    BaseOfPath(dir, sep, l + core + r);
    TrimIs(l, core, r);
    if |core| >= 4 {
      Keeping.FourLowered(core[|core| - 4..]);
    }
  }

  lemma WhiteSpace()
    ensures Space(' ') && Space('\t') && Space('\n') && Space('\r') && Space('\U{A0}') && Space('\U{3000}')
    ensures forall c :: '!' <= c <= '~' ==> !Space(c)
  {
  }

  /** A field is looked up by its key, then with dashes for blanks, then among the aliases of either. */
  lemma FieldLookUp(club: Club, value: string)
    requires value != ""
    ensures var key := Key(value); var dashed := Collapsed(key);
            var alias := if key in club.aliases then club.aliases[key] else "";
            && (key in club.fields ==> Normalize(club, value) == key)
            && (key !in club.fields && dashed in club.fields ==> Normalize(club, value) == dashed)
            && (key !in club.fields && dashed !in club.fields ==>
                  && (alias != "" ==> Normalize(club, value) == alias)
                  && (alias == "" && dashed in club.aliases && club.aliases[dashed] != "" ==>
                        Normalize(club, value) == club.aliases[dashed])
                  && (alias == "" && (dashed in club.aliases ==> club.aliases[dashed] == "") ==>
                        Normalize(club, value) == "other"))
    ensures Normalize(club, "") == "other"
  {
  }

  lemma {:induction false} MappedAt(s: string, i: nat)
    requires i < |s|
    ensures Mapped(s)[i] == if s[i] == '_' then '-' else if 'A' <= s[i] <= 'Z' then s[i] + ' ' else s[i]
  {
    if i > 0 {
      MappedAt(s[1..], i - 1);
    }
  }

  /** A key is the words of the value, one blank apart. */
  lemma FirstWord(l: string, w: string, rest: string)
    requires Blank(l) && w != "" && (forall i :: 0 <= i < |w| ==> !Space(w[i])) && (rest == "" || Space(rest[0]))
    ensures Tidied(l + (w + rest)) == if Tidied(rest) == "" then w else w + (" " + Tidied(rest))
  {
    TrimLeftIs(l, w + rest);
    WordThenTail(w, rest);
    assert (w + rest)[|w|..] == rest && (w + rest)[..|w|] == w;
  }

  lemma NoWords(l: string)
    requires Blank(l)
    ensures Tidied(l) == ""
  {
    TrimLeftBlank(l);
  }

  lemma {:induction false} TrimLeftBlank(l: string)
    requires Blank(l)
    ensures TrimLeft(l) == ""
  {
    if l != "" {
      TrimLeftBlank(l[1..]);
    }
  }

  /** Capitals become small, underscores dashes, and white space at the end goes. */
  lemma KeyVector()
    ensures Key("A_ ") == "a-"
  {
    MappedAt("A_ ", 0);
    MappedAt("A_ ", 1);
    MappedAt("A_ ", 2);
    assert Mapped("A_ ") == "a- ";
    NoWords(" ");
    FirstWord("", "a-", " ");
    assert "" + ("a-" + " ") == "a- ";
  }

  /** The second look-up has dashes for the blanks. */
  lemma {:induction false} CollapsedAt(key: string, i: nat)
    requires i < |key|
    ensures Collapsed(key)[i] == if key[i] == ' ' then '-' else key[i]
  {
    if i > 0 {
      CollapsedAt(key[1..], i - 1);
    }
  }
}
