/**
 Content identifiers as text.  The printer lives in observer/unixfs.py, the parser
 in observer/cidutil.py; the theorems say that the parser undoes the printer.
 */
module CidText {
  import opened Prelude
  import opened Digits
  import opened BaseText
  import Varint

  const SHA2_256: nat := 0x12
  const IDENTITY: nat := 0x00
  const DAG_PB: nat := 0x70

  datatype Parsed = Parsed(version: nat, codec: nat, mhCode: nat, digest: Bytes)

  /** A link's Hash field as text: base58 for a CIDv0 multihash, base32 otherwise. */
  function CidFromHash(raw: Bytes): Cid {
    if IsV0(raw) then B58Encode(raw)
    else B32BytesOfDigits(raw); "b" + B32Text(B32Digits(raw))
  }

  predicate IsV0(raw: Bytes) {
    |raw| == 34 && raw[0] == 0x12 && raw[1] == 0x20
  }

  method CidFromHashLoop(raw: Bytes) returns (cid: Cid)
    ensures cid == CidFromHash(raw)
  {
    if |raw| == 34 && raw[0] == 0x12 && raw[1] == 0x20 {
      cid := B58EncodeLoop(raw);
    } else {
      var text := B32EncodeLoop(raw);
      cid := "b" + text;
    }
  }

  predicate IsAsciiSpace(c: char) {
    c == ' ' || '\t' <= c <= '\r'
  }

  /** Python's bytes.fromhex: pairs of hex digits with white space between pairs. */
  function FromHex(s: string): Option<Bytes> {
    if s == "" then Some([])
    else if IsAsciiSpace(s[0]) then FromHex(s[1..])
    else if |s| < 2 then None
    else
      var hi, lo, rest := HexValue(s[0]), HexValue(s[1]), FromHex(s[2..]);
      if hi.Some? && lo.Some? && rest.Some? then Some([16 * hi.value + lo.value] + rest.value)
      else None
  }

  /** The bytes behind a multibase prefix. */
  function MultibaseBytes(cid: Cid): Option<Bytes>
    requires cid != ""
  {
    var rest := cid[1..];
    match cid[0]
    case 'b' => B32Decode(rest + Padding(rest), true)
    case 'B' => B32Decode(rest + Padding(rest), false)
    case 'z' => B58Decode(rest)
    case 'f' => FromHex(rest)
    case 'F' => FromHex(rest)
    case _ => None
  }

  function ParseV0(mh: Bytes): Option<Parsed> {
    if |mh| < 2 || mh[0] != SHA2_256 then None
    else
      var digest := Take(mh[2..], mh[1]);
      if |digest| != mh[1] then None else Some(Parsed(0, DAG_PB, SHA2_256, digest))
  }

  /** Four bounded varints and a digest of exactly the announced, nonzero length. */
  function ParseV1(data: Bytes): Option<Parsed> {
    match Varint.DecodeBounded(data)
    case None => None
    case Some(version) =>
      if version.value != 1 then None
      else
        var d1 := data[version.len..];
        match Varint.DecodeBounded(d1)
        case None => None
        case Some(codec) =>
          var d2 := d1[codec.len..];
          match Varint.DecodeBounded(d2)
          case None => None
          case Some(mh) =>
            var d3 := d2[mh.len..];
            match Varint.DecodeBounded(d3)
            case None => None
            case Some(len) =>
              var digest := Take(d3[len.len..], len.value);
              if len.value == 0 || |digest| != len.value then None
              else Some(Parsed(1, codec.value, mh.value, digest))
  }

  function DecodeCid(cid: Cid): Option<Parsed> {
    if cid == "" then None
    else if |cid| == 46 && cid[..2] == "Qm" then
      match B58Decode(cid)
      case None => None
      case Some(mh) => ParseV0(mh)
    else
      match MultibaseBytes(cid)
      case None => None
      case Some(data) => ParseV1(data)
  }

  predicate Valid(cid: Cid) {
    var p := DecodeCid(cid);
    p.Some? && p.value.digest != []
  }

  function V0Bytes(digest: Bytes): Bytes {
    [0x12, 0x20] + digest
  }

  function V1Bytes(codec: nat, mhCode: nat, digest: Bytes): Bytes {
    Varint.Encode(1) + Varint.Encode(codec) + Varint.Encode(mhCode)
    + Varint.Encode(|digest|) + digest
  }

  /** Every sha2-256 CIDv0 prints as 46 characters starting `Qm` and parses to its digest. */
  lemma V0RoundTrip(digest: Bytes)
    requires |digest| == 32
    ensures var cid := CidFromHash(V0Bytes(digest));
            && |cid| == 46 && cid[..2] == "Qm"
            && DecodeCid(cid) == Some(Parsed(0, DAG_PB, SHA2_256, digest))
  {
    B58DecodeOfEncode(V0Bytes(digest));
    V0Shape(digest);
  }

  lemma V0Shape(digest: Bytes)
    requires |digest| == 32
    ensures var cid := B58Encode(V0Bytes(digest)); |cid| == 46 && cid[..2] == "Qm"
  {
    var raw := V0Bytes(digest);
    var num := ToNat(raw, 256);
    V0Range(digest);
    V0Digits(num);
    ToNatMinimal(num, 58);
    var ds := Minimal(num, 58);
    B58TextAppend(ds[..2], ds[2..]);
    assert ds == ds[..2] + ds[2..];
    assert B58Text([23, 44]) == "Qm";
    assert B58Encode(raw) == B58Text(ds);
  }

  lemma V0Digits(num: nat)
    requires num / Pow(58, 44) == 1378
    ensures |Minimal(num, 58)| == 46 && Minimal(num, 58)[..2] == [23, 44]
  {
    MinimalPrefix(num, 58, 44);
    assert Minimal(1378, 58) == [23, 44];
  }

  lemma Prefixed(head: seq<nat>, h: nat, digest: seq<nat>)
    requires ToNat(head, 256) == h && InBase(digest, 256)
    ensures ToNat(head + digest, 256) == h * Pow(256, |digest|) + ToNat(digest, 256)
    ensures ToNat(digest, 256) < Pow(256, |digest|)
  {
    ToNatAppend(head, digest, 256);
    ToNatBound(digest, 256);
  }

  lemma V0Range(digest: Bytes)
    requires |digest| == 32
    ensures ToNat(V0Bytes(digest), 256) / Pow(58, 44) == 1378
  {
    Prefixed([0x12, 0x20], 0x1220, digest);
    BigPowers();
    DivModOf(1378, ToNat(V0Bytes(digest), 256) - 1378 * Pow(58, 44), Pow(58, 44));
  }

  lemma PowSum(b: nat, j: nat, k: nat, x: nat, y: nat)
    requires Pow(b, j) == x && Pow(b, k) == y
    ensures Pow(b, j + k) == x * y
  {
    PowAdd(b, j, k);
  }

  lemma BigPowers()
    ensures Pow(256, 32) == 115792089237316195423570985008687907853269984665640564039457584007913129639936
    ensures Pow(58, 44) == 389790918707373377135528568990913592653094657612049369038476873218241589149696
  {
    assert Pow(256, 1) == 256 && Pow(58, 1) == 58;
    PowSum(256, 1, 1, 256, 256);
    PowSum(256, 2, 2, 65536, 65536);
    PowSum(256, 4, 4, 4294967296, 4294967296);
    PowSum(256, 8, 8, 18446744073709551616, 18446744073709551616);
    PowSum(256, 16, 16, 340282366920938463463374607431768211456, 340282366920938463463374607431768211456);
    PowSum(58, 1, 1, 58, 58);
    PowSum(58, 2, 2, 3364, 3364);
    PowSum(58, 4, 4, 11316496, 11316496);
    PowSum(58, 8, 4, 128063081718016, 11316496);
    PowSum(58, 8, 8, 128063081718016, 128063081718016);
    PowSum(58, 16, 16, 16400152899115243850138976256, 16400152899115243850138976256);
    PowSum(58, 32, 12, 268965015114358137726910587140455987105619365599731777536, 1449225352009601191936);
  }

  /** Reading a varint back from the front of a longer string. */
  lemma ReadsBack(n: nat, rest: Bytes)
    requires n < Pow(128, 10)
    ensures var s := Varint.Encode(n) + rest;
            && Varint.DecodeBounded(s) == Some(Varint.Read(n, |Varint.Encode(n)|))
            && s[|Varint.Encode(n)|..] == rest
  {
    Varint.RoundTrip(n, rest);
    Varint.EncodedLength(n, 10);
  }

  /** Every well-formed CIDv1 whose numbers fit ten varint bytes survives print and parse. */
  lemma V1RoundTrip(codec: nat, mhCode: nat, digest: Bytes)
    requires codec < Pow(128, 10) && mhCode < Pow(128, 10) && 0 < |digest| < Pow(128, 10)
    ensures DecodeCid(CidFromHash(V1Bytes(codec, mhCode, digest))) ==
            Some(Parsed(1, codec, mhCode, digest))
  {
    var raw := V1Bytes(codec, mhCode, digest);
    assert Varint.Encode(1) == [1];
    assert raw[0] == 1;
    DecodeOfB32(raw);
    ParseOfV1(codec, mhCode, digest);
  }

  lemma DecodeOfB32(raw: Bytes)
    requires !IsV0(raw)
    ensures DecodeCid(CidFromHash(raw)) == ParseV1(raw)
  {
    B32RoundTrip(raw);
    B32BytesOfDigits(raw);
    var text := B32Text(B32Digits(raw));
    var cid := "b" + text;
    assert cid[1..] == text && cid[0] == 'b';
    assert |cid| >= 2 ==> cid[..2][0] == 'b';
    assert MultibaseBytes(cid) == Some(raw);
  }

  lemma ParseOfV1(codec: nat, mhCode: nat, digest: Bytes)
    requires codec < Pow(128, 10) && mhCode < Pow(128, 10) && 0 < |digest| < Pow(128, 10)
    ensures ParseV1(V1Bytes(codec, mhCode, digest)) == Some(Parsed(1, codec, mhCode, digest))
  {
    var d3 := Varint.Encode(|digest|) + digest;
    var d2 := Varint.Encode(mhCode) + d3;
    var d1 := Varint.Encode(codec) + d2;
    assert V1Bytes(codec, mhCode, digest) == Varint.Encode(1) + d1;
    assert Pow(128, 10) > 1;
    ReadsBack(1, d1);
    assert Varint.Encode(1) + d1 == V1Bytes(codec, mhCode, digest);
    ReadsBack(codec, d2);
    ReadsBack(mhCode, d3);
    ReadsBack(|digest|, digest);
  }

  /** True only when `data` is the block `cid` addresses, for the two known hash functions. */
  predicate VerifyBlock(sha: Bytes -> Bytes, cid: Cid, data: Bytes) {
    match DecodeCid(cid)
    case None => false
    case Some(p) =>
      if p.mhCode == SHA2_256 then sha(data) == p.digest
      else p.mhCode == IDENTITY && data == p.digest
  }

  ghost predicate CollisionFree(sha: Bytes -> Bytes) {
    forall x, y :: sha(x) == sha(y) ==> x == y
  }

  /** With a collision-free hash a CID admits at most one block, whoever serves it. */
  lemma VerifiedBlockIsUnique(sha: Bytes -> Bytes, cid: Cid, x: Bytes, y: Bytes)
    requires CollisionFree(sha) && VerifyBlock(sha, cid, x) && VerifyBlock(sha, cid, y)
    ensures x == y
  {
    if DecodeCid(cid).value.mhCode == SHA2_256 {
      assert sha(x) == sha(y);
    }
  }
}
