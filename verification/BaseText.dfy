/**
 Base58 (observer/unixfs.py prints it, observer/cidutil.py reads it) and base32
 (RFC 4648, section 6).  Each pair of directions undoes the other.
 */
module BaseText {
  import opened Prelude
  import opened Digits

  // ---------------------------------------------------------------- base 58

  /** The alphabet 1-9, A-Z, a-z without I, O and l: six runs of consecutive characters. */
  function B58Char(d: nat): char
    requires d < 58
  {
    if d < 9 then '1' + d as char
    else if d < 17 then 'A' + (d - 9) as char
    else if d < 22 then 'J' + (d - 17) as char
    else if d < 33 then 'P' + (d - 22) as char
    else if d < 44 then 'a' + (d - 33) as char
    else 'm' + (d - 44) as char
  }

  function B58Index(c: char): (r: Option<nat>)
    ensures r.Some? ==> r.value < 58 && B58Char(r.value) == c
  {
    if '1' <= c <= '9' then Some((c - '1') as nat)
    else if 'A' <= c <= 'H' then Some(9 + (c - 'A') as nat)
    else if 'J' <= c <= 'N' then Some(17 + (c - 'J') as nat)
    else if 'P' <= c <= 'Z' then Some(22 + (c - 'P') as nat)
    else if 'a' <= c <= 'k' then Some(33 + (c - 'a') as nat)
    else if 'm' <= c <= 'z' then Some(44 + (c - 'm') as nat)
    else None
  }

  lemma B58IndexOfChar(d: nat)
    requires d < 58
    ensures B58Index(B58Char(d)) == Some(d)
  {
  }

  function B58Text(ds: seq<nat>): (r: string)
    requires InBase(ds, 58)
    ensures |r| == |ds|
  {
    if ds == [] then "" else B58Text(ds[..|ds| - 1]) + [B58Char(ds[|ds| - 1])]
  }

  lemma {:induction false} B58TextAppend(hi: seq<nat>, lo: seq<nat>)
    requires InBase(hi, 58) && InBase(lo, 58)
    ensures InBase(hi + lo, 58) && B58Text(hi + lo) == B58Text(hi) + B58Text(lo)
  {
    if lo == [] {
      assert hi + lo == hi;
    } else {
      B58TextAppend(hi, lo[..|lo| - 1]);
      assert (hi + lo)[..|hi + lo| - 1] == hi + lo[..|lo| - 1];
    }
  }

  lemma {:induction false} B58TextOfZeros(k: nat)
    ensures B58Text(Zeros(k)) == Repeat('1', k)
  {
    if k > 0 {
      B58TextOfZeros(k - 1);
      assert Zeros(k)[..k - 1] == Zeros(k - 1);
    }
  }

  lemma {:induction false} B58TextLead(ds: seq<nat>)
    requires InBase(ds, 58) && ds != []
    ensures B58Text(ds)[0] == B58Char(ds[0]) && (B58Text(ds)[0] == '1' <==> ds[0] == 0)
  {
    B58TextAppend(ds[..1], ds[1..]);
    assert ds == ds[..1] + ds[1..];
    B58IndexOfChar(ds[0]);
  }

  /** Digit values of a base58 text; None when a character is not in the alphabet. */
  function B58Values(s: string): (r: Option<seq<nat>>)
    ensures r.Some? ==> |r.value| == |s| && InBase(r.value, 58) && B58Text(r.value) == s
  {
    if s == "" then Some([])
    else
      var hi, lo := B58Values(s[..|s| - 1]), B58Index(s[|s| - 1]);
      if hi.Some? && lo.Some? then Some(hi.value + [lo.value]) else None
  }

  lemma {:induction false} B58ValuesOfText(ds: seq<nat>)
    requires InBase(ds, 58)
    ensures B58Values(B58Text(ds)) == Some(ds)
  {
    if ds != [] {
      B58ValuesOfText(ds[..|ds| - 1]);
      B58IndexOfChar(ds[|ds| - 1]);
      assert B58Text(ds)[..|ds| - 1] == B58Text(ds[..|ds| - 1]);
      assert ds == ds[..|ds| - 1] + [ds[|ds| - 1]];
    }
  }

  function Leading<T(==)>(s: seq<T>, x: T): (n: nat)
    ensures n <= |s| && (forall i :: 0 <= i < n ==> s[i] == x) && (n < |s| ==> s[n] != x)
  {
    if s != [] && s[0] == x then 1 + Leading(s[1..], x) else 0
  }

  function Repeat<T>(x: T, n: nat): (r: seq<T>)
    ensures |r| == n && forall i :: 0 <= i < n ==> r[i] == x
  {
    seq(n, _ => x)
  }

  function Zeros(n: nat): (r: Bytes)
    ensures |r| == n && forall i :: 0 <= i < n ==> r[i] == 0
  {
    Repeat(0, n)
  }

  lemma {:induction false} LeadingOfPadded<T>(x: T, n: nat, s: seq<T>)
    requires s == [] || s[0] != x
    ensures Leading(Repeat(x, n) + s, x) == n
  {
    var padded := Repeat(x, n) + s;
    if n > 0 {
      LeadingOfPadded(x, n - 1, s);
      assert padded[1..] == Repeat(x, n - 1) + s;
    }
  }

  lemma SplitLeading<T>(s: seq<T>, x: T)
    ensures var k := Leading(s, x);
            s == Repeat(x, k) + s[k..] && (s[k..] == [] || s[k..][0] != x)
  {
  }

  lemma {:induction false} LeadingZeros(n: nat, s: Bytes)
    requires s == [] || s[0] != 0
    ensures Leading(Zeros(n) + s, 0) == n
  {
    if n > 0 {
      LeadingZeros(n - 1, s);
      assert (Zeros(n) + s)[1..] == Zeros(n - 1) + s;
    }
  }

  lemma {:induction false} ToNatOfPadded(n: nat, ds: seq<nat>, b: nat)
    ensures ToNat(Zeros(n) + ds, b) == ToNat(ds, b)
  {
    ZerosAreZero(n, b);
    ToNatAppend(Zeros(n), ds, b);
  }

  lemma {:induction false} ZerosAreZero(n: nat, b: nat)
    ensures ToNat(Zeros(n), b) == 0
  {
    if n > 0 {
      ZerosAreZero(n - 1, b);
      assert Zeros(n) == Zeros(n - 1) + [0];
    }
  }

  function AsBytes(ds: seq<nat>): (r: Bytes)
    requires InBase(ds, 256)
    ensures r == ds
  {
    if ds == [] then [] else
      assert ds == ds[..|ds| - 1] + [ds[|ds| - 1]];
      AsBytes(ds[..|ds| - 1]) + [ds[|ds| - 1]]
  }

  function B58Encode(raw: Bytes): string {
    var num := ToNat(raw, 256);
    ToNatMinimal(num, 58);
    Repeat('1', Leading(raw, 0)) + B58Text(Minimal(num, 58))
  }

  function B58Decode(s: string): Option<Bytes> {
    match B58Values(s)
    case None => None
    case Some(ds) =>
      var num := ToNat(ds, 58);
      ToNatMinimal(num, 256);
      Some(Zeros(Leading(s, '1')) + AsBytes(Minimal(num, 256)))
  }

  lemma {:induction false} TextOfMinimal(num: nat)
    requires num > 0
    ensures InBase(Minimal(num, 58), 58) && InBase(Minimal(num / 58, 58), 58)
    ensures B58Text(Minimal(num, 58)) == B58Text(Minimal(num / 58, 58)) + [B58Char(num % 58)]
  {
    ToNatMinimal(num, 58);
    ToNatMinimal(num / 58, 58);
    var ds := Minimal(num, 58);
    assert ds[..|ds| - 1] == Minimal(num / 58, 58) && ds[|ds| - 1] == num % 58;
  }

  method B58EncodeLoop(raw: Bytes) returns (enc: string)
    ensures enc == B58Encode(raw)
  {
    var num := ToNat(raw, 256);
    ghost var all := num;
    ToNatMinimal(num, 58);
    enc := "";
    while num > 0
      invariant InBase(Minimal(num, 58), 58) && InBase(Minimal(all, 58), 58)
      invariant B58Text(Minimal(num, 58)) + enc == B58Text(Minimal(all, 58))
    {
      TextOfMinimal(num);
      num, enc := num / 58, [B58Char(num % 58)] + enc;
    }
    enc := Repeat('1', Leading(raw, 0)) + enc;
  }

  method B58DecodeLoop(s: string) returns (r: Option<Bytes>)
    ensures r == B58Decode(s)
  {
    var num: nat := 0;
    for i := 0 to |s|
      invariant B58Values(s[..i]).Some? && num == ToNat(B58Values(s[..i]).value, 58)
    {
      assert s[..i + 1][..i] == s[..i];
      match B58Index(s[i])
      case None =>
        PrefixFails(s, i + 1);
        return None;
      case Some(d) =>
        num := num * 58 + d;
    }
    assert s[..|s|] == s;
    ToNatMinimal(num, 256);
    r := Some(Zeros(Leading(s, '1')) + AsBytes(Minimal(num, 256)));
  }

  lemma {:induction false} PrefixFails(s: string, i: nat)
    requires i <= |s| && B58Values(s[..i]) == None
    ensures B58Values(s) == None
    decreases |s| - i
  {
    if i == |s| {
      assert s[..i] == s;
    } else {
      assert s[..i + 1][..i] == s[..i];
      PrefixFails(s, i + 1);
    }
  }

  /** A text of `k` ones and then `ds` has the value of `ds` and `k` leading ones. */
  lemma PaddedText(k: nat, ds: seq<nat>)
    requires InBase(ds, 58) && (ds == [] || ds[0] != 0)
    ensures var s := Repeat('1', k) + B58Text(ds);
            && B58Values(s) == Some(Zeros(k) + ds)
            && Leading(s, '1') == k
            && ToNat(B58Values(s).value, 58) == ToNat(ds, 58)
  {
    B58TextOfZeros(k);
    B58TextAppend(Zeros(k), ds);
    if ds != [] {
      B58TextLead(ds);
    }
    B58ValuesOfText(Zeros(k) + ds);
    ToNatOfPadded(k, ds, 58);
    LeadingOfPadded('1', k, B58Text(ds));
  }

  lemma BytesFromNumber(raw: Bytes)
    ensures InBase(Minimal(ToNat(raw, 256), 256), 256)
    ensures raw == Zeros(Leading(raw, 0)) + AsBytes(Minimal(ToNat(raw, 256), 256))
  {
    var k := Leading(raw, 0);
    assert raw == Zeros(k) + raw[k..];
    ToNatOfPadded(k, raw[k..], 256);
    MinimalToNat(raw[k..], 256);
  }

  /** Base58 decoding undoes encoding on every byte string, leading zeros included. */
  lemma B58DecodeOfEncode(raw: Bytes)
    ensures B58Decode(B58Encode(raw)) == Some(raw)
  {
    BytesFromNumber(raw);
    EncodedValue(raw);
  }

  lemma EncodedValue(raw: Bytes)
    ensures var s := B58Encode(raw);
            && B58Values(s).Some?
            && ToNat(B58Values(s).value, 58) == ToNat(raw, 256)
            && Leading(s, '1') == Leading(raw, 0)
  {
    var num := ToNat(raw, 256);
    ToNatMinimal(num, 58);
    PaddedText(Leading(raw, 0), Minimal(num, 58));
  }

  /** ... and encoding undoes decoding on every text over the alphabet. */
  lemma B58EncodeOfDecode(s: string)
    requires B58Values(s).Some?
    ensures B58Encode(B58Decode(s).value) == s
  {
    var k := Leading(s, '1');
    var tail := B58Values(s).value[k..];
    ValuesSplit(s, k);
    DecodedNumber(s);
    ToNatOfPadded(k, tail, 58);
    MinimalToNat(tail, 58);
    SplitLeading(s, '1');
  }

  lemma DecodedNumber(s: string)
    requires B58Values(s).Some?
    ensures var raw := B58Decode(s).value;
            && ToNat(raw, 256) == ToNat(B58Values(s).value, 58)
            && Leading(raw, 0) == Leading(s, '1')
  {
    var num, k := ToNat(B58Values(s).value, 58), Leading(s, '1');
    ToNatMinimal(num, 256);
    LeadingZeros(k, AsBytes(Minimal(num, 256)));
    ToNatOfPadded(k, Minimal(num, 256), 256);
  }

  lemma ValuesSplit(s: string, k: nat)
    requires B58Values(s).Some? && k == Leading(s, '1')
    ensures var ds := B58Values(s).value;
            && InBase(ds[k..], 58) && B58Text(ds[k..]) == s[k..]
            && ds == Zeros(k) + ds[k..]
            && (ds[k..] == [] || ds[k..][0] != 0)
  {
    var ds := B58Values(s).value;
    SplitLeading(s, '1');
    TextSplit(ds, k);
    LeadingOnes(s, ds, k);
    TailLead(s, ds, k);
  }

  lemma LeadingOnes(s: string, ds: seq<nat>, k: nat)
    requires InBase(ds, 58) && k <= |ds| == |s| && B58Text(ds[..k]) == s[..k] && s == Repeat('1', k) + s[k..]
    ensures ds == Zeros(k) + ds[k..]
  {
    Halves(Repeat('1', k), s[k..]);
    OnesAreZeros(ds[..k], k);
    assert ds == ds[..k] + ds[k..];
  }

  lemma TailLead(s: string, ds: seq<nat>, k: nat)
    requires InBase(ds, 58) && k <= |ds| == |s| && B58Text(ds[k..]) == s[k..]
    requires s[k..] == [] || s[k..][0] != '1'
    ensures ds[k..] == [] || ds[k..][0] != 0
  {
    if ds[k..] != [] {
      B58TextLead(ds[k..]);
    }
  }

  lemma TextSplit(ds: seq<nat>, k: nat)
    requires InBase(ds, 58) && k <= |ds|
    ensures B58Text(ds[..k]) == B58Text(ds)[..k] && B58Text(ds[k..]) == B58Text(ds)[k..]
  {
    var head, tail := ds[..k], ds[k..];
    assert ds == head + tail;
    B58TextAppend(head, tail);
    Halves(B58Text(head), B58Text(tail));
  }

  /** Digits whose text is all `1` are zeros. */
  lemma OnesAreZeros(head: seq<nat>, k: nat)
    requires InBase(head, 58) && B58Text(head) == Repeat('1', k)
    ensures head == Zeros(k)
  {
    B58ValuesOfText(head);
    B58TextOfZeros(k);
    B58ValuesOfText(Zeros(k));
  }

  // ---------------------------------------------------------------- base 32 (RFC 4648, section 6)

  function B32Char(d: nat): char
    requires d < 32
  {
    if d < 26 then 'a' + d as char else '2' + (d - 26) as char
  }

  /** ASCII upper-casing, then the base32 table. */
  function B32Index(c: char, lowerOk: bool): (r: Option<nat>)
    ensures r.Some? ==> r.value < 32
  {
    if 'A' <= c <= 'Z' then Some((c - 'A') as nat)
    else if lowerOk && 'a' <= c <= 'z' then Some((c - 'a') as nat)
    else if '2' <= c <= '7' then Some(26 + (c - '2') as nat)
    else None
  }

  function B32Text(ds: seq<nat>): (r: string)
    requires InBase(ds, 32)
    ensures |r| == |ds|
  {
    if ds == [] then "" else B32Text(ds[..|ds| - 1]) + [B32Char(ds[|ds| - 1])]
  }

  function B32Values(s: string, lowerOk: bool): (r: Option<seq<nat>>)
    ensures r.Some? ==> |r.value| == |s| && InBase(r.value, 32)
  {
    if s == "" then Some([])
    else
      var hi, lo := B32Values(s[..|s| - 1], lowerOk), B32Index(s[|s| - 1], lowerOk);
      if hi.Some? && lo.Some? then Some(hi.value + [lo.value]) else None
  }

  lemma {:induction false} B32ValuesOfText(ds: seq<nat>)
    requires InBase(ds, 32)
    ensures B32Values(B32Text(ds), true) == Some(ds)
    ensures ds != [] ==> B32Text(ds)[|ds| - 1] != '='
  {
    if ds != [] {
      B32ValuesOfText(ds[..|ds| - 1]);
      assert B32Text(ds)[..|ds| - 1] == B32Text(ds[..|ds| - 1]);
      assert ds == ds[..|ds| - 1] + [ds[|ds| - 1]];
    }
  }

  /** How many base32 digits carry `n` bytes. */
  function B32Len(n: nat): nat {
    (8 * n + 4) / 5
  }

  /** The bytes as one number, shifted left to fill the last digit, in base 32. */
  function B32Digits(raw: Bytes): seq<nat> {
    var k := B32Len(|raw|);
    Fixed(ToNat(raw, 256) * Pow(2, 5 * k - 8 * |raw|), 32, k)
  }

  lemma {:induction false} PowersOfTwo(k: nat)
    ensures Pow(32, k) == Pow(2, 5 * k) && Pow(256, k) == Pow(2, 8 * k)
  {
    if k > 0 {
      PowersOfTwo(k - 1);
      assert Pow(2, 1) == 2 && Pow(2, 2) == 4 && Pow(2, 3) == 8 && Pow(2, 4) == 16;
      assert Pow(2, 5) == 32 && Pow(2, 6) == 64 && Pow(2, 7) == 128 && Pow(2, 8) == 256;
      PowAdd(2, 5, 5 * (k - 1));
      PowAdd(2, 8, 8 * (k - 1));
    }
  }

  lemma B32DigitsFit(raw: Bytes)
    ensures var k := B32Len(|raw|);
            ToNat(raw, 256) * Pow(2, 5 * k - 8 * |raw|) < Pow(32, k)
  {
    var n, k := |raw|, B32Len(|raw|);
    ToNatBound(raw, 256);
    PowersOfTwo(n);
    PowersOfTwo(k);
    PowAdd(2, 8 * n, 5 * k - 8 * n);
    var p := Pow(2, 5 * k - 8 * n);
    MulStrict(ToNat(raw, 256), Pow(256, n), p);
  }

  predicate GoodPadding(pads: nat) {
    pads == 0 || pads == 1 || pads == 3 || pads == 4 || pads == 6
  }

  /** Strip the padding; None when the length or the amount of padding is wrong. */
  function Unpad(text: string): Option<string> {
    var body := RStrip(text, '=');
    if |text| % 8 != 0 || !GoodPadding(|text| - |body|) then None else Some(body)
  }

  /** Python's b32decode on padded text: None for a bad length, padding or character. */
  function B32Decode(text: string, lowerOk: bool): Option<Bytes> {
    match Unpad(text)
    case None => None
    case Some(body) =>
      match B32Values(body, lowerOk)
      case None => None
      case Some(ds) => Some(B32Bytes(ds))
  }

  /** The whole bytes in a run of base32 digits; leftover bits are dropped. */
  function B32Bytes(ds: seq<nat>): Bytes
    requires InBase(ds, 32)
  {
    var n, k := ToNat(ds, 32) / Pow(2, 5 * |ds| % 8), 5 * |ds| / 8;
    FixedInBase(n, 256, k);
    AsBytes(Fixed(n, 256, k))
  }

  function RStrip(s: string, c: char): (r: string)
    ensures r <= s && (r == "" || r[|r| - 1] != c)
  {
    if s != "" && s[|s| - 1] == c then RStrip(s[..|s| - 1], c) else s
  }

  lemma {:induction false} RStripPadded(s: string, n: nat)
    requires s == "" || s[|s| - 1] != '='
    ensures RStrip(s + Repeat('=', n), '=') == s
  {
    if n == 0 {
      assert s + Repeat('=', n) == s;
    } else {
      RStripPadded(s, n - 1);
      assert (s + Repeat('=', n))[..|s| + n - 1] == s + Repeat('=', n - 1);
    }
  }

  /** Right padding to a multiple of eight characters. */
  function Padding(s: string): string {
    Repeat('=', (8 - |s| % 8) % 8)
  }

  lemma B32LenFacts(n: nat)
    ensures var k := B32Len(n);
            && (5 * k) % 8 == 5 * k - 8 * n && (5 * k) / 8 == n
            && GoodPadding((8 - k % 8) % 8)
  {
    var q, r := n / 5, n % 5;
    var k, c := B32Len(n), (8 * r + 4) / 5;
    Quotient(n, 5);
    assert 8 * n + 4 == (8 * q) * 5 + (8 * r + 4);
    assert c == if r == 0 then 0 else if r == 1 then 2 else if r == 2 then 4 else if r == 3 then 5 else 7;
    DivModOf(8 * q + c, 8 * r + 4 - 5 * c, 5);
    assert k == q * 8 + c;
    DivModOf(q, c, 8);
    DivModOf(n, 5 * k - 8 * n, 8);
  }

  lemma B32BytesOfDigits(raw: Bytes)
    ensures InBase(B32Digits(raw), 32) && |B32Digits(raw)| == B32Len(|raw|)
    ensures B32Bytes(B32Digits(raw)) == raw
  {
    var n, k := |raw|, B32Len(|raw|);
    var p := Pow(2, 5 * k - 8 * n);
    B32DigitsFit(raw);
    ToNatFixed(ToNat(raw, 256) * p, 32, k);
    B32LenFacts(n);
    ShiftedBack(ToNat(raw, 256), p);
    FixedToNat(raw, 256);
  }

  lemma ShiftedBack(value: nat, p: nat)
    requires p > 0
    ensures (value * p) / p == value
  {
    DivModOf(value, 0, p);
  }

  lemma UnpadPadded(text: string)
    requires GoodPadding((8 - |text| % 8) % 8)
    requires text == "" || text[|text| - 1] != '='
    ensures Unpad(text + Padding(text)) == Some(text)
  {
    var pads := (8 - |text| % 8) % 8;
    RStripPadded(text, pads);
    PaddedLength(|text|, pads);
  }

  /** Padding reaches the next multiple of eight. */
  lemma PaddedLength(n: nat, pads: nat)
    requires pads == (8 - n % 8) % 8
    ensures (n + pads) % 8 == 0
  {
    Quotient(n, 8);
    if n % 8 != 0 {
      DivModOf(n / 8 + 1, 0, 8);
    }
  }

  lemma B32RoundTrip(raw: Bytes)
    ensures InBase(B32Digits(raw), 32)
    ensures var text := B32Text(B32Digits(raw)); B32Decode(text + Padding(text), true) == Some(raw)
  {
    B32BytesOfDigits(raw);
    B32LenFacts(|raw|);
    B32ValuesOfText(B32Digits(raw));
    UnpadPadded(B32Text(B32Digits(raw)));
  }

  /** The inner loop of `_cid_from_hash`: move whole digits out of the accumulator. */
  method EmitDigits(value: nat, have: nat, sofar: seq<nat>) returns (bits: nat, out: seq<nat>)
    requires InBase(sofar, 32) && ToNat(sofar, 32) == value / Pow(2, have)
    ensures bits < 5 && 5 * |out| + bits == 5 * |sofar| + have && InBase(out, 32)
    ensures ToNat(out, 32) == value / Pow(2, bits)
  {
    bits, out := have, sofar;
    while bits >= 5
      invariant 5 * |out| + bits == 5 * |sofar| + have && InBase(out, 32)
      invariant ToNat(out, 32) == value / Pow(2, bits)
    {
      bits := bits - 5;
      var d := (value / Pow(2, bits)) % 32;
      ShiftOut(value, bits);
      out := out + [d];
    }
  }

  /** The accumulator loop of `_cid_from_hash`. */
  method B32EncodeLoop(raw: Bytes) returns (text: string)
    ensures InBase(B32Digits(raw), 32) && text == B32Text(B32Digits(raw))
  {
    var bits: nat, value: nat, out: seq<nat> := 0, 0, [];
    for i := 0 to |raw|
      invariant bits < 5 && 5 * |out| + bits == 8 * i && InBase(out, 32)
      invariant value == ToNat(raw[..i], 256)
      invariant ToNat(out, 32) == value / Pow(2, bits)
    {
      assert raw[..i + 1] == raw[..i] + [raw[i]];
      ShiftIn(value, raw[i], bits);
      value := value * 256 + raw[i];
      bits, out := EmitDigits(value, bits + 8, out);
    }
    assert raw[..|raw|] == raw;
    if bits > 0 {
      LastDigit(value, bits);
      out := out + [(value * Pow(2, 5 - bits)) % 32];
      DigitsDetermined(raw, out, 5 - bits);
    } else {
      DigitsDetermined(raw, out, 0);
    }
    text := B32Text(out);
  }

  lemma B32LenIs(n: nat, k: nat, p: nat)
    requires p < 5 && 5 * k == 8 * n + p
    ensures B32Len(n) == k && 5 * B32Len(n) - 8 * n == p
  {
    DivModOf(k, 4 - p, 5);
  }

  lemma B32DigitsAre(raw: Bytes, k: nat, p: nat)
    requires B32Len(|raw|) == k && 5 * k - 8 * |raw| == p
    ensures B32Digits(raw) == Fixed(ToNat(raw, 256) * Pow(2, p), 32, k)
  {
  }

  lemma DigitsDetermined(raw: Bytes, out: seq<nat>, p: nat)
    requires InBase(out, 32) && p < 5 && 5 * |out| == 8 * |raw| + p
    requires ToNat(out, 32) == ToNat(raw, 256) * Pow(2, p)
    ensures out == B32Digits(raw)
  {
    B32LenIs(|raw|, |out|, p);
    B32DigitsAre(raw, |out|, p);
    FixedToNat(out, 32);
  }

  lemma ShiftIn(value: nat, byte: Byte, bits: nat)
    ensures Pow(2, bits) > 0 && Pow(2, bits + 8) > 0
    ensures (value * 256 + byte) / Pow(2, bits + 8) == value / Pow(2, bits)
  {
    PowersOfTwo(1);
    PowAdd(2, 8, bits);
    DivTwice(value * 256 + byte, 256, Pow(2, bits));
    DivModOf(value, byte, 256);
  }

  lemma ShiftOut(value: nat, bits: nat)
    ensures Pow(2, bits) > 0 && Pow(2, bits + 5) > 0
    ensures value / Pow(2, bits) == (value / Pow(2, bits + 5)) * 32 + (value / Pow(2, bits)) % 32
  {
    PowersOfTwo(1);
    PowAdd(2, bits, 5);
    DivTwice(value, Pow(2, bits), 32);
  }

  /** The bits above `p` become the digits, those below, shifted up, the last one. */
  lemma SplitDigit(value: nat, p: nat, q: nat)
    requires p > 0 && q > 0 && q * p == 32
    ensures value * q == (value / p) * 32 + (value * q) % 32
  {
    var hi, lo := value / p, value % p;
    Quotient(value, p);
    TwoSteps(hi, lo, q, p, 0);
    DivModOf(hi, lo * q, 32);
  }

  lemma LastDigit(value: nat, bits: nat)
    requires 0 < bits < 5
    ensures Pow(2, bits) > 0
    ensures value * Pow(2, 5 - bits) == (value / Pow(2, bits)) * 32 + (value * Pow(2, 5 - bits)) % 32
  {
    PowersOfTwo(1);
    PowAdd(2, 5 - bits, bits);
    SplitDigit(value, Pow(2, bits), Pow(2, 5 - bits));
  }
}
