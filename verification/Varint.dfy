/** Base-128 varints: the two readers and the writer the test fixtures use. */
module Varint {
  import opened Prelude
  import opened Digits

  /** What reading a varint yields: its value and how many bytes it took. */
  datatype Read = Read(value: nat, len: nat)

  /** A varint at the front of `s`, or None when the bytes run out first. */
  function Decode(s: Bytes): (r: Option<Read>)
    ensures r.Some? ==> 0 < r.value.len <= |s|
  {
    if s == [] then None
    else if s[0] < 128 then Some(Read(s[0], 1))
    else match Decode(s[1..])
      case None => None
      case Some(t) => Some(Read(s[0] - 128 + 128 * t.value, 1 + t.len))
  }

  /** Python's `data[pos:]`, which is empty once `pos` passes the end. */
  function Rest(s: Bytes, pos: nat): Bytes {
    if pos <= |s| then s[pos..] else []
  }

  function Encode(n: nat): (r: Bytes)
    ensures r != []
  {
    if n < 128 then [n] else [128 + n % 128] + Encode(n / 128)
  }

  lemma {:induction false} RoundTrip(n: nat, rest: Bytes)
    ensures Decode(Encode(n) + rest) == Some(Read(n, |Encode(n)|))
  {
    if n >= 128 {
      RoundTrip(n / 128, rest);
      assert (Encode(n) + rest)[1..] == Encode(n / 128) + rest;
    }
  }

  lemma {:induction false} EncodedLength(n: nat, k: nat)
    requires k > 0 && n < Pow(128, k)
    ensures |Encode(n)| <= k
  {
    if n >= 128 {
      QuotientBound(n, 128, Pow(128, k - 1));
      EncodedLength(n / 128, k - 1);
    }
  }

  /** What either reader knows at `pos`: how the bytes left complete the value. */
  ghost predicate SoFar(data: Bytes, start: nat, pos: nat, result: nat, scale: nat) {
    && start <= pos && (pos > start ==> pos <= |data|)
    && (Decode(Rest(data, start)).Some? <==> Decode(Rest(data, pos)).Some?)
    && (Decode(Rest(data, pos)).Some? ==>
          var d, t := Decode(Rest(data, start)).value, Decode(Rest(data, pos)).value;
          d.value == result + scale * t.value && d.len == pos - start + t.len)
  }

  lemma NextDigit(result: nat, scale: nat, digit: nat, rest: nat)
    ensures result + scale * (digit + 128 * rest) == (result + scale * digit) + (scale * 128) * rest
  {
    assert scale * (digit + 128 * rest) == scale * digit + (scale * 128) * rest;
  }

  /** One loop step of either reader. */
  lemma {:induction false} Advance(data: Bytes, start: nat, pos: nat, result: nat, scale: nat)
    requires SoFar(data, start, pos, result, scale) && pos < |data|
    ensures var next := result + scale * (data[pos] % 128);
            if data[pos] < 128 then Decode(Rest(data, start)) == Some(Read(next, pos + 1 - start))
            else SoFar(data, start, pos + 1, next, scale * 128)
  {
    assert data[pos..][1..] == data[pos + 1..];
    if data[pos] >= 128 && Decode(data[pos + 1..]).Some? {
      NextDigit(result, scale, data[pos] - 128, Decode(data[pos + 1..]).value.value);
    }
  }

  lemma Begin(data: Bytes, start: nat)
    ensures SoFar(data, start, start, 0, 1)
  {
  }

  lemma RunsOut(data: Bytes, start: nat, pos: nat, result: nat, scale: nat)
    requires SoFar(data, start, pos, result, scale)
    ensures pos >= |data| ==> Decode(Rest(data, start)) == None
    ensures Decode(Rest(data, start)).Some? ==> Decode(Rest(data, start)).value.len > pos - start
  {
  }

  /** observer/unixfs.py: no length limit; the bytes running out raises. */
  method ReadVarint(data: Bytes, start: nat) returns (r: Option<Read>)
    ensures r == Decode(Rest(data, start))
  {
    var pos: nat, result: nat, scale: nat := start, 0, 1;
    Begin(data, start);
    while true
      invariant start <= pos && SoFar(data, start, pos, result, scale)
      decreases |data| - pos
    {
      RunsOut(data, start, pos, result, scale);
      if pos >= |data| {
        return None;
      }
      var b := data[pos];
      Advance(data, start, pos, result, scale);
      result, pos := result + scale * (b % 128), pos + 1;
      if b < 128 {
        return Some(Read(result, pos - start));
      }
      scale := scale * 128;
    }
  }

  /** observer/cidutil.py: at most ten bytes. */
  function DecodeBounded(s: Bytes): (r: Option<Read>)
  {
    var d := Decode(s);
    if d.Some? && d.value.len <= 10 then d else None
  }

  method ReadVarintBounded(data: Bytes, start: nat) returns (r: Option<Read>)
    ensures r == DecodeBounded(Rest(data, start))
    ensures r.Some? <==> Decode(Rest(data, start)).Some? && Decode(Rest(data, start)).value.len <= 10
    ensures r.Some? ==> r == Decode(Rest(data, start))
  {
    var pos: nat, result: nat, scale: nat, shift := start, 0, 1, 0;
    Begin(data, start);
    while true
      invariant start <= pos && SoFar(data, start, pos, result, scale)
      invariant shift == 7 * (pos - start) <= 63
      decreases |data| - pos
    {
      RunsOut(data, start, pos, result, scale);
      if pos >= |data| {
        return None;
      }
      var b := data[pos];
      Advance(data, start, pos, result, scale);
      result, pos := result + scale * (b % 128), pos + 1;
      if b < 128 {
        return Some(Read(result, pos - start));
      }
      scale := scale * 128;
      shift := shift + 7;
      if shift > 63 {
        RunsOut(data, start, pos, result, scale);
        return None;
      }
    }
  }
}
