/** Types shared by every part of the model. */
module Prelude {

  datatype Option<+T> = None | Some(value: T)

  type Byte = x: nat | x < 256

  type Bytes = seq<Byte>

  type Cid = string

  type Peer = string

  /** The block codecs the observer tells apart. */
  datatype Codec = Raw | DagPb | DagCbor | Libp2pKey | JsonBlock | DagJson | UnknownCodec | OtherCodec

  function Min(a: int, b: int): int {
    if a <= b then a else b
  }

  function Max(a: int, b: int): int {
    if a >= b then a else b
  }

  /** Python's `s[:n]`: a slice that never runs past the end. */
  function Take<T>(s: seq<T>, n: nat): seq<T> {
    if n < |s| then s[..n] else s
  }

  lemma Assoc<T>(a: seq<T>, b: seq<T>, c: seq<T>)
    ensures a + b + c == a + (b + c)
  {
  }

  /** What holds at zero and passes from each number to the next holds up to the limit. */
  lemma {:induction false} UpTo(holds: nat -> bool, limit: nat)
    requires holds(0) && forall n: nat :: n < limit && holds(n) ==> holds(n + 1)
    ensures holds(limit)
  {
    if limit > 0 {
      UpTo(holds, limit - 1);
    }
  }

  lemma Halves<T>(a: seq<T>, b: seq<T>)
    ensures (a + b)[..|a|] == a && (a + b)[|a|..] == b
  {
  }

  function HexValue(c: char): (r: Option<nat>)
    ensures r.Some? ==> r.value < 16
  {
    if '0' <= c <= '9' then Some((c - '0') as nat)
    else if 'a' <= c <= 'f' then Some(10 + (c - 'a') as nat)
    else if 'A' <= c <= 'F' then Some(10 + (c - 'A') as nat)
    else None
  }
}
