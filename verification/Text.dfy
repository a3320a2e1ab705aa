/** Lexicographic order on strings by code point, white space, and ASCII case. */
module Text {

  predicate LexLt(a: string, b: string) {
    if b == "" then false
    else if a == "" then true
    else a[0] < b[0] || (a[0] == b[0] && LexLt(a[1..], b[1..]))
  }

  lemma {:induction false} LexTotal(a: string, b: string)
    ensures a == b || LexLt(a, b) || LexLt(b, a)
    ensures !(LexLt(a, b) && LexLt(b, a)) && !LexLt(a, a)
  {
    if a != "" && b != "" {
      LexTotal(a[1..], b[1..]);
      LexTotal(a[1..], a[1..]);
      if a[0] == b[0] && a[1..] == b[1..] {
        assert a == [a[0]] + a[1..];
        assert b == [b[0]] + b[1..];
      }
    } else if a != "" {
      LexTotal(a[1..], a[1..]);
    }
  }

  lemma {:induction false} LexTransitive(a: string, b: string, c: string)
    requires LexLt(a, b) && LexLt(b, c)
    ensures LexLt(a, c)
  {
    if a != "" && a[0] == b[0] && b[0] == c[0] {
      LexTransitive(a[1..], b[1..], c[1..]);
    }
  }

  /** They agree on the first k characters, and then the first string ends or has the smaller character. */
  predicate PrecedesAt(a: string, b: string, k: nat) {
    k <= |a| && k < |b| && a[..k] == b[..k] && (k < |a| ==> a[k] < b[k])
  }

  /**
   A string precedes another exactly when it is a proper prefix of it, or has the smaller
   character where they first differ.
   */
  ghost predicate Precedes(a: string, b: string) {
    exists k: nat :: PrecedesAt(a, b, k)
  }

  lemma {:induction false} LexLtIsPrecedes(a: string, b: string)
    ensures LexLt(a, b) <==> Precedes(a, b)
    ensures Precedes(a, b) <==>
            || (|a| < |b| && a == b[..|a|])
            || exists k: nat :: k < |a| && k < |b| && a[..k] == b[..k] && a[k] < b[k]
  {
    if a != "" && b != "" && a[0] == b[0] {
      LexLtIsPrecedes(a[1..], b[1..]);
      if k: nat :| PrecedesAt(a[1..], b[1..], k) {
        assert a[..k + 1] == [a[0]] + a[1..][..k] && b[..k + 1] == [b[0]] + b[1..][..k];
        assert PrecedesAt(a, b, k + 1);
      }
      if k: nat :| PrecedesAt(a, b, k) {
        assert k > 0;
        assert a[1..][..k - 1] == a[..k][1..] && b[1..][..k - 1] == b[..k][1..];
        assert PrecedesAt(a[1..], b[1..], k - 1);
      }
    } else if a == "" {
      assert b != "" ==> PrecedesAt(a, b, 0);
    } else if b != "" {
      assert PrecedesAt(a, b, 0) <==> a[0] < b[0];
      forall k: nat | PrecedesAt(a, b, k)
        ensures k == 0
      {
        SameFirst(a, b, k);
      }
    }
    PrecedesSpelled(a, b);
  }

  lemma SameFirst(a: string, b: string, k: nat)
    requires PrecedesAt(a, b, k)
    ensures k > 0 ==> a[0] == b[0]
  {
    if k > 0 {
      assert a[..k][0] == b[..k][0];
    }
  }

  lemma PrecedesSpelled(a: string, b: string)
    ensures Precedes(a, b) <==>
            || (|a| < |b| && a == b[..|a|])
            || exists k: nat :: k < |a| && k < |b| && a[..k] == b[..k] && a[k] < b[k]
  {
    if |a| < |b| && a == b[..|a|] {
      assert a[..|a|] == a;
      assert PrecedesAt(a, b, |a|);
    }
    if k: nat :| PrecedesAt(a, b, k) {
      assert k == |a| ==> a[..k] == a;
    }
    if k: nat :| k < |a| && k < |b| && a[..k] == b[..k] && a[k] < b[k] {
      assert PrecedesAt(a, b, k);
    }
  }

  /** The white space that Python strips. */
  predicate Space(c: char) {
    || '\U{9}' <= c <= '\U{D}' || '\U{1C}' <= c <= '\U{20}' || c == '\U{85}' || c == '\U{A0}' || c == '\U{1680}'
    || '\U{2000}' <= c <= '\U{200A}' || c == '\U{2028}' || c == '\U{2029}' || c == '\U{202F}' || c == '\U{205F}'
    || c == '\U{3000}'
  }

  function TrimLeft(s: string): string {
    if s != "" && Space(s[0]) then TrimLeft(s[1..]) else s
  }

  function TrimRight(s: string): string {
    if s != "" && Space(s[|s| - 1]) then TrimRight(s[..|s| - 1]) else s
  }

  function Trim(s: string): string {
    TrimRight(TrimLeft(s))
  }

  function Lower(c: char): char {
    if 'A' <= c <= 'Z' then c + ('a' - 'A') else c
  }

  function Lowered(s: string): string {
    if s == "" then "" else [Lower(s[0])] + Lowered(s[1..])
  }
}
