/**
 Canonical JSON: `canonical_dumps` of observer/protocol.py and `Marshal` of
 clubd/internal/canon/canon.go.  The text determines the value up to key order and
 signatures, and the two printers agree exactly on clean values.
 */
module Canon {
  import opened Prelude
  import opened Text
  import opened JsonText

  datatype Json =
    | Null
    | Bool(b: bool)
    | Num(n: int)
    | Str(s: string)
    | Arr(items: seq<Json>)
    | Obj(fields: seq<Field>)

  datatype Field = Field(key: string, value: Json)

  // ---------------------------------------------------------------- normal form

  function InsertField(sorted: seq<Field>, f: Field): seq<Field> {
    if sorted == [] || !LexLt(f.key, sorted[|sorted| - 1].key) then sorted + [f]
    else InsertField(sorted[..|sorted| - 1], f) + [sorted[|sorted| - 1]]
  }

  function SortFields(fs: seq<Field>): seq<Field> {
    if fs == [] then [] else InsertField(SortFields(fs[..|fs| - 1]), fs[|fs| - 1])
  }

  /** `_strip_sig` and `stripSig`: every field named sig is dropped, at every depth. */
  function Strip(v: Json): Json {
    match v
    case Arr(items) => Arr(StripItems(items))
    case Obj(fields) => Obj(StripFields(fields))
    case _ => v
  }

  function StripItems(items: seq<Json>): seq<Json> {
    if items == [] then [] else [Strip(items[0])] + StripItems(items[1..])
  }

  function StripFields(fields: seq<Field>): seq<Field> {
    if fields == [] then []
    else
      var f := fields[|fields| - 1];
      var front := StripFields(fields[..|fields| - 1]);
      if f.key == "sig" then front else front + [Field(f.key, Strip(f.value))]
  }

  /** The key order of both printers, at every depth. */
  function Order(v: Json): Json {
    match v
    case Arr(items) => Arr(OrderItems(items))
    case Obj(fields) => Obj(SortFields(OrderFields(fields)))
    case _ => v
  }

  function OrderItems(items: seq<Json>): (r: seq<Json>)
    ensures |r| == |items|
  {
    if items == [] then [] else [Order(items[0])] + OrderItems(items[1..])
  }

  function OrderFields(fields: seq<Field>): (r: seq<Field>)
    ensures |r| == |fields|
  {
    if fields == [] then []
    else
      var f := fields[|fields| - 1];
      OrderFields(fields[..|fields| - 1]) + [Field(f.key, Order(f.value))]
  }

  function Norm(v: Json): Json {
    Order(Strip(v))
  }

  // ---------------------------------------------------------------- printing

  /** How a printer writes the bodies of values and of keys. */
  datatype Style = Style(value: string -> string, key: string -> string)

  const PYTHON := Style(PyBody, PyBody)
  const GO := Style(GoBody, GoJson)

  function Dec(n: nat): (r: string)
    ensures r != ""
  {
    if n < 10 then ['0' + n as char] else Dec(n / 10) + ['0' + (n % 10) as char]
  }

  function Number(n: int): string {
    if n < 0 then "-" + Dec(-n) else Dec(n)
  }

  function Quote(body: string): string {
    "\"" + (body + "\"")
  }

  function Print(st: Style, v: Json): string {
    match v
    case Null => "null"
    case Bool(b) => if b then "true" else "false"
    case Num(n) => Number(n)
    case Str(s) => Quote(st.value(s))
    case Arr(items) => "[" + PrintItems(st, items)
    case Obj(fields) => "{" + PrintFields(st, fields)
  }

  /** The items and the closing bracket. */
  function PrintItems(st: Style, items: seq<Json>): string {
    if items == [] then "]"
    else Print(st, items[0]) + (if |items| == 1 then "]" else "," + PrintItems(st, items[1..]))
  }

  function PrintFields(st: Style, fields: seq<Field>): string {
    if fields == [] then "}"
    else PrintField(st, fields[0]) + (if |fields| == 1 then "}" else "," + PrintFields(st, fields[1..]))
  }

  function PrintField(st: Style, f: Field): string {
    Quote(st.key(f.key)) + (":" + Print(st, f.value))
  }

  function PyText(v: Json): string {
    Print(PYTHON, Norm(v))
  }

  function GoText(v: Json): string {
    Print(GO, Norm(v))
  }

  // ---------------------------------------------------------------- reading back

  /** A body whose quotes are all escaped and whose escapes are complete. */
  predicate Escaped(body: string) {
    body == "" ||
    (body[0] != '"' && body[0] != '\\' && Escaped(body[1..])) ||
    (body[0] == '\\' && |body| >= 2 && Escaped(body[2..]))
  }

  lemma CutFront(p: string, u: string, q: string, v: string)
    requires |p| == |q| && p + u == q + v
    ensures p == q && u == v
  {
    assert (p + u)[..|p|] == p && (q + v)[..|q|] == q;
    assert (p + u)[|p|..] == u && (q + v)[|q|..] == v;
  }

  /** Such a body ends at the first bare quote, so what follows it is determined. */
  lemma {:induction false} BodyEnds(a: string, b: string, x: string, y: string)
    requires Escaped(a) && Escaped(b) && a + ("\"" + x) == b + ("\"" + y)
    ensures a == b && x == y
    decreases |a|
  {
    var s, t := a + ("\"" + x), b + ("\"" + y);
    assert s[0] == t[0];
    assert a == "" <==> b == "";
    if a == "" {
      assert s == "\"" + x && t == "\"" + y;
      CutFront("\"", x, "\"", y);
    } else {
      assert s[0] == a[0] && t[0] == b[0];
      var k := if a[0] == '\\' then 2 else 1;
      assert a == a[..k] + a[k..] && b == b[..k] + b[k..];
      Assoc(a[..k], a[k..], "\"" + x);
      Assoc(b[..k], b[k..], "\"" + y);
      CutFront(a[..k], a[k..] + ("\"" + x), b[..k], b[k..] + ("\"" + y));
      BodyEnds(a[k..], b[k..], x, y);
    }
  }

  ghost predicate Readable(st: Style) {
    forall s :: Escaped(st.value(s)) && Escaped(st.key(s))
  }

  predicate IsDigit(c: char) {
    '0' <= c <= '9'
  }

  /** What may follow a value: nothing, or a separator. */
  predicate Stops(x: string) {
    x == "" || x[0] == ',' || x[0] == ']' || x[0] == '}'
  }

  ghost predicate AllDigits(s: string) {
    forall i :: 0 <= i < |s| ==> IsDigit(s[i])
  }

  lemma {:induction false} DecDigits(n: nat)
    ensures AllDigits(Dec(n))
  {
    if n >= 10 {
      DecDigits(n / 10);
    }
  }

  function DecValue(s: string): int {
    if s == "" then 0 else DecValue(s[..|s| - 1]) * 10 + (s[|s| - 1] as int - '0' as int)
  }

  lemma {:induction false} DecReadsBack(n: nat)
    ensures DecValue(Dec(n)) == n
  {
    if n >= 10 {
      DecReadsBack(n / 10);
      assert Dec(n)[..|Dec(n)| - 1] == Dec(n / 10);
    } else {
      assert Dec(n)[..0] == "";
    }
  }

  /** A run of digits ends where the digits end. */
  lemma {:induction false} DigitsEnd(a: string, b: string, x: string, y: string)
    requires AllDigits(a) && AllDigits(b) && Stops(x) && Stops(y) && a + x == b + y
    ensures a == b && x == y
  {
    if a == "" || b == "" {
      assert "" + x == x && "" + y == y;
    } else {
      assert (a + x)[0] == a[0] && (b + y)[0] == b[0];
      assert (a + x)[1..] == a[1..] + x && (b + y)[1..] == b[1..] + y;
      DigitsEnd(a[1..], b[1..], x, y);
      assert a == [a[0]] + a[1..] && b == [b[0]] + b[1..];
    }
  }

  lemma NumberStarts(n: int)
    ensures Number(n) != ""
    ensures if n < 0 then Number(n)[0] == '-' else IsDigit(Number(n)[0])
  {
    if n >= 0 {
      DecDigits(n);
    }
  }

  lemma SameSign(n: int, m: int, x: string, y: string)
    requires Number(n) + x == Number(m) + y
    ensures n < 0 <==> m < 0
  {
    NumberStarts(n);
    NumberStarts(m);
    assert (Number(n) + x)[0] == Number(n)[0] && (Number(m) + y)[0] == Number(m)[0];
  }

  lemma DropFirst(c: char, a: string, b: string, x: string, y: string)
    requires [c] + a + x == [c] + b + y
    ensures a + x == b + y
  {
    assert ([c] + a + x)[1..] == a + x && ([c] + b + y)[1..] == b + y;
  }

  lemma NumberEnds(n: int, m: int, x: string, y: string)
    requires Stops(x) && Stops(y) && Number(n) + x == Number(m) + y
    ensures n == m && x == y
  {
    SameSign(n, m, x, y);
    if n < 0 {
      DropFirst('-', Dec(-n), Dec(-m), x, y);
      NatEnds(-n, -m, x, y);
    } else {
      NatEnds(n, m, x, y);
    }
  }

  lemma NatEnds(n: nat, m: nat, x: string, y: string)
    requires Stops(x) && Stops(y) && Dec(n) + x == Dec(m) + y
    ensures n == m && x == y
  {
    DecDigits(n);
    DecDigits(m);
    DigitsEnd(Dec(n), Dec(m), x, y);
    DecReadsBack(n);
    DecReadsBack(m);
  }

  lemma QuoteEnds(a: string, b: string, x: string, y: string)
    requires Escaped(a) && Escaped(b) && Quote(a) + x == Quote(b) + y
    ensures a == b && x == y
  {
    assert (Quote(a) + x)[1..] == a + ("\"" + x);
    assert (Quote(b) + y)[1..] == b + ("\"" + y);
    BodyEnds(a, b, x, y);
  }

  /** Two values printed alike piece by piece, possibly by different printers. */
  predicate Alike(p: Style, q: Style, v: Json, w: Json) {
    match (v, w)
    case (Null, Null) => true
    case (Bool(a), Bool(b)) => a == b
    case (Num(n), Num(m)) => n == m
    case (Str(s), Str(t)) => p.value(s) == q.value(t)
    case (Arr(a), Arr(b)) => AlikeItems(p, q, a, b)
    case (Obj(a), Obj(b)) => AlikeFields(p, q, a, b)
    case _ => false
  }

  predicate AlikeItems(p: Style, q: Style, a: seq<Json>, b: seq<Json>) {
    if a == [] || b == [] then a == b == []
    else Alike(p, q, a[0], b[0]) && AlikeItems(p, q, a[1..], b[1..])
  }

  predicate AlikeFields(p: Style, q: Style, a: seq<Field>, b: seq<Field>) {
    if a == [] || b == [] then a == b == []
    else p.key(a[0].key) == q.key(b[0].key) && Alike(p, q, a[0].value, b[0].value)
         && AlikeFields(p, q, a[1..], b[1..])
  }

  /** Kinds are told apart by the first character. */
  function KindChar(c: char): nat {
    if c == 'n' then 0 else if c == 't' || c == 'f' then 1 else if c == '-' || IsDigit(c) then 2
    else if c == '"' then 3 else if c == '[' then 4 else if c == '{' then 5 else 6
  }

  function KindOf(v: Json): nat {
    match v
    case Null => 0
    case Bool(_) => 1
    case Num(_) => 2
    case Str(_) => 3
    case Arr(_) => 4
    case Obj(_) => 5
  }

  lemma FirstChar(st: Style, v: Json)
    ensures Print(st, v) != "" && KindChar(Print(st, v)[0]) == KindOf(v)
  {
    if v.Num? {
      NumberStarts(v.n);
    }
  }

  lemma SameKind(p: Style, q: Style, v: Json, w: Json, x: string, y: string)
    requires Print(p, v) + x == Print(q, w) + y
    ensures KindOf(v) == KindOf(w)
  {
    FirstChar(p, v);
    FirstChar(q, w);
    assert (Print(p, v) + x)[0] == Print(p, v)[0] && (Print(q, w) + y)[0] == Print(q, w)[0];
  }

  /** A printed value followed by a separator splits in only one way, whichever printers wrote it. */
  lemma {:induction false} ValueEnds(p: Style, q: Style, v: Json, w: Json, x: string, y: string)
    requires Readable(p) && Readable(q) && Stops(x) && Stops(y)
    requires Print(p, v) + x == Print(q, w) + y
    ensures Alike(p, q, v, w) && x == y
    decreases v, 1
  {
    SameKind(p, q, v, w, x, y);
    match v
    case Null =>
      assert ("null" + x)[4..] == x && ("null" + y)[4..] == y;
    case Bool(b) =>
      BoolEnds(b, w.b, x, y);
    case Num(n) =>
      NumberEnds(n, w.n, x, y);
    case Str(s) =>
      QuoteEnds(p.value(s), q.value(w.s), x, y);
    case Arr(items) =>
      DropFirst('[', PrintItems(p, items), PrintItems(q, w.items), x, y);
      ItemsEnd(p, q, items, w.items, x, y);
    case Obj(fields) =>
      DropFirst('{', PrintFields(p, fields), PrintFields(q, w.fields), x, y);
      FieldsEnd(p, q, fields, w.fields, x, y);
  }

  lemma BoolEnds(b: bool, c: bool, x: string, y: string)
    requires (if b then "true" else "false") + x == (if c then "true" else "false") + y
    ensures b == c && x == y
  {
    var s, t := (if b then "true" else "false") + x, (if c then "true" else "false") + y;
    assert s[0] == (if b then 't' else 'f') && t[0] == (if c then 't' else 'f');
    var k := if b then 4 else 5;
    assert s[k..] == x && t[k..] == y;
  }

  /** The tail after the first item: the bracket, or a comma and more. */
  function AfterItem(st: Style, items: seq<Json>): string
    requires items != []
  {
    if |items| == 1 then "]" else "," + PrintItems(st, items[1..])
  }

  lemma OpenClose(p: Style, items: seq<Json>, x: string)
    ensures var s := PrintItems(p, items) + x;
            s != "" && (s[0] == ']' <==> items == [])
  {
    if items != [] {
      FirstChar(p, items[0]);
    }
  }

  lemma {:induction false} ItemsEnd(p: Style, q: Style, a: seq<Json>, b: seq<Json>, x: string, y: string)
    requires Readable(p) && Readable(q)
    requires PrintItems(p, a) + x == PrintItems(q, b) + y
    ensures AlikeItems(p, q, a, b) && x == y
    decreases a, 0
  {
    OpenClose(p, a, x);
    OpenClose(q, b, y);
    if a == [] {
      assert ("]" + x)[1..] == x && ("]" + y)[1..] == y;
    } else {
      Assoc(Print(p, a[0]), AfterItem(p, a), x);
      Assoc(Print(q, b[0]), AfterItem(q, b), y);
      ValueEnds(p, q, a[0], b[0], AfterItem(p, a) + x, AfterItem(q, b) + y);
      TailSplits(AfterItem(p, a), AfterItem(q, b), x, y);
      if |a| > 1 {
        DropFirst(',', PrintItems(p, a[1..]), PrintItems(q, b[1..]), x, y);
        ItemsEnd(p, q, a[1..], b[1..], x, y);
      } else {
        assert ("]" + x)[1..] == x && ("]" + y)[1..] == y;
      }
    }
  }

  lemma TailSplits(a: string, b: string, x: string, y: string)
    requires a != "" && b != "" && a + x == b + y
    ensures a[0] == b[0]
  {
    assert (a + x)[0] == a[0] && (b + y)[0] == b[0];
  }

  function AfterField(st: Style, fields: seq<Field>): string
    requires fields != []
  {
    if |fields| == 1 then "}" else "," + PrintFields(st, fields[1..])
  }

  lemma OpenCloseObj(p: Style, fields: seq<Field>, x: string)
    ensures var s := PrintFields(p, fields) + x;
            s != "" && (s[0] == '}' <==> fields == [])
  {
    if fields != [] {
      assert PrintField(p, fields[0])[0] == '"';
    }
  }

  lemma FieldEnds(p: Style, q: Style, f: Field, g: Field, x: string, y: string)
    requires Readable(p) && Readable(q)
    requires PrintField(p, f) + x == PrintField(q, g) + y
    ensures p.key(f.key) == q.key(g.key)
    ensures Print(p, f.value) + x == Print(q, g.value) + y
  {
    var a, b := ":" + Print(p, f.value), ":" + Print(q, g.value);
    Assoc(Quote(p.key(f.key)), a, x);
    Assoc(Quote(q.key(g.key)), b, y);
    QuoteEnds(p.key(f.key), q.key(g.key), a + x, b + y);
    DropFirst(':', Print(p, f.value), Print(q, g.value), x, y);
  }

  lemma {:induction false} FieldsEnd(p: Style, q: Style, a: seq<Field>, b: seq<Field>, x: string, y: string)
    requires Readable(p) && Readable(q)
    requires PrintFields(p, a) + x == PrintFields(q, b) + y
    ensures AlikeFields(p, q, a, b) && x == y
    decreases a, 0
  {
    OpenCloseObj(p, a, x);
    OpenCloseObj(q, b, y);
    if a == [] {
      assert ("}" + x)[1..] == x && ("}" + y)[1..] == y;
    } else {
      Assoc(PrintField(p, a[0]), AfterField(p, a), x);
      Assoc(PrintField(q, b[0]), AfterField(q, b), y);
      FieldEnds(p, q, a[0], b[0], AfterField(p, a) + x, AfterField(q, b) + y);
      ValueEnds(p, q, a[0].value, b[0].value, AfterField(p, a) + x, AfterField(q, b) + y);
      TailSplits(AfterField(p, a), AfterField(q, b), x, y);
      if |a| > 1 {
        DropFirst(',', PrintFields(p, a[1..]), PrintFields(q, b[1..]), x, y);
        FieldsEnd(p, q, a[1..], b[1..], x, y);
      } else {
        assert ("}" + x)[1..] == x && ("}" + y)[1..] == y;
      }
    }
  }
}
