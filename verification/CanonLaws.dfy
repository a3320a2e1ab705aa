/**
 What the canonical text promises: equal texts are equal documents, whichever program printed
 them, and the two programs print a document alike exactly when it is clean.
 */
module CanonLaws {
  import opened Prelude
  import opened Text
  import opened JsonText
  import opened Canon

  // ---------------------------------------------------------------- bodies

  predicate Bare(c: char) {
    c != '"' && c != '\\'
  }

  lemma {:induction false} EscapedAfter(p: string, rest: string)
    requires forall i :: 0 <= i < |p| ==> Bare(p[i])
    requires Escaped(rest)
    ensures Escaped(p + rest)
  {
    if p == "" {
      assert p + rest == rest;
    } else {
      EscapedAfter(p[1..], rest);
      assert (p + rest)[1..] == p[1..] + rest;
    }
  }

  /** One token: a bare character, or a backslash, its letter and bare characters. */
  predicate Unit(t: string) {
    if |t| == 1 then Bare(t[0])
    else |t| >= 2 && t[0] == '\\' && forall i :: 2 <= i < |t| ==> Bare(t[i])
  }

  lemma EscapedUnit(t: string, rest: string)
    requires Unit(t) && Escaped(rest)
    ensures Escaped(t + rest)
  {
    if |t| == 1 {
      EscapedAfter(t, rest);
    } else {
      EscapedAfter(t[2..], rest);
      assert (t + rest)[2..] == t[2..] + rest;
    }
  }

  lemma {:induction false} BodiesEscaped(s: string)
    ensures Escaped(PyBody(s)) && Escaped(GoJson(s))
  {
    if s != "" {
      BodiesEscaped(s[1..]);
      EscapedUnit(Token(s[0]), PyBody(s[1..]));
      EscapedUnit(GoToken(s[0]), GoJson(s[1..]));
    }
  }

  lemma {:induction false} PartlyEscaped(s: string, done: set<char>)
    ensures Escaped(Partly(s, done))
    decreases |s|
  {
    if s != "" {
      if LiteralIn(s, done).Some? {
        PartlyEscaped(s[6..], done);
        EscapedUnit("\\" + [LiteralIn(s, done).value], Partly(s[6..], done));
      } else {
        PartlyEscaped(s[1..], done);
        EscapedUnit(if s[0] in done && Html(s[0]) then [s[0]] else GoToken(s[0]), Partly(s[1..], done));
      }
    }
  }

  // ---------------------------------------------------------------- one reader for every printer

  /** The character a u-escape stands for; the printers use none above U+2029. */
  function CodePoint(text: string): char
    requires |text| >= 6
  {
    if text[2] == '2' then (if text[5] == '8' then LS else PS)
    else match (HexValue(text[4]), HexValue(text[5]))
      case (Some(hi), Some(lo)) => (hi * 16 + lo) as char
      case _ => text[1]
  }

  /** The value of the escape with this letter after the backslash. */
  function Short(c: char): char {
    if c == 'n' then '\n'
    else if c == 'r' then '\r'
    else if c == 't' then '\t'
    else if c == 'b' then 8 as char
    else if c == 'f' then 12 as char
    else c
  }

  /** Reads a body back; a backslash before an HTML character is what a damaged literal leaves. */
  function Read(text: string): string {
    if text == "" then ""
    else if text[0] != '\\' then [text[0]] + Read(text[1..])
    else if |text| < 2 then ""
    else if Html(text[1]) then HtmlEscape(text[1]) + Read(text[2..])
    else if text[1] != 'u' then [Short(text[1])] + Read(text[2..])
    else if |text| < 6 then ""
    else [CodePoint(text)] + Read(text[6..])
  }

  lemma ReadBare(c: char, rest: string)
    requires c != '\\'
    ensures Read([c] + rest) == [c] + Read(rest)
  {
    assert ([c] + rest)[1..] == rest;
  }

  lemma ReadShort(c: char, rest: string)
    requires c != 'u' && !Html(c)
    ensures Read(['\\', c] + rest) == [Short(c)] + Read(rest)
  {
    assert (['\\', c] + rest)[2..] == rest;
  }

  lemma ReadLong(t: string, rest: string)
    requires |t| == 6 && t[0] == '\\' && t[1] == 'u'
    ensures Read(t + rest) == [CodePoint(t)] + Read(rest)
  {
    assert (t + rest)[6..] == rest;
    assert forall i :: 0 <= i < 6 ==> (t + rest)[i] == t[i];
  }

  lemma ReadControl(c: char, rest: string)
    requires c < ' ' && |Token(c)| == 6
    ensures Read(Token(c) + rest) == [c] + Read(rest)
  {
    var t := Token(c);
    ReadLong(t, rest);
    assert HexValue(t[4]) == Some(c as nat / 16) && HexValue(t[5]) == Some(c as nat % 16);
  }

  lemma ReadToken(c: char, rest: string)
    ensures Read(Token(c) + rest) == [c] + Read(rest)
  {
    var t := Token(c);
    if |t| == 1 {
      ReadBare(c, rest);
    } else if |t| == 2 {
      ReadShort(t[1], rest);
    } else {
      ReadControl(c, rest);
    }
  }

  lemma ReadGoToken(c: char, rest: string)
    ensures Read(GoToken(c) + rest) == [c] + Read(rest)
  {
    if Html(c) {
      ReadLong(HtmlEscape(c), rest);
    } else if c == LS || c == PS {
      ReadLong(GoToken(c), rest);
    } else {
      ReadToken(c, rest);
    }
  }

  /** The reader undoes the observer's strings, and the daemon's keys. */
  lemma {:induction false} ReadPython(s: string)
    ensures Read(PyBody(s)) == s && Read(GoJson(s)) == s
  {
    if s != "" {
      ReadPython(s[1..]);
      ReadToken(s[0], PyBody(s[1..]));
      ReadGoToken(s[0], GoJson(s[1..]));
    }
  }

  lemma {:induction false} ReadPartly(s: string, done: set<char>)
    ensures Read(Partly(s, done)) == s
    decreases |s|
  {
    if s != "" {
      match LiteralIn(s, done)
      case Some(h) =>
        ReadPartly(s[6..], done);
        assert s == HtmlEscape(h) + s[6..];
      case None =>
        ReadPartly(s[1..], done);
        if s[0] in done && Html(s[0]) {
          ReadBare(s[0], Partly(s[1..], done));
        } else {
          ReadGoToken(s[0], Partly(s[1..], done));
        }
    }
  }

  lemma ReadGoValue(s: string)
    ensures Read(GoBody(s)) == s
  {
    GoBodyIs(s);
    ReadPartly(s, {'&', '<', '>'});
  }

  ghost predicate Faithful(st: Style) {
    forall s :: Read(st.value(s)) == s && Read(st.key(s)) == s
  }

  /** Both programs' texts end where they should and can be read back. */
  lemma BothPrinters()
    ensures Readable(PYTHON) && Readable(GO) && Faithful(PYTHON) && Faithful(GO)
  {
    forall s: string
      ensures Escaped(PyBody(s)) && Escaped(GoJson(s)) && Escaped(GoBody(s))
      ensures Read(PyBody(s)) == s && Read(GoJson(s)) == s && Read(GoBody(s)) == s
    {
      BodiesEscaped(s);
      GoBodyIs(s);
      PartlyEscaped(s, {'&', '<', '>'});
      ReadPython(s);
      ReadGoValue(s);
    }
  }

  // ---------------------------------------------------------------- texts and documents

  /** Printed alike: the same text, and from faithful printers the same value. */
  lemma {:induction false} AlikeFacts(p: Style, q: Style, v: Json, w: Json)
    requires Alike(p, q, v, w)
    ensures Print(p, v) == Print(q, w)
    ensures Faithful(p) && Faithful(q) ==> v == w
    decreases v, 1
  {
    match v
    case Str(s) =>
      assert Faithful(p) && Faithful(q) ==> Read(p.value(s)) == s && Read(q.value(w.s)) == w.s;
    case Arr(items) =>
      AlikeItemsFacts(p, q, items, w.items);
    case Obj(fields) =>
      AlikeFieldsFacts(p, q, fields, w.fields);
    case _ =>
  }

  lemma {:induction false} AlikeItemsFacts(p: Style, q: Style, a: seq<Json>, b: seq<Json>)
    requires AlikeItems(p, q, a, b)
    ensures PrintItems(p, a) == PrintItems(q, b)
    ensures Faithful(p) && Faithful(q) ==> a == b
    decreases a, 0
  {
    if a != [] {
      AlikeFacts(p, q, a[0], b[0]);
      AlikeItemsFacts(p, q, a[1..], b[1..]);
      assert a == [a[0]] + a[1..] && b == [b[0]] + b[1..];
    }
  }

  lemma {:induction false} AlikeFieldsFacts(p: Style, q: Style, a: seq<Field>, b: seq<Field>)
    requires AlikeFields(p, q, a, b)
    ensures PrintFields(p, a) == PrintFields(q, b)
    ensures Faithful(p) && Faithful(q) ==> a == b
    decreases a, 0
  {
    if a != [] {
      assert Faithful(p) && Faithful(q) ==> Read(p.key(a[0].key)) == a[0].key && Read(q.key(b[0].key)) == b[0].key;
      AlikeFacts(p, q, a[0].value, b[0].value);
      AlikeFieldsFacts(p, q, a[1..], b[1..]);
      assert a == [a[0]] + a[1..] && b == [b[0]] + b[1..];
    }
  }

  /** Two printers, same or different, write the same text exactly when they agree piece by piece. */
  lemma SameText(p: Style, q: Style, v: Json, w: Json)
    requires Readable(p) && Readable(q)
    ensures Print(p, v) == Print(q, w) <==> Alike(p, q, v, w)
  {
    if Print(p, v) == Print(q, w) {
      ValueEnds(p, q, v, w, "", "");
    } else if Alike(p, q, v, w) {
      AlikeFacts(p, q, v, w);
    }
  }

  /** No piece of text loses information: equal texts are the same normal form. */
  lemma SameTextSameForm(p: Style, q: Style, v: Json, w: Json)
    requires p == PYTHON || p == GO
    requires q == PYTHON || q == GO
    requires Print(p, v) == Print(q, w)
    ensures v == w
  {
    BothPrinters();
    SameText(p, q, v, w);
    AlikeFacts(p, q, v, w);
  }

  // ---------------------------------------------------------------- meaning

  /** A document as a value: dictionaries have no order, and signatures do not belong to it. */
  datatype Tree =
    | TNull
    | TBool(b: bool)
    | TNum(n: int)
    | TStr(s: string)
    | TArr(items: seq<Tree>)
    | TObj(fields: map<string, Tree>)

  function Meaning(v: Json): Tree {
    match v
    case Null => TNull
    case Bool(b) => TBool(b)
    case Num(n) => TNum(n)
    case Str(s) => TStr(s)
    case Arr(items) => TArr(Meanings(items))
    case Obj(fields) => TObj(Entries(fields))
  }

  function Meanings(items: seq<Json>): seq<Tree> {
    if items == [] then [] else [Meaning(items[0])] + Meanings(items[1..])
  }

  function Entries(fields: seq<Field>): map<string, Tree> {
    if fields == [] then map[]
    else
      var f := fields[|fields| - 1];
      var m := Entries(fields[..|fields| - 1]);
      if f.key == "sig" then m else m[f.key := Meaning(f.value)]
  }

  lemma EntriesSnoc(fields: seq<Field>, f: Field)
    ensures Entries(fields + [f]) ==
            if f.key == "sig" then Entries(fields) else Entries(fields)[f.key := Meaning(f.value)]
  {
    assert (fields + [f])[..|fields|] == fields;
  }

  lemma {:induction false} InsertMeans(sorted: seq<Field>, f: Field)
    requires f.key != "sig"
    ensures Entries(InsertField(sorted, f)) == Entries(sorted)[f.key := Meaning(f.value)]
  {
    if sorted == [] || !LexLt(f.key, sorted[|sorted| - 1].key) {
      EntriesSnoc(sorted, f);
    } else {
      var front, g := sorted[..|sorted| - 1], sorted[|sorted| - 1];
      LexTotal(f.key, f.key);
      InsertMeans(front, f);
      EntriesSnoc(InsertField(front, f), g);
    }
  }

  lemma {:induction false} SortMeans(fields: seq<Field>)
    requires NoSig(fields)
    ensures Entries(SortFields(fields)) == Entries(fields)
  {
    if fields != [] {
      SortMeans(fields[..|fields| - 1]);
      InsertMeans(SortFields(fields[..|fields| - 1]), fields[|fields| - 1]);
    }
  }

  ghost predicate NoSig(fields: seq<Field>) {
    forall i :: 0 <= i < |fields| ==> fields[i].key != "sig"
  }

  /** No signature left anywhere. */
  predicate Unsigned(v: Json) {
    match v
    case Arr(items) => UnsignedItems(items)
    case Obj(fields) => UnsignedFields(fields)
    case _ => true
  }

  predicate UnsignedItems(items: seq<Json>) {
    items == [] || (Unsigned(items[0]) && UnsignedItems(items[1..]))
  }

  predicate UnsignedFields(fields: seq<Field>) {
    fields == [] ||
    (UnsignedFields(fields[..|fields| - 1]) && fields[|fields| - 1].key != "sig"
     && Unsigned(fields[|fields| - 1].value))
  }

  function Keys(fields: seq<Field>): set<string> {
    if fields == [] then {} else Keys(fields[..|fields| - 1]) + {fields[|fields| - 1].key}
  }

  /** A dictionary holds every key once, at every depth. */
  predicate Proper(v: Json) {
    match v
    case Arr(items) => ProperItems(items)
    case Obj(fields) => ProperFields(fields)
    case _ => true
  }

  predicate ProperItems(items: seq<Json>) {
    items == [] || (Proper(items[0]) && ProperItems(items[1..]))
  }

  predicate ProperFields(fields: seq<Field>) {
    fields == [] ||
    var front, f := fields[..|fields| - 1], fields[|fields| - 1];
    ProperFields(front) && f.key !in Keys(front) && Proper(f.value)
  }

  /** Stripping keeps the meaning, leaves no signature and no key twice. */
  lemma {:induction false} StripFacts(v: Json)
    ensures Meaning(Strip(v)) == Meaning(v) && Unsigned(Strip(v))
    ensures Proper(v) ==> Proper(Strip(v))
    decreases v, 1
  {
    match v
    case Arr(items) => StripItemsFacts(items);
    case Obj(fields) => StripFieldsFacts(fields);
    case _ =>
  }

  lemma {:induction false} StripItemsFacts(items: seq<Json>)
    ensures Meanings(StripItems(items)) == Meanings(items) && UnsignedItems(StripItems(items))
    ensures ProperItems(items) ==> ProperItems(StripItems(items))
    decreases items, 0
  {
    if items != [] {
      StripFacts(items[0]);
      StripItemsFacts(items[1..]);
    }
  }

  lemma {:induction false} StripFieldsFacts(fields: seq<Field>)
    ensures Entries(StripFields(fields)) == Entries(fields) && UnsignedFields(StripFields(fields))
    ensures ProperFields(fields) ==> ProperFields(StripFields(fields))
    ensures Keys(StripFields(fields)) <= Keys(fields)
    decreases fields, 0
  {
    if fields != [] {
      var front, f := StripFields(fields[..|fields| - 1]), fields[|fields| - 1];
      StripFieldsFacts(fields[..|fields| - 1]);
      StripFacts(f.value);
      EntriesSnoc(front, Field(f.key, Strip(f.value)));
      assert (front + [Field(f.key, Strip(f.value))])[..|front|] == front;
    }
  }

  /** The normal form says what the document says. */
  lemma NormMeans(v: Json)
    ensures Meaning(Norm(v)) == Meaning(v)
  {
    StripFacts(v);
    OrderFacts(Strip(v));
  }

  // ---------------------------------------------------------------- normal forms are unique

  ghost predicate Below(fields: seq<Field>, k: string) {
    forall i :: 0 <= i < |fields| ==> LexLt(fields[i].key, k)
  }

  /** Keys strictly increasing and unsigned, at every depth. */
  ghost predicate Normal(v: Json) {
    match v
    case Arr(items) => NormalItems(items)
    case Obj(fields) => NormalFields(fields)
    case _ => true
  }

  ghost predicate NormalItems(items: seq<Json>) {
    items == [] || (Normal(items[0]) && NormalItems(items[1..]))
  }

  ghost predicate NormalFields(fields: seq<Field>) {
    fields == [] ||
    var front, f := fields[..|fields| - 1], fields[|fields| - 1];
    NormalFields(front) && Below(front, f.key) && f.key != "sig" && Normal(f.value)
  }

  lemma {:induction false} EntriesDomain(fields: seq<Field>)
    requires NormalFields(fields)
    ensures Entries(fields).Keys == Keys(fields)
  {
    if fields != [] {
      EntriesDomain(fields[..|fields| - 1]);
    }
  }

  lemma {:induction false} BelowKeys(fields: seq<Field>, k: string, x: string)
    requires Below(fields, k) && x in Keys(fields)
    ensures LexLt(x, k)
  {
    if x in Keys(fields[..|fields| - 1]) {
      BelowKeys(fields[..|fields| - 1], k, x);
    }
  }

  /** The last key is the greatest key of the dictionary. */
  lemma LastKey(fields: seq<Field>, x: string)
    requires NormalFields(fields) && x in Keys(fields)
    ensures var k := fields[|fields| - 1].key; x == k || LexLt(x, k)
  {
    var k := fields[|fields| - 1].key;
    if x != k {
      BelowKeys(fields[..|fields| - 1], k, x);
    }
  }

  lemma SameLastKey(a: seq<Field>, b: seq<Field>)
    requires NormalFields(a) && NormalFields(b) && Entries(a) == Entries(b)
    ensures a == [] <==> b == []
    ensures a != [] ==> a[|a| - 1].key == b[|b| - 1].key
  {
    EntriesDomain(a);
    EntriesDomain(b);
    if a != [] {
      var k := a[|a| - 1].key;
      assert k in Keys(a);
      LastKey(b, k);
      LastKey(a, b[|b| - 1].key);
      LexTotal(k, b[|b| - 1].key);
    }
  }

  /** Without its last field, a normal dictionary has lost exactly that key. */
  lemma FrontEntries(a: seq<Field>)
    requires NormalFields(a) && a != []
    ensures Entries(a[..|a| - 1]) == Entries(a) - {a[|a| - 1].key}
    ensures a[|a| - 1].key in Entries(a) && Entries(a)[a[|a| - 1].key] == Meaning(a[|a| - 1].value)
  {
    var front, k := a[..|a| - 1], a[|a| - 1].key;
    EntriesDomain(front);
    if k in Keys(front) {
      BelowKeys(front, k, k);
      LexTotal(k, k);
    }
  }

  lemma {:induction false} NormalUnique(v: Json, w: Json)
    requires Normal(v) && Normal(w) && Meaning(v) == Meaning(w)
    ensures v == w
    decreases v, 1
  {
    match v
    case Arr(items) => NormalItemsUnique(items, w.items);
    case Obj(fields) => NormalFieldsUnique(fields, w.fields);
    case _ =>
  }

  lemma {:induction false} NormalItemsUnique(a: seq<Json>, b: seq<Json>)
    requires NormalItems(a) && NormalItems(b) && Meanings(a) == Meanings(b)
    ensures a == b
    decreases a, 0
  {
    if a != [] {
      assert Meanings(a)[0] == Meanings(b)[0] && Meanings(a)[1..] == Meanings(b)[1..];
      NormalUnique(a[0], b[0]);
      NormalItemsUnique(a[1..], b[1..]);
      assert a == [a[0]] + a[1..] && b == [b[0]] + b[1..];
    }
  }

  lemma {:induction false} NormalFieldsUnique(a: seq<Field>, b: seq<Field>)
    requires NormalFields(a) && NormalFields(b) && Entries(a) == Entries(b)
    ensures a == b
    decreases a, 0
  {
    SameLastKey(a, b);
    if a != [] {
      FrontEntries(a);
      FrontEntries(b);
      NormalUnique(a[|a| - 1].value, b[|b| - 1].value);
      NormalFieldsUnique(a[..|a| - 1], b[..|b| - 1]);
      assert a == a[..|a| - 1] + [a[|a| - 1]] && b == b[..|b| - 1] + [b[|b| - 1]];
    }
  }

  // ---------------------------------------------------------------- normalising gives a normal form

  lemma {:induction false} InsertBelow(sorted: seq<Field>, f: Field, k: string)
    requires Below(sorted, k) && LexLt(f.key, k)
    ensures Below(InsertField(sorted, f), k)
  {
    if sorted != [] && LexLt(f.key, sorted[|sorted| - 1].key) {
      InsertBelow(sorted[..|sorted| - 1], f, k);
    }
  }

  lemma BelowMore(sorted: seq<Field>, j: string, k: string)
    requires Below(sorted, j) && LexLt(j, k)
    ensures Below(sorted, k)
  {
    forall i | 0 <= i < |sorted|
      ensures LexLt(sorted[i].key, k)
    {
      LexTransitive(sorted[i].key, j, k);
    }
  }

  lemma {:induction false} InsertNormal(sorted: seq<Field>, f: Field)
    requires NormalFields(sorted) && f.key !in Keys(sorted) && f.key != "sig" && Normal(f.value)
    ensures NormalFields(InsertField(sorted, f))
    ensures Keys(InsertField(sorted, f)) == Keys(sorted) + {f.key}
  {
    if sorted == [] {
      assert ([] + [f])[..0] == [];
    } else {
      var front, g := sorted[..|sorted| - 1], sorted[|sorted| - 1];
      if LexLt(f.key, g.key) {
        InsertNormal(front, f);
        InsertBelow(front, f, g.key);
        assert (InsertField(front, f) + [g])[..|InsertField(front, f)|] == InsertField(front, f);
      } else {
        LexTotal(f.key, g.key);
        BelowMore(front, g.key, f.key);
        assert Below(sorted, f.key);
        assert (sorted + [f])[..|sorted|] == sorted;
      }
    }
  }

  /** Sorting keeps the meaning, and makes distinct keys strictly increase. */
  lemma {:induction false} OrderFacts(v: Json)
    requires Unsigned(v)
    ensures Meaning(Order(v)) == Meaning(v)
    ensures Proper(v) ==> Normal(Order(v))
    decreases v, 1
  {
    match v
    case Arr(items) => OrderItemsFacts(items);
    case Obj(fields) =>
      OrderFieldsFacts(fields);
      SortMeans(OrderFields(fields));
    case _ =>
  }

  lemma {:induction false} OrderItemsFacts(items: seq<Json>)
    requires UnsignedItems(items)
    ensures Meanings(OrderItems(items)) == Meanings(items)
    ensures ProperItems(items) ==> NormalItems(OrderItems(items))
    decreases items, 0
  {
    if items != [] {
      OrderFacts(items[0]);
      OrderItemsFacts(items[1..]);
    }
  }

  lemma {:induction false} OrderFieldsFacts(fields: seq<Field>)
    requires UnsignedFields(fields)
    ensures Entries(OrderFields(fields)) == Entries(fields) && NoSig(OrderFields(fields))
    ensures ProperFields(fields) ==>
              NormalFields(SortFields(OrderFields(fields))) && Keys(SortFields(OrderFields(fields))) == Keys(fields)
    decreases fields, 0
  {
    if fields != [] {
      var front, f := fields[..|fields| - 1], fields[|fields| - 1];
      var g := Field(f.key, Order(f.value));
      OrderFieldsFacts(front);
      OrderFacts(f.value);
      EntriesSnoc(OrderFields(front), g);
      assert OrderFields(fields)[..|front|] == OrderFields(front);
      if ProperFields(fields) {
        InsertNormal(SortFields(OrderFields(front)), g);
      }
    }
  }

  lemma NormIsNormal(v: Json)
    requires Proper(v)
    ensures Normal(Norm(v))
  {
    StripFacts(v);
    OrderFacts(Strip(v));
  }

  /** Normal forms and meanings are the same thing. */
  lemma SameFormSameMeaning(v: Json, w: Json)
    requires Proper(v) && Proper(w)
    ensures Norm(v) == Norm(w) <==> Meaning(v) == Meaning(w)
  {
    NormMeans(v);
    NormMeans(w);
    NormIsNormal(v);
    NormIsNormal(w);
    if Meaning(v) == Meaning(w) {
      NormalUnique(Norm(v), Norm(w));
    }
  }

  /** Each program's canonical text identifies the document: no order, no signature, nothing else lost. */
  lemma TextIsMeaning(v: Json, w: Json)
    requires Proper(v) && Proper(w)
    ensures PyText(v) == PyText(w) <==> Meaning(v) == Meaning(w)
    ensures GoText(v) == GoText(w) <==> Meaning(v) == Meaning(w)
  {
    SameFormSameMeaning(v, w);
    if PyText(v) == PyText(w) {
      SameTextSameForm(PYTHON, PYTHON, Norm(v), Norm(w));
    }
    if GoText(v) == GoText(w) {
      SameTextSameForm(GO, GO, Norm(v), Norm(w));
    }
  }

  // ---------------------------------------------------------------- when the programs agree

  /** Every value is clean and every key is clean. */
  predicate CleanDoc(v: Json) {
    match v
    case Str(s) => Clean(s)
    case Arr(items) => CleanItems(items)
    case Obj(fields) => CleanFields(fields)
    case _ => true
  }

  predicate CleanItems(items: seq<Json>) {
    items == [] || (CleanDoc(items[0]) && CleanItems(items[1..]))
  }

  predicate CleanField(f: Field) {
    CleanKey(f.key) && CleanDoc(f.value)
  }

  predicate CleanFields(fields: seq<Field>) {
    fields == [] || (CleanFields(fields[..|fields| - 1]) && CleanField(fields[|fields| - 1]))
  }

  lemma CleanSnoc(fields: seq<Field>, f: Field)
    ensures CleanFields(fields + [f]) <==> CleanFields(fields) && CleanField(f)
  {
    assert (fields + [f])[..|fields|] == fields;
  }

  lemma {:induction false} InsertClean(sorted: seq<Field>, f: Field)
    ensures CleanFields(InsertField(sorted, f)) <==> CleanFields(sorted) && CleanField(f)
  {
    if sorted == [] || !LexLt(f.key, sorted[|sorted| - 1].key) {
      CleanSnoc(sorted, f);
    } else {
      InsertClean(sorted[..|sorted| - 1], f);
      CleanSnoc(InsertField(sorted[..|sorted| - 1], f), sorted[|sorted| - 1]);
    }
  }

  lemma {:induction false} OrderClean(v: Json)
    ensures CleanDoc(Order(v)) <==> CleanDoc(v)
    decreases v, 1
  {
    match v
    case Arr(items) => OrderCleanItems(items);
    case Obj(fields) => OrderCleanFields(fields);
    case _ =>
  }

  lemma {:induction false} OrderCleanItems(items: seq<Json>)
    ensures CleanItems(OrderItems(items)) <==> CleanItems(items)
    decreases items, 0
  {
    if items != [] {
      OrderClean(items[0]);
      OrderCleanItems(items[1..]);
    }
  }

  lemma {:induction false} OrderCleanFields(fields: seq<Field>)
    ensures CleanFields(SortFields(OrderFields(fields))) <==> CleanFields(fields)
    decreases fields, 0
  {
    if fields != [] {
      var front, f := fields[..|fields| - 1], fields[|fields| - 1];
      OrderCleanFields(front);
      OrderClean(f.value);
      assert OrderFields(fields)[..|front|] == OrderFields(front);
      InsertClean(SortFields(OrderFields(front)), Field(f.key, Order(f.value)));
    }
  }

  /** What the daemon's strings and the observer's strings have in common. */
  ghost predicate AgreeOnClean(p: Style, q: Style) {
    forall s :: (p.value(s) == q.value(s) <==> Clean(s)) && (p.key(s) == q.key(s) <==> CleanKey(s))
  }

  lemma GoAndPythonAgreeOnClean()
    ensures AgreeOnClean(GO, PYTHON)
  {
    forall s: string
      ensures GoBody(s) == PyBody(s) <==> Clean(s)
      ensures GoJson(s) == PyBody(s) <==> CleanKey(s)
    {
      ValuesAgree(s);
      KeysAgree(s);
    }
  }

  lemma {:induction false} AlikeIffClean(p: Style, q: Style, v: Json)
    requires AgreeOnClean(p, q)
    ensures Alike(p, q, v, v) <==> CleanDoc(v)
    decreases v, 1
  {
    match v
    case Arr(items) => ItemsAlikeIffClean(p, q, items);
    case Obj(fields) => FieldsAlikeIffClean(p, q, fields);
    case _ =>
  }

  lemma {:induction false} ItemsAlikeIffClean(p: Style, q: Style, items: seq<Json>)
    requires AgreeOnClean(p, q)
    ensures AlikeItems(p, q, items, items) <==> CleanItems(items)
    decreases items, 0
  {
    if items != [] {
      AlikeIffClean(p, q, items[0]);
      ItemsAlikeIffClean(p, q, items[1..]);
    }
  }

  lemma {:induction false} AlikeSnoc(p: Style, q: Style, fields: seq<Field>, f: Field)
    ensures AlikeFields(p, q, fields + [f], fields + [f]) <==>
            AlikeFields(p, q, fields, fields) && p.key(f.key) == q.key(f.key) && Alike(p, q, f.value, f.value)
  {
    var all := fields + [f];
    if fields != [] {
      AlikeSnoc(p, q, fields[1..], f);
      assert all[1..] == fields[1..] + [f];
    } else {
      assert all[1..] == [];
    }
  }

  lemma {:induction false} FieldsAlikeIffClean(p: Style, q: Style, fields: seq<Field>)
    requires AgreeOnClean(p, q)
    ensures AlikeFields(p, q, fields, fields) <==> CleanFields(fields)
    decreases fields, 0
  {
    if fields != [] {
      var front, f := fields[..|fields| - 1], fields[|fields| - 1];
      FieldsAlikeIffClean(p, q, front);
      AlikeIffClean(p, q, f.value);
      AlikeSnoc(p, q, front, f);
      assert front + [f] == fields;
    }
  }

  /** The daemon signs the bytes the observer hashes exactly when the unsigned document is clean. */
  lemma ProgramsAgree(v: Json)
    ensures GoText(v) == PyText(v) <==> CleanDoc(Strip(v))
  {
    OrderClean(Strip(v));
    GoAndPythonAgreeOnClean();
    AlikeIffClean(GO, PYTHON, Norm(v));
    BothPrinters();
    SameText(GO, PYTHON, Norm(v), Norm(v));
  }

  /** Even where they differ they never confuse: a text both can write is one clean document. */
  lemma AcrossPrograms(v: Json, w: Json)
    requires Proper(v) && Proper(w)
    ensures GoText(v) == PyText(w) <==> Meaning(v) == Meaning(w) && CleanDoc(Strip(v))
  {
    SameFormSameMeaning(v, w);
    ProgramsAgree(v);
    if GoText(v) == PyText(w) {
      SameTextSameForm(GO, PYTHON, Norm(v), Norm(w));
    }
  }
}
