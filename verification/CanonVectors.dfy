/**
 Canonical text in terms of characters: the keys of every printed object ascend, and one
 document, one string and one number as both programs print them.
 */
module CanonVectors {
  import opened Prelude
  import opened Text
  import opened JsonText
  import opened Canon
  import opened CanonLaws
  import opened CanonWriter

  // ---------------------------------------------------------------- the order of the keys

  /** Each key precedes all that follow it, in every object of the document. */
  ghost predicate Ascends(v: Json) {
    match v
    case Arr(items) => forall i :: 0 <= i < |items| ==> Ascends(items[i])
    case Obj(fields) =>
      && (forall i, j :: 0 <= i < j < |fields| ==> Precedes(fields[i].key, fields[j].key))
      && forall i :: 0 <= i < |fields| ==> Ascends(fields[i].value)
    case _ => true
  }

  lemma {:induction false} NormalAscends(v: Json)
    requires Normal(v)
    ensures Ascends(v)
    decreases v, 1
  {
    match v
    case Arr(items) => NormalItemsAscend(items);
    case Obj(fields) => NormalFieldsAscend(fields);
    case _ =>
  }

  lemma {:induction false} NormalItemsAscend(items: seq<Json>)
    requires NormalItems(items)
    ensures forall i :: 0 <= i < |items| ==> Ascends(items[i])
    decreases items, 0
  {
    if items != [] {
      NormalAscends(items[0]);
      NormalItemsAscend(items[1..]);
      assert forall i :: 1 <= i < |items| ==> items[i] == items[1..][i - 1];
    }
  }

  lemma {:induction false} NormalFieldsAscend(fields: seq<Field>)
    requires NormalFields(fields)
    ensures forall i, j :: 0 <= i < j < |fields| ==> Precedes(fields[i].key, fields[j].key)
    ensures forall i :: 0 <= i < |fields| ==> Ascends(fields[i].value)
    decreases fields, 0
  {
    if fields != [] {
      var front, f := fields[..|fields| - 1], fields[|fields| - 1];
      NormalAscends(f.value);
      NormalFieldsAscend(front);
      forall i | 0 <= i < |front|
        ensures Precedes(front[i].key, f.key)
      {
        LexLtIsPrecedes(front[i].key, f.key);
      }
    }
  }

  /** What both programs print has its keys in ascending order, at every depth. */
  lemma KeysAscend(v: Json)
    requires Proper(v)
    ensures exists w :: Ascends(w) && Meaning(w) == Meaning(v)
                        && PyText(v) == Print(PYTHON, w) && GoText(v) == Print(GO, w)
  {
    NormIsNormal(v);
    NormMeans(v);
    NormalAscends(Norm(v));
  }

  // ---------------------------------------------------------------- strings

  /** Each character as the observer writes it, in values and keys alike. */
  lemma PythonCharacter(c: char)
    ensures PyBody([c]) ==
            match c
            case '"' => "\\\""
            case '\\' => "\\\\"
            case '\n' => "\\n"
            case '\r' => "\\r"
            case '\t' => "\\t"
            case '\U{8}' => "\\b"
            case '\U{C}' => "\\f"
            case _ =>
              if c < ' ' then "\\u00" + [if c < '\U{10}' then '0' else '1', "0123456789abcdef"[c as nat % 16]] else [c]
  {
    assert PyBody([c][1..]) == "";
  }

  /** The daemon's keys: like the observer's, but for five characters. */
  lemma GoKeyCharacter(c: char)
    ensures GoJson([c]) ==
            match c
            case '&' => "\\u0026"
            case '<' => "\\u003c"
            case '>' => "\\u003e"
            case '\U{2028}' => "\\u2028"
            case '\U{2029}' => "\\u2029"
            case _ => PyBody([c])
  {
    assert PyBody([c][1..]) == "" && GoJson([c][1..]) == "";
  }

  /** The daemon's values: the first three of them are written plainly. */
  lemma GoValueCharacter(c: char)
    ensures GoBody([c]) == if c == '&' || c == '<' || c == '>' then [c] else GoJson([c])
  {
    GoBodyIs([c]);
    assert GoJson([c][1..]) == "" && Partly([c][1..], {'&', '<', '>'}) == "";
  }

  /** A string is written character by character. */
  lemma CharacterByCharacter(c: char, rest: string)
    ensures PyBody([c] + rest) == PyBody([c]) + PyBody(rest)
    ensures GoJson([c] + rest) == GoJson([c]) + GoJson(rest)
  {
    PythonCut(c, rest);
    GoCut(c, rest);
    PythonCut(c, "");
    GoCut(c, "");
    assert [c] + "" == [c];
  }

  lemma PythonCut(c: char, rest: string)
    ensures PyBody([c] + rest) == Token(c) + PyBody(rest)
    ensures rest == "" ==> PyBody([c] + rest) == Token(c)
  {
    assert ([c] + rest)[1..] == rest;
  }

  lemma GoCut(c: char, rest: string)
    ensures GoJson([c] + rest) == GoToken(c) + GoJson(rest)
    ensures rest == "" ==> GoJson([c] + rest) == GoToken(c)
  {
    assert ([c] + rest)[1..] == rest;
  }

  lemma {:induction false} PlainIsItself(p: string)
    requires Plain(p)
    ensures PyBody(p) == p
  {
    if p != "" {
      PlainIsItself(p[1..]);
    }
  }

  /** An escape that stands in the value itself is damaged by the daemon. */
  lemma LiteralEscapeIsDamaged()
    ensures PyBody("\\u0026") == "\\\\u0026" && GoBody("\\u0026") == "\\&"
  {
    PythonEscape("u0026");
    GoEscape("\\u0026");
  }

  lemma PythonEscape(p: string)
    requires Plain(p)
    ensures PyBody("\\" + p) == "\\\\" + p
  {
    PlainIsItself(p);
    assert ("\\" + p)[1..] == p;
  }

  lemma GoEscape(s: string)
    requires EscapeAt(s, '&') && |s| == 6
    ensures GoBody(s) == "\\&"
  {
    GoBodyIs(s);
    assert s[6..] == "" && "\\" + "&" + "" == "\\&";
  }

  // ---------------------------------------------------------------- a document

  const A := Field("a", Bool(true))
  const SIG := Field("sig", Num(0))
  const Y := Field("y", Num(-10))
  const Z := Field("z", Str("v"))

  /** Keys out of order and signatures, at two depths. */
  const DOCUMENT := Obj([Field("b", Arr([Null, Obj([SIG, Z, Y])])), SIG, A])
  const SORTED := Obj([A, Field("b", Arr([Null, Obj([Y, Z])]))])

  lemma StripTwo(f: Field, g: Field)
    requires f.key != "sig" && g.key != "sig"
    ensures StripFields([f, g]) == [Field(f.key, Strip(f.value)), Field(g.key, Strip(g.value))]
  {
    assert [f, g][..1] == [f] && [f][..0] == [];
    assert StripFields([f]) == [Field(f.key, Strip(f.value))];
  }

  /** Wherever the signature stands, it goes. */
  lemma StripSignature(before: seq<Field>, sig: Field, last: Field)
    requires sig.key == "sig" && last.key != "sig"
    ensures StripFields(before + [sig, last]) == StripFields(before + [last])
  {
    assert (before + [sig, last])[..|before| + 1] == before + [sig];
    assert (before + [sig])[..|before|] == before && (before + [last])[..|before|] == before;
  }

  lemma OrderTwo(g: Field, h: Field)
    requires LexLt(h.key, g.key)
    ensures SortFields(OrderFields([g, h])) == [Field(h.key, Order(h.value)), Field(g.key, Order(g.value))]
  {
    assert [g, h][..1] == [g] && [g][..0] == [];
    assert OrderFields([g]) == [Field(g.key, Order(g.value))];
    var s, t := Field(g.key, Order(g.value)), Field(h.key, Order(h.value));
    assert OrderFields([g, h]) == [s, t] && [s, t][..1] == [s] && [s][..0] == [];
    assert SortFields([s]) == [s];
    assert InsertField([s], t) == [t] + [s];
  }

  lemma StripThree(f: Field, g: Field, h: Field)
    requires f.key == "sig" && g.key != "sig" && h.key != "sig"
    ensures StripFields([f, g, h]) == [Field(g.key, Strip(g.value)), Field(h.key, Strip(h.value))]
  {
    assert [f, g, h][..2] == [f, g] && [f, g][..1] == [f] && [f][..0] == [];
    assert StripFields([f]) == [];
    assert StripFields([f, g]) == [Field(g.key, Strip(g.value))];
  }

  lemma InnerObject()
    ensures Norm(Obj([SIG, Z, Y])) == Obj([Y, Z])
  {
    StripThree(SIG, Z, Y);
    OrderTwo(Z, Y);
    LexLtIsPrecedes("y", "z");
    assert PrecedesAt("y", "z", 0);
  }

  lemma InnerList(w: Json)
    ensures Norm(Arr([Null, w])) == Arr([Null, Norm(w)])
  {
    assert [Null, w][1..] == [w] && [w][1..] == [] && [Null, Strip(w)][1..] == [Strip(w)];
    assert StripItems([w]) == [Strip(w)];
    assert StripItems([Null, w]) == [Null, Strip(w)];
    assert [Strip(w)][1..] == [];
    assert OrderItems([Strip(w)]) == [Norm(w)];
    assert OrderItems([Null, Strip(w)]) == [Null] + [Norm(w)];
  }

  lemma DocumentSorted()
    ensures Norm(DOCUMENT) == SORTED
  {
    InnerObject();
    InnerList(Obj([SIG, Z, Y]));
    var list := Field("b", Arr([Null, Obj([SIG, Z, Y])]));
    StripSignature([list], SIG, A);
    assert [list] + [SIG, A] == [list, SIG, A] && [list] + [A] == [list, A];
    StripTwo(list, A);
    OrderTwo(Field("b", Strip(list.value)), A);
  }

  lemma NumberTexts()
    ensures Number(0) == "0" && Number(7) == "7" && Number(-10) == "-10" && Number(1205) == "1205"
  {
    assert Dec(12) == "12" && Dec(120) == "120";
  }

  lemma ConstantTexts(st: Style)
    ensures Print(st, Null) == "null" && Print(st, Bool(false)) == "false" && Print(st, Bool(true)) == "true"
    ensures Print(st, Arr([])) == "[]" && Print(st, Obj([])) == "{}"
  {
  }

  lemma PrintTwo(st: Style, g: Field, h: Field)
    ensures Print(st, Obj([g, h])) == "{" + (PrintField(st, g) + ("," + (PrintField(st, h) + "}")))
  {
    assert [g, h][1..] == [h];
    assert PrintFields(st, [h]) == PrintField(st, h) + "}";
  }

  lemma PrintPair(st: Style, u: Json, v: Json)
    ensures Print(st, Arr([u, v])) == "[" + (Print(st, u) + ("," + (Print(st, v) + "]")))
  {
    assert [u, v][1..] == [v];
    assert PrintItems(st, [v]) == Print(st, v) + "]";
  }

  /** How a style writes the short strings of the document. */
  predicate WritesLetters(st: Style) {
    st.key("a") == "a" && st.key("b") == "b" && st.key("y") == "y" && st.key("z") == "z" && st.value("v") == "v"
  }

  lemma PrintInner(st: Style)
    requires WritesLetters(st)
    ensures Print(st, Obj([Y, Z])) == "{\"y\":-10,\"z\":\"v\"}"
  {
    PrintTwo(st, Y, Z);
    NumberTexts();
    assert PrintField(st, Y) == "\"y\":-10" && PrintField(st, Z) == "\"z\":\"v\"";
  }

  lemma PrintInnerList(st: Style)
    requires WritesLetters(st)
    ensures Print(st, Arr([Null, Obj([Y, Z])])) == "[null,{\"y\":-10,\"z\":\"v\"}]"
  {
    PrintInner(st);
    PrintPair(st, Null, Obj([Y, Z]));
  }

  lemma PrintDocument(st: Style)
    requires WritesLetters(st)
    ensures Print(st, SORTED) == "{\"a\":true,\"b\":[null,{\"y\":-10,\"z\":\"v\"}]}"
  {
    PrintInnerList(st);
    PrintOuter(st, Arr([Null, Obj([Y, Z])]));
  }

  lemma PrintOuter(st: Style, list: Json)
    requires st.key("a") == "a" && st.key("b") == "b"
    ensures Print(st, Obj([A, Field("b", list)])) == "{\"a\":true,\"b\":" + (Print(st, list) + "}")
  {
    var f := Field("b", list);
    PrintTwo(st, A, f);
    assert PrintField(st, A) == "\"a\":true";
    assert PrintField(st, f) == "\"b\":" + Print(st, list);
    Assoc("\"b\":", Print(st, list), "}");
  }

  lemma BothWriteLetters()
    ensures WritesLetters(PYTHON) && WritesLetters(GO)
  {
    forall c: char | 'a' <= c <= 'z'
      ensures PyBody([c]) == [c] && GoJson([c]) == [c] && GoBody([c]) == [c]
    {
      PythonCharacter(c);
      GoKeyCharacter(c);
      GoValueCharacter(c);
    }
    assert ['a'] == "a" && ['b'] == "b" && ['y'] == "y" && ['z'] == "z" && ['v'] == "v";
  }

  /** The text both programs sign for it. */
  lemma DocumentText()
    ensures PyText(DOCUMENT) == "{\"a\":true,\"b\":[null,{\"y\":-10,\"z\":\"v\"}]}"
    ensures GoText(DOCUMENT) == "{\"a\":true,\"b\":[null,{\"y\":-10,\"z\":\"v\"}]}"
  {
    DocumentSorted();
    BothWriteLetters();
    PrintDocument(PYTHON);
    PrintDocument(GO);
  }
}
