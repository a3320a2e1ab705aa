/** `Marshal` and `write` of clubd/internal/canon/canon.go: the text grows in a shared buffer. */
module CanonWriter {
  import opened Prelude
  import opened Text
  import opened JsonText
  import opened Canon

  class Buffer {
    var text: string

    constructor ()
      ensures text == ""
    {
      text := "";
    }

    method Append(s: string)
      modifies this
      ensures text == old(text) + s
    {
      text := text + s;
    }
  }

  // ---------------------------------------------------------------- sorting the keys before or after

  function Ordered(f: Field): Field {
    Field(f.key, Order(f.value))
  }

  lemma OrderSnoc(fields: seq<Field>, f: Field)
    ensures OrderFields(fields + [f]) == OrderFields(fields) + [Ordered(f)]
  {
    assert (fields + [f])[..|fields|] == fields;
  }

  lemma {:induction false} InsertCommutes(sorted: seq<Field>, f: Field)
    ensures InsertField(OrderFields(sorted), Ordered(f)) == OrderFields(InsertField(sorted, f))
  {
    if sorted == [] || !LexLt(f.key, sorted[|sorted| - 1].key) {
      OrderSnoc(sorted, f);
    } else {
      var front := sorted[..|sorted| - 1];
      InsertCommutes(front, f);
      OrderSnoc(InsertField(front, f), sorted[|sorted| - 1]);
      assert OrderFields(sorted)[..|front|] == OrderFields(front);
    }
  }

  /** The buffer writer sorts first and descends afterwards; the order is the same. */
  lemma {:induction false} SortCommutes(fields: seq<Field>)
    ensures SortFields(OrderFields(fields)) == OrderFields(SortFields(fields))
  {
    if fields != [] {
      var front, f := fields[..|fields| - 1], fields[|fields| - 1];
      SortCommutes(front);
      assert OrderFields(fields)[..|front|] == OrderFields(front);
      InsertCommutes(SortFields(front), f);
    }
  }

  lemma {:induction false} InsertKeepsFields(sorted: seq<Field>, f: Field)
    ensures multiset(InsertField(sorted, f)) == multiset(sorted) + multiset{f}
  {
    if sorted != [] && LexLt(f.key, sorted[|sorted| - 1].key) {
      InsertKeepsFields(sorted[..|sorted| - 1], f);
      assert sorted == sorted[..|sorted| - 1] + [sorted[|sorted| - 1]];
    }
  }

  lemma {:induction false} SortKeepsFields(fields: seq<Field>)
    ensures multiset(SortFields(fields)) == multiset(fields)
  {
    if fields != [] {
      SortKeepsFields(fields[..|fields| - 1]);
      InsertKeepsFields(SortFields(fields[..|fields| - 1]), fields[|fields| - 1]);
      assert fields == fields[..|fields| - 1] + [fields[|fields| - 1]];
    }
  }

  // ---------------------------------------------------------------- what is still to be written

  function RestOfItems(items: seq<Json>, i: nat): string
    requires i <= |items|
  {
    if i == 0 then PrintItems(GO, items)
    else if i == |items| then "]"
    else "," + PrintItems(GO, items[i..])
  }

  lemma RestOfItemsStep(items: seq<Json>, i: nat)
    requires i < |items|
    ensures RestOfItems(items, i) ==
            (if i > 0 then "," else "") + Print(GO, items[i]) + RestOfItems(items, i + 1)
  {
    assert items[i..][1..] == items[i + 1..];
    assert items[0..] == items;
    Assoc(if i > 0 then "," else "", Print(GO, items[i]), RestOfItems(items, i + 1));
  }

  function RestOfFields(fields: seq<Field>, i: nat): string
    requires i <= |fields|
  {
    if i == 0 then PrintFields(GO, fields)
    else if i == |fields| then "}"
    else "," + PrintFields(GO, fields[i..])
  }

  lemma RestOfFieldsStep(fields: seq<Field>, i: nat)
    requires i < |fields|
    ensures RestOfFields(fields, i) ==
            (if i > 0 then "," else "") + PrintField(GO, fields[i]) + RestOfFields(fields, i + 1)
  {
    assert fields[i..][1..] == fields[i + 1..];
    assert fields[0..] == fields;
    Assoc(if i > 0 then "," else "", PrintField(GO, fields[i]), RestOfFields(fields, i + 1));
  }

  lemma {:induction false} OrderItemsAt(items: seq<Json>, i: nat)
    requires i < |items|
    ensures OrderItems(items)[i] == Order(items[i])
  {
    if i > 0 {
      OrderItemsAt(items[1..], i - 1);
    }
  }

  lemma {:induction false} OrderFieldsAt(fields: seq<Field>, i: nat)
    requires i < |fields|
    ensures OrderFields(fields)[i] == Ordered(fields[i])
  {
    if i < |fields| - 1 {
      OrderFieldsAt(fields[..|fields| - 1], i);
    }
  }

  // ---------------------------------------------------------------- the writer

  method Write(buf: Buffer, v: Json)
    modifies buf
    ensures buf.text == old(buf.text) + Print(GO, Order(v))
    decreases v, 1
  {
    match v
    case Null => buf.Append("null");
    case Bool(b) => buf.Append(if b then "true" else "false");
    case Num(n) => buf.Append(Number(n));
    case Str(s) => buf.Append(Quote(GoBody(s)));
    case Arr(items) =>
      buf.Append("[");
      WriteItems(buf, items);
      Assoc(old(buf.text), "[", PrintItems(GO, OrderItems(items)));
    case Obj(fields) =>
      buf.Append("{");
      WriteFields(buf, fields);
      Assoc(old(buf.text), "{", PrintFields(GO, SortFields(OrderFields(fields))));
  }

  method WriteItems(buf: Buffer, items: seq<Json>)
    modifies buf
    ensures buf.text == old(buf.text) + PrintItems(GO, OrderItems(items))
    decreases items, 0
  {
    ghost var all := OrderItems(items);
    for i := 0 to |items|
      invariant buf.text + RestOfItems(all, i) == old(buf.text) + PrintItems(GO, all)
    {
      ghost var before := buf.text;
      if i > 0 {
        buf.Append(",");
      }
      assert buf.text == before + (if i > 0 then "," else "");
      Write(buf, items[i]);
      OrderItemsAt(items, i);
      RestOfItemsStep(all, i);
      Assoc(before, if i > 0 then "," else "", Print(GO, all[i]));
      Assoc(before, (if i > 0 then "," else "") + Print(GO, all[i]), RestOfItems(all, i + 1));
    }
    buf.Append("]");
  }

  method WriteFields(buf: Buffer, fields: seq<Field>)
    modifies buf
    ensures buf.text == old(buf.text) + PrintFields(GO, SortFields(OrderFields(fields)))
    decreases fields, 0
  {
    var sorted := SortFields(fields);
    SortKeepsFields(fields);
    SortCommutes(fields);
    ghost var all := OrderFields(sorted);
    for i := 0 to |sorted|
      invariant buf.text + RestOfFields(all, i) == old(buf.text) + PrintFields(GO, all)
    {
      ghost var before := buf.text;
      if i > 0 {
        buf.Append(",");
      }
      assert buf.text == before + (if i > 0 then "," else "");
      assert sorted[i] in multiset(fields);
      WriteField(buf, sorted[i]);
      OrderFieldsAt(sorted, i);
      RestOfFieldsStep(all, i);
      Assoc(before, if i > 0 then "," else "", PrintField(GO, all[i]));
      Assoc(before, (if i > 0 then "," else "") + PrintField(GO, all[i]), RestOfFields(all, i + 1));
    }
    buf.Append("}");
  }

  method WriteField(buf: Buffer, f: Field)
    modifies buf
    ensures buf.text == old(buf.text) + PrintField(GO, Ordered(f))
    decreases f, 0
  {
    buf.Append(Quote(GoJson(f.key)));
    buf.Append(":");
    Write(buf, f.value);
    Assoc(old(buf.text) + Quote(GoJson(f.key)), ":", Print(GO, Order(f.value)));
    Assoc(old(buf.text), Quote(GoJson(f.key)), ":" + Print(GO, Order(f.value)));
  }

  /** The bytes that are signed. */
  method Marshal(v: Json) returns (text: string)
    ensures text == GoText(v)
  {
    var buf := new Buffer();
    Write(buf, Strip(v));
    text := buf.text;
  }
}
