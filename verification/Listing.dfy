/** `doc_child_links` of observer/unixfs.py: the PDF names among a directory's links; `decode` reads their bytes. */
module Listing {
  import opened Prelude
  import opened Text
  import opened WorkRows
  import D = DagPb

  /** A document named by a directory. */
  datatype Doc = Doc(filename: string, cid: Cid)

  predicate Separator(c: char) {
    c == '/' || c == '\\'
  }

  /** What follows the last separator of either kind. */
  function LastPart(s: string): string {
    if s == "" || Separator(s[|s| - 1]) then "" else LastPart(s[..|s| - 1]) + [s[|s| - 1]]
  }

  /** The document a listing entry names, if it names one. */
  function DocOfEntry(decode: Bytes -> string, e: D.Link): Option<Doc> {
    if e.name == None || decode(e.name.value) == "" || e.cid == "" then None
    else
      var base := Trim(LastPart(decode(e.name.value)));
      if base == "" || base == "." || base == ".." || |base| > 180 || !Ends(base, ".pdf") then None
      else Some(Doc(base, e.cid))
  }

  function DocsOf(decode: Bytes -> string, es: seq<D.Link>): seq<Doc> {
    if es == [] then []
    else
      var front := DocsOf(decode, es[..|es| - 1]);
      match DocOfEntry(decode, es[|es| - 1])
      case None => front
      case Some(l) => front + [l]
  }

  /** The first `n` documents of a listing, in listing order. */
  function DocLinks(decode: Bytes -> string, es: seq<D.Link>, n: int): seq<Doc> {
    Take(DocsOf(decode, es), Max(0, n))
  }

  lemma {:induction false} DocsGrow(decode: Bytes -> string, es: seq<D.Link>, i: nat)
    requires i <= |es|
    ensures DocsOf(decode, es[..i]) <= DocsOf(decode, es)
  {
    if i < |es| {
      DocsGrow(decode, es[..|es| - 1], i);
      assert es[..|es| - 1][..i] == es[..i];
    } else {
      assert es[..i] == es;
    }
  }

  /** The loop stops at the limit, and so returns the first documents and no others. */
  method DocChildLinks(decode: Bytes -> string, es: seq<D.Link>, n: int) returns (links: seq<Doc>)
    ensures links == DocLinks(decode, es, n)
  {
    links := [];
    for i := 0 to |es|
      invariant links == DocsOf(decode, es[..i]) && |links| <= Max(0, n)
    {
      if |links| >= n {
        DocsGrow(decode, es, i);
        return;
      }
      assert es[..i + 1][..i] == es[..i];
      var l := DocOfEntry(decode, es[i]);
      if l.Some? {
        links := links + [l.value];
      }
    }
    assert es[..|es|] == es;
  }

  /** What is picked: a PDF base name without a path, of a cid that the listing names. */
  lemma {:induction false} DocsAreNamedPdf(decode: Bytes -> string, es: seq<D.Link>, i: nat)
    requires i < |DocsOf(decode, es)|
    ensures var l := DocsOf(decode, es)[i]; Ends(l.filename, ".pdf") && |l.filename| <= 180 && NoSeparator(l.filename)
    ensures exists e :: e in es && DocOfEntry(decode, e) == Some(DocsOf(decode, es)[i])
  {
    var front, last := es[..|es| - 1], es[|es| - 1];
    if i < |DocsOf(decode, front)| {
      DocsAreNamedPdf(decode, front, i);
      var e :| e in front && DocOfEntry(decode, e) == Some(DocsOf(decode, front)[i]);
      assert e in es;
    } else {
      assert last in es;
      BaseHasNoPath(decode(last.name.value));
    }
  }

  ghost predicate NoSeparator(s: string) {
    forall i :: 0 <= i < |s| ==> !Separator(s[i])
  }

  lemma BaseHasNoPath(name: string)
    ensures NoSeparator(Trim(LastPart(name)))
  {
    LastPartHasNoPath(name);
    TrimLeftKeeps(LastPart(name));
    TrimRightKeeps(TrimLeft(LastPart(name)));
  }

  lemma {:induction false} LastPartHasNoPath(s: string)
    ensures NoSeparator(LastPart(s))
  {
    if s != "" && !Separator(s[|s| - 1]) {
      LastPartHasNoPath(s[..|s| - 1]);
    }
  }

  lemma {:induction false} TrimLeftKeeps(s: string)
    requires NoSeparator(s)
    ensures NoSeparator(TrimLeft(s))
  {
    if s != "" && Space(s[0]) {
      TrimLeftKeeps(s[1..]);
    }
  }

  lemma {:induction false} TrimRightKeeps(s: string)
    requires NoSeparator(s)
    ensures NoSeparator(TrimRight(s))
  {
    if s != "" && Space(s[|s| - 1]) {
      TrimRightKeeps(s[..|s| - 1]);
    }
  }
}
