/**
 `normalize_field` of observer/club.py, and when normalising twice is the same as once: what a
 club author must see to for blacklisting to leave no trace in the search rows.
 */
module FieldNames {
  import opened Prelude
  import opened Text
  import opened Catalog
  import opened Erasure

  /** A loaded profile: the vocabulary, which holds `other` and no blank line, and the aliases. */
  datatype Club = Club(fields: set<string>, aliases: map<string, string>) {
    predicate Loaded() {
      "other" in fields && "" !in fields
    }

    function Alias(key: string): string {
      if key in aliases then aliases[key] else ""
    }
  }

  // ---------------------------------------------------------------- the key of a value

  function Mapped(s: string): (r: string)
    ensures |r| == |s|
  {
    if s == "" then "" else [if s[0] == '_' then '-' else Lower(s[0])] + Mapped(s[1..])
  }

  /** The length of the word at the front. */
  function WordEnd(s: string): (n: nat)
    ensures n <= |s| && (n < |s| ==> Space(s[n])) && forall i :: 0 <= i < n ==> !Space(s[i])
  {
    if s == "" || Space(s[0]) then 0 else 1 + WordEnd(s[1..])
  }

  lemma {:induction false} TrimLeftFacts(s: string)
    ensures |TrimLeft(s)| <= |s| && (TrimLeft(s) != "" ==> !Space(TrimLeft(s)[0]))
  {
    if s != "" && Space(s[0]) {
      TrimLeftFacts(s[1..]);
    }
  }

  /** Python's " ".join(s.split()). */
  function Tidied(s: string): string
    decreases |s|
  {
    TrimLeftFacts(s);
    var t := TrimLeft(s);
    if t == "" then ""
    else
      var n := WordEnd(t);
      var rest := Tidied(t[n..]);
      if rest == "" then t[..n] else t[..n] + (" " + rest)
  }

  function Key(value: string): string {
    Tidied(Mapped(value))
  }

  function Collapsed(key: string): (r: string)
    ensures |r| == |key|
  {
    if key == "" then "" else [if key[0] == ' ' then '-' else key[0]] + Collapsed(key[1..])
  }

  function Normalize(club: Club, value: string): string {
    if value == "" then "other"
    else
      var key := Key(value);
      if key in club.fields then key
      else if Collapsed(key) in club.fields then Collapsed(key)
      else if club.Alias(key) != "" then club.Alias(key)
      else if club.Alias(Collapsed(key)) != "" then club.Alias(Collapsed(key))
      else "other"
  }

  // ---------------------------------------------------------------- keys are their own keys

  predicate PlainChar(c: char) {
    Lower(c) == c && c != '_'
  }

  ghost predicate Plain(s: string) {
    forall i :: 0 <= i < |s| ==> PlainChar(s[i])
  }

  /** Words with one blank between them. */
  predicate Tidy(s: string) {
    s == "" ||
    var n := WordEnd(s);
    n > 0 && (n == |s| || (s[n] == ' ' && n + 1 < |s| && Tidy(s[n + 1..])))
  }

  lemma {:induction false} WordThenTail(w: string, tail: string)
    requires forall i :: 0 <= i < |w| ==> !Space(w[i])
    requires tail == "" || Space(tail[0])
    ensures WordEnd(w + tail) == |w|
  {
    if w == "" {
      assert w + tail == tail;
    } else {
      WordThenTail(w[1..], tail);
      assert (w + tail)[1..] == w[1..] + tail;
    }
  }

  lemma {:induction false} TidiedIsTidy(s: string)
    ensures Tidy(Tidied(s))
    decreases |s|
  {
    TrimLeftFacts(s);
    var t := TrimLeft(s);
    if t != "" {
      var n := WordEnd(t);
      var w, rest := t[..n], Tidied(t[n..]);
      TidiedIsTidy(t[n..]);
      if rest == "" {
        WordThenTail(w, "");
        assert w + "" == w;
      } else {
        WordThenTail(w, " " + rest);
        assert (w + (" " + rest))[n + 1..] == rest;
      }
    }
  }

  lemma {:induction false} TidyStays(s: string)
    requires Tidy(s)
    ensures Tidied(s) == s
    decreases |s|
  {
    if s != "" {
      var n := WordEnd(s);
      if n < |s| {
        TidyStays(s[n + 1..]);
        BlankSkipped(s[n + 1..]);
      }
      WordStays(s, n);
    }
  }

  /** A word, and what follows its blank. */
  lemma WordStays(s: string, n: nat)
    requires s != "" && n == WordEnd(s) && n > 0
    requires n == |s| || (s[n] == ' ' && n + 1 < |s| && Tidied(" " + s[n + 1..]) == s[n + 1..])
    ensures Tidied(s) == s
  {
    TidiedWord(s, n);
    if n == |s| {
      assert s[n..] == "";
    } else {
      SplitAtBlank(s, n);
    }
  }

  lemma SplitAtBlank(s: string, n: nat)
    requires n < |s| && s[n] == ' '
    ensures s[n..] == " " + s[n + 1..] && s == s[..n] + (" " + s[n + 1..])
  {
  }

  lemma TidiedWord(s: string, n: nat)
    requires s != "" && n == WordEnd(s) && n > 0
    ensures var rest := Tidied(s[n..]); Tidied(s) == if rest == "" then s[..n] else s[..n] + (" " + rest)
  {
    assert TrimLeft(s) == s;
  }

  lemma BlankSkipped(rest: string)
    requires rest != "" && Tidy(rest)
    ensures Tidied(" " + rest) == Tidied(rest)
  {
    assert (" " + rest)[1..] == rest;
    assert TrimLeft(" " + rest) == TrimLeft(rest);
  }

  lemma {:induction false} MappedPlain(s: string)
    ensures Plain(Mapped(s)) && (Plain(s) ==> Mapped(s) == s)
  {
    if s != "" {
      MappedPlain(s[1..]);
      assert Plain(s) ==> PlainChar(s[0]) && Plain(s[1..]);
    }
  }

  lemma {:induction false} TrimLeftPlain(s: string)
    requires Plain(s)
    ensures Plain(TrimLeft(s))
  {
    if s != "" && Space(s[0]) {
      TrimLeftPlain(s[1..]);
    }
  }

  lemma {:induction false} TidiedPlain(s: string)
    requires Plain(s)
    ensures Plain(Tidied(s))
    decreases |s|
  {
    TrimLeftFacts(s);
    TrimLeftPlain(s);
    var t := TrimLeft(s);
    if t != "" {
      TidiedPlain(t[WordEnd(t)..]);
    }
  }

  /** A key: tidy and plain. */
  ghost predicate Slug(s: string) {
    Tidy(s) && Plain(s)
  }

  lemma KeyIsSlug(value: string)
    ensures Slug(Key(value))
  {
    MappedPlain(value);
    TidiedIsTidy(Mapped(value));
    TidiedPlain(Mapped(value));
  }

  lemma SlugStays(s: string)
    requires Slug(s)
    ensures Key(s) == s
  {
    MappedPlain(s);
    TidyStays(s);
  }

  ghost predicate Unspaced(s: string) {
    forall i :: 0 <= i < |s| ==> !Space(s[i])
  }

  lemma UnspacedIsTidy(s: string)
    requires Unspaced(s)
    ensures Tidy(s)
  {
    WordThenTail(s, "");
    assert s + "" == s;
  }

  /** In a key every white space is a blank. */
  lemma {:induction false} TidySpaces(s: string)
    requires Tidy(s)
    ensures forall i :: 0 <= i < |s| && Space(s[i]) ==> s[i] == ' '
  {
    if s != "" && WordEnd(s) < |s| {
      var n := WordEnd(s);
      TidySpaces(s[n + 1..]);
      assert forall i :: n < i < |s| ==> s[i] == s[n + 1..][i - n - 1];
    }
  }

  lemma {:induction false} CollapsedChars(s: string)
    ensures forall i :: 0 <= i < |s| ==> Collapsed(s)[i] == if s[i] == ' ' then '-' else s[i]
  {
    if s != "" {
      CollapsedChars(s[1..]);
    }
  }

  lemma CollapsedIsSlug(key: string)
    requires Slug(key)
    ensures Slug(Collapsed(key)) && Collapsed(Collapsed(key)) == Collapsed(key)
  {
    var c := Collapsed(key);
    TidySpaces(key);
    CollapsedChars(key);
    CollapsedChars(c);
    UnspacedIsTidy(c);
  }

  // ---------------------------------------------------------------- normalising twice

  /** Every alias that can be reached leads to a field that normalises to itself. */
  ghost predicate AliasesSettle(club: Club) {
    forall a ::
      a in club.aliases && Key(a) == a && a !in club.fields && Collapsed(a) !in club.fields && club.aliases[a] != ""
      ==> Normalize(club, club.aliases[a]) == club.aliases[a]
  }

  lemma FieldStays(club: Club, f: string)
    requires f in club.fields && f != "" && Slug(f)
    ensures Normalize(club, f) == f
  {
    SlugStays(f);
  }

  lemma OtherStays(club: Club)
    requires club.Loaded()
    ensures Normalize(club, "other") == "other"
  {
    UnspacedIsTidy("other");
    FieldStays(club, "other");
  }

  lemma SettledTwice(club: Club, value: string)
    requires club.Loaded() && AliasesSettle(club)
    ensures Normalize(club, Normalize(club, value)) == Normalize(club, value)
  {
    OtherStays(club);
    if value != "" {
      var key := Key(value);
      var c := Collapsed(key);
      KeyIsSlug(value);
      SlugStays(key);
      CollapsedIsSlug(key);
      SlugStays(c);
      if key in club.fields {
        FieldStays(club, key);
      } else if c in club.fields {
        FieldStays(club, c);
      } else if club.Alias(key) != "" {
        assert Normalize(club, club.aliases[key]) == club.aliases[key];
      } else if club.Alias(c) != "" {
        assert Normalize(club, club.aliases[c]) == club.aliases[c];
      }
    }
  }

  /** A value that normalises to the target of alias `a`. */
  lemma AliasReached(club: Club, a: string) returns (value: string)
    requires a in club.aliases && Key(a) == a && a !in club.fields && Collapsed(a) !in club.fields
    requires club.aliases[a] != ""
    ensures Normalize(club, value) == club.aliases[a]
  {
    if a != "" {
      value := a;
    } else {
      value := " ";
      assert Mapped(" ") == " ";
      assert Key(" ") == "";
    }
  }

  /** Normalisation is idempotent exactly when the aliases settle. */
  lemma IdempotentIffSettled(club: Club, norm: string -> string)
    requires club.Loaded() && forall v :: norm(v) == Normalize(club, v)
    ensures Idempotent(norm) <==> AliasesSettle(club)
  {
    if AliasesSettle(club) {
      forall v
        ensures norm(norm(v)) == norm(v)
      {
        SettledTwice(club, v);
      }
    } else {
      var a :| a in club.aliases && Key(a) == a && a !in club.fields && Collapsed(a) !in club.fields
        && club.aliases[a] != "" && Normalize(club, club.aliases[a]) != club.aliases[a];
      var v := AliasReached(club, a);
      assert norm(norm(v)) != norm(v);
    }
  }

  /** So blacklisting erases every trace, in all histories, exactly for a club whose aliases settle. */
  lemma ErasureIffSettled(club: Club, env: Env, c: Cid, q: Peer, p: Peer)
    requires club.Loaded() && forall v :: env.norm(v) == Normalize(club, v)
    requires c != "" && env.valid(c) && q != "" && p != "" && p != q && env.me != Some(p)
    ensures AliasesSettle(club) <==>
            forall ops: seq<Op> :: Clocked(ops) ==>
              Blacklist(env, Run(env, EMPTY, ops), p).docs == Run(env, EMPTY, WithoutPeer(ops, p)).docs
  {
    IdempotentIffSettled(club, env.norm);
    ErasureNeedsIdempotence(env, c, q, p);
  }

  lemma WordIsItsKey(w: string)
    requires Unspaced(w) && Plain(w)
    ensures Key(w) == w && Collapsed(w) == w
  {
    UnspacedIsTidy(w);
    SlugStays(w);
    CollapsedChars(w);
    assert forall i :: 0 <= i < |w| ==> w[i] != ' ';
  }

  /** An alias into a word outside the vocabulary does not settle. */
  lemma UnlistedTargetBreaks(a: string, t: string)
    requires Unspaced(a) && Plain(a) && Unspaced(t) && Plain(t) && t != "" && a != t && a != "other" && t != "other"
    ensures var club := Club({"other"}, map[a := t]); club.Loaded() && !AliasesSettle(club)
  {
    WordIsItsKey(a);
    WordIsItsKey(t);
    var club := Club({"other"}, map[a := t]);
    assert Normalize(club, t) == "other";
    assert a in club.aliases && club.aliases[a] == t;
  }

  // ---------------------------------------------------------------- the shipped profile

  /** A slug of the vocabulary: lower-case letters and hyphens. */
  ghost predicate Word(s: string) {
    forall i :: 0 <= i < |s| ==> 'a' <= s[i] <= 'z' || s[i] == '-'
  }

  lemma WordFacts(s: string)
    requires Word(s)
    ensures Unspaced(s) && Plain(s)
  {
  }

  /** Every alias leads to a word of the vocabulary. */
  ghost predicate TargetsListed(club: Club) {
    forall a :: a in club.aliases ==> club.aliases[a] in club.fields && Word(club.aliases[a])
  }

  /** A profile whose aliases all lead into its vocabulary settles. */
  lemma ListedTargetsSettle(club: Club)
    requires club.Loaded() && TargetsListed(club)
    ensures AliasesSettle(club)
  {
    forall a | a in club.aliases
      ensures Normalize(club, club.aliases[a]) == club.aliases[a]
    {
      var t := club.aliases[a];
      WordFacts(t);
      UnspacedIsTidy(t);
      FieldStays(club, t);
    }
  }

  const CS := "computer-science"
  const EARTH := "earth-science"
  const SOCIAL := "social-science"

  /** clubs/academic: fields.txt and the aliases of club.toml. */
  const ACADEMIC := Club(
    {CS, "biology", "physics", "medicine", "chemistry", "mathematics", "engineering", EARTH, "economics", SOCIAL,
     "humanities", "other"},
    map["cs" := CS, "computer science" := CS, "comp-sci" := CS, "life-science" := "biology",
        "life-sciences" := "biology", "biomedicine" := "medicine", "health" := "medicine", "geo" := EARTH,
        "geology" := EARTH, "climate" := EARTH, "social" := SOCIAL, "sociology" := SOCIAL,
        "history" := "humanities", "philosophy" := "humanities", "law" := SOCIAL, "arts" := "humanities"])

  lemma ShortWords()
    ensures Word("biology") && Word("medicine") && Word("humanities")
  {
  }

  lemma LongWords()
    ensures Word(CS) && Word(EARTH) && Word(SOCIAL)
  {
  }

  /** The shipped profile settles, so there blacklisting erases every search trace. */
  lemma AcademicSettles()
    ensures ACADEMIC.Loaded() && AliasesSettle(ACADEMIC)
  {
    ShortWords();
    LongWords();
    ListedTargetsSettle(ACADEMIC);
  }
}
