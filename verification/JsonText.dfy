/**
 JSON string bodies as the two printers write them: Python's json.dumps with
 ensure_ascii off, and Go's json.Marshal with its HTML escapes undone by text
 replacement.  Escapes follow section 7 of RFC 8259.
 */
module JsonText {
  import opened Prelude

  const LS: char := '\U{2028}'
  const PS: char := '\U{2029}'

  predicate Html(c: char) {
    c == '&' || c == '<' || c == '>'
  }

  function HexDigit(n: nat): char
    requires n < 16
  {
    if n < 10 then '0' + n as char else 'a' + (n - 10) as char
  }

  /** The escape Python writes for one character; most characters stand for themselves. */
  function Token(c: char): (r: string)
    ensures r != ""
  {
    if c == '"' then "\\\""
    else if c == '\\' then "\\\\"
    else if c == '\n' then "\\n"
    else if c == '\r' then "\\r"
    else if c == '\t' then "\\t"
    else if c == 8 as char then "\\b"
    else if c == 12 as char then "\\f"
    else if c < ' ' then "\\u00" + [HexDigit(c as nat / 16), HexDigit(c as nat % 16)]
    else [c]
  }

  function Hi(h: char): char {
    if h == '&' then '2' else '3'
  }

  function Lo(h: char): char {
    if h == '&' then '6' else if h == '<' then 'c' else 'e'
  }

  /** Go's six-character escape of an HTML character: u0026, u003c or u003e after a backslash. */
  function HtmlEscape(h: char): string {
    ['\\', 'u', '0', '0', Hi(h), Lo(h)]
  }

  /** That escape stands at the front of `text`. */
  predicate EscapeAt(text: string, h: char) {
    |text| >= 6 && text[0] == '\\' && text[1] == 'u' && text[2] == '0' && text[3] == '0'
    && text[4] == Hi(h) && text[5] == Lo(h)
  }

  /** Go's json.Marshal escapes HTML characters and the two line separators as well. */
  function GoToken(c: char): string {
    if Html(c) then HtmlEscape(c)
    else if c == LS then "\\u2028"
    else if c == PS then "\\u2029"
    else Token(c)
  }

  function PyBody(s: string): string {
    if s == "" then "" else Token(s[0]) + PyBody(s[1..])
  }

  function GoJson(s: string): string {
    if s == "" then "" else GoToken(s[0]) + GoJson(s[1..])
  }

  /** bytes.ReplaceAll of the six-character escape of `h` by `h` itself. */
  function Unescape(text: string, h: char): string
    requires Html(h)
  {
    if text == "" then ""
    else if EscapeAt(text, h) then [h] + Unescape(text[6..], h)
    else [text[0]] + Unescape(text[1..], h)
  }

  /** A string value as canon.go writes it. */
  function GoBody(s: string): string {
    Unescape(Unescape(Unescape(GoJson(s), '&'), '<'), '>')
  }

  // ---------------------------------------------------------------- what the replacements do

  /** `s` itself begins with the text of an escape whose replacement is done. */
  function LiteralIn(s: string, done: set<char>): Option<char> {
    if '&' in done && EscapeAt(s, '&') then Some('&')
    else if '<' in done && EscapeAt(s, '<') then Some('<')
    else if '>' in done && EscapeAt(s, '>') then Some('>')
    else None
  }

  /** Go's text after the replacements for the characters in `done`. */
  function Partly(s: string, done: set<char>): string {
    if s == "" then ""
    else match LiteralIn(s, done)
      case Some(h) => "\\" + [h] + Partly(s[6..], done)
      case None => (if s[0] in done && Html(s[0]) then [s[0]] else GoToken(s[0])) + Partly(s[1..], done)
  }

  /** A character every printer leaves alone. */
  predicate PlainChar(c: char) {
    c >= ' ' && c != '"' && c != '\\' && !Html(c) && c != LS && c != PS
  }

  ghost predicate Plain(p: string) {
    forall i :: 0 <= i < |p| ==> PlainChar(p[i])
  }

  lemma PlainAt(s: string, i: nat, done: set<char>)
    requires i < |s| && PlainChar(s[i])
    ensures Partly(s[i..], done) == [s[i]] + Partly(s[i + 1..], done)
  {
    assert s[i..] == [s[i]] + s[i + 1..];
  }

  /** After its backslash, a literal escape is plain text. */
  lemma LiteralPasses(s: string, h: char, done: set<char>)
    requires Html(h) && EscapeAt(s, h)
    ensures Partly(s[1..], done) == ['u', '0', '0', Hi(h), Lo(h)] + Partly(s[6..], done)
  {
    PlainAt(s, 1, done);
    PlainAt(s, 2, done);
    PlainAt(s, 3, done);
    PlainAt(s, 4, done);
    PlainAt(s, 5, done);
    Five('u', '0', '0', Hi(h), Lo(h), Partly(s[6..], done));
  }

  lemma Five(a: char, b: char, c: char, d: char, e: char, rest: string)
    ensures [a] + ([b] + ([c] + ([d] + ([e] + rest)))) == [a, b, c, d, e] + rest
  {
  }

  /** Plain text at the front of the output was there in the input. */
  lemma {:induction false} PlainCameFrom(p: string, s: string, done: set<char>)
    requires Plain(p) && p <= Partly(s, done)
    ensures p <= s
  {
    if p != "" {
      assert p[0] == Partly(s, done)[0];
      assert s != "";
      PlainCameFrom(p[1..], s[1..], done);
    }
  }

  ghost predicate NoBackslash(p: string) {
    forall i :: 0 <= i < |p| ==> p[i] != '\\'
  }

  /** Nothing is replaced inside text without backslashes. */
  lemma {:induction false} SkipText(p: string, rest: string, h: char)
    requires Html(h) && NoBackslash(p)
    ensures Unescape(p + rest, h) == p + Unescape(rest, h)
  {
    if p == "" {
      assert p + rest == rest;
    } else {
      SkipText(p[1..], rest, h);
      assert (p + rest)[1..] == p[1..] + rest;
    }
  }

  /** Nothing is replaced across an escape whose second character is not this code. */
  lemma SkipEscape(p: string, rest: string, h: char)
    requires Html(h) && p != "" && p[0] == '\\' && NoBackslash(p[1..])
    requires !EscapeAt(p + rest, h)
    ensures Unescape(p + rest, h) == p + Unescape(rest, h)
  {
    var tail := p[1..];
    assert p + rest == [p[0]] + (tail + rest);
    SkipText(tail, rest, h);
    assert p + Unescape(rest, h) == [p[0]] + (tail + Unescape(rest, h));
  }

  lemma ReplaceHere(rest: string, h: char)
    requires Html(h)
    ensures Unescape(HtmlEscape(h) + rest, h) == [h] + Unescape(rest, h)
  {
    var text := HtmlEscape(h) + rest;
    assert text[6..] == rest;
  }

  /** The output for a first character that is no literal, before and after the pass for `h`. */
  function Out(c: char, done: set<char>): string {
    if c in done && Html(c) then [c] else GoToken(c)
  }

  lemma OneCharacter(c: char, rest: string, done: set<char>, h: char)
    requires Html(h) && h !in done && c != '\\'
    ensures Unescape(Out(c, done) + rest, h) == Out(c, done + {h}) + Unescape(rest, h)
  {
    if c == h {
      ReplaceHere(rest, h);
    } else if PlainChar(c) || (Html(c) && c in done) {
      SkipText([c], rest, h);
    } else {
      var t := GoToken(c);
      assert t[0] == '\\' && NoBackslash(t[1..]);
      assert (t + rest)[1] == t[1] && (t[1] == 'u' ==> |t| == 6);
      SkipEscape(t, rest, h);
    }
  }

  lemma {:induction false} PassFor(s: string, done: set<char>, h: char)
    requires Html(h) && h !in done
    ensures Unescape(Partly(s, done), h) == Partly(s, done + {h})
    decreases |s|
  {
    if s != "" {
      if LiteralIn(s, done).Some? {
        PassFor(s[6..], done, h);
      } else if EscapeAt(s, h) {
        PassFor(s[6..], done, h);
        PassNewLiteral(s, done, h);
      } else {
        PassFor(s[1..], done, h);
        if s[0] == '\\' {
          PassBackslash(s, done, h);
          Doubled(s, done + {h});
        } else {
          OneCharacter(s[0], Partly(s[1..], done), done, h);
        }
      }
    }
  }

  lemma Doubled(s: string, done: set<char>)
    requires s != "" && s[0] == '\\' && LiteralIn(s, done) == None
    ensures Partly(s, done) == ['\\'] + (['\\'] + Partly(s[1..], done))
  {
    assert GoToken('\\') == ['\\'] + ['\\'];
    Assoc(['\\'], ['\\'], Partly(s[1..], done));
  }

  /** A literal escape of `h` in the value loses its code to the replacement. */
  lemma PassNewLiteral(s: string, done: set<char>, h: char)
    requires Html(h) && h !in done && EscapeAt(s, h) && LiteralIn(s, done) == None
    ensures LiteralIn(s, done + {h}) == Some(h)
    ensures Unescape(Partly(s, done), h) == "\\" + [h] + Unescape(Partly(s[6..], done), h)
  {
    Doubled(s, done);
    LiteralPasses(s, h, done);
    UndoLiteral(Partly(s[6..], done), h);
  }

  lemma UndoLiteral(rest: string, h: char)
    requires Html(h)
    ensures Unescape(['\\'] + (['\\'] + (['u', '0', '0', Hi(h), Lo(h)] + rest)), h) ==
            "\\" + [h] + Unescape(rest, h)
  {
    var text := HtmlEscape(h) + rest;
    assert ['\\'] + (['u', '0', '0', Hi(h), Lo(h)] + rest) == text;
    ReplaceHere(rest, h);
  }

  lemma NoFalseMatch(s: string, done: set<char>, h: char)
    requires Html(h) && s != "" && s[0] == '\\' && !EscapeAt(s, h)
    ensures !EscapeAt(['\\'] + Partly(s[1..], done), h)
  {
    var rest := Partly(s[1..], done);
    var code := ['u', '0', '0', Hi(h), Lo(h)];
    if code <= rest {
      PlainCameFrom(code, s[1..], done);
    }
    assert EscapeAt(['\\'] + rest, h) ==> code <= rest;
  }

  /** Any other backslash stays doubled. */
  lemma PassBackslash(s: string, done: set<char>, h: char)
    requires Html(h) && h !in done && s != "" && s[0] == '\\'
    requires !EscapeAt(s, h) && LiteralIn(s, done) == None
    ensures LiteralIn(s, done + {h}) == None
    ensures Unescape(Partly(s, done), h) == ['\\'] + (['\\'] + Unescape(Partly(s[1..], done), h))
  {
    var rest := Partly(s[1..], done);
    Doubled(s, done);
    NoFalseMatch(s, done, h);
  }

  lemma {:induction false} StartsAsGoJson(s: string)
    ensures Partly(s, {}) == GoJson(s)
  {
    if s != "" {
      StartsAsGoJson(s[1..]);
    }
  }

  /** The three replacements together: HTML characters come back, literal escapes break. */
  lemma GoBodyIs(s: string)
    ensures GoBody(s) == Partly(s, {'&', '<', '>'})
  {
    StartsAsGoJson(s);
    PassFor(s, {}, '&');
    assert {} + {'&'} == {'&'};
    PassFor(s, {'&'}, '<');
    assert {'&'} + {'<'} == {'&', '<'};
    PassFor(s, {'&', '<'}, '>');
    assert {'&', '<'} + {'>'} == {'&', '<', '>'};
  }

  /** No literal escape text and no line or paragraph separator. */
  predicate Clean(s: string) {
    s == "" ||
    (!EscapeAt(s, '&') && !EscapeAt(s, '<') && !EscapeAt(s, '>') && s[0] != LS && s[0] != PS && Clean(s[1..]))
  }

  /** The two printers write a string value alike exactly when it is clean. */
  lemma {:induction false} ValuesAgree(s: string)
    ensures GoBody(s) == PyBody(s) <==> Clean(s)
  {
    GoBodyIs(s);
    PartlyAgrees(s);
  }

  lemma {:induction false} PartlyAgrees(s: string)
    ensures Partly(s, {'&', '<', '>'}) == PyBody(s) <==> Clean(s)
  {
    var all := {'&', '<', '>'};
    if s != "" {
      PartlyAgrees(s[1..]);
      if LiteralIn(s, all).Some? {
        DamageShows(LiteralIn(s, all).value, Partly(s[6..], all), PyBody(s[1..]));
      } else if s[0] == LS || s[0] == PS {
        DirtyToken(s[0], Partly(s[1..], all), PyBody(s[1..]));
      } else {
        SameFront(Token(s[0]), Partly(s[1..], all), PyBody(s[1..]));
      }
    }
  }

  lemma DamageShows(h: char, x: string, y: string)
    requires Html(h)
    ensures "\\" + [h] + x != Token('\\') + y
  {
    assert ("\\" + [h] + x)[1] == h && (Token('\\') + y)[1] == '\\';
  }

  lemma DirtyToken(c: char, x: string, y: string)
    requires !CleanKeyChar(c)
    ensures GoToken(c) + x != Token(c) + y
  {
    assert (GoToken(c) + x)[0] == '\\' && (Token(c) + y)[0] == c;
  }

  lemma SameFront(t: string, x: string, y: string)
    ensures t + x == t + y <==> x == y
  {
    assert (t + x)[|t|..] == x && (t + y)[|t|..] == y;
  }

  /** Keys keep Go's escapes, so they agree exactly without HTML characters and separators. */
  predicate CleanKey(s: string) {
    forall i :: 0 <= i < |s| ==> CleanKeyChar(s[i])
  }

  predicate CleanKeyChar(c: char) {
    !Html(c) && c != LS && c != PS
  }

  lemma {:induction false} KeysAgree(s: string)
    ensures GoJson(s) == PyBody(s) <==> CleanKey(s)
  {
    if s != "" {
      KeysAgree(s[1..]);
      if CleanKeyChar(s[0]) {
        SameFront(Token(s[0]), GoJson(s[1..]), PyBody(s[1..]));
      } else {
        DirtyToken(s[0], GoJson(s[1..]), PyBody(s[1..]));
      }
    }
  }
}
