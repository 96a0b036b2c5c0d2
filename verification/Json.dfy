/** Brackets and quotes of a JSON text, read left to right. */
module Json {

  datatype Mode = Plain | Quoted | Escaped

  /** The brackets still open and whether the reader is inside a string; `Broken` once a bracket does not match. */
  datatype Lex = Broken | Lex(open: string, mode: Mode)

  const START := Lex("", Plain)

  predicate Closes(open: string, c: char) {
    open != "" && ((open[|open| - 1] == '{' && c == '}') || (open[|open| - 1] == '[' && c == ']'))
  }

  function Step(l: Lex, c: char): Lex {
    match l
    case Broken => Broken
    case Lex(open, Escaped) => Lex(open, Quoted)
    case Lex(open, Quoted) => Lex(open, if c == '"' then Plain else if c == '\\' then Escaped else Quoted)
    case Lex(open, Plain) =>
      if c == '"' then Lex(open, Quoted)
      else if c == '{' || c == '[' then Lex(open + [c], Plain)
      else if c == '}' || c == ']' then (if Closes(open, c) then Lex(open[..|open| - 1], Plain) else Broken)
      else l
  }

  function Read(l: Lex, text: string): Lex {
    if text == "" then l else Step(Read(l, text[..|text| - 1]), text[|text| - 1])
  }

  /** A text a parser can accept: something was opened and everything was closed. */
  predicate Complete(text: string) {
    text != "" && Read(START, text) == START
  }

  lemma {:induction false} ReadConcat(l: Lex, a: string, b: string)
    ensures Read(l, a + b) == Read(Read(l, a), b)
  {
    if b == "" {
      assert a + b == a;
    } else {
      assert (a + b)[..|a + b| - 1] == a + b[..|b| - 1];
      ReadConcat(l, a, b[..|b| - 1]);
    }
  }

  lemma {:induction false} BrokenStays(text: string)
    ensures Read(Broken, text).Broken?
  {
    if text != "" { BrokenStays(text[..|text| - 1]); }
  }

  lemma PrefixUnbroken(l: Lex, a: string, b: string)
    requires a <= b && !Read(l, b).Broken?
    ensures !Read(l, a).Broken?
  {
    assert b == a + b[|a|..];
    ReadConcat(l, a, b[|a|..]);
    if Read(l, a).Broken? { BrokenStays(b[|a|..]); }
  }

  /** The same reading with more brackets open underneath. */
  function Under(base: string, l: Lex): Lex {
    match l case Broken => Broken case Lex(open, mode) => Lex(base + open, mode)
  }

  lemma StepUnder(base: string, l: Lex, c: char)
    requires !Step(l, c).Broken?
    ensures Step(Under(base, l), c) == Under(base, Step(l, c))
  {
    if l.mode.Plain? && (c == '{' || c == '[') {
      assert base + (l.open + [c]) == (base + l.open) + [c];
    }
    if l.mode.Plain? && Closes(l.open, c) {
      assert (base + l.open)[..|base + l.open| - 1] == base + l.open[..|l.open| - 1];
    }
  }

  /** A text that reads well on its own never looks below the brackets it is inside of. */
  lemma {:induction false} ReadUnder(base: string, l: Lex, text: string)
    requires !Read(l, text).Broken?
    ensures Read(Under(base, l), text) == Under(base, Read(l, text))
  {
    if text != "" {
      var front := text[..|text| - 1];
      ReadUnder(base, l, front);
      StepUnder(base, Read(l, front), text[|text| - 1]);
    }
  }

  // ---------- values ----------

  /** Read on its own, the text leaves nothing open. */
  predicate Neutral(text: string) {
    Read(START, text) == START
  }

  lemma NeutralUnder(base: string, text: string)
    requires Neutral(text)
    ensures Read(Lex(base, Plain), text) == Lex(base, Plain)
  {
    assert Under(base, START) == Lex(base, Plain) by { assert base + "" == base; }
    ReadUnder(base, START, text);
  }

  lemma NeutralConcat(a: string, b: string)
    requires Neutral(a) && Neutral(b)
    ensures Neutral(a + b)
  {
    ReadConcat(START, a, b);
  }

  lemma ReadOne(l: Lex, c: char)
    ensures Read(l, [c]) == Step(l, c)
  {
    assert [c][..0] == "";
    assert Read(l, "") == l;
  }

  /** Brackets around a neutral text. */
  lemma NeutralBrackets(a: char, text: string, b: char)
    requires Neutral(text) && ((a == '{' && b == '}') || (a == '[' && b == ']'))
    ensures Neutral([a] + text + [b])
  {
    ReadOne(START, a);
    assert "" + [a] == [a];
    ReadConcat(START, [a], text);
    NeutralUnder([a], text);
    ReadConcat(START, [a] + text, [b]);
    ReadOne(Lex([a], Plain), b);
    assert [a][..0] == "";
  }

  predicate PlainChar(c: char) {
    c != '"' && c != '\\' && c != '{' && c != '}' && c != '[' && c != ']'
  }

  predicate PlainText(text: string) {
    forall i :: 0 <= i < |text| ==> PlainChar(text[i])
  }

  lemma {:induction false} PlainIsNeutral(l: Lex, text: string)
    requires PlainText(text) && l.Lex? && !l.mode.Escaped?
    ensures Read(l, text) == l
  {
    if text != "" { PlainIsNeutral(l, text[..|text| - 1]); }
  }

  /** A quoted string without quotes or escapes in it. */
  lemma QuotedIsNeutral(text: string)
    requires PlainText(text)
    ensures Neutral("\"" + text + "\"")
  {
    ReadOne(START, '"');
    ReadConcat(START, "\"", text);
    PlainIsNeutral(Lex("", Quoted), text);
    ReadConcat(START, "\"" + text, "\"");
    ReadOne(Lex("", Quoted), '"');
  }

  /** After an opening brace, a text that reads well on its own is not complete, however it goes on. */
  lemma Unclosed(rest: string)
    requires !Read(START, rest).Broken?
    ensures !Complete("{" + rest)
  {
    ReadOne(START, '{');
    assert "" + ['{'] == "{";
    ReadConcat(START, "{", rest);
    assert Under("{", START) == Lex("{", Plain) by { assert "{" + "" == "{"; }
    ReadUnder("{", START, rest);
  }
}
