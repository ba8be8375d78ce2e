/**
 * The templating layer (main.go:190-206): a template text is parsed into
 * literal text and `{{.Field}}` actions, and executing it against a
 * `Service` writes the literal text unchanged and each field's value
 * HTML-escaped, as Go's html/template does for values in text context.
 * html/template also rewrites a `<` in literal text that opens no tag to
 * `&lt;`, and reads one that does as HTML markup; the model takes template
 * text to contain no `<`, as the program's three templates do not.
 *
 * Only the action form the repository uses, exactly `{{.Name}}`,
 * `{{.Context}}`, `{{.Namespace}}` or `{{.AccountName}}`, is recognised;
 * any other `{{` is a failure, and parseTemplate answers a failure with "".
 */
module Templates {
  import opened Wrappers
  import opened Services

  /** The four fields of a `Service` a template may reference. */
  datatype Field = Name | Context | Namespace | AccountName

  /** A parsed template is a sequence of pieces. */
  datatype Piece = Text(text: string) | Action(field: Field)

  /** The identifier a template uses for a field. */
  function FieldName(f: Field): string
  {
    match f
    case Name => "Name"
    case Context => "Context"
    case Namespace => "Namespace"
    case AccountName => "AccountName"
  }

  function FieldValue(s: Service, f: Field): string
  {
    match f
    case Name => s.name
    case Context => s.context
    case Namespace => s.namespace
    case AccountName => s.accountName
  }

  // ---------------------------------------------------------------------------
  // HTML escaping of substituted values
  // ---------------------------------------------------------------------------

  /** The characters html/template rewrites in a value substituted into text. */
  predicate Special(c: char)
  {
    c == '\0' || c == '"' || c == '&' || c == '\'' || c == '+' || c == '<' || c == '>'
  }

  /** A value none of whose characters is rewritten by the escaper. */
  predicate Plain(s: string)
  {
    forall i :: 0 <= i < |s| ==> !Special(s[i])
  }

  function EscapeChar(c: char): (r: string)
    ensures Special(c) <==> r != [c]
    ensures |r| >= 1
  {
    match c
    case '\0' => "\U{FFFD}"
    case '"' => "&#34;"
    case '&' => "&amp;"
    case '\'' => "&#39;"
    case '+' => "&#43;"
    case '<' => "&lt;"
    case '>' => "&gt;"
    case _ => [c]
  }

  /** The escaped form of a substituted value. */
  function Escape(s: string): (r: string)
    ensures |r| >= |s|
  {
    if s == [] then [] else EscapeChar(s[0]) + Escape(s[1..])
  }

  /** A value is written unchanged exactly when it is plain. */
  lemma {:induction false} EscapeIdentity(s: string)
    ensures Escape(s) == s <==> Plain(s)
  {
    if s != [] {
      EscapeIdentity(s[1..]);
      var head := EscapeChar(s[0]);
      if Special(s[0]) {
        if |head| == 1 {
          assert Escape(s)[0] == head[0] != s[0];
        } else {
          assert |Escape(s)| > |s|;
        }
      } else {
        assert Plain(s) <==> Plain(s[1..]) by {
          if Plain(s[1..]) {
            forall i | 0 <= i < |s| ensures !Special(s[i]) {
              if i > 0 { assert s[i] == s[1..][i - 1]; }
            }
          }
          if Plain(s) {
            forall i | 0 <= i < |s| - 1 ensures !Special(s[1..][i]) {
              assert s[1..][i] == s[i + 1];
            }
          }
        }
        assert Escape(s) == [s[0]] + Escape(s[1..]);
        assert s == [s[0]] + s[1..];
      }
    }
  }

  /** Escaping works character by character, so it distributes over concatenation. */
  lemma {:induction false} EscapeAppend(a: string, b: string)
    ensures Escape(a + b) == Escape(a) + Escape(b)
  {
    if a == [] {
      assert a + b == b;
    } else {
      assert (a + b)[0] == a[0];
      assert (a + b)[1..] == a[1..] + b;
      EscapeAppend(a[1..], b);
      var head := EscapeChar(a[0]);
      calc {
        Escape(a + b);
        head + Escape(a[1..] + b);
        head + (Escape(a[1..]) + Escape(b));
        (head + Escape(a[1..])) + Escape(b);
        Escape(a) + Escape(b);
      }
    }
  }

  /** Escaping leaves no quote, angle bracket, plus sign or NUL in its output. */
  lemma {:induction false} EscapeNeutralises(s: string)
    ensures forall i :: 0 <= i < |Escape(s)| ==> Escape(s)[i] != '&' ==> !Special(Escape(s)[i])
  {
    if s != [] {
      EscapeNeutralises(s[1..]);
      var head, tail := EscapeChar(s[0]), Escape(s[1..]);
      assert forall i :: 0 <= i < |head| ==> head[i] != '&' ==> !Special(head[i]);
      forall i | 0 <= i < |head + tail| && (head + tail)[i] != '&'
        ensures !Special((head + tail)[i])
      {
        if i >= |head| { assert (head + tail)[i] == tail[i - |head|]; }
      }
    }
  }

  // ---------------------------------------------------------------------------
  // Template text and its pieces
  // ---------------------------------------------------------------------------

  predicate StartsWith(s: string, prefix: string)
  {
    |prefix| <= |s| && s[..|prefix|] == prefix
  }

  /** How an action referencing `f` is written in a template. */
  function ActionSource(f: Field): (r: string)
  {
    "{{." + FieldName(f) + "}}"
  }

  function PieceSource(p: Piece): string
  {
    match p
    case Text(t) => t
    case Action(f) => ActionSource(f)
  }

  /** The template text that the pieces are written as. */
  function Source(ps: seq<Piece>): string
  {
    if ps == [] then "" else PieceSource(ps[0]) + Source(ps[1..])
  }

  lemma SourceCons(p: Piece, rest: seq<Piece>)
    ensures Source([p] + rest) == PieceSource(p) + Source(rest)
  {
    assert ([p] + rest)[1..] == rest;
  }

  /** Recognises the action at the start of `t`, which starts with `{{`. */
  function ParseAction(t: string): (r: Option<Field>)
    ensures r.Some? ==> StartsWith(t, ActionSource(r.value))
    ensures r.None? <==> forall f: Field :: !StartsWith(t, ActionSource(f))
  {
    if StartsWith(t, ActionSource(Name)) then Some(Name)
    else if StartsWith(t, ActionSource(Context)) then Some(Context)
    else if StartsWith(t, ActionSource(Namespace)) then Some(Namespace)
    else if StartsWith(t, ActionSource(AccountName)) then Some(AccountName)
    else None
  }

  /** Adds one literal character in front of parsed pieces. */
  function Prepend(c: char, ps: seq<Piece>): seq<Piece>
  {
    if ps != [] && ps[0].Text? then [Text([c] + ps[0].text)] + ps[1..] else [Text([c])] + ps
  }

  /**
   * Splits a template text into pieces: `{{` starts an action, which must be
   * one of the four field references; everything else is literal text, and
   * adjacent literal characters form one text piece.
   */
  function Parse(t: string): Option<seq<Piece>>
    decreases |t|
  {
    if t == [] then Some([])
    else if StartsWith(t, "{{") then
      match ParseAction(t)
      case None => None
      case Some(f) =>
        match Parse(t[|ActionSource(f)|..])
        case None => None
        case Some(ps) => Some([Action(f)] + ps)
    else
      match Parse(t[1..])
      case None => None
      case Some(ps) => Some(Prepend(t[0], ps))
  }

  /** No two consecutive characters of `t` open an action. */
  predicate NoDelimiter(t: string)
  {
    forall j :: 0 <= j < |t| - 1 ==> !(t[j] == '{' && t[j + 1] == '{')
  }

  /** Literal text that parses back as one text piece, whatever follows it. */
  predicate LiteralText(t: string)
  {
    t != [] && t[|t| - 1] != '{' && NoDelimiter(t)
  }

  /** Literal text that parses back as one text piece at the end of a template. */
  predicate FinalText(t: string)
  {
    t != [] && NoDelimiter(t)
  }

  /**
   * Pieces in the form the parser produces: adjacent literal characters
   * form one text piece, so a text piece is followed by an action or ends
   * the template; no text piece holds `{{`, and one followed by an action
   * does not end in `{`.
   */
  predicate WellFormed(ps: seq<Piece>)
  {
    && (forall i :: 0 <= i < |ps| - 1 ==> TextBeforeAction(ps, i))
    && (ps != [] && ps[|ps| - 1].Text? ==> FinalText(ps[|ps| - 1].text))
  }

  /** A text piece at `i` that is not the last is literal text followed by an action. */
  predicate TextBeforeAction(ps: seq<Piece>, i: int)
  {
    0 <= i < |ps| - 1 && ps[i].Text? ==> LiteralText(ps[i].text) && ps[i + 1].Action?
  }

  lemma {:induction false} PrependSource(c: char, ps: seq<Piece>)
    ensures Source(Prepend(c, ps)) == [c] + Source(ps)
  {
    if ps != [] && ps[0].Text? {
      var rest := ps[1..];
      assert Prepend(c, ps)[1..] == rest;
      assert Source(ps) == ps[0].text + Source(rest);
    } else {
      assert Prepend(c, ps)[1..] == ps;
    }
  }

  /** Whatever parses re-prints as the text it was parsed from. */
  lemma {:induction false} ParseSound(t: string)
    ensures Parse(t).Some? ==> Source(Parse(t).value) == t
    decreases |t|
  {
    if t != [] && Parse(t).Some? {
      if StartsWith(t, "{{") {
        var f := ParseAction(t).value;
        var n := |ActionSource(f)|;
        ParseSound(t[n..]);
        var ps := Parse(t[n..]).value;
        assert Parse(t) == Some([Action(f)] + ps);
        SourceCons(Action(f), ps);
        assert t[..n] == ActionSource(f);
        assert t == t[..n] + t[n..];
      } else {
        ParseSound(t[1..]);
        PrependSource(t[0], Parse(t[1..]).value);
        assert t == [t[0]] + t[1..];
      }
    }
  }

  /** One parsing step over a character that does not open an action. */
  lemma ParseChar(t: string)
    requires t != [] && !StartsWith(t, "{{")
    ensures Parse(t) == match Parse(t[1..]) case None => None case Some(ps) => Some(Prepend(t[0], ps))
  {
  }

  lemma LiteralTail(s: string)
    requires FinalText(s) && |s| > 1
    ensures FinalText(s[1..]) && s[1..][|s| - 2] == s[|s| - 1] && (s[0] != '{' || s[1] != '{')
  {
    var s' := s[1..];
    forall j | 0 <= j < |s'| - 1 ensures !(s'[j] == '{' && s'[j + 1] == '{') {
      assert s'[j] == s[j + 1] && s'[j + 1] == s[j + 2];
    }
  }

  /**
   * Parsing literal text followed by an action or the end of the text; text
   * followed by an action must not end in `{`.
   */
  lemma {:induction false} ParseLiteral(s: string, rest: string, ps: seq<Piece>)
    requires FinalText(s) && (rest != [] ==> s[|s| - 1] != '{')
    requires Parse(rest) == Some(ps)
    requires ps == [] || ps[0].Action?
    ensures Parse(s + rest) == Some([Text(s)] + ps)
    decreases |s|
  {
    var t := s + rest;
    if |s| == 1 {
      assert t == [s[0]] + rest;
      ParseOneChar(s[0], rest, ps);
    } else {
      assert t[0] == s[0];
      var s' := s[1..];
      LiteralTail(s);
      ParseLiteral(s', rest, ps);
      var pieces := [Text(s')] + ps;
      DropFirst(s, rest);
      assert s'[0] == s[1];
      ParseStep(t, s', rest, pieces);
      PrependText(s[0], s', ps);
      assert [s[0]] + s' == s;
    }
  }

  lemma ParseOneChar(c: char, rest: string, ps: seq<Piece>)
    requires rest != [] ==> c != '{'
    requires Parse(rest) == Some(ps)
    requires ps == [] || ps[0].Action?
    ensures Parse([c] + rest) == Some([Text([c])] + ps)
  {
    var t := [c] + rest;
    assert !StartsWith(t, "{{") by {
      if |t| >= 2 { assert t[..2][0] == c; }
    }
    assert t[1..] == rest;
    ParseChar(t);
  }

  lemma DropFirst(s: string, rest: string)
    requires s != []
    ensures (s + rest)[1..] == s[1..] + rest
  {
  }

  lemma PrependText(c: char, s: string, ps: seq<Piece>)
    ensures Prepend(c, [Text(s)] + ps) == [Text([c] + s)] + ps
  {
    assert ([Text(s)] + ps)[1..] == ps;
  }

  lemma ParseStep(t: string, s': string, rest: string, pieces: seq<Piece>)
    requires |t| >= 2 && t[1..] == s' + rest && s' != [] && (t[0] != '{' || s'[0] != '{')
    requires Parse(s' + rest) == Some(pieces)
    ensures Parse(t) == Some(Prepend(t[0], pieces))
  {
    assert !StartsWith(t, "{{") by {
      assert t[..2][0] == t[0] && t[..2][1] == t[1] == s'[0];
    }
    ParseChar(t);
  }

  lemma ParseActionOf(f: Field, rest: string)
    ensures ParseAction(ActionSource(f) + rest) == Some(f)
  {
    var t := ActionSource(f) + rest;
    assert t[..|ActionSource(f)|] == ActionSource(f);
    match f
    case Name =>
    case Context =>
      assert t[3] == 'C';
    case Namespace =>
      assert t[3] == 'N' && t[7] == 's';
    case AccountName =>
      assert t[3] == 'A';
  }

  /** Parsing an action followed by more template text. */
  lemma ParseActionPrefix(f: Field, rest: string, ps: seq<Piece>)
    requires Parse(rest) == Some(ps)
    ensures Parse(ActionSource(f) + rest) == Some([Action(f)] + ps)
  {
    var t := ActionSource(f) + rest;
    ParseActionOf(f, rest);
    assert StartsWith(t, "{{") by {
      assert t[0] == '{' && t[1] == '{';
    }
    assert t[|ActionSource(f)|..] == rest;
  }

  lemma WellFormedTail(ps: seq<Piece>)
    requires ps != [] && WellFormed(ps)
    ensures WellFormed(ps[1..])
  {
    var rest := ps[1..];
    forall i | 0 <= i < |rest| - 1 ensures TextBeforeAction(rest, i) {
      assert TextBeforeAction(ps, i + 1);
      assert rest[i] == ps[i + 1] && rest[i + 1] == ps[i + 2];
    }
    if rest != [] { assert rest[|rest| - 1] == ps[|ps| - 1]; }
  }

  /** Well-formed pieces are exactly what their text parses back to. */
  lemma {:induction false} ParseSource(ps: seq<Piece>)
    requires WellFormed(ps)
    ensures Parse(Source(ps)) == Some(ps)
  {
    if ps != [] {
      var rest := ps[1..];
      WellFormedTail(ps);
      ParseSource(rest);
      assert ps == [ps[0]] + rest;
      match ps[0]
      case Text(s) =>
        if rest == [] {
          assert FinalText(s);
          assert Source(rest) == [];
        } else {
          WellFormedAt(ps, 0);
          assert rest[0] == ps[1];
        }
        ParseLiteral(s, Source(rest), rest);
      case Action(f) =>
        ParseActionPrefix(f, Source(rest), rest);
    }
  }

  /** Prepending an action to well-formed pieces keeps them well-formed. */
  lemma WellFormedAction(f: Field, ps: seq<Piece>)
    requires WellFormed(ps)
    ensures WellFormed([Action(f)] + ps)
  {
    var qs := [Action(f)] + ps;
    forall i | 0 <= i < |qs| - 1 ensures TextBeforeAction(qs, i) {
      if i > 0 {
        assert TextBeforeAction(ps, i - 1);
        assert qs[i] == ps[i - 1] && qs[i + 1] == ps[i];
      }
    }
    if ps != [] { assert qs[|qs| - 1] == ps[|ps| - 1]; }
  }

  /**
   * Prepending a character to well-formed pieces whose text is `rest` keeps
   * them well-formed, unless the character and the start of `rest` open an
   * action together.
   */
  lemma WellFormedPrepend(c: char, ps: seq<Piece>)
    requires WellFormed(ps)
    requires var rest := Source(ps); !(c == '{' && rest != [] && rest[0] == '{')
    ensures WellFormed(Prepend(c, ps))
  {
    if ps != [] && ps[0].Text? {
      assert Source(ps) == ps[0].text + Source(ps[1..]);
      PrependIntoText(c, ps);
    } else {
      if ps != [] {
        assert Source(ps) == ActionSource(ps[0].field) + Source(ps[1..]);
      }
      PrependBeforeAction(c, ps);
    }
  }

  lemma WellFormedAt(ps: seq<Piece>, i: nat)
    requires WellFormed(ps) && i < |ps| - 1 && ps[i].Text?
    ensures LiteralText(ps[i].text) && ps[i + 1].Action?
  {
    assert TextBeforeAction(ps, i);
  }

  lemma PrependIntoText(c: char, ps: seq<Piece>)
    requires WellFormed(ps) && ps != [] && ps[0].Text?
    requires !(c == '{' && ps[0].text != [] && ps[0].text[0] == '{')
    ensures WellFormed(Prepend(c, ps))
  {
    var qs := Prepend(c, ps);
    var u := ps[0].text;
    var v := [c] + u;
    assert FinalText(u) by {
      if |ps| > 1 { WellFormedAt(ps, 0); }
    }
    assert NoDelimiter(v) by {
      forall j | 0 <= j < |v| - 1 ensures !(v[j] == '{' && v[j + 1] == '{') {
        if j > 0 { assert v[j] == u[j - 1] && v[j + 1] == u[j]; }
      }
    }
    assert v[|v| - 1] == u[|u| - 1];
    assert qs == [Text(v)] + ps[1..];
    forall i | 0 <= i < |qs| - 1 ensures TextBeforeAction(qs, i) {
      if i > 0 {
        assert TextBeforeAction(ps, i);
        assert qs[i] == ps[i] && qs[i + 1] == ps[i + 1];
      } else {
        WellFormedAt(ps, 0);
        assert qs[1] == ps[1];
      }
    }
    if |ps| > 1 { assert qs[|qs| - 1] == ps[|ps| - 1]; }
  }

  lemma PrependBeforeAction(c: char, ps: seq<Piece>)
    requires WellFormed(ps) && (ps == [] || ps[0].Action?)
    requires ps != [] ==> c != '{'
    ensures WellFormed(Prepend(c, ps))
  {
    var qs := Prepend(c, ps);
    assert qs == [Text([c])] + ps;
    forall i | 0 <= i < |qs| - 1 ensures TextBeforeAction(qs, i) {
      if i > 0 {
        assert TextBeforeAction(ps, i - 1);
        assert qs[i] == ps[i - 1] && qs[i + 1] == ps[i];
      }
    }
    if ps != [] { assert qs[|qs| - 1] == ps[|ps| - 1]; }
  }

  /** Everything the parser returns is well-formed, so `ParseSource` covers it. */
  lemma {:induction false} ParseWellFormed(t: string)
    ensures Parse(t).Some? ==> WellFormed(Parse(t).value)
    decreases |t|
  {
    if t != [] && Parse(t).Some? {
      if StartsWith(t, "{{") {
        var f := ParseAction(t).value;
        ParseWellFormed(t[|ActionSource(f)|..]);
        WellFormedAction(f, Parse(t[|ActionSource(f)|..]).value);
      } else {
        var ps := Parse(t[1..]).value;
        ParseWellFormed(t[1..]);
        ParseSound(t[1..]);
        assert !(t[0] == '{' && t[1..] != [] && t[1..][0] == '{') by {
          if |t| >= 2 { assert t[..2] == [t[0], t[1..][0]]; }
        }
        WellFormedPrepend(t[0], ps);
      }
    }
  }

  /** The parser's results are exactly the well-formed pieces written as the template. */
  lemma ParseExactly(t: string, ps: seq<Piece>)
    ensures Parse(t) == Some(ps) <==> WellFormed(ps) && Source(ps) == t
  {
    ParseSound(t);
    ParseWellFormed(t);
    if WellFormed(ps) && Source(ps) == t {
      ParseSource(ps);
    }
  }

  // ---------------------------------------------------------------------------
  // Execution
  // ---------------------------------------------------------------------------

  function PieceValue(p: Piece, s: Service): string
  {
    match p
    case Text(t) => t
    case Action(f) => Escape(FieldValue(s, f))
  }

  /** What executing the pieces against `s` writes, piece after piece. */
  function Render(ps: seq<Piece>, s: Service): string
  {
    if ps == [] then "" else Render(ps[..|ps| - 1], s) + PieceValue(ps[|ps| - 1], s)
  }

  lemma {:induction false} RenderCons(p: Piece, ps: seq<Piece>, s: Service)
    ensures Render([p] + ps, s) == PieceValue(p, s) + Render(ps, s)
    decreases |ps|
  {
    var whole := [p] + ps;
    if ps == [] {
      assert whole[..0] == [];
    } else {
      var init, last := ps[..|ps| - 1], ps[|ps| - 1];
      RenderCons(p, init, s);
      assert whole[..|ps|] == [p] + init;
      assert whole[|ps|] == last;
      assert Render(whole, s) == Render([p] + init, s) + PieceValue(last, s);
      assert Render(ps, s) == Render(init, s) + PieceValue(last, s);
      Associate(PieceValue(p, s), Render(init, s), PieceValue(last, s));
    }
  }

  lemma Associate<T>(a: seq<T>, b: seq<T>, c: seq<T>)
    ensures (a + b) + c == a + (b + c)
  {
  }

  /** The result of parseTemplate: the rendered text, or "" on failure. */
  function Rendered(t: string, s: Service): string
  {
    match Parse(t)
    case None => ""
    case Some(ps) => Render(ps, s)
  }

  /**
   * parseTemplate: parse `t`, then execute it, writing each piece's output
   * into a buffer; a parse failure yields "".
   */
  method ParseTemplate(t: string, s: Service) returns (out: string)
    ensures out == Rendered(t, s)
    ensures Parse(t).None? ==> out == ""
  {
    var parsed := Parse(t);
    if parsed.None? {
      return "";
    }
    var ps := parsed.value;
    var writer := "";
    var i := 0;
    while i < |ps|
      invariant 0 <= i <= |ps|
      invariant writer == Render(ps[..i], s)
    {
      assert ps[..i + 1][..i] == ps[..i];
      writer := writer + PieceValue(ps[i], s);
      i := i + 1;
    }
    assert ps[..|ps|] == ps;
    out := writer;
  }

}
