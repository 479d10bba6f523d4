/** `unescape_format_string` and its use in `gen_properties` of fastrace-macro/src/lib.rs: a property value
    without placeholders becomes a literal with its doubled braces undone, any other is left to `format!`. */
module FormatString {
  /** `s.replace([c, c], replacement)`: leftmost matches, without overlap. */
  function ReplaceDouble(s: string, c: char, replacement: string): string {
    if |s| < 2 then s
    else if s[0] == c && s[1] == c then replacement + ReplaceDouble(s[2..], c, replacement)
    else [s[0]] + ReplaceDouble(s[1..], c, replacement)
  }

  function UnescapeFormatString(s: string): (string, bool) {
    var deleted := ReplaceDouble(ReplaceDouble(s, '{', ""), '}', "");
    if '{' in deleted || '}' in deleted then (s, true)
    else (ReplaceDouble(ReplaceDouble(s, '{', "{"), '}', "}"), false)
  }

  /** What `gen_properties` generates for a value: a call of `format!`, or a literal. */
  datatype PropertyValue = FormatOf(template: string) | Literal(text: string)

  function GenProperty(v: string): PropertyValue {
    var (text, needFormat) := UnescapeFormatString(v);
    if needFormat then FormatOf(text) else Literal(text)
  }

  // Format strings and their meaning

  datatype Piece = Plain(c: char) | OpenBrace | CloseBrace | Placeholder(body: string)

  predicate NoBraces(s: string) {
    '{' !in s && '}' !in s
  }

  predicate WellFormedPiece(p: Piece) {
    match p
    case Plain(c) => c != '{' && c != '}'
    case Placeholder(body) => NoBraces(body)
    case _ => true
  }

  predicate WellFormed(pieces: seq<Piece>) {
    forall i :: 0 <= i < |pieces| ==> WellFormedPiece(pieces[i])
  }

  predicate HasPlaceholder(pieces: seq<Piece>) {
    exists p <- pieces :: p.Placeholder?
  }

  function PieceSource(p: Piece): string {
    match p
    case Plain(c) => [c]
    case OpenBrace => "{{"
    case CloseBrace => "}}"
    case Placeholder(body) => "{" + body + "}"
  }

  function Source(pieces: seq<Piece>): string {
    if pieces == [] then "" else PieceSource(pieces[0]) + Source(pieces[1..])
  }

  /** The formatted text, given the values of the placeholders. */
  function Formatted(pieces: seq<Piece>, values: string -> string): string {
    if pieces == [] then ""
    else
      (match pieces[0]
       case Plain(c) => [c]
       case OpenBrace => "{"
       case CloseBrace => "}"
       case Placeholder(body) => values(body)) + Formatted(pieces[1..], values)
  }

  /** The source after the doubled opening braces have been replaced. */
  function Halfway(pieces: seq<Piece>, replacement: string): string {
    if pieces == [] then ""
    else (if pieces[0].OpenBrace? then replacement else PieceSource(pieces[0])) + Halfway(pieces[1..], replacement)
  }

  // Replacement

  lemma {:induction false} SkipPrefix(prefix: string, rest: string, c: char, replacement: string)
    requires c !in prefix
    ensures ReplaceDouble(prefix + rest, c, replacement) == prefix + ReplaceDouble(rest, c, replacement)
  {
    hide ReplaceDouble;
    if prefix == "" {
      assert prefix + rest == rest;
    } else {
      var tail := prefix[1..];
      SkipPrefix(tail, rest, c, replacement);
      assert prefix + rest == [prefix[0]] + (tail + rest);
      SkipFirst(prefix[0], tail + rest, c, replacement);
      assert prefix == [prefix[0]] + tail;
    }
  }

  lemma {:induction false} SkipFirst(first: char, rest: string, c: char, replacement: string)
    requires first != c
    ensures ReplaceDouble([first] + rest, c, replacement) == [first] + ReplaceDouble(rest, c, replacement)
  {
    assert ([first] + rest)[1..] == rest;
  }

  /** A single brace that no brace of the same kind follows stays. */
  lemma {:induction false} SkipSingle(c: char, rest: string, replacement: string)
    requires rest == "" || rest[0] != c
    ensures ReplaceDouble([c] + rest, c, replacement) == [c] + ReplaceDouble(rest, c, replacement)
  {
    assert ([c] + rest)[1..] == rest;
  }

  lemma {:induction false} EmptyStays(c: char, replacement: string)
    ensures ReplaceDouble("", c, replacement) == ""
  {
  }

  lemma {:induction false} PairReplaced(c: char, rest: string, replacement: string)
    ensures ReplaceDouble([c, c] + rest, c, replacement) == replacement + ReplaceDouble(rest, c, replacement)
  {
    assert ([c, c] + rest)[2..] == rest;
  }

  lemma {:induction false} PlaceholderStays(body: string, rest: string, replacement: string)
    requires NoBraces(body)
    ensures ReplaceDouble("{" + body + "}" + rest, '{', replacement)
            == "{" + body + "}" + ReplaceDouble(rest, '{', replacement)
  {
    hide ReplaceDouble;
    var tail := body + "}";
    assert "{" + body + "}" + rest == ['{'] + (tail + rest);
    SkipSingle('{', tail + rest, replacement);
    SkipPrefix(tail, rest, '{', replacement);
    assert ['{'] + (tail + ReplaceDouble(rest, '{', replacement))
           == "{" + body + "}" + ReplaceDouble(rest, '{', replacement);
  }

  /** The first replacement sees each piece on its own: neighbouring pieces never form a new pair of opening braces. */
  lemma {:induction false} FirstReplacement(pieces: seq<Piece>, replacement: string)
    requires WellFormed(pieces)
    ensures ReplaceDouble(Source(pieces), '{', replacement) == Halfway(pieces, replacement)
  {
    hide ReplaceDouble;
    if pieces == [] {
      EmptyStays('{', replacement);
    } else {
      assert WellFormedPiece(pieces[0]);
      var rest := Source(pieces[1..]);
      FirstReplacement(pieces[1..], replacement);
      match pieces[0]
      case Plain(c) => SkipPrefix([c], rest, '{', replacement);
      case OpenBrace => PairReplaced('{', rest, replacement);
      case CloseBrace => SkipPrefix("}}", rest, '{', replacement);
      case Placeholder(body) => PlaceholderStays(body, rest, replacement);
    }
  }

  /** Without placeholders, both replacements together treat each doubled brace by itself. */
  function Replaced(pieces: seq<Piece>, open: string, close: string): string {
    if pieces == [] then ""
    else
      (match pieces[0]
       case Plain(c) => [c]
       case OpenBrace => open
       case CloseBrace => close
       case Placeholder(_) => "") + Replaced(pieces[1..], open, close)
  }

  lemma {:induction false} SecondReplacement(pieces: seq<Piece>, open: string, close: string)
    requires WellFormed(pieces) && !HasPlaceholder(pieces) && '}' !in open
    ensures ReplaceDouble(Halfway(pieces, open), '}', close) == Replaced(pieces, open, close)
  {
    if pieces != [] {
      assert WellFormedPiece(pieces[0]);
      var rest := Halfway(pieces[1..], open);
      SecondReplacement(pieces[1..], open, close);
      match pieces[0]
      case Plain(c) => SkipPrefix([c], rest, '}', close);
      case OpenBrace => SkipPrefix(open, rest, '}', close);
      case CloseBrace => assert ("}}" + rest)[2..] == rest;
      case Placeholder(_) => assert false;
    }
  }

  lemma {:induction false} OtherCharsStay(s: string, c: char, replacement: string, other: char)
    requires other in s && other != c
    ensures other in ReplaceDouble(s, c, replacement)
  {
    if |s| >= 2 {
      if s[0] == c && s[1] == c {
        assert s == [c, c] + s[2..];
        OtherCharsStay(s[2..], c, replacement, other);
      } else if s[0] != other {
        assert s == [s[0]] + s[1..];
        OtherCharsStay(s[1..], c, replacement, other);
      }
    }
  }

  lemma {:induction false} PlaceholderBraceStays(pieces: seq<Piece>)
    requires HasPlaceholder(pieces)
    ensures '{' in Halfway(pieces, "")
  {
    if pieces[0].Placeholder? {
      assert Halfway(pieces, "")[0] == '{';
    } else {
      assert HasPlaceholder(pieces[1..]) by {
        var p :| p in pieces && p.Placeholder?;
        assert p in pieces[1..];
      }
      PlaceholderBraceStays(pieces[1..]);
    }
  }

  lemma {:induction false} DeletedHasNoBraces(pieces: seq<Piece>)
    requires WellFormed(pieces)
    ensures NoBraces(Replaced(pieces, "", ""))
  {
    if pieces != [] {
      assert WellFormedPiece(pieces[0]);
      DeletedHasNoBraces(pieces[1..]);
    }
  }

  lemma {:induction false} ReplacedIsFormatted(pieces: seq<Piece>, values: string -> string)
    requires !HasPlaceholder(pieces)
    ensures Replaced(pieces, "{", "}") == Formatted(pieces, values)
  {
    if pieces != [] {
      ReplacedIsFormatted(pieces[1..], values);
    }
  }

  // The laws

  /** For every well-formed format string the flag says exactly whether a placeholder exists; without one the returned
      text is the formatted text, with one the string is passed on as it is. */
  lemma {:induction false} UnescapeIsFormat(pieces: seq<Piece>, values: string -> string)
    requires WellFormed(pieces)
    ensures UnescapeFormatString(Source(pieces)).1 <==> HasPlaceholder(pieces)
    ensures UnescapeFormatString(Source(pieces)).0 == if HasPlaceholder(pieces) then Source(pieces)
            else Formatted(pieces, values)
  {
    hide ReplaceDouble, Source, Halfway, Replaced, WellFormed;
    FirstReplacement(pieces, "");
    if HasPlaceholder(pieces) {
      PlaceholderBraceStays(pieces);
      OtherCharsStay(Halfway(pieces, ""), '}', "", '{');
    } else {
      SecondReplacement(pieces, "", "");
      DeletedHasNoBraces(pieces);
      FirstReplacement(pieces, "{");
      SecondReplacement(pieces, "{", "}");
      ReplacedIsFormatted(pieces, values);
    }
  }

  /** The generated property value, once evaluated, is the formatted text in both cases. */
  lemma {:induction false} GeneratedPropertyMeaning(pieces: seq<Piece>, values: string -> string)
    requires WellFormed(pieces)
    ensures GenProperty(Source(pieces)) == if HasPlaceholder(pieces) then FormatOf(Source(pieces))
            else Literal(Formatted(pieces, values))
  {
    UnescapeIsFormat(pieces, values);
  }

  function Escaped(text: string): seq<Piece> {
    seq(|text|, i requires 0 <= i < |text| =>
      if text[i] == '{' then OpenBrace else if text[i] == '}' then CloseBrace else Plain(text[i]))
  }

  /** Doubles every brace of a text. */
  function Doubled(text: string): string {
    if text == "" then ""
    else (if text[0] == '{' then "{{" else if text[0] == '}' then "}}" else [text[0]]) + Doubled(text[1..])
  }

  lemma {:induction false} EscapedIsDoubled(text: string)
    ensures Source(Escaped(text)) == Doubled(text)
    ensures forall values :: Formatted(Escaped(text), values) == text
  {
    if text != "" {
      EscapedIsDoubled(text[1..]);
      assert Escaped(text)[1..] == Escaped(text[1..]);
      assert text == [text[0]] + text[1..];
    }
  }

  lemma {:induction false} EscapedIsPlain(text: string)
    ensures WellFormed(Escaped(text)) && !HasPlaceholder(Escaped(text))
  {
  }

  /** Doubling the braces of any text and unescaping gives the text back. */
  lemma {:induction false} UnescapeDoubled(text: string)
    ensures UnescapeFormatString(Doubled(text)) == (text, false)
  {
    hide UnescapeFormatString, WellFormed, HasPlaceholder, Escaped, Doubled, Source, Formatted;
    EscapedIsDoubled(text);
    EscapedIsPlain(text);
    UnescapeIsFormat(Escaped(text), body => body);
  }

  // Exactly which literals are format strings

  /** `s` is spelled by some well-formed pieces. */
  ghost predicate IsFormatString(s: string) {
    exists pieces :: WellFormed(pieces) && Source(pieces) == s
  }

  /** Without placeholders no closing brace outlives the deletion of the closing pairs. */
  lemma {:induction false} ClosingPairsDelete(pieces: seq<Piece>)
    requires WellFormed(pieces) && !HasPlaceholder(pieces)
    ensures '}' !in ReplaceDouble(Source(pieces), '}', "")
  {
    hide ReplaceDouble;
    if pieces == [] {
      EmptyStays('}', "");
    } else {
      assert WellFormedPiece(pieces[0]);
      var rest := Source(pieces[1..]);
      ClosingPairsDelete(pieces[1..]);
      match pieces[0]
      case Plain(c) => SkipPrefix([c], rest, '}', "");
      case OpenBrace => SkipPrefix("{{", rest, '}', "");
      case CloseBrace => PairReplaced('}', rest, "");
      case Placeholder(_) => assert false;
    }
  }

  /** A first brace that the deletion removes is doubled. */
  lemma {:induction false} BraceIsPaired(s: string, c: char)
    requires s != "" && s[0] == c && c !in ReplaceDouble(s, c, "")
    ensures |s| >= 2 && s[1] == c && s == [c, c] + s[2..]
    ensures ReplaceDouble(s[2..], c, "") == ReplaceDouble(s, c, "")
  {
  }

  lemma {:induction false} DeletedTail(s: string, prefix: string, c: char)
    requires c !in prefix && prefix <= s && c !in ReplaceDouble(s, c, "")
    ensures c !in ReplaceDouble(s[|prefix|..], c, "")
  {
    assert s == prefix + s[|prefix|..];
    SkipPrefix(prefix, s[|prefix|..], c, "");
  }

  /** When neither brace outlives its own deletion, the string consists of plain characters and doubled braces. */
  lemma {:induction false} Parsed(s: string) returns (pieces: seq<Piece>)
    requires '{' !in ReplaceDouble(s, '{', "") && '}' !in ReplaceDouble(s, '}', "")
    ensures WellFormed(pieces) && !HasPlaceholder(pieces) && Source(pieces) == s
    decreases |s|
  {
    hide ReplaceDouble;
    if s == "" {
      return [];
    }
    var piece, size := Plain(s[0]), 1;
    if s[0] == '{' {
      BraceIsPaired(s, '{');
      DeletedTail(s, "{{", '}');
      piece, size := OpenBrace, 2;
    } else if s[0] == '}' {
      BraceIsPaired(s, '}');
      DeletedTail(s, "}}", '{');
      piece, size := CloseBrace, 2;
    } else {
      DeletedTail(s, [s[0]], '{');
      DeletedTail(s, [s[0]], '}');
    }
    assert s == PieceSource(piece) + s[size..];
    var rest := Parsed(s[size..]);
    pieces := [piece] + rest;
    assert pieces[1..] == rest;
  }

  /** A string taken for a literal is a format string, and one without placeholders, exactly when the deletion of
      closing pairs, applied to the string itself, leaves no closing brace. */
  lemma {:induction false} LiteralIsFormatString(s: string)
    requires !UnescapeFormatString(s).1
    ensures IsFormatString(s) <==> '}' !in ReplaceDouble(s, '}', "")
    ensures IsFormatString(s) ==>
              exists pieces :: WellFormed(pieces) && !HasPlaceholder(pieces) && Source(pieces) == s
    ensures forall pieces :: WellFormed(pieces) && Source(pieces) == s ==> !HasPlaceholder(pieces)
  {
    hide ReplaceDouble, WellFormed, HasPlaceholder;
    forall pieces | WellFormed(pieces) && Source(pieces) == s ensures !HasPlaceholder(pieces) {
      UnescapeIsFormat(pieces, body => body);
    }
    if IsFormatString(s) {
      var pieces :| WellFormed(pieces) && Source(pieces) == s;
      ClosingPairsDelete(pieces);
    }
    if '}' !in ReplaceDouble(s, '}', "") {
      var afterOpening := ReplaceDouble(s, '{', "");
      if '{' in afterOpening {
        OtherCharsStay(afterOpening, '}', "", '{');
      }
      var pieces := Parsed(s);
      assert IsFormatString(s);
    }
  }

  /** The condition can fail: the deletion of the opening pair brings two closing braces together. */
  lemma {:induction false} MalformedAccepted()
    ensures UnescapeFormatString("}{{}") == ("}{}", false) && !IsFormatString("}{{}")
  {
    assert "}{{}"[1..] == "{{}" && "{{}"[2..] == "}" && "{{}"[1..] == "{}";
    assert ReplaceDouble("{{}", '{', "") == "}" && ReplaceDouble("{{}", '{', "{") == "{}";
    assert ReplaceDouble("}{{}", '{', "") == "}}" && ReplaceDouble("}{{}", '{', "{") == "}{}";
    assert "}}"[2..] == "" && ReplaceDouble("}}", '}', "") == "";
    assert "}{}"[1..] == "{}" && "{}"[1..] == "}";
    assert ReplaceDouble("{}", '}', "}") == "{}" && ReplaceDouble("}{}", '}', "}") == "}{}";
    LiteralIsFormatString("}{{}");
    assert ReplaceDouble("}{{}", '}', "")[0] == '}';
  }
}
