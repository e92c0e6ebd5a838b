/** The three string helpers the DOT printer uses: node identifiers, record
    labels and quoted argument lists (graph/Printer.kt, formatDotName,
    formatDotLabel, formatDotArguments). Characters are Unicode scalar values,
    so a supplementary character counts as one character, as the regular
    expression in formatDotName sees it. */
module DotFormat {

  /** The characters allowed in a DOT identifier: `[A-Za-z0-9_]`. */
  predicate IsDotIdChar(c: char)
  {
    ('a' <= c <= 'z') || ('A' <= c <= 'Z') || ('0' <= c <= '9') || c == '_'
  }

  predicate IsDotId(s: string)
  {
    forall i :: 0 <= i < |s| ==> IsDotIdChar(s[i])
  }

  /** Every character outside `[A-Za-z0-9_]` becomes `_`; the others stay. */
  function FormatDotName(s: string): (r: string)
    ensures |r| == |s|
    ensures IsDotId(r)
    ensures forall i :: 0 <= i < |s| && IsDotIdChar(s[i]) ==> r[i] == s[i]
    ensures forall i :: 0 <= i < |s| && !IsDotIdChar(s[i]) ==> r[i] == '_'
  {
    seq(|s|, i requires 0 <= i < |s| => if IsDotIdChar(s[i]) then s[i] else '_')
  }

  /** Formatting a name that is already an identifier changes nothing, and
      only identifiers are left unchanged. */
  lemma FormatDotNameFixedPoints(s: string)
    ensures FormatDotName(s) == s <==> IsDotId(s)
  {
    if IsDotId(s) {
      assert forall i :: 0 <= i < |s| ==> FormatDotName(s)[i] == s[i];
    }
  }

  /** Formatting twice is formatting once. */
  lemma FormatDotNameIdempotent(s: string)
    ensures FormatDotName(FormatDotName(s)) == FormatDotName(s)
  {
    FormatDotNameFixedPoints(FormatDotName(s));
  }

  /** Distinct names may share an identifier: the collision is accepted, not
      detected. */
  lemma FormatDotNameCollides()
    ensures FormatDotName("a.b") == FormatDotName("a<b") == "a_b"
  {
  }

  /** Kotlin's `String.replace` with a one-character pattern: every
      occurrence of `c` is replaced by `by`. Every character of the result
      either came from `s` and is not `c`, or came from `by`. */
  function ReplaceAll(s: string, c: char, rep: string): (r: string)
    ensures c !in s ==> r == s
    ensures c !in rep ==> c !in r
  {
    if |s| == 0 then ""
    else (if s[0] == c then rep else [s[0]]) + ReplaceAll(s[1..], c, rep)
  }

  lemma {:induction false} ReplaceAllConcat(a: string, b: string, c: char, rep: string)
    ensures ReplaceAll(a + b, c, rep) == ReplaceAll(a, c, rep) + ReplaceAll(b, c, rep)
  {
    if |a| == 0 {
      assert a + b == b;
    } else {
      assert (a + b)[1..] == a[1..] + b;
      ReplaceAllConcat(a[1..], b, c, rep);
    }
  }

  /** Quotes inside a label's argument list are escaped with a backslash. */
  function FormatDotArguments(s: string): (r: string)
    ensures '"' !in s ==> r == s
  {
    ReplaceAll(s, '"', "\\\"")
  }

  /** Every occurrence of `c` in `r` has a backslash just before it. */
  predicate PrecededByBackslash(r: string, c: char)
  {
    forall i :: 0 <= i < |r| && r[i] == c ==> 0 < i && r[i - 1] == '\\'
  }

  lemma PrecededByBackslashConcat(a: string, b: string, c: char)
    requires PrecededByBackslash(a, c) && PrecededByBackslash(b, c)
    ensures PrecededByBackslash(a + b, c)
  {
    forall i | 0 <= i < |a + b| && (a + b)[i] == c
      ensures 0 < i && (a + b)[i - 1] == '\\'
    {
      if i >= |a| {
        assert b[i - |a|] == c;
      }
    }
  }

  lemma {:induction false} FormatDotArgumentsEscapesQuotes(s: string)
    ensures PrecededByBackslash(FormatDotArguments(s), '"')
  {
    if |s| > 0 {
      FormatDotArgumentsEscapesQuotes(s[1..]);
      var head := if s[0] == '"' then "\\\"" else [s[0]];
      assert PrecededByBackslash(head, '"');
      PrecededByBackslashConcat(head, FormatDotArguments(s[1..]), '"');
    }
  }

  /** The inverse of FormatDotArguments: drop the backslash of every
      backslash-quote pair, scanning from the left. */
  function UnescapeQuotes(s: string): string
  {
    if |s| == 0 then ""
    else if |s| >= 2 && s[0] == '\\' && s[1] == '"' then "\"" + UnescapeQuotes(s[2..])
    else [s[0]] + UnescapeQuotes(s[1..])
  }

  /** Escaping loses nothing: the argument text can be read back exactly. */
  lemma {:induction false} UnescapeFormatDotArguments(s: string)
    ensures UnescapeQuotes(FormatDotArguments(s)) == s
  {
    if |s| > 0 {
      var rest := FormatDotArguments(s[1..]);
      var out := FormatDotArguments(s);
      assert out == (if s[0] == '"' then "\\\"" else [s[0]]) + rest;
      UnescapeFormatDotArguments(s[1..]);
      if s[0] == '"' {
        assert out[2..] == rest;
      } else {
        FormatDotArgumentsEscapesQuotes(s[1..]);
        assert |rest| > 0 ==> rest[0] != '"';
        assert out[1..] == rest;
      }
    }
  }

  /** The label escaping as Printer.kt writes it: six replacements in a row,
      angle brackets first, then braces, then line breaks. */
  function FormatDotLabel(s: string): string
  {
    var lt := ReplaceAll(s, '<', "\\<");
    var gt := ReplaceAll(lt, '>', "\\>");
    var lb := ReplaceAll(gt, '{', "\\{");
    var rb := ReplaceAll(lb, '}', "\\}");
    var nl := ReplaceAll(rb, '\n', "<br/>");
    ReplaceAll(nl, '\r', "<br/>")
  }

  /** What a single character becomes in a label. */
  function LabelChar(c: char): string
  {
    match c
    case '<' => "\\<"
    case '>' => "\\>"
    case '{' => "\\{"
    case '}' => "\\}"
    case '\n' => "<br/>"
    case '\r' => "<br/>"
    case _ => [c]
  }

  /** Reference definition of the label escaping, one character at a time. */
  function LabelEscape(s: string): string
  {
    if |s| == 0 then "" else LabelChar(s[0]) + LabelEscape(s[1..])
  }

  lemma LabelConcat(a: string, b: string)
    ensures FormatDotLabel(a + b) == FormatDotLabel(a) + FormatDotLabel(b)
  {
    var lta, ltb := ReplaceAll(a, '<', "\\<"), ReplaceAll(b, '<', "\\<");
    ReplaceAllConcat(a, b, '<', "\\<");
    var gta, gtb := ReplaceAll(lta, '>', "\\>"), ReplaceAll(ltb, '>', "\\>");
    ReplaceAllConcat(lta, ltb, '>', "\\>");
    var lba, lbb := ReplaceAll(gta, '{', "\\{"), ReplaceAll(gtb, '{', "\\{");
    ReplaceAllConcat(gta, gtb, '{', "\\{");
    var rba, rbb := ReplaceAll(lba, '}', "\\}"), ReplaceAll(lbb, '}', "\\}");
    ReplaceAllConcat(lba, lbb, '}', "\\}");
    var nla, nlb := ReplaceAll(rba, '\n', "<br/>"), ReplaceAll(rbb, '\n', "<br/>");
    ReplaceAllConcat(rba, rbb, '\n', "<br/>");
    ReplaceAllConcat(nla, nlb, '\r', "<br/>");
  }

  lemma ReplaceAllSingle(x: char, c: char, rep: string)
    ensures ReplaceAll([x], c, rep) == if x == c then rep else [x]
  {
    assert [x][1..] == "";
  }

  /** Label escaping of a character none of the six replacements touches. */
  lemma LabelSinglePlain(c: char)
    requires c !in "<>{}\n\r"
    ensures FormatDotLabel([c]) == [c]
  {
  }

  lemma LabelSingle(c: char)
    ensures FormatDotLabel([c]) == LabelChar(c)
  {
    var s := [c];
    if c == '<' {
      ReplaceAllSingle(c, '<', "\\<");
      assert ReplaceAll(s, '<', "\\<") == "\\<";
    } else if c == '>' {
      ReplaceAllSingle(c, '>', "\\>");
      assert ReplaceAll(s, '>', "\\>") == "\\>";
    } else if c == '{' {
      ReplaceAllSingle(c, '{', "\\{");
      assert ReplaceAll(s, '{', "\\{") == "\\{";
    } else if c == '}' {
      ReplaceAllSingle(c, '}', "\\}");
      assert ReplaceAll(s, '}', "\\}") == "\\}";
    } else if c == '\n' {
      ReplaceAllSingle(c, '\n', "<br/>");
      assert ReplaceAll(s, '\n', "<br/>") == "<br/>";
    } else if c == '\r' {
      ReplaceAllSingle(c, '\r', "<br/>");
      assert ReplaceAll(s, '\r', "<br/>") == "<br/>";
    } else {
      LabelSinglePlain(c);
    }
  }

  /** The six replacements never interfere: their combined effect is the
      character-by-character escaping. In particular the `<br/>` markers are
      written after the angle brackets were escaped, so they stay unescaped. */
  lemma {:induction false} FormatDotLabelIsLabelEscape(s: string)
    ensures FormatDotLabel(s) == LabelEscape(s)
  {
    if |s| > 0 {
      assert s == [s[0]] + s[1..];
      LabelConcat([s[0]], s[1..]);
      LabelSingle(s[0]);
      FormatDotLabelIsLabelEscape(s[1..]);
    }
  }

  /** A label is one line: no line feed or carriage return survives. */
  lemma {:induction false} LabelHasNoLineBreaks(s: string)
    ensures '\n' !in FormatDotLabel(s) && '\r' !in FormatDotLabel(s)
  {
    FormatDotLabelIsLabelEscape(s);
    LabelEscapeNoLineBreaks(s);
  }

  lemma {:induction false} LabelEscapeNoLineBreaks(s: string)
    ensures '\n' !in LabelEscape(s) && '\r' !in LabelEscape(s)
  {
    if |s| > 0 {
      LabelEscapeNoLineBreaks(s[1..]);
      assert '\n' !in LabelChar(s[0]) && '\r' !in LabelChar(s[0]);
    }
  }

  /** The number of occurrences of `c` in `s`. */
  function Count(s: string, c: char): nat
  {
    if |s| == 0 then 0 else (if s[0] == c then 1 else 0) + Count(s[1..], c)
  }

  lemma {:induction false} CountConcat(a: string, b: string, c: char)
    ensures Count(a + b, c) == Count(a, c) + Count(b, c)
  {
    if |a| == 0 {
      assert a + b == b;
    } else {
      assert (a + b)[1..] == a[1..] + b;
      CountConcat(a[1..], b, c);
    }
  }

  /** A brace is written `\{` or `\}`: the label has exactly as many braces as
      the input and each of them follows a backslash. */
  lemma {:induction false} LabelBracesEscaped(s: string)
    ensures PrecededByBackslash(FormatDotLabel(s), '{')
    ensures PrecededByBackslash(FormatDotLabel(s), '}')
    ensures Count(FormatDotLabel(s), '{') == Count(s, '{')
    ensures Count(FormatDotLabel(s), '}') == Count(s, '}')
  {
    FormatDotLabelIsLabelEscape(s);
    LabelEscapeBraces(s);
  }

  lemma {:induction false} CountAbsent(s: string, c: char)
    requires c !in s
    ensures Count(s, c) == 0
  {
    if |s| > 0 {
      CountAbsent(s[1..], c);
    }
  }

  lemma CountEscaped(c: char, d: char)
    requires d != '\\'
    ensures Count(['\\', c], d) == if c == d then 1 else 0
  {
    var e := ['\\', c];
    assert e[0] != d;
    assert e[1..] == [c];
    assert [c][1..] == "";
    assert Count([c], d) == (if c == d then 1 else 0) + Count("", d);
    assert Count(e, d) == Count(e[1..], d);
  }

  lemma LabelCharBraces(c: char)
    ensures Count(LabelChar(c), '{') == if c == '{' then 1 else 0
    ensures Count(LabelChar(c), '}') == if c == '}' then 1 else 0
  {
    var h := LabelChar(c);
    if c in "<>{}" {
      assert h == ['\\', c];
      CountEscaped(c, '{');
      CountEscaped(c, '}');
    } else if c == '\n' || c == '\r' {
      CountAbsent(h, '{');
      CountAbsent(h, '}');
    } else {
      assert h == [c];
      assert h[1..] == "";
    }
  }

  lemma {:induction false} LabelEscapeBraces(s: string)
    ensures PrecededByBackslash(LabelEscape(s), '{')
    ensures PrecededByBackslash(LabelEscape(s), '}')
    ensures Count(LabelEscape(s), '{') == Count(s, '{')
    ensures Count(LabelEscape(s), '}') == Count(s, '}')
  {
    LabelEscapeBracesPreceded(s, '{');
    LabelEscapeBracesPreceded(s, '}');
    LabelEscapeBraceCount(s, '{');
    LabelEscapeBraceCount(s, '}');
  }

  lemma {:induction false} LabelEscapeBracesPreceded(s: string, brace: char)
    requires brace == '{' || brace == '}'
    ensures PrecededByBackslash(LabelEscape(s), brace)
  {
    if |s| > 0 {
      var head := LabelChar(s[0]);
      LabelEscapeBracesPreceded(s[1..], brace);
      assert PrecededByBackslash(head, brace);
      PrecededByBackslashConcat(head, LabelEscape(s[1..]), brace);
    }
  }

  lemma {:induction false} LabelEscapeBraceCount(s: string, brace: char)
    requires brace == '{' || brace == '}'
    ensures Count(LabelEscape(s), brace) == Count(s, brace)
  {
    if |s| > 0 {
      var head := LabelChar(s[0]);
      LabelEscapeBraceCount(s[1..], brace);
      LabelCharBraces(s[0]);
      CountConcat(head, LabelEscape(s[1..]), brace);
    }
  }

  /** A line-break marker starts at position j of r. */
  predicate BreakAt(r: string, j: int)
  {
    0 <= j && j + 5 <= |r| && r[j..j + 5] == "<br/>"
  }

  /** Every angle bracket of r is escaped or belongs to a line-break marker. */
  predicate AngleBracketsEscaped(r: string)
  {
    forall i :: 0 <= i < |r| ==> AngleBracketOk(r, i)
  }

  lemma BreakAtConcat(a: string, b: string, j: int)
    ensures BreakAt(a, j) ==> BreakAt(a + b, j)
    ensures BreakAt(b, j) ==> BreakAt(a + b, |a| + j)
  {
    if BreakAt(a, j) {
      assert (a + b)[j..j + 5] == a[j..j + 5];
    }
    if BreakAt(b, j) {
      assert (a + b)[|a| + j..|a| + j + 5] == b[j..j + 5];
    }
  }

  /** The condition AngleBracketsEscaped asks of position i. */
  predicate AngleBracketOk(r: string, i: int)
    requires 0 <= i < |r|
  {
    (r[i] == '<' || r[i] == '>') ==>
      (0 < i && r[i - 1] == '\\') || (r[i] == '<' && BreakAt(r, i)) || (r[i] == '>' && BreakAt(r, i - 4))
  }

  lemma AngleBracketOkLeft(a: string, b: string, i: int)
    requires 0 <= i < |a| && AngleBracketOk(a, i)
    ensures AngleBracketOk(a + b, i)
  {
    var r := a + b;
    assert r[i] == a[i];
    if 0 < i {
      assert r[i - 1] == a[i - 1];
    }
    BreakAtConcat(a, b, i);
    BreakAtConcat(a, b, i - 4);
  }

  lemma AngleBracketOkRight(a: string, b: string, k: int)
    requires 0 <= k < |b| && AngleBracketOk(b, k)
    ensures AngleBracketOk(a + b, |a| + k)
  {
    var r := a + b;
    var i := |a| + k;
    assert r[i] == b[k];
    if 0 < k {
      assert r[i - 1] == b[k - 1];
    }
    BreakAtConcat(a, b, k);
    BreakAtConcat(a, b, k - 4);
  }

  lemma AngleBracketsEscapedConcat(a: string, b: string)
    requires AngleBracketsEscaped(a) && AngleBracketsEscaped(b)
    ensures AngleBracketsEscaped(a + b)
  {
    var r := a + b;
    forall i | 0 <= i < |r|
      ensures AngleBracketOk(r, i)
    {
      if i < |a| {
        assert AngleBracketOk(a, i);
        AngleBracketOkLeft(a, b, i);
      } else {
        assert AngleBracketOk(b, i - |a|);
        AngleBracketOkRight(a, b, i - |a|);
      }
    }
  }

  lemma LabelCharAngleBrackets(c: char)
    ensures AngleBracketsEscaped(LabelChar(c))
  {
    if c == '\n' || c == '\r' {
      assert BreakAt("<br/>", 0);
    }
  }

  /** The only unescaped angle brackets of a label are those of the line-break
      markers. */
  lemma {:induction false} LabelAngleBracketsEscaped(s: string)
    ensures AngleBracketsEscaped(FormatDotLabel(s))
  {
    FormatDotLabelIsLabelEscape(s);
    LabelEscapeAngleBrackets(s);
  }

  lemma {:induction false} LabelEscapeAngleBrackets(s: string)
    ensures AngleBracketsEscaped(LabelEscape(s))
  {
    if |s| > 0 {
      LabelCharAngleBrackets(s[0]);
      LabelEscapeAngleBrackets(s[1..]);
      AngleBracketsEscapedConcat(LabelChar(s[0]), LabelEscape(s[1..]));
    }
  }
}
