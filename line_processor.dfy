/**
  `LineProcessor`: one HAML line to its ERB form. The stripped line is
  classified by its leading sigil, tried in a fixed order, and handed to the
  matching renderer; a `:ruby` filter line yields a filter-start record instead
  of text.
 */
module LineProcessor {
  import opened Wrappers
  import opened Text
  import opened StringUtils
  import ElementConverter

  /** What `process` returns: a line of output, or the start of a filter block at an indent. */
  datatype Output = Line(text: String) | FilterStart(filterType: String, indent: nat)

  /** The renderer a stripped line goes to. */
  datatype Kind =
    | Doctype | HamlComment | Element | Class | Id | RubyOutput | RubyCode
    | EscapedOutput | UnescapedOutput | Comment | Filter | PlainText

  /** The sigils in the order `process` tries them, with the renderer each selects. */
  const Sigils: seq<(String, Kind)> :=
    [("!!!", Doctype), ("-#", HamlComment), ("%", Element), (".", Class), ("#", Id),
     ("=", RubyOutput), ("-", RubyCode), ("&=", EscapedOutput), ("!=", UnescapedOutput),
     ("/", Comment), (":", Filter)]

  /** A sigil selects a line when the line starts with it; `#` does not select an interpolation `#{`. */
  predicate Selects(s: String, sigil: String, k: Kind)
  {
    StartsWith(s, sigil) && (k != Id || !StartsWith(s, "#{"))
  }

  /** The reference classification: the first sigil of the table from entry `i` on that selects the line, or text. */
  function FirstSigil(s: String, i: nat): (k: Kind)
    requires i <= |Sigils|
    ensures k == PlainText || exists j :: i <= j < |Sigils| && Sigils[j].1 == k && Selects(s, Sigils[j].0, k)
    decreases |Sigils| - i
  {
    if i == |Sigils| then PlainText
    else if Selects(s, Sigils[i].0, Sigils[i].1) then Sigils[i].1
    else FirstSigil(s, i + 1)
  }

  /** The `if`/`elsif` chain of `process`. */
  function Classify(s: String): Kind
  {
    if StartsWith(s, "!!!") then Doctype
    else if StartsWith(s, "-#") then HamlComment
    else if StartsWith(s, "%") then Element
    else if StartsWith(s, ".") then Class
    else if StartsWith(s, "#") && !StartsWith(s, "#{") then Id
    else if StartsWith(s, "=") then RubyOutput
    else if StartsWith(s, "-") then RubyCode
    else if StartsWith(s, "&=") then EscapedOutput
    else if StartsWith(s, "!=") then UnescapedOutput
    else if StartsWith(s, "/") then Comment
    else if StartsWith(s, ":") then Filter
    else PlainText
  }

  // ---------------------------------------------------------------------------
  // inside_string_literal?

  /** The state of the literal scan: the quote it is inside, and whether a backslash escapes the next character. */
  datatype Literal = Literal(quote: Quote, escaped: bool)

  /**
    One character of the scan: an escaped character is skipped, a backslash
    escapes the next one, a quote opens a literal or closes the one it opened.
    A position past the end reads nothing.
   */
  function LiteralStep(code: String, i: nat, st: Literal): Literal
  {
    if i >= |code| then st
    else if st.escaped then Literal(st.quote, false)
    else if code[i] == '\\' then Literal(st.quote, true)
    else if st.quote.Unquoted? && IsQuote(code[i]) then Literal(Quoted(code[i]), false)
    else if st.quote.Quoted? && code[i] == st.quote.q then Literal(Unquoted, false)
    else st
  }

  /** The scan state after the first `k` characters. */
  function LiteralScan(code: String, k: nat): Literal
    decreases k
  {
    if k == 0 then Literal(Unquoted, false) else LiteralStep(code, k - 1, LiteralScan(code, k - 1))
  }

  /** `inside_string_literal?`: the scan of `code` up to `position`, with its three flags. */
  method InsideStringLiteral(code: String, position: nat) returns (inside: bool)
    ensures inside == LiteralScan(code, position).quote.Quoted?
  {
    var inString := false;
    var stringChar: char := ' ';
    var escaped := false;
    for i := 0 to position
      invariant LiteralScan(code, i) == Literal(if inString then Quoted(stringChar) else Unquoted, escaped)
    {
      if i >= |code| {
        continue;
      }
      var c := code[i];
      if escaped {
        escaped := false;
        continue;
      }
      if c == '\\' {
        escaped := true;
        continue;
      }
      if !inString && IsQuote(c) {
        inString := true;
        stringChar := c;
      } else if inString && c == stringChar {
        inString := false;
      }
    }
    inside := inString;
  }

  // ---------------------------------------------------------------------------
  // The renderers

  /** `convert_doctype_line`: only `!!!` itself becomes the HTML doctype. */
  function DoctypeLine(s: String, indent: String): String
  {
    if Strip(s) == "!!!" then indent + "<!DOCTYPE html>\n" else indent + s + "\n"
  }

  /** `indent<open> body<close>`, the shape of every ERB wrapper line. */
  function Wrap(indent: String, open: String, body: String, close: String): String
  {
    indent + open + body + close + "\n"
  }

  /**
    `convert_ruby_output_line`: the code after `=`; a ` #` outside any string
    literal starts a comment, which goes to an ERB comment tag of its own.
   */
  function RubyOutputLine(s: String, indent: String): String
    requires s != []
  {
    var code := Strip(s[1..]);
    match IndexOf(code, " #")
    case Some(i) =>
      if !LiteralScan(code, i).quote.Quoted? then
        indent + "<%= " + Strip(code[..i]) + " %> <%# " + Strip(code[i + 2..]) + " %>\n"
      else Wrap(indent, "<%= ", code, " %>")
    case None => Wrap(indent, "<%= ", code, " %>")
  }

  /** `s.gsub(/\\-/, "-")`: each backslash before a dash is dropped, scanning from the left. */
  function UnescapeDash(s: String): (r: String)
    ensures |r| <= |s|
    decreases |s|
  {
    if |s| >= 2 && s[0] == '\\' && s[1] == '-' then "-" + UnescapeDash(s[2..])
    else if s == [] then []
    else [s[0]] + UnescapeDash(s[1..])
  }

  /** `convert_text_line`: interpolation rewritten, escaped dashes unescaped. */
  function TextLine(s: String, indent: String): String
  {
    indent + UnescapeDash(RewriteInterpolation(s)) + "\n"
  }

  /** `convert_filter_line`: `:ruby` starts a filter at the indent's length; any other filter is copied. */
  function FilterLine(s: String, indent: String): Output
    requires s != []
  {
    if Strip(s[1..]) == "ruby" then FilterStart("ruby", |indent|) else Line(indent + s + "\n")
  }

  /**
    The renderer `process` picks for a stripped, non-blank line; a lone `.`, on
    which `convert_class` fails, is rendered by the corrected `ConvertClass`.
   */
  function Dispatch(s: String, indent: String, hasChildren: bool): Output
    requires s != []
  {
    match Classify(s)
    case Doctype => Line(DoctypeLine(s, indent))
    case HamlComment => Line(Wrap(indent, "<%# ", Strip(s[2..]), " %>"))
    case Element => Line(ElementConverter.Convert(s, indent, hasChildren))
    case Class => Line(ElementConverter.ConvertClass(s, indent, hasChildren))
    case Id => Line(ElementConverter.ConvertId(s, indent, hasChildren))
    case RubyOutput => Line(RubyOutputLine(s, indent))
    case RubyCode => Line(Wrap(indent, "<% ", Strip(s[1..]), " %>"))
    case EscapedOutput => Line(Wrap(indent, "<%= ", Strip(s[2..]), " %>"))
    case UnescapedOutput => Line(Wrap(indent, "<%== ", Strip(s[2..]), " %>"))
    case Comment => Line(Wrap(indent, "<!-- ", Strip(s[1..]), " -->"))
    case Filter => FilterLine(s, indent)
    case PlainText => Line(TextLine(s, indent))
  }

  /** `process`: a blank line is returned as it is; any other line by its sigil, behind its leading whitespace. */
  function Process(line: String, hasChildren: bool): Output
  {
    var s := Strip(line);
    if s == [] then Line(line) else Dispatch(s, LeadingSpace(line), hasChildren)
  }

  // ---------------------------------------------------------------------------
  // Dispatch

  /** The `if`/`elsif` chain is the table lookup: the first sigil that selects the line wins. */
  lemma ClassifyIsFirstSigil(s: String)
    ensures Classify(s) == FirstSigil(s, 0)
  {
    FirstSigilFrom(s, 0);
  }

  /** Past the entries of other renderers, the table search finds the one `Classify` picks. */
  lemma {:induction false} FirstSigilFrom(s: String, i: nat)
    requires i <= |Sigils| && forall j :: 0 <= j < i ==> Sigils[j].1 != Classify(s)
    ensures FirstSigil(s, i) == Classify(s)
    decreases |Sigils| - i
  {
    if i == |Sigils| {
      NotInTable(Classify(s));
    } else if Sigils[i].1 == Classify(s) {
      SigilHit(s, i);
      SigilStep(s, i);
    } else {
      SigilMiss(s, i);
      SigilStep(s, i);
      FirstSigilFrom(s, i + 1);
    }
  }

  /** Every renderer but the text one has an entry in the table. */
  lemma NotInTable(k: Kind)
    requires forall j :: 0 <= j < |Sigils| ==> Sigils[j].1 != k
    ensures k == PlainText
  {
    assert Sigils[0].1 != k;
    assert Sigils[1].1 != k;
    assert Sigils[2].1 != k;
    assert Sigils[3].1 != k;
    assert Sigils[4].1 != k;
    assert Sigils[5].1 != k;
    assert Sigils[6].1 != k;
    assert Sigils[7].1 != k;
    assert Sigils[8].1 != k;
    assert Sigils[9].1 != k;
    assert Sigils[10].1 != k;
  }

  /** An entry before the one `Classify` picks does not select the line. */
  lemma SigilMiss(s: String, i: nat)
    requires i < |Sigils| && forall j :: 0 <= j <= i ==> Sigils[j].1 != Classify(s)
    ensures !Selects(s, Sigils[i].0, Sigils[i].1)
  {
    if i == 0 { assert Sigils[0] == ("!!!", Doctype); }
    else if i == 1 { assert Sigils[1] == ("-#", HamlComment); assert Sigils[0].1 != Classify(s); }
    else if i == 2 { assert Sigils[2] == ("%", Element); assert Sigils[0].1 != Classify(s); assert Sigils[1].1 != Classify(s); }
    else if i == 3 { assert Sigils[3] == (".", Class); assert Sigils[0].1 != Classify(s); assert Sigils[1].1 != Classify(s); assert Sigils[2].1 != Classify(s); }
    else if i == 4 { assert Sigils[4] == ("#", Id); assert Sigils[0].1 != Classify(s); assert Sigils[1].1 != Classify(s); assert Sigils[2].1 != Classify(s); assert Sigils[3].1 != Classify(s); }
    else if i == 5 { assert Sigils[5] == ("=", RubyOutput); assert Sigils[0].1 != Classify(s); assert Sigils[1].1 != Classify(s); assert Sigils[2].1 != Classify(s); assert Sigils[3].1 != Classify(s); assert Sigils[4].1 != Classify(s); }
    else if i == 6 { assert Sigils[6] == ("-", RubyCode); assert Sigils[0].1 != Classify(s); assert Sigils[1].1 != Classify(s); assert Sigils[2].1 != Classify(s); assert Sigils[3].1 != Classify(s); assert Sigils[4].1 != Classify(s); assert Sigils[5].1 != Classify(s); }
    else if i == 7 { assert Sigils[7] == ("&=", EscapedOutput); assert Sigils[0].1 != Classify(s); assert Sigils[1].1 != Classify(s); assert Sigils[2].1 != Classify(s); assert Sigils[3].1 != Classify(s); assert Sigils[4].1 != Classify(s); assert Sigils[5].1 != Classify(s); assert Sigils[6].1 != Classify(s); }
    else if i == 8 { assert Sigils[8] == ("!=", UnescapedOutput); assert Sigils[0].1 != Classify(s); assert Sigils[1].1 != Classify(s); assert Sigils[2].1 != Classify(s); assert Sigils[3].1 != Classify(s); assert Sigils[4].1 != Classify(s); assert Sigils[5].1 != Classify(s); assert Sigils[6].1 != Classify(s); assert Sigils[7].1 != Classify(s); }
    else if i == 9 { assert Sigils[9] == ("/", Comment); assert Sigils[0].1 != Classify(s); assert Sigils[1].1 != Classify(s); assert Sigils[2].1 != Classify(s); assert Sigils[3].1 != Classify(s); assert Sigils[4].1 != Classify(s); assert Sigils[5].1 != Classify(s); assert Sigils[6].1 != Classify(s); assert Sigils[7].1 != Classify(s); assert Sigils[8].1 != Classify(s); }
    else { assert Sigils[10] == (":", Filter); assert Sigils[0].1 != Classify(s); assert Sigils[1].1 != Classify(s); assert Sigils[2].1 != Classify(s); assert Sigils[3].1 != Classify(s); assert Sigils[4].1 != Classify(s); assert Sigils[5].1 != Classify(s); assert Sigils[6].1 != Classify(s); assert Sigils[7].1 != Classify(s); assert Sigils[8].1 != Classify(s); assert Sigils[9].1 != Classify(s); }
  }

  /** The entry of the renderer `Classify` picks selects the line. */
  lemma SigilHit(s: String, i: nat)
    requires i < |Sigils| && Sigils[i].1 == Classify(s)
    ensures Selects(s, Sigils[i].0, Sigils[i].1)
  {
    if i == 0 { assert Sigils[0] == ("!!!", Doctype); }
    else if i == 1 { assert Sigils[1] == ("-#", HamlComment); }
    else if i == 2 { assert Sigils[2] == ("%", Element); }
    else if i == 3 { assert Sigils[3] == (".", Class); }
    else if i == 4 { assert Sigils[4] == ("#", Id); }
    else if i == 5 { assert Sigils[5] == ("=", RubyOutput); }
    else if i == 6 { assert Sigils[6] == ("-", RubyCode); }
    else if i == 7 { assert Sigils[7] == ("&=", EscapedOutput); }
    else if i == 8 { assert Sigils[8] == ("!=", UnescapedOutput); }
    else if i == 9 { assert Sigils[9] == ("/", Comment); }
    else { assert Sigils[10] == (":", Filter); }
  }

  /** One entry of the table: selected, or skipped for the next. */
  lemma SigilStep(s: String, i: nat)
    requires i < |Sigils|
    ensures FirstSigil(s, i) == if Selects(s, Sigils[i].0, Sigils[i].1) then Sigils[i].1 else FirstSigil(s, i + 1)
  {
  }

  /** A blank line comes back as it is, whitespace and all. */
  lemma BlankLine(line: String, hasChildren: bool)
    requires AllSpace(line)
    ensures Process(line, hasChildren) == Line(line)
  {
    StripBlank(line);
  }

  /** A non-blank line after its indent goes to the renderer of its stripped text, with that indent. */
  lemma ProcessOf(indent: String, s: String, hasChildren: bool)
    requires AllSpace(indent) && s != [] && !IsSpace(s[0]) && !IsSpace(s[|s| - 1])
    ensures Process(indent + s, hasChildren) == Dispatch(s, indent, hasChildren)
  {
    assert indent + s + [] == indent + s;
    StripOfPadded(indent, s, []);
    LeadingSpaceOfPadded(indent, s);
  }

  /** `sigil body` with the sigil and one space cut off and stripped is the body. */
  lemma BodyAfter(sigil: String, body: String)
    requires body != [] && !IsSpace(body[0]) && !IsSpace(body[|body| - 1])
    ensures Strip((sigil + " " + body)[|sigil|..]) == body
  {
    assert (sigil + " " + body)[|sigil|..] == " " + body + [];
    StripOfPadded(" ", body, []);
  }

  /** The last character of `sigil body` is the body's. */
  lemma Trimmed(sigil: String, body: String)
    requires sigil != [] && !IsSpace(sigil[0]) && body != [] && !IsSpace(body[|body| - 1])
    ensures var s := sigil + " " + body; s != [] && !IsSpace(s[0]) && !IsSpace(s[|s| - 1])
  {
    var s := sigil + " " + body;
    assert s[|s| - 1] == body[|body| - 1];
  }

  /** `- code`: ERB code, the body stripped. */
  lemma RubyCodeLine(indent: String, body: String, hasChildren: bool)
    requires body != [] && Strip(body) == body
    ensures Dispatch("- " + body, indent, hasChildren) == Line(Wrap(indent, "<% ", body, " %>"))
  {
    RubyCodeParts(body);
  }

  lemma RubyCodeParts(body: String)
    requires body != [] && Strip(body) == body
    ensures Classify("- " + body) == RubyCode && Strip(("- " + body)[1..]) == body
  {
    var s := "- " + body;
    assert s[0] == '-' && s[1] == ' ';
    ClassifyRubyCode(s);
    assert s == "-" + " " + body;
    BodyAfter("-", body);
  }

  lemma ClassifyRubyCode(s: String)
    requires |s| >= 2 && s[0] == '-' && s[1] != '#'
    ensures Classify(s) == RubyCode
  {
  }

  /** `-# text`: an ERB comment, the body stripped. */
  lemma HamlCommentLine(indent: String, body: String, hasChildren: bool)
    requires body != [] && Strip(body) == body
    ensures Dispatch("-# " + body, indent, hasChildren) == Line(Wrap(indent, "<%# ", body, " %>"))
  {
    HamlCommentParts(body);
  }

  lemma HamlCommentParts(body: String)
    requires body != [] && Strip(body) == body
    ensures Classify("-# " + body) == HamlComment && Strip(("-# " + body)[2..]) == body
  {
    var s := "-# " + body;
    assert s[0] == '-' && s[1] == '#' && s[2] == ' ';
    ClassifyHamlComment(s);
    assert s == "-#" + " " + body;
    BodyAfter("-#", body);
  }

  lemma ClassifyHamlComment(s: String)
    requires |s| >= 2 && s[0] == '-' && s[1] == '#'
    ensures Classify(s) == HamlComment
  {
  }

  /** `&= code`: ERB output, the body stripped. */
  lemma EscapedOutputLine(indent: String, body: String, hasChildren: bool)
    requires body != [] && Strip(body) == body
    ensures Dispatch("&= " + body, indent, hasChildren) == Line(Wrap(indent, "<%= ", body, " %>"))
  {
    EscapedOutputParts(body);
    EscapedDispatch("&= " + body, indent, hasChildren);
  }

  lemma EscapedDispatch(s: String, indent: String, hasChildren: bool)
    requires |s| >= 2 && Classify(s) == EscapedOutput
    ensures Dispatch(s, indent, hasChildren) == Line(Wrap(indent, "<%= ", Strip(s[2..]), " %>"))
  {
  }

  lemma EscapedOutputParts(body: String)
    requires body != [] && Strip(body) == body
    ensures Classify("&= " + body) == EscapedOutput && Strip(("&= " + body)[2..]) == body
  {
    var s := "&= " + body;
    assert s[0] == '&' && s[1] == '=' && s[2] == ' ';
    ClassifyEscapedOutput(s);
    assert s == "&=" + " " + body;
    BodyAfter("&=", body);
  }

  lemma ClassifyEscapedOutput(s: String)
    requires |s| >= 2 && s[0] == '&' && s[1] == '='
    ensures Classify(s) == EscapedOutput
  {
  }

  /** `!= code`: unescaped ERB output, the body stripped. */
  lemma UnescapedOutputLine(indent: String, body: String, hasChildren: bool)
    requires body != [] && Strip(body) == body
    ensures Dispatch("!= " + body, indent, hasChildren) == Line(Wrap(indent, "<%== ", body, " %>"))
  {
    UnescapedOutputParts(body);
    UnescapedDispatch("!= " + body, indent, hasChildren);
  }

  lemma UnescapedDispatch(s: String, indent: String, hasChildren: bool)
    requires |s| >= 2 && Classify(s) == UnescapedOutput
    ensures Dispatch(s, indent, hasChildren) == Line(Wrap(indent, "<%== ", Strip(s[2..]), " %>"))
  {
  }

  lemma UnescapedOutputParts(body: String)
    requires body != [] && Strip(body) == body
    ensures Classify("!= " + body) == UnescapedOutput && Strip(("!= " + body)[2..]) == body
  {
    var s := "!= " + body;
    assert s[0] == '!' && s[1] == '=' && s[2] == ' ';
    ClassifyUnescapedOutput(s);
    assert s == "!=" + " " + body;
    BodyAfter("!=", body);
  }

  lemma ClassifyUnescapedOutput(s: String)
    requires |s| >= 2 && s[0] == '!' && s[1] == '=' && (|s| < 3 || s[2] != '!')
    ensures Classify(s) == UnescapedOutput
  {
  }

  /** `/ text`: an HTML comment, the body stripped. */
  lemma CommentLine(indent: String, body: String, hasChildren: bool)
    requires body != [] && Strip(body) == body
    ensures Dispatch("/ " + body, indent, hasChildren) == Line(Wrap(indent, "<!-- ", body, " -->"))
  {
    CommentParts(body);
  }

  lemma CommentParts(body: String)
    requires body != [] && Strip(body) == body
    ensures Classify("/ " + body) == Comment && Strip(("/ " + body)[1..]) == body
  {
    var s := "/ " + body;
    assert s[0] == '/' && s[1] == ' ';
    ClassifyComment(s);
    assert s == "/" + " " + body;
    BodyAfter("/", body);
  }

  lemma ClassifyComment(s: String)
    requires |s| >= 1 && s[0] == '/'
    ensures Classify(s) == Comment
  {
  }

  /** Only `!!!` itself becomes the doctype; any longer `!!!…` line is copied behind its indent. */
  lemma DoctypeLines(s: String, indent: String, hasChildren: bool)
    requires StartsWith(s, "!!!") && Strip(s) == s
    ensures s == "!!!" ==> Dispatch(s, indent, hasChildren) == Line(indent + "<!DOCTYPE html>\n")
    ensures s != "!!!" ==> Dispatch(s, indent, hasChildren) == Line(indent + s + "\n")
  {
    assert Classify(s) == Doctype;
  }

  /** `:ruby` starts a filter at the length of the indent; any other filter line is copied. */
  lemma FilterLines(s: String, indent: String, hasChildren: bool)
    requires s != [] && s[0] == ':'
    ensures Strip(s[1..]) == "ruby" ==> Dispatch(s, indent, hasChildren) == FilterStart("ruby", |indent|)
    ensures Strip(s[1..]) != "ruby" ==> Dispatch(s, indent, hasChildren) == Line(indent + s + "\n")
  {
    assert Classify(s) == Filter by {
      ClassifyFilter(s);
    }
  }

  lemma ClassifyFilter(s: String)
    requires |s| >= 1 && s[0] == ':'
    ensures Classify(s) == Filter
  {
  }

  /** A `%` line goes to the element converter, with the indent and the children flag. */
  lemma ElementRoute(s: String, indent: String, hasChildren: bool)
    requires s != [] && s[0] == '%'
    ensures Dispatch(s, indent, hasChildren) == Line(ElementConverter.Convert(s, indent, hasChildren))
  {
    assert Classify(s) == Element;
  }

  /** A `.` line goes to the class converter. */
  lemma ClassRoute(s: String, indent: String, hasChildren: bool)
    requires s != [] && s[0] == '.'
    ensures Dispatch(s, indent, hasChildren) == Line(ElementConverter.ConvertClass(s, indent, hasChildren))
  {
    assert Classify(s) == Class;
  }

  /** A `#` line goes to the id converter, unless it opens an interpolation. */
  lemma IdRoute(s: String, indent: String, hasChildren: bool)
    requires s != [] && s[0] == '#' && (|s| < 2 || s[1] != '{')
    ensures Dispatch(s, indent, hasChildren) == Line(ElementConverter.ConvertId(s, indent, hasChildren))
  {
    assert Classify(s) == Id by {
      assert !StartsWith(s, "#{");
      ClassifyId(s);
    }
  }

  lemma ClassifyId(s: String)
    requires s != [] && s[0] == '#' && !StartsWith(s, "#{")
    ensures Classify(s) == Id
  {
  }

  // ---------------------------------------------------------------------------
  // The literal scan

  /** The scan of a prefix does not look past it. */
  lemma {:induction false} LiteralScanPrefix(code: String, t: String, k: nat)
    requires k <= |code|
    ensures LiteralScan(code + t, k) == LiteralScan(code, k)
  {
    if k > 0 {
      LiteralScanPrefix(code, t, k - 1);
      assert (code + t)[k - 1] == code[k - 1];
    }
  }

  /** Text without quotes and backslashes leaves the scan outside any literal. */
  lemma {:induction false} LiteralScanPlain(code: String, k: nat)
    requires k <= |code|
    requires forall j :: 0 <= j < k ==> !IsQuote(code[j]) && code[j] != '\\'
    ensures LiteralScan(code, k) == Literal(Unquoted, false)
  {
    if k > 0 {
      LiteralScanPlain(code, k - 1);
    }
  }

  /** A backslash and the character after it leave the scan state as it was. */
  lemma EscapedPair(code: String, k: nat)
    requires k + 2 <= |code| && code[k] == '\\' && !LiteralScan(code, k).escaped
    ensures LiteralScan(code, k + 2) == LiteralScan(code, k)
  {
  }

  /**
    A literal opened by the quote at `k`, without backslashes up to its closing
    quote at `m`: every position after the opening quote up to the closing one
    is inside, and the scan is outside again after it.
   */
  lemma QuotedSpan(code: String, k: nat, m: nat)
    requires k < m < |code| && IsQuote(code[k]) && code[m] == code[k]
    requires LiteralScan(code, k) == Literal(Unquoted, false)
    requires forall j :: k < j < m ==> code[j] != code[k] && code[j] != '\\'
    ensures forall j :: k < j <= m ==> LiteralScan(code, j) == Literal(Quoted(code[k]), false)
    ensures LiteralScan(code, m + 1) == Literal(Unquoted, false)
  {
    forall j | k < j <= m ensures LiteralScan(code, j) == Literal(Quoted(code[k]), false) {
      InsideSpan(code, k, j);
    }
  }

  lemma {:induction false} InsideSpan(code: String, k: nat, j: nat)
    requires k < j <= |code| && IsQuote(code[k])
    requires LiteralScan(code, k) == Literal(Unquoted, false)
    requires forall i :: k < i < j ==> code[i] != code[k] && code[i] != '\\'
    ensures LiteralScan(code, j) == Literal(Quoted(code[k]), false)
    decreases j
  {
    if j > k + 1 {
      InsideSpan(code, k, j - 1);
    }
  }

  // ---------------------------------------------------------------------------
  // `= code`

  /** With no ` #` in the code, the whole stripped code is output. */
  lemma RubyOutputPlain(s: String, indent: String, hasChildren: bool)
    requires s != [] && s[0] == '=' && !Contains(Strip(s[1..]), " #")
    ensures Dispatch(s, indent, hasChildren) == Line(Wrap(indent, "<%= ", Strip(s[1..]), " %>"))
  {
    assert Classify(s) == RubyOutput by {
      ClassifyRubyOutput(s);
    }
  }

  lemma ClassifyRubyOutput(s: String)
    requires s != [] && s[0] == '='
    ensures Classify(s) == RubyOutput
  {
  }

  /** In `a #c`, with `a` free of ` #`, the first ` #` is the one after `a`. */
  lemma FirstHashAfter(a: String, c: String)
    requires a != [] && !IsSpace(a[|a| - 1]) && !Contains(a, " #")
    ensures IndexOf(a + " #" + c, " #") == Some(|a|)
  {
    var t := a + " #" + c;
    assert t[|a|..][..2] == " #";
    assert StartsWith(t[|a|..], " #");
    forall k | 0 <= k < |a| ensures !StartsWith(t[k..], " #") {
      if k + 1 < |a| {
        NotContainsAt(a, " #", k);
        assert a[k..][..2] == t[k..][..2];
      } else {
        assert t[k] == a[|a| - 1];
      }
    }
  }

  /** The code of `= a #c` as the renderer sees it. */
  lemma CommentedCode(a: String, c: String)
    requires a != [] && !IsSpace(a[0]) && !IsSpace(a[|a| - 1]) && (c == [] || !IsSpace(c[|c| - 1]))
    ensures Strip(("= " + a + " #" + c)[1..]) == a + " #" + c
  {
    var code := a + " #" + c;
    assert ("= " + a + " #" + c)[1..] == " " + code + [];
    assert code[0] == a[0];
    assert code[|code| - 1] == if c == [] then '#' else c[|c| - 1];
    StripOfPadded(" ", code, []);
  }

  /** The renderer splits at the first ` #` exactly when the scan up to it is outside every string literal. */
  lemma RenderAtHash(s: String, code: String, a: String, c: String, indent: String)
    requires s != [] && Strip(s[1..]) == code && IndexOf(code, " #") == Some(|a|)
    requires code[..|a|] == a && code[|a| + 2..] == c && Strip(a) == a
    ensures !LiteralScan(code, |a|).quote.Quoted? ==>
      RubyOutputLine(s, indent) == indent + "<%= " + a + " %> <%# " + Strip(c) + " %>\n"
    ensures LiteralScan(code, |a|).quote.Quoted? ==>
      RubyOutputLine(s, indent) == Wrap(indent, "<%= ", code, " %>")
  {
  }

  /** Where `a #c` splits, and what the scan has seen by then. */
  lemma HashAfter(a: String, c: String)
    requires a != [] && !IsSpace(a[0]) && !IsSpace(a[|a| - 1]) && !Contains(a, " #")
    ensures var code := a + " #" + c;
      IndexOf(code, " #") == Some(|a|) && LiteralScan(code, |a|) == LiteralScan(a, |a|) &&
      code[..|a|] == a && code[|a| + 2..] == c && Strip(a) == a
  {
    var code := a + " #" + c;
    FirstHashAfter(a, c);
    LiteralScanPrefix(a + " #", c, |a|);
    LiteralScanPrefix(a, " #", |a|);
    assert code[..|a|] == a && code[|a| + 2..] == c;
    StripTrimmed(a);
  }

  /** The renderer on `= a #c`: split at the ` #` unless `a` leaves a string literal open. */
  lemma CommentedRender(s: String, a: String, c: String, indent: String)
    requires s != [] && Strip(s[1..]) == a + " #" + c
    requires a != [] && !IsSpace(a[0]) && !IsSpace(a[|a| - 1]) && !Contains(a, " #")
    ensures !LiteralScan(a, |a|).quote.Quoted? ==>
      RubyOutputLine(s, indent) == indent + "<%= " + a + " %> <%# " + Strip(c) + " %>\n"
    ensures LiteralScan(a, |a|).quote.Quoted? ==>
      RubyOutputLine(s, indent) == Wrap(indent, "<%= ", a + " #" + c, " %>")
  {
    HashAfter(a, c);
    RenderAtHash(s, a + " #" + c, a, c, indent);
  }

  /** An `=` line goes to the output renderer. */
  lemma RubyOutputRoute(s: String, indent: String, hasChildren: bool)
    requires s != [] && s[0] == '='
    ensures Dispatch(s, indent, hasChildren) == Line(RubyOutputLine(s, indent))
  {
    ClassifyRubyOutput(s);
  }

  /**
    `= a #c`, when the ` #` lies outside any string literal of `a`: the code
    goes to an output tag and the comment to an ERB comment tag.
   */
  lemma RubyOutputComment(s: String, a: String, c: String, indent: String, hasChildren: bool)
    requires s != [] && s[0] == '=' && Strip(s[1..]) == a + " #" + c
    requires a != [] && !IsSpace(a[0]) && !IsSpace(a[|a| - 1]) && !Contains(a, " #")
    requires !LiteralScan(a, |a|).quote.Quoted?
    ensures Dispatch(s, indent, hasChildren)
         == Line(indent + "<%= " + a + " %> <%# " + Strip(c) + " %>\n")
  {
    RubyOutputRoute(s, indent, hasChildren);
    CommentedRender(s, a, c, indent);
  }

  /** `= a #c`, when `a` leaves a string literal open: the ` #` is code, and the whole code is output. */
  lemma RubyOutputHashInString(s: String, a: String, c: String, indent: String, hasChildren: bool)
    requires s != [] && s[0] == '=' && Strip(s[1..]) == a + " #" + c
    requires a != [] && !IsSpace(a[0]) && !IsSpace(a[|a| - 1]) && !Contains(a, " #")
    requires LiteralScan(a, |a|).quote.Quoted?
    ensures Dispatch(s, indent, hasChildren) == Line(Wrap(indent, "<%= ", a + " #" + c, " %>"))
  {
    RubyOutputRoute(s, indent, hasChildren);
    CommentedRender(s, a, c, indent);
  }

  // ---------------------------------------------------------------------------
  // Text lines

  /** No backslash directly before a dash. */
  predicate NoEscapedDash(s: String)
  {
    forall k :: 0 <= k < |s| - 1 ==> !(s[k] == '\\' && s[k + 1] == '-')
  }

  /** With no `\-` in it, the dash unescape changes nothing. */
  lemma {:induction false} UnescapeDashIdentity(s: String)
    requires NoEscapedDash(s)
    ensures UnescapeDash(s) == s
    decreases |s|
  {
    if s != [] {
      assert NoEscapedDash(s[1..]) by {
        forall k | 0 <= k < |s[1..]| - 1 ensures !(s[1..][k] == '\\' && s[1..][k + 1] == '-') {
          assert s[1..][k] == s[k + 1] && s[1..][k + 1] == s[k + 2];
        }
      }
      UnescapeDashIdentity(s[1..]);
      assert s == [s[0]] + s[1..];
    }
  }

  /** Text without a backslash passes the dash unescape unchanged, and the scan goes on after it. */
  lemma {:induction false} UnescapeDashPlain(a: String, b: String)
    requires '\\' !in a
    ensures UnescapeDash(a + b) == a + UnescapeDash(b)
    decreases |a|
  {
    if a == [] {
      assert a + b == b;
    } else {
      assert (a + b)[0] == a[0] && (a + b)[1..] == a[1..] + b;
      UnescapeDashPlain(a[1..], b);
      assert a == [a[0]] + a[1..];
    }
  }

  /** Every `\-` after backslash-free text becomes `-`. */
  lemma UnescapeDashAt(a: String, b: String)
    requires '\\' !in a
    ensures UnescapeDash(a + "\\-" + b) == a + "-" + UnescapeDash(b)
  {
    var t := "\\-" + b;
    assert a + "\\-" + b == a + t;
    UnescapeDashPlain(a, t);
    assert t[2..] == b;
  }

  lemma ClassifyText(s: String)
    requires s != [] && s[0] !in "!-%.#=&/:"
    ensures Classify(s) == PlainText
  {
  }

  /** A text line with no sigil, no `#` and no `\-` is copied behind its indent. */
  lemma TextCopied(s: String, indent: String, hasChildren: bool)
    requires s != [] && s[0] !in "!-%.#=&/:" && '#' !in s && NoEscapedDash(s)
    ensures Dispatch(s, indent, hasChildren) == Line(indent + s + "\n")
  {
    assert Classify(s) == PlainText by { ClassifyText(s); }
    TextRoute(s, indent, hasChildren);
    assert RewriteInterpolation(s) == s by {
      RewriteInterpolationPlain(s, []);
      assert s + [] == s;
    }
    UnescapeDashIdentity(s);
  }

  /** A line `\-…` is text: the backslash before the dash is dropped. */
  lemma TextEscapedDash(s: String, b: String, indent: String, hasChildren: bool)
    requires s == "\\-" + b && '#' !in b
    ensures Dispatch(s, indent, hasChildren) == Line(indent + "-" + UnescapeDash(b) + "\n")
  {
    assert Classify(s) == PlainText by {
      assert s[0] == '\\';
      ClassifyText(s);
    }
    TextRoute(s, indent, hasChildren);
    assert RewriteInterpolation(s) == s by {
      RewriteInterpolationPlain(s, []);
      assert s + [] == s;
    }
    assert UnescapeDash(s) == "-" + UnescapeDash(b) by {
      assert s[2..] == b;
    }
  }

  /** A line opening with `#{x}` is text, not an id: the interpolation becomes an output tag. */
  lemma TextInterpolation(s: String, x: String, b: String, indent: String, hasChildren: bool)
    requires s == "#{" + x + "}" + b && InterpolationBody(x) && '\\' !in x
    ensures Dispatch(s, indent, hasChildren)
         == Line(indent + "<%= " + x + " %>" + UnescapeDash(RewriteInterpolation(b)) + "\n")
  {
    InterpolationIsText(s, x, b);
    RewriteInterpolationOutput(x, b);
    OutputTagPlain(x);
    TextDispatch(s, indent, hasChildren, "<%= " + x + " %>", RewriteInterpolation(b));
    OutputLineText(indent, x, UnescapeDash(RewriteInterpolation(b)));
  }

  lemma OutputLineText(indent: String, x: String, u: String)
    ensures indent + ("<%= " + x + " %>") + u + "\n" == indent + "<%= " + x + " %>" + u + "\n"
  {
  }

  lemma TextDispatch(s: String, indent: String, hasChildren: bool, o: String, r: String)
    requires s != [] && Classify(s) == PlainText
    requires RewriteInterpolation(s) == o + r && '\\' !in o
    ensures Dispatch(s, indent, hasChildren) == Line(indent + o + UnescapeDash(r) + "\n")
  {
    TextRoute(s, indent, hasChildren);
    TextAfterRewrite(s, indent, o, r);
  }

  lemma InterpolationIsText(s: String, x: String, b: String)
    requires s == "#{" + x + "}" + b
    ensures Classify(s) == PlainText
  {
    assert s[0] == '#' && s[1] == '{';
    ClassifyInterpolation(s);
  }

  /** An output tag around backslash-free code holds no backslash. */
  lemma OutputTagPlain(x: String)
    requires '\\' !in x
    ensures '\\' !in "<%= " + x + " %>"
  {
  }

  /** When the interpolation rewrite opens with backslash-free text, the text renderer keeps it and unescapes the rest. */
  lemma TextAfterRewrite(s: String, indent: String, o: String, r: String)
    requires RewriteInterpolation(s) == o + r && '\\' !in o
    ensures TextLine(s, indent) == indent + o + UnescapeDash(r) + "\n"
  {
    UnescapeDashPlain(o, r);
  }

  /** A line of no other kind goes to the text renderer. */
  lemma TextRoute(s: String, indent: String, hasChildren: bool)
    requires s != [] && Classify(s) == PlainText
    ensures Dispatch(s, indent, hasChildren) == Line(TextLine(s, indent))
  {
  }

  lemma ClassifyInterpolation(s: String)
    requires |s| >= 2 && s[0] == '#' && s[1] == '{'
    ensures Classify(s) == PlainText
  {
  }
}
