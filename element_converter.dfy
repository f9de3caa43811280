/**
  `ElementConverter`: the element renderer that the line dispatcher calls. It
  turns a `%tag…` line, a `.class …` line or an `#id …` line into one line of
  HTML, with its own regex-driven handling of class/id chains and attribute
  hashes (different in several details from `TagParser` and `TagBuilder`).
 */
module ElementConverter {
  import opened Wrappers
  import opened Text
  import opened StringUtils
  import opened Html
  import TagParser
  import TagBuilder
  import AttributeParser

  // ---------------------------------------------------------------------------
  // The class="…" patterns

  /** A match of `class="[^"]*"` at the start of `s`: the index of its closing quote. */
  function ClassValueEnd(s: String): (r: Option<nat>)
    ensures r.Some? ==> 7 <= r.value < |s| && s[..7] == "class=\"" && s[r.value] == '"'
    ensures r.Some? ==> forall k :: 7 <= k < r.value ==> s[k] != '"'
  {
    if StartsWith(s, "class=\"") then IndexOfChar(s, '"', 7) else None
  }

  /** `s.match(/class="([^"]*)"/)`: the value of the leftmost match. */
  function ClassValue(s: String): (r: Option<String>)
    ensures r.Some? ==> '"' !in r.value
    decreases |s|
  {
    if s == [] then None
    else match ClassValueEnd(s)
      case Some(c) =>
        assert forall k :: 0 <= k < c - 7 ==> s[7..c][k] == s[k + 7];
        Some(s[7..c])
      case None => ClassValue(s[1..])
  }

  /**
    A `gsub` replacement string as Ruby reads it for one match `m` with the
    pre-match `pre` and the post-match `post` (the pattern has no groups):
    `\0` and `\&` stand for the match, `\`` for the pre-match, `\'` for the
    post-match, `\1`-`\9` and `\+` for the (absent) groups, and `\\` for one
    backslash; any other backslash is kept with the character after it.
   */
  function ExpandReplacement(rep: String, m: String, pre: String, post: String): String
    decreases |rep|
  {
    if rep == [] then []
    else if rep[0] != '\\' || |rep| == 1 then [rep[0]] + ExpandReplacement(rep[1..], m, pre, post)
    else
      var c := rep[1];
      var tail := ExpandReplacement(rep[2..], m, pre, post);
      if c == '0' || c == '&' then m + tail
      else if ('1' <= c <= '9') || c == '+' then tail
      else if c == '`' then pre + tail
      else if c == '\'' then post + tail
      else if c == '\\' then "\\" + tail
      else [rep[0], c] + tail
  }

  /** A replacement without a backslash is inserted as it is. */
  lemma {:induction false} ExpandPlain(rep: String, m: String, pre: String, post: String)
    requires '\\' !in rep
    ensures ExpandReplacement(rep, m, pre, post) == rep
    decreases |rep|
  {
    if rep != [] {
      ExpandPlain(rep[1..], m, pre, post);
      assert rep == [rep[0]] + rep[1..];
    }
  }

  /** `\0` inserts the match itself, and `\\0` a literal backslash and `0`. */
  lemma ExpandWholeMatch(x: String, m: String, pre: String, post: String)
    ensures ExpandReplacement("\\0" + x, m, pre, post) == m + ExpandReplacement(x, m, pre, post)
    ensures ExpandReplacement("\\\\0" + x, m, pre, post) == "\\0" + ExpandReplacement(x, m, pre, post)
  {
    assert ("\\0" + x)[2..] == x;
    var y := "\\\\0" + x;
    assert y[2..] == "0" + x;
    assert ("0" + x)[1..] == x;
    assert ExpandReplacement(y[2..], m, pre, post) == "0" + ExpandReplacement(x, m, pre, post);
  }

  /** A backslash-free head of the replacement is copied, and the rest expanded after it. */
  lemma {:induction false} ExpandPlainPrefix(p: String, rest: String, m: String, pre: String, post: String)
    requires '\\' !in p
    ensures ExpandReplacement(p + rest, m, pre, post) == p + ExpandReplacement(rest, m, pre, post)
    decreases |p|
  {
    if p != [] {
      var r := p + rest;
      assert r[0] == p[0] && r[1..] == p[1..] + rest;
      assert p[0] in p;
      assert ExpandReplacement(r, m, pre, post) == [p[0]] + ExpandReplacement(r[1..], m, pre, post);
      ExpandPlainPrefix(p[1..], rest, m, pre, post);
      assert p == [p[0]] + p[1..];
    } else {
      assert p + rest == rest;
    }
  }

  /**
    `s.gsub(/class="[^"]*"/, replacement)`, `pre` being the text of the subject
    before `s`: every match is replaced by the expanded replacement.
   */
  function ReplaceClass(s: String, replacement: String, pre: String): String
    decreases |s|
  {
    if s == [] then []
    else match ClassValueEnd(s)
      case Some(c) =>
        ExpandReplacement(replacement, s[..c + 1], pre, s[c + 1..]) + ReplaceClass(s[c + 1..], replacement, pre + s[..c + 1])
      case None => [s[0]] + ReplaceClass(s[1..], replacement, pre + [s[0]])
  }

  /** `s.gsub(/\s*class="[^"]*"/, "")`: each class attribute removed with the whitespace before it. */
  function RemoveClass(s: String): String
    decreases |s|
  {
    if s == [] then []
    else
      var w := |LeadingSpace(s)|;
      match ClassValueEnd(s[w..])
      case Some(c) => RemoveClass(s[w + c + 1..])
      case None => [s[0]] + RemoveClass(s[1..])
  }

  // ---------------------------------------------------------------------------
  // convert

  /** `^%([a-zA-Z0-9_-]+)(.*)$`: the tag name and the rest of the line. */
  function ElementMatch(line: String): (r: Option<(String, String)>)
    ensures r.Some? <==> 2 <= |line| && line[0] == '%' && IsWordOrDash(line[1])
    ensures r.Some? ==> line == "%" + r.value.0 + r.value.1 && r.value.0 != []
    ensures r.Some? ==> (forall k :: 0 <= k < |r.value.0| ==> IsWordOrDash(r.value.0[k]))
                        && (r.value.1 == [] || !IsWordOrDash(r.value.1[0]))
  {
    if line == [] || line[0] != '%' then None
    else
      var e := WordRunEnd(line, 1);
      if e == 1 then None
      else
        assert line == "%" + line[1..e] + line[e..];
        Some((line[1..e], line[e..]))
  }

  /** The ` class="…" id="…"` string of a class/id chain: only the lists that are not empty. */
  function ChainAttributes(classes: seq<String>, ids: seq<String>): String
  {
    var parts := (if classes == [] then [] else [Attribute("class", classes)]) +
                 (if ids == [] then [] else [Attribute("id", ids)]);
    if parts == [] then [] else " " + Join(parts, " ")
  }

  /** A chain of `.class` and `#id` names at the head of `rest`: its attributes and what follows it. */
  function ChainHead(rest: String): (String, String)
  {
    if rest != [] && TagParser.IsMark(rest[0]) then
      var e := TagParser.ClassIdRunEnd(rest, 0);
      var r := TagParser.AddParts(TagParser.Defaults, TagParser.Segments(rest[..e]));
      (ChainAttributes(r.classes, r.ids), rest[e..])
    else ([], rest)
  }

  /**
    When both attribute strings hold a class, the two values are joined into the
    first string's class attributes and the hash's class attributes are dropped.
   */
  function FuseClasses(attributes: String, additional: String): (String, String)
  {
    if Contains(additional, "class=") && Contains(attributes, "class=")
       && ClassValue(attributes).Some? && ClassValue(additional).Some? then
      var merged := ClassValue(attributes).value + " " + ClassValue(additional).value;
      (ReplaceClass(attributes, "class=\"" + merged + "\"", []), RemoveClass(additional))
    else (attributes, additional)
  }

  /** The attribute-hash step: the final attribute string and the content. */
  function HashStep(attributes: String, rest: String): (String, String)
  {
    if StartsWith(Strip(rest), "{") then
      match StringUtils.ExtractBalancedBraces(rest, false)
      case None => (attributes, Strip(rest))
      case Some(b) =>
        var (attrs, additional) := FuseClasses(attributes, AttributeParser.Attributes(b.content));
        (attrs + additional, Strip(b.remaining))
    else (attributes, Strip(rest))
  }

  /** The element's output line, chosen by void-ness, children and content. */
  function Render(indent: String, tag: String, attributes: String, content: String, hasChildren: bool): String
  {
    var open := indent + OpenTag(tag, attributes);
    if IsVoid(tag) then open + "\n"
    else if content == [] && !hasChildren then open + CloseTag(tag) + "\n"
    else if hasChildren then open + "\n"
    else if content == [] then open + CloseTag(tag) + "\n"
    else if content[0] == '=' then open + "<%= " + Strip(content[1..]) + " %>" + CloseTag(tag) + "\n"
    else open + ProcessInterpolation(content) + CloseTag(tag) + "\n"
  }

  /** The tag name, the attribute string and the content of a `%tag…` line. */
  function Element(line: String): Option<(String, String, String)>
  {
    match ElementMatch(line)
    case None => None
    case Some((tag, rest)) =>
      var (attributes, remaining) := ChainHead(rest);
      var (attrs, content) := HashStep(attributes, remaining);
      Some((tag, attrs, content))
  }

  /** `convert`: a `%tag…` line as HTML; a line with `<%` or without a tag name is passed through. */
  function Convert(line: String, indent: String, hasChildren: bool): String
  {
    if Contains(line, "<%") then indent + line + "\n"
    else match Element(line)
      case None => indent + line + "\n"
      case Some((tag, attrs, content)) => Render(indent, tag, attrs, content, hasChildren)
  }

  // ---------------------------------------------------------------------------
  // convert_class and convert_id

  /** `^([^{]*)\{([^}]*)\}(.*)`: the text before the first `{`, up to the next `}`, and after it. */
  function BraceMatch(rest: String): (r: Option<(String, String, String)>)
    ensures r.Some? ==> rest == r.value.0 + "{" + r.value.1 + "}" + r.value.2
    ensures r.Some? ==> '{' !in r.value.0 && '}' !in r.value.1
  {
    match IndexOfChar(rest, '{', 0)
    case None => None
    case Some(b) =>
      match IndexOfChar(rest, '}', b + 1)
      case None => None
      case Some(c) =>
        assert rest == rest[..b] + "{" + rest[b + 1..c] + "}" + rest[c + 1..];
        assert forall k :: 0 <= k < b ==> rest[..b][k] == rest[k];
        var inner := rest[b + 1..c];
        assert forall k :: 0 <= k < |inner| ==> inner[k] == rest[k + b + 1];
        Some((rest[..b], rest[b + 1..c], rest[c + 1..]))
  }

  /** A class line with an attribute hash: the hash's class joins the listed classes. */
  function HashClassLine(indent: String, spec: String, hash: String, tail: String, hasChildren: bool): String
  {
    var content := Strip(tail);
    var all := ClassLineAttributes(NonEmptyFields(spec, '.'), AttributeParser.Attributes(hash));
    if content != [] && !hasChildren then indent + "<div" + all + ">" + ProcessInterpolation(content) + "</div>\n"
    else if !hasChildren then indent + "<div" + all + "></div>\n"
    else indent + "<div" + all + ">\n"
  }

  /**
    The attributes of a class line with a hash: the class attribute first, the
    hash's class value appended to the listed classes, then the hash's other attributes.
   */
  function ClassLineAttributes(classes: seq<String>, additional: String): String
  {
    var fused := Contains(additional, "class=") && ClassValue(additional).Some?;
    var allClasses := if fused then classes + [ClassValue(additional).value] else classes;
    var others := if fused then RemoveClass(additional) else additional;
    " " + Attribute("class", allClasses) + others
  }

  /** A class line without a usable hash: the inline content, or else an open tag only. */
  function PlainClassLine(indent: String, spec: String, content: String, hasChildren: bool): String
  {
    var open := indent + "<div " + Attribute("class", NonEmptyFields(spec, '.')) + ">";
    if content != [] && !hasChildren then open + ProcessInterpolation(content) + "</div>\n"
    else open + "\n"
  }

  /** The second field of a `split(" ", 2)`, `nil` read as "". */
  function SecondField(parts: seq<String>): String
  {
    if |parts| == 2 then parts[1] else []
  }

  /**
    `convert_class` as written: `None` where Ruby raises `NoMethodError`, which
    happens when the line is a lone `.`, so that `split(" ", 2)` has no field.
   */
  function ConvertClassAsWritten(line: String, indent: String, hasChildren: bool): Option<String>
    requires line != []
  {
    var rest := line[1..];
    if '{' in rest && BraceMatch(rest).Some? then
      var (spec, hash, tail) := BraceMatch(rest).value;
      Some(HashClassLine(indent, spec, hash, tail, hasChildren))
    else
      var parts := SplitFirstWord(rest);
      if parts == [] then None
      else Some(PlainClassLine(indent, parts[0], SecondField(parts), hasChildren))
  }

  /**
    A class line without a usable hash as intended: like the hash branch, an
    empty line without children is a closed `div` pair.
   */
  function ClosedPlainClassLine(indent: String, spec: String, content: String, hasChildren: bool): String
  {
    if content == [] && !hasChildren then indent + "<div " + Attribute("class", NonEmptyFields(spec, '.')) + "></div>\n"
    else PlainClassLine(indent, spec, content, hasChildren)
  }

  /** `convert_class`, with a missing class spec read as "" as it is for `convert_id`. */
  function ConvertClass(line: String, indent: String, hasChildren: bool): String
    requires line != []
  {
    var rest := line[1..];
    if '{' in rest && BraceMatch(rest).Some? then
      var (spec, hash, tail) := BraceMatch(rest).value;
      HashClassLine(indent, spec, hash, tail, hasChildren)
    else
      var parts := SplitFirstWord(rest);
      PlainClassLine(indent, if parts == [] then [] else parts[0], SecondField(parts), hasChildren)
  }

  /**
    `convert_class` as the repository's tests expect it: a bare line without
    children is a closed `div` pair, as it already is on the hash branch.
   */
  function ConvertClassClosed(line: String, indent: String, hasChildren: bool): String
    requires line != []
  {
    var rest := line[1..];
    if '{' in rest && BraceMatch(rest).Some? then
      var (spec, hash, tail) := BraceMatch(rest).value;
      HashClassLine(indent, spec, hash, tail, hasChildren)
    else
      var parts := SplitFirstWord(rest);
      ClosedPlainClassLine(indent, if parts == [] then [] else parts[0], SecondField(parts), hasChildren)
  }

  /** A class line that `convert_class` leaves open although it has neither content nor children. */
  predicate BareChildless(line: String, hasChildren: bool)
    requires line != []
  {
    var rest := line[1..];
    !hasChildren && !('{' in rest && BraceMatch(rest).Some?) && SecondField(SplitFirstWord(rest)) == []
  }

  /** `convert_id`: the first word is the id (`nil` prints as ""), the second the content. */
  function ConvertId(line: String, indent: String, hasChildren: bool): String
    requires line != []
  {
    var parts := SplitFirstWord(line[1..]);
    var id := if parts == [] then [] else parts[0];
    var content := SecondField(parts);
    var open := indent + "<div id=\"" + id + "\">";
    if content != [] && !hasChildren then open + ProcessInterpolation(content) + "</div>\n"
    else open + "\n"
  }

  // ---------------------------------------------------------------------------
  // The loops of convert and extract_balanced_braces

  /** `extract_balanced_braces`: the brace counter and quote flag of the Ruby loop, without escapes. */
  method ExtractBalancedBraces(text: String) returns (r: Option<Braced>)
    ensures r == StringUtils.ExtractBalancedBraces(text, false)
  {
    var t := Strip(text);
    if !StartsWith(t, "{") {
      return None;
    }
    var braceCount := 0;
    var quote := Unquoted;
    var i := 0;
    while i < |t|
      invariant 0 <= i <= |t|
      invariant ClosingFrom(t, i, quote, braceCount, '{', '}', false) == ClosingFrom(t, 0, Unquoted, 0, '{', '}', false)
    {
      var c := t[i];
      if quote.Unquoted? && IsQuote(c) {
        quote := Quoted(c);
      } else if quote.Quoted? && c == quote.q {
        quote := Unquoted;
      } else if quote.Unquoted? {
        if c == '{' {
          braceCount := braceCount + 1;
        } else if c == '}' {
          braceCount := braceCount - 1;
          if braceCount == 0 {
            return Some(Braced(t[1..i], t[i + 1..]));
          }
        }
      }
      i := i + 1;
    }
    return None;
  }

  /** The class/id chain of `convert`: each part appended to the classes or the ids, in order. */
  method ChainParts(spec: String) returns (classes: seq<String>, ids: seq<String>)
    ensures var r := TagParser.AddParts(TagParser.Defaults, TagParser.Segments(spec));
      classes == r.classes && ids == r.ids
  {
    var parts := TagParser.Segments(spec);
    classes := [];
    ids := [];
    var i := 0;
    while i < |parts|
      invariant i <= |parts|
      invariant TagParser.AddParts(TagParser.Defaults.(classes := classes, ids := ids), parts[i..]) ==
                TagParser.AddParts(TagParser.Defaults, parts)
    {
      assert parts[i..][1..] == parts[i + 1..];
      var part := parts[i];
      if part != [] && part[0] == '.' {
        classes := classes + [part[1..]];
      } else if part != [] && part[0] == '#' {
        ids := ids + [part[1..]];
      }
      i := i + 1;
    }
  }

  /** `convert`, with the chain loop and the brace loop of the Ruby method. */
  method ConvertElement(line: String, indent: String, hasChildren: bool) returns (out: String)
    ensures out == Convert(line, indent, hasChildren)
  {
    if Contains(line, "<%") {
      return indent + line + "\n";
    }
    var m := ElementMatch(line);
    if m.None? {
      return indent + line + "\n";
    }
    var (tag, rest) := m.value;
    var attributes, remaining := ConvertChain(rest);
    var attrs, content := ConvertHash(attributes, remaining);
    ElementOf(line, tag, rest, attrs, content);
    out := Render(indent, tag, attrs, content, hasChildren);
  }

  /** The element read off its match, its chain and its hash. */
  lemma ElementOf(line: String, tag: String, rest: String, attrs: String, content: String)
    requires ElementMatch(line) == Some((tag, rest))
    requires (attrs, content) == HashStep(ChainHead(rest).0, ChainHead(rest).1)
    ensures Element(line) == Some((tag, attrs, content))
  {
  }

  /** The class and id chain right after the tag name, as the attributes it makes and the text after it. */
  method ConvertChain(rest: String) returns (attributes: String, remaining: String)
    ensures (attributes, remaining) == ChainHead(rest)
  {
    attributes, remaining := [], rest;
    if rest != [] && TagParser.IsMark(rest[0]) {
      var e := TagParser.ClassIdRunEnd(rest, 0);
      var classes, ids := ChainParts(rest[..e]);
      attributes := ChainAttributes(classes, ids);
      remaining := rest[e..];
    }
  }

  /** An attribute hash after the chain, its classes fused with the chain's, and the content after it. */
  method ConvertHash(attributes: String, rest: String) returns (attrs: String, content: String)
    ensures (attrs, content) == HashStep(attributes, rest)
  {
    attrs := attributes;
    if StartsWith(Strip(rest), "{") {
      var b := ExtractBalancedBraces(rest);
      if b.Some? {
        var (fused, additional) := FuseClasses(attributes, AttributeParser.Attributes(b.value.content));
        attrs := fused + additional;
        content := Strip(b.value.remaining);
      } else {
        content := Strip(rest);
      }
    } else {
      content := Strip(rest);
    }
  }

  // ---------------------------------------------------------------------------
  // Properties of convert

  /** A line holding ERB, or without a `%` and a tag character at its head, is copied behind the indent. */
  lemma PassThrough(line: String, indent: String, hasChildren: bool)
    requires Contains(line, "<%") || !(2 <= |line| && line[0] == '%' && IsWordOrDash(line[1]))
    ensures Convert(line, indent, hasChildren) == indent + line + "\n"
  {
  }

  /** A void element is the open tag alone, whatever the content and the children. */
  lemma VoidElement(line: String, indent: String, hasChildren: bool)
    requires !Contains(line, "<%") && Element(line).Some? && IsVoid(Element(line).value.0)
    ensures Convert(line, indent, hasChildren) == indent + OpenTag(Element(line).value.0, Element(line).value.1) + "\n"
    ensures Convert(line, indent, true) == Convert(line, indent, false)
  {
  }

  /**
    With children, an element is its open tag alone: the inline content is
    dropped, and the line is the head of what the element gives without children.
   */
  lemma ChildrenOpenOnly(line: String, indent: String, tag: String, attrs: String, content: String)
    requires !Contains(line, "<%") && Element(line) == Some((tag, attrs, content))
    ensures Convert(line, indent, true) == indent + OpenTag(tag, attrs) + "\n"
    ensures var o := Convert(line, indent, true); o[..|o| - 1] <= Convert(line, indent, false)
  {
    RenderWithChildren(indent, tag, attrs, content);
  }

  lemma RenderWithChildren(indent: String, tag: String, attrs: String, content: String)
    ensures Render(indent, tag, attrs, content, true) == indent + OpenTag(tag, attrs) + "\n"
    ensures var o := Render(indent, tag, attrs, content, true); o[..|o| - 1] <= Render(indent, tag, attrs, content, false)
  {
    var o := indent + OpenTag(tag, attrs);
    assert (o + "\n")[..|o|] == o;
  }

  /** A `%name` head followed by a character outside `[\w-]`. */
  lemma ElementMatchOf(tag: String, rest: String)
    requires TagParser.Name(tag) && (rest == [] || !IsWordOrDash(rest[0]))
    ensures ElementMatch("%" + tag + rest) == Some((tag, rest))
  {
    var line := "%" + tag + rest;
    forall k | 1 <= k < |tag| + 1 ensures IsWordOrDash(line[k]) {
      assert line[k] == tag[k - 1];
    }
    if rest != [] {
      assert line[|tag| + 1] == rest[0];
    }
    WordRunEndOf(line, 1, |tag| + 1);
    assert line[1..|tag| + 1] == tag;
    assert line[|tag| + 1..] == rest;
  }

  /** A line made of ERB-free parts, `<` occurring in none of them, contains no `<%`. */
  lemma NoErb(line: String)
    requires '<' !in line
    ensures !Contains(line, "<%")
  {
    MissingHead(line, "<%");
  }

  /** `%tag= code`: the code, stripped, in an output tag between the open and the close tag. */
  lemma CodeLine(tag: String, code: String, indent: String)
    requires TagParser.Name(tag) && !IsVoid(tag)
    requires code != [] && Strip(code) == code && '<' !in code
    ensures Convert("%" + tag + "= " + code, indent, false) ==
            indent + "<" + tag + "><%= " + code + " %></" + tag + ">\n"
  {
    var line := "%" + tag + "= " + code;
    CodeElement(tag, code, line);
    CodeRender(tag, code, indent);
  }

  lemma CodeRender(tag: String, code: String, indent: String)
    requires !IsVoid(tag) && code != [] && Strip(code) == code
    ensures Render(indent, tag, [], "= " + code, false) == indent + "<" + tag + "><%= " + code + " %></" + tag + ">\n"
  {
    assert ("= " + code)[1..] == " " + code + [];
    StripOfPadded(" ", code, []);
  }

  lemma CodeElement(tag: String, code: String, line: String)
    requires TagParser.Name(tag) && code != [] && Strip(code) == code && '<' !in code
    requires line == "%" + tag + "= " + code
    ensures !Contains(line, "<%") && Element(line) == Some((tag, [], "= " + code))
  {
    var rest := "= " + code;
    assert line == "%" + tag + rest;
    assert '<' !in line by {
      forall k | 0 <= k < |line| ensures line[k] != '<' {
        if 0 < k <= |tag| { assert line[k] == tag[k - 1]; assert IsWordOrDash(tag[k - 1]); }
        if k > |tag| + 2 { assert line[k] == code[k - |tag| - 3]; }
      }
    }
    NoErb(line);
    ElementMatchOf(tag, rest);
    assert ChainHead(rest) == ([], rest);
    StripTrimmed(rest);
    assert HashStep([], rest) == ([], rest);
  }

  /** The class chain `.a`: one class attribute, and the text after the chain. */
  lemma ClassChain(a: String, rest: String)
    requires TagParser.Name(a) && (rest == [] || !TagParser.IsClassIdChar(rest[0]))
    ensures ChainHead("." + a + rest) == (" class=\"" + a + "\"", rest)
  {
    var s := "." + a + rest;
    var spec := "." + a;
    forall k | 1 <= k < |a| + 1 ensures TagParser.IsClassIdChar(s[k]) {
      assert s[k] == a[k - 1];
    }
    if rest != [] {
      assert s[|a| + 1] == rest[0];
    }
    TagParser.ClassIdRunEndOf(s, 0, |a| + 1);
    assert s[..|a| + 1] == spec && s[|a| + 1..] == rest;
    OneClassSpec(a, spec);
    ChainHeadOf(s, |a| + 1, TagParser.Defaults.(classes := [a]));
    OneClassAttributes(a);
  }

  lemma ChainHeadOf(s: String, e: nat, r: TagParser.TagRecord)
    requires s != [] && TagParser.IsMark(s[0]) && e <= |s| && TagParser.ClassIdRunEnd(s, 0) == e
    requires TagParser.AddParts(TagParser.Defaults, TagParser.Segments(s[..e])) == r
    ensures ChainHead(s) == (ChainAttributes(r.classes, r.ids), s[e..])
  {
  }

  /** The chain `.a` adds the one class `a`. */
  lemma OneClassSpec(a: String, spec: String)
    requires TagParser.Name(a) && spec == "." + a
    ensures TagParser.AddParts(TagParser.Defaults, TagParser.Segments(spec)) == TagParser.Defaults.(classes := [a])
  {
    assert TagParser.NoMark(a) by {
      forall k | 0 <= k < |a| ensures !TagParser.IsMark(a[k]) { assert IsWordOrDash(a[k]); }
    }
    assert spec == ['.'] + a + [];
    TagParser.SegmentsPrepend('.', a, []);
    assert TagParser.Segments(spec) == [spec];
    var d := TagParser.Defaults;
    assert TagParser.AddParts(d, [spec]) == TagParser.AddParts(TagParser.AddPart(d, spec), []);
    assert spec[1..] == a;
  }

  lemma OneClassAttributes(a: String)
    ensures ChainAttributes([a], []) == " class=\"" + a + "\""
  {
    assert Join([a], " ") == a;
    assert Join([Attribute("class", [a])], " ") == Attribute("class", [a]);
    assert [Attribute("class", [a])] + [] == [Attribute("class", [a])];
  }

  /** Two attribute strings that are each one class attribute fuse into one class attribute. */
  lemma FuseTwoClasses(a: String, b: String)
    requires '"' !in a && '"' !in b && '\\' !in a && '\\' !in b
    ensures FuseClasses(" class=\"" + a + "\"", " class=\"" + b + "\"") == (" class=\"" + a + " " + b + "\"", [])
  {
    var x := " class=\"" + a + "\"";
    var repl := "class=\"" + (a + " " + b) + "\"";
    FusedPair(a, b);
    ClassReplacementPlain(a, b);
    ExpandPlain(repl, x[1..], " ", []);
    ClassReplacementText(a, b);
  }

  lemma ClassReplacementPlain(a: String, b: String)
    requires '\\' !in a && '\\' !in b
    ensures '\\' !in "class=\"" + (a + " " + b) + "\""
  {
    assert '\\' !in "class=\"" && '\\' !in " " && '\\' !in "\"";
  }

  lemma ClassReplacementText(a: String, b: String)
    ensures " " + ("class=\"" + (a + " " + b) + "\"") == " class=\"" + a + " " + b + "\""
  {
  }

  /** Two single class attributes: the first one's match is replaced by the expanded joined value, the second one is dropped. */
  lemma FusedPair(a: String, v: String)
    requires '"' !in a && '"' !in v
    ensures FuseClasses(" class=\"" + a + "\"", " class=\"" + v + "\"") ==
            (" " + ExpandReplacement("class=\"" + (a + " " + v) + "\"", (" class=\"" + a + "\"")[1..], " ", []), [])
  {
    var x := " class=\"" + a + "\"";
    var y := " class=\"" + v + "\"";
    ClassAttributeValue(x, a);
    ClassAttributeValue(y, v);
    ContainsAt(x, "class=", 1);
    ContainsAt(y, "class=", 1);
    ReplaceOne(x, a, "class=\"" + (a + " " + v) + "\"");
    RemoveOne(y, v);
  }

  /** ` class="v"` with its class attribute replaced: the replacement expanded for that one match. */
  lemma ReplaceOne(x: String, v: String, repl: String)
    requires x == " class=\"" + v + "\"" && '"' !in v
    ensures ReplaceClass(x, repl, []) == " " + ExpandReplacement(repl, x[1..], " ", [])
  {
    ClassAttributeValue(x, v);
    assert ClassValueEnd(x).None? by { assert x[0] == ' '; }
    var t := x[1..];
    assert x[0] == ' ' && [] + [x[0]] == " ";
    assert ReplaceClass(x, repl, []) == " " + ReplaceClass(t, repl, " ");
    assert t[..|v| + 8] == t && t[|v| + 8..] == [];
    assert ReplaceClass(t, repl, " ") == ExpandReplacement(repl, t, " ", []) + ReplaceClass([], repl, " " + t);
  }

  /**
    A hash class whose value ends in `\0`: the replacement string expands `\0` to
    the matched `class="a"`, so the fused attribute holds that text.
   */
  lemma FuseEscapedClass(a: String, v: String)
    requires '"' !in a && '"' !in v && '\\' !in a && '\\' !in v
    ensures FuseClasses(" class=\"" + a + "\"", " class=\"" + v + "\\0\"") ==
            (" class=\"" + a + " " + v + "class=\"" + a + "\"" + "\"", [])
  {
    var x := " class=\"" + a + "\"";
    var w := v + "\\0";
    var head := "class=\"" + a + " " + v;
    EscapedClassLayout(a, v);
    FusedPair(a, w);
    ExpandPlainPrefix(head, "\\0" + "\"", x[1..], " ", []);
    ExpandWholeMatch("\"", x[1..], " ", []);
    ExpandPlain("\"", x[1..], " ", []);
    EscapedClassText(a, v, x[1..]);
  }

  lemma EscapedClassLayout(a: String, v: String)
    requires '"' !in v && '\\' !in a && '\\' !in v
    ensures " class=\"" + (v + "\\0") + "\"" == " class=\"" + v + "\\0\""
    ensures '"' !in v + "\\0"
    ensures "class=\"" + (a + " " + (v + "\\0")) + "\"" == ("class=\"" + a + " " + v) + ("\\0" + "\"")
    ensures '\\' !in "class=\"" + a + " " + v
  {
    assert '\\' !in "class=\"" && '\\' !in " ";
  }

  lemma EscapedClassText(a: String, v: String, m: String)
    requires m == (" class=\"" + a + "\"")[1..]
    ensures " " + (("class=\"" + a + " " + v) + (m + "\"")) == " class=\"" + a + " " + v + "class=\"" + a + "\"" + "\""
  {
    assert m == "class=\"" + a + "\"";
  }

  /** ` class="v"` with its class attribute removed is empty. */
  lemma RemoveOne(y: String, v: String)
    requires y == " class=\"" + v + "\"" && '"' !in v
    ensures RemoveClass(y) == []
  {
    ClassAttributeValue(y, v);
    assert LeadingSpace(y) == " " by { assert y[1] == 'c'; assert y[1..][0] == 'c'; }
    assert y[1 + |v| + 8..] == [];
  }

  /** In ` class="v"` the class-attribute match is at the second character and its value is `v`. */
  lemma ClassAttributeValue(x: String, v: String)
    requires x == " class=\"" + v + "\"" && '"' !in v
    ensures |x| == |v| + 9 && StartsWith(x[1..], "class=")
    ensures ClassValueEnd(x[1..]) == Some(|v| + 7)
    ensures ClassValue(x) == Some(v)
  {
    var t := x[1..];
    assert t == "class=\"" + v + "\"";
    assert StartsWith(t, "class=\"");
    forall k | 7 <= k < |v| + 7 ensures t[k] != '"' { assert t[k] == v[k - 7]; }
    IndexOfCharAt(t, '"', 7, |v| + 7);
    assert t[7..|v| + 7] == v;
    assert !StartsWith(x, "class=\"") by { assert x[0] == ' '; }
    assert x != [];
    assert ClassValue(x) == ClassValue(t);
  }

  /**
    `%tag.a{class: "b"}`: the shorthand class and the hash class are fused into
    one class attribute, shorthand first, and the element is closed at once: the
    case at spec/haml2erb_spec.rb:414-418 with an explicit tag name.
   */
  lemma FusedClassLine(tag: String, a: String, b: String, indent: String)
    requires TagParser.Name(tag) && !IsVoid(tag) && TagParser.Name(a)
    requires AttributeParser.Plain(b) && ',' !in b && '<' !in b && '{' !in b && '}' !in b && '\\' !in b
    ensures Convert("%" + tag + "." + a + "{class: \"" + b + "\"}", indent, false) ==
            indent + "<" + tag + " class=\"" + a + " " + b + "\"></" + tag + ">\n"
  {
    var hash := "{class: \"" + b + "\"}";
    var line := "%" + tag + "." + a + hash;
    FusedClassElement(tag, a, b, line);
    FusedClassRender(tag, a, b, indent);
  }

  lemma FusedClassRender(tag: String, a: String, b: String, indent: String)
    requires !IsVoid(tag)
    ensures Render(indent, tag, " class=\"" + a + " " + b + "\"", [], false) ==
            indent + "<" + tag + " class=\"" + a + " " + b + "\"></" + tag + ">\n"
  {
  }

  lemma FusedClassElement(tag: String, a: String, b: String, line: String)
    requires TagParser.Name(tag) && TagParser.Name(a)
    requires AttributeParser.Plain(b) && ',' !in b && '<' !in b && '{' !in b && '}' !in b && '\\' !in b
    requires line == "%" + tag + "." + a + "{class: \"" + b + "\"}"
    ensures !Contains(line, "<%")
    ensures Element(line) == Some((tag, " class=\"" + a + " " + b + "\"", []))
  {
    var hash := "{class: \"" + b + "\"}";
    var rest := "." + a + hash;
    assert line == "%" + tag + rest;
    FusedNoLt(tag, a, b, line);
    NoErb(line);
    ElementMatchOf(tag, rest);
    ClassChain(a, hash);
    HashClass(a, b, hash);
  }

  lemma HashClass(a: String, b: String, hash: String)
    requires TagParser.Name(a)
    requires AttributeParser.Plain(b) && ',' !in b && '{' !in b && '}' !in b && '\\' !in b
    requires hash == "{class: \"" + b + "\"}"
    ensures HashStep(" class=\"" + a + "\"", hash) == (" class=\"" + a + " " + b + "\"", [])
  {
    var inner := "class: \"" + b + "\"";
    BracedClass(b, hash, inner);
    ClassRendering(b, inner);
    assert '"' !in a && '\\' !in a by {
      forall i | 0 <= i < |a| ensures a[i] != '"' && a[i] != '\\' { assert IsWordOrDash(a[i]); }
    }
    FuseTwoClasses(a, b);
    HashStepOf(" class=\"" + a + "\"", hash, Braced(inner, []), " class=\"" + a + " " + b + "\"", []);
    assert (" class=\"" + a + " " + b + "\"") + [] == " class=\"" + a + " " + b + "\"";
  }

  /** The hash step when the braces are found, in terms of the fused pair. */
  lemma HashStepOf(attributes: String, rest: String, br: Braced, x: String, y: String)
    requires StartsWith(Strip(rest), "{") && StringUtils.ExtractBalancedBraces(rest, false) == Some(br)
    requires FuseClasses(attributes, AttributeParser.Attributes(br.content)) == (x, y)
    ensures HashStep(attributes, rest) == (x + y, Strip(br.remaining))
  {
  }

  lemma FusedNoLt(tag: String, a: String, b: String, line: String)
    requires TagParser.Name(tag) && TagParser.Name(a) && '<' !in b
    requires line == "%" + tag + "." + a + "{class: \"" + b + "\"}"
    ensures '<' !in line
  {
    forall k | 0 <= k < |line| ensures line[k] != '<' {
      if 0 < k <= |tag| { assert line[k] == tag[k - 1]; assert IsWordOrDash(tag[k - 1]); }
      if |tag| + 1 < k <= |tag| + 1 + |a| { assert line[k] == a[k - |tag| - 2]; assert IsWordOrDash(a[k - |tag| - 2]); }
      if |tag| + |a| + 11 <= k < |line| - 2 { assert line[k] == b[k - |tag| - |a| - 11]; }
    }
  }

  lemma BracedClass(b: String, hash: String, inner: String)
    requires AttributeParser.Plain(b) && '{' !in b && '}' !in b
    requires hash == "{class: \"" + b + "\"}" && inner == "class: \"" + b + "\""
    ensures StartsWith(Strip(hash), "{") && StringUtils.ExtractBalancedBraces(hash, false) == Some(Braced(inner, []))
  {
    var h := "class: ";
    ClassHashLayout(b, hash, inner);
    ClassKeyUnquoted();
    PlainQuoteFree(b);
    StringUtils.BracedQuoted(hash, h, '"', b, [], false);
    StripTrimmed(hash);
  }

  lemma ClassHashLayout(b: String, hash: String, inner: String)
    requires hash == "{class: \"" + b + "\"}" && inner == "class: \"" + b + "\""
    ensures hash == "{" + ("class: " + ['"'] + b + ['"']) + "}" + [] && "class: " + ['"'] + b + ['"'] == inner
  {
  }

  lemma ClassKeyUnquoted()
    ensures forall m :: 0 <= m < |"class: "| ==> !IsQuote("class: "[m]) && "class: "[m] != '{' && "class: "[m] != '}'
  {
  }

  lemma PlainQuoteFree(b: String)
    requires AttributeParser.Plain(b)
    ensures '"' !in b
  {
    forall i | 0 <= i < |b| ensures b[i] != '"' { assert !IsQuote(b[i]); }
  }

  lemma ClassRendering(b: String, inner: String)
    requires AttributeParser.Plain(b) && ',' !in b && inner == "class: \"" + b + "\""
    ensures AttributeParser.Attributes(inner) == " class=\"" + b + "\""
  {
    assert AttributeParser.ValidKey("class");
    AttributeParser.QuotedPairRendering("class", b);
    TagBuilder.ClassTexts(b, b);
  }

  // ---------------------------------------------------------------------------
  // Properties of convert_class and convert_id

  /** `convert_class` as written fails exactly on a lone `.`. */
  lemma ClassLineFails(line: String, indent: String, hasChildren: bool)
    requires line != []
    ensures ConvertClassAsWritten(line, indent, hasChildren).None? <==> |line| == 1
  {
  }

  /** Where `convert_class` as written gives a line, the corrected one gives the same line. */
  lemma ClassLineAgrees(line: String, indent: String, hasChildren: bool)
    requires line != [] && ConvertClassAsWritten(line, indent, hasChildren).Some?
    ensures ConvertClassAsWritten(line, indent, hasChildren).value == ConvertClass(line, indent, hasChildren)
  {
  }

  /**
    The closing variant differs from `convert_class` only on a bare line without
    children, which it closes in place of the final newline.
   */
  lemma ClosedAgrees(line: String, indent: String, hasChildren: bool)
    requires line != []
    ensures var w := ConvertClass(line, indent, hasChildren);
      if BareChildless(line, hasChildren) then w != [] && ConvertClassClosed(line, indent, hasChildren) == w[..|w| - 1] + "</div>\n"
      else ConvertClassClosed(line, indent, hasChildren) == w
  {
    var rest := line[1..];
    if !('{' in rest && BraceMatch(rest).Some?) {
      var parts := SplitFirstWord(rest);
      PlainCloses(indent, if parts == [] then [] else parts[0], SecondField(parts), hasChildren);
    }
  }

  /** Closing a plain class line drops its final newline and appends `</div>` and a newline. */
  lemma PlainCloses(indent: String, spec: String, content: String, hasChildren: bool)
    ensures var w := PlainClassLine(indent, spec, content, hasChildren);
      if content == [] && !hasChildren then w != [] && ClosedPlainClassLine(indent, spec, content, hasChildren) == w[..|w| - 1] + "</div>\n"
      else ClosedPlainClassLine(indent, spec, content, hasChildren) == w
  {
    var open := indent + "<div " + Attribute("class", NonEmptyFields(spec, '.')) + ">";
    if content == [] && !hasChildren {
      assert PlainClassLine(indent, spec, content, hasChildren) == open + "\n";
      assert (open + "\n")[..|open + "\n"| - 1] == open;
      assert ClosedPlainClassLine(indent, spec, content, hasChildren) == open + "</div>\n";
    }
  }

  /** The corrected `convert_class` on a lone `.`: a `div` with an empty class. */
  lemma LoneDot(indent: String, hasChildren: bool)
    ensures ConvertClass(".", indent, hasChildren) == indent + "<div class=\"\">\n"
  {
    assert "."[1..] == [];
    assert NonEmptyFields([], '.') == [];
    assert Join([], " ") == [];
  }

  /** A class line without `{` goes by its first two fields. */
  lemma ClassLinePlain(line: String, indent: String, hasChildren: bool)
    requires line != [] && '{' !in line[1..]
    ensures var parts := SplitFirstWord(line[1..]);
      ConvertClass(line, indent, hasChildren) == PlainClassLine(indent, if parts == [] then [] else parts[0], SecondField(parts), hasChildren)
  {
  }

  /** The closing variant on a class line without `{` also goes by its first two fields. */
  lemma ClosedLinePlain(line: String, indent: String, hasChildren: bool)
    requires line != [] && '{' !in line[1..]
    ensures var parts := SplitFirstWord(line[1..]);
      ConvertClassClosed(line, indent, hasChildren) == ClosedPlainClassLine(indent, if parts == [] then [] else parts[0], SecondField(parts), hasChildren)
  {
  }

  /** A class line without content and without `{`: an open `div` only, with or without children. */
  lemma ClassNoContent(spec: String, indent: String, hasChildren: bool)
    requires '{' !in spec && NoSpace(spec)
    ensures ConvertClass("." + spec, indent, hasChildren) == indent + "<div class=\"" + Join(NonEmptyFields(spec, '.'), " ") + "\">\n"
  {
    var line := "." + spec;
    assert line[1..] == spec;
    if spec != [] {
      SplitOneWord(spec);
    }
    ClassLinePlain(line, indent, hasChildren);
    assert ConvertClass(line, indent, hasChildren) == PlainClassLine(indent, spec, [], hasChildren);
    PlainOpenOnly(indent, spec, [], hasChildren);
  }

  /** The closing variant on a line without content and without `{`: a closed `div` pair, or the open `div` alone under children. */
  lemma ClosedNoContent(spec: String, indent: String, hasChildren: bool)
    requires '{' !in spec && NoSpace(spec)
    ensures ConvertClassClosed("." + spec, indent, hasChildren) ==
      indent + "<div class=\"" + Join(NonEmptyFields(spec, '.'), " ") + "\">" + (if hasChildren then "\n" else "</div>\n")
  {
    var line := "." + spec;
    assert line[1..] == spec;
    if spec != [] {
      SplitOneWord(spec);
    }
    ClosedLinePlain(line, indent, hasChildren);
    assert ConvertClassClosed(line, indent, hasChildren) == ClosedPlainClassLine(indent, spec, [], hasChildren);
    ClosedEmpty(indent, spec, hasChildren);
  }

  /** A plain class line without content: a closed pair, or the open tag alone when it has children. */
  lemma ClosedEmpty(indent: String, spec: String, hasChildren: bool)
    ensures ClosedPlainClassLine(indent, spec, [], hasChildren) ==
      indent + "<div class=\"" + Join(NonEmptyFields(spec, '.'), " ") + "\">" + (if hasChildren then "\n" else "</div>\n")
  {
    var x := Join(NonEmptyFields(spec, '.'), " ");
    if hasChildren {
      PlainOpenOnly(indent, spec, [], hasChildren);
    } else {
      ClosedDivText(indent, "class", x);
    }
  }

  lemma ClosedDivText(indent: String, name: String, x: String)
    ensures indent + "<div " + (name + "=\"" + x + "\"") + "></div>\n" == indent + "<div " + name + "=\"" + x + "\">" + "</div>\n"
  {
  }

  /** Without content, or with children, a plain class line is the open `div` alone. */
  lemma PlainOpenOnly(indent: String, spec: String, content: String, hasChildren: bool)
    requires content == [] || hasChildren
    ensures PlainClassLine(indent, spec, content, hasChildren) == indent + "<div class=\"" + Join(NonEmptyFields(spec, '.'), " ") + "\">\n"
  {
    OpenDivText(indent, "class", Join(NonEmptyFields(spec, '.'), " "));
  }

  /** With content and without children, a plain class line holds the interpolated content. */
  lemma PlainWithContent(indent: String, spec: String, content: String)
    requires content != []
    ensures PlainClassLine(indent, spec, content, false) ==
            indent + "<div class=\"" + Join(NonEmptyFields(spec, '.'), " ") + "\">" + ProcessInterpolation(content) + "</div>\n"
  {
    var x := Join(NonEmptyFields(spec, '.'), " ");
    var body := ProcessInterpolation(content);
    assert PlainClassLine(indent, spec, content, false) == indent + "<div " + Attribute("class", NonEmptyFields(spec, '.')) + ">" + body + "</div>\n";
    ContentDivText(indent, x, body);
  }

  lemma ContentDivText(indent: String, x: String, body: String)
    ensures indent + "<div " + ("class" + "=\"" + x + "\"") + ">" + body + "</div>\n" == indent + "<div class=\"" + x + "\">" + body + "</div>\n"
  {
  }

  lemma OpenDivText(indent: String, name: String, x: String)
    ensures indent + "<div " + (name + "=\"" + x + "\"") + ">" + "\n" == indent + "<div " + name + "=\"" + x + "\">\n"
    ensures indent + "<div " + (name + "=\"" + x + "\"") + ">" == indent + "<div " + name + "=\"" + x + "\">"
  {
  }

  /** A class line with inline content and without `{`: the content inside the `div`, unless there are children. */
  lemma ClassWithContent(spec: String, c: String, indent: String)
    requires spec != [] && NoSpace(spec) && '{' !in spec && '{' !in c && c != [] && !IsSpace(c[0])
    ensures ConvertClass("." + spec + " " + c, indent, false) ==
            indent + "<div class=\"" + Join(NonEmptyFields(spec, '.'), " ") + "\">" + ProcessInterpolation(c) + "</div>\n"
    ensures ConvertClass("." + spec + " " + c, indent, true) ==
            indent + "<div class=\"" + Join(NonEmptyFields(spec, '.'), " ") + "\">\n"
  {
    var line := "." + spec + " " + c;
    assert line[1..] == spec + " " + c;
    assert '{' !in line[1..] by {
      forall k | 0 <= k < |line[1..]| ensures line[1..][k] != '{' {
        if k < |spec| { assert line[1..][k] == spec[k]; }
        else if k > |spec| { assert line[1..][k] == c[k - |spec| - 1]; }
      }
    }
    SplitWordAndRest(spec, c);
    ClassLinePlain(line, indent, false);
    ClassLinePlain(line, indent, true);
    PlainWithContent(indent, spec, c);
    PlainOpenOnly(indent, spec, c, true);
  }

  /** A name without dots is one class field. */
  lemma {:induction false} OneField(name: String)
    requires name != [] && '.' !in name
    ensures NonEmptyFields(name, '.') == [name]
  {
    WholeField(name);
    assert name[..|name|] == name && name[|name|..] == [];
  }

  lemma {:induction false} WholeField(s: String)
    requires '.' !in s
    ensures FieldLength(s, '.') == |s|
  {
    if s != [] {
      assert '.' !in s[1..] by {
        forall k | 0 <= k < |s| - 1 ensures s[1..][k] != '.' { assert s[1..][k] == s[k + 1]; }
      }
      WholeField(s[1..]);
    }
  }

  /**
    A bare `.name` line without children: `convert_class` emits an open `div`
    only, where the tag builder emits a closed `div` pair.
   */
  lemma BareClassDiverges(name: String, indent: String)
    requires TagParser.Name(name)
    ensures ConvertClass("." + name, indent, false) == indent + "<div class=\"" + name + "\">\n"
    ensures var spec := TagParser.ParseSpec("." + name);
      spec.Some? && TagBuilder.Build(spec.value, indent, false) == indent + "<div class=\"" + name + "\"></div>\n" &&
      ConvertClass("." + name, indent, false) != TagBuilder.Build(spec.value, indent, false)
  {
    BareName(name);
    ClassNoContent(name, indent, false);
    OneField(name);
    assert Join([name], " ") == name;
    TagBuilder.BareClassLine(name, indent);
  }

  /** The closing variant renders a bare `.name` line without children as the tag builder does. */
  lemma BareClassCloses(name: String, indent: String)
    requires TagParser.Name(name)
    ensures var spec := TagParser.ParseSpec("." + name);
      spec.Some? && ConvertClassClosed("." + name, indent, false) == TagBuilder.Build(spec.value, indent, false)
  {
    var pair := indent + "<div class=\"" + name + "\"></div>\n";
    BareClassPair(name, indent);
    assert ConvertClassClosed("." + name, indent, false) == pair;
    TagBuilder.BareClassLine(name, indent);
  }

  /** The closing variant closes a bare `.name` line without children. */
  lemma BareClassPair(name: String, indent: String)
    requires TagParser.Name(name)
    ensures ConvertClassClosed("." + name, indent, false) == indent + "<div class=\"" + name + "\"></div>\n"
  {
    BareName(name);
    ClosedNoContent(name, indent, false);
    OneField(name);
    assert Join([name], " ") == name;
    ClosedPairText(indent, name);
  }

  lemma ClosedPairText(indent: String, x: String)
    ensures indent + "<div class=\"" + x + "\">" + "</div>\n" == indent + "<div class=\"" + x + "\"></div>\n"
  {
  }

  lemma BareName(name: String)
    requires TagParser.Name(name)
    ensures name != [] && '.' !in name && '{' !in name && NoSpace(name)
  {
    forall k | 0 <= k < |name| ensures name[k] != '.' && name[k] != '{' && !IsSpace(name[k]) { assert IsWordOrDash(name[k]); }
  }

  /**
    `.a{class: "b"}`: the hash class follows the listed classes in the one class attribute.
    This pins the case at spec/haml2erb_spec.rb:414-418 (`.test{ class: 'max-w-[100rem]' }`),
    written with double quotes and no padding inside the braces.
   */
  lemma ClassLineHashClass(a: String, b: String, indent: String)
    requires TagParser.Name(a) && AttributeParser.Plain(b) && ',' !in b && '{' !in b && '}' !in b
    ensures ConvertClass("." + a + "{class: \"" + b + "\"}", indent, false) == indent + "<div class=\"" + a + " " + b + "\"></div>\n"
  {
    var line := "." + a + "{class: \"" + b + "\"}";
    var inner := "class: \"" + b + "\"";
    var rest := a + "{" + inner + "}";
    assert line[1..] == rest;
    assert '.' !in a && '{' !in a by {
      forall k | 0 <= k < |a| ensures a[k] != '.' && a[k] != '{' { assert IsWordOrDash(a[k]); }
    }
    BraceMatchOf(a, inner, rest);
    ClassRendering(b, inner);
    ClassLineFused(a, b, indent, inner);
  }

  /** The brace match of `a{inner}` with neither brace in `a` nor `}` in `inner`. */
  lemma BraceMatchOf(a: String, inner: String, rest: String)
    requires '{' !in a && '}' !in inner && rest == a + "{" + inner + "}"
    ensures '{' in rest && BraceMatch(rest) == Some((a, inner, []))
  {
    assert rest[|a|] == '{';
    IndexOfCharAt(rest, '{', 0, |a|);
    forall k | |a| + 1 <= k < |a| + 1 + |inner| ensures rest[k] != '}' { assert rest[k] == inner[k - |a| - 1]; }
    IndexOfCharAt(rest, '}', |a| + 1, |a| + 1 + |inner|);
    assert rest[..|a|] == a && rest[|a| + 1..|a| + 1 + |inner|] == inner && rest[|a| + 2 + |inner|..] == [];
  }

  lemma ClassLineFused(a: String, b: String, indent: String, hash: String)
    requires TagParser.Name(a) && '"' !in b && AttributeParser.Attributes(hash) == " class=\"" + b + "\""
    ensures HashClassLine(indent, a, hash, [], false) == indent + "<div class=\"" + a + " " + b + "\"></div>\n"
  {
    assert '.' !in a by {
      forall k | 0 <= k < |a| ensures a[k] != '.' { assert IsWordOrDash(a[k]); }
    }
    OneField(a);
    FusedClassAttributes(a, b);
    assert Strip([]) == [];
    ClosedHashClassLine(indent, a, hash, " class=\"" + a + " " + b + "\"");
    TagBuilder.DivTwoClassText(indent, a, b);
  }

  lemma ClosedHashClassLine(indent: String, spec: String, hash: String, all: String)
    requires ClassLineAttributes(NonEmptyFields(spec, '.'), AttributeParser.Attributes(hash)) == all
    ensures HashClassLine(indent, spec, hash, [], false) == indent + "<div" + all + "></div>\n"
  {
    assert Strip([]) == [];
  }

  /** A hash whose one attribute is a class: its value follows the listed class. */
  lemma FusedClassAttributes(a: String, b: String)
    requires '"' !in b
    ensures ClassLineAttributes([a], " class=\"" + b + "\"") == " class=\"" + a + " " + b + "\""
  {
    var add := " class=\"" + b + "\"";
    ClassAttributeValue(add, b);
    ContainsAt(add, "class=", 1);
    RemoveOne(add, b);
    JoinTwo(a, b, " ");
    FusedClassText(a, b);
  }

  lemma FusedClassText(a: String, b: String)
    requires Join([a, b], " ") == a + " " + b
    ensures " " + Attribute("class", [a] + [b]) + [] == " class=\"" + a + " " + b + "\""
  {
    assert [a] + [b] == [a, b];
  }

  /** An id line without content: an open `div` carrying the id, with or without children; a lone `#` gives an empty id. */
  lemma IdNoContent(id: String, indent: String, hasChildren: bool)
    requires NoSpace(id)
    ensures ConvertId("#" + id, indent, hasChildren) == indent + "<div id=\"" + id + "\">\n"
  {
    assert ("#" + id)[1..] == id;
    if id != [] {
      SplitOneWord(id);
    }
  }

  /** An id line with inline content: the content inside the `div`, unless there are children. */
  lemma IdWithContent(id: String, c: String, indent: String)
    requires id != [] && NoSpace(id) && c != [] && !IsSpace(c[0])
    ensures ConvertId("#" + id + " " + c, indent, false) == indent + "<div id=\"" + id + "\">" + ProcessInterpolation(c) + "</div>\n"
    ensures ConvertId("#" + id + " " + c, indent, true) == indent + "<div id=\"" + id + "\">\n"
  {
    IdFields(id, c);
    IdLineOf("#" + id + " " + c, indent, false, id, c);
    IdLineOf("#" + id + " " + c, indent, true, id, c);
  }

  lemma IdFields(id: String, c: String)
    requires id != [] && NoSpace(id) && c != [] && !IsSpace(c[0])
    ensures SplitFirstWord(("#" + id + " " + c)[1..]) == [id, c]
  {
    assert ("#" + id + " " + c)[1..] == id + " " + c;
    SplitWordAndRest(id, c);
  }

  lemma IdLineOf(line: String, indent: String, hasChildren: bool, id: String, c: String)
    requires line != [] && SplitFirstWord(line[1..]) == [id, c] && c != []
    ensures ConvertId(line, indent, hasChildren) ==
      if hasChildren then indent + "<div id=\"" + id + "\">\n"
      else indent + "<div id=\"" + id + "\">" + ProcessInterpolation(c) + "</div>\n"
  {
  }
}
