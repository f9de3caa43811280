/**
  `TagParser`: reads an element line (`%tag.cls#id{attrs} content`, `.cls …`
  or `#id …`) into a `TagInfo` record, which the parse methods fill in field by
  field. `ParseSpec` states the same parse as a function of the line.
 */
module TagParser {
  import opened Wrappers
  import opened Text
  import opened StringUtils

  /** The fields of a `TagInfo`. `attributesHash` is the text inside the braces, or `nil`. */
  datatype TagRecord = TagRecord(
    tagName: String,
    classes: seq<String>,
    ids: seq<String>,
    attributesHash: Option<String>,
    content: String,
    hasRubyCode: bool)

  /** What `TagInfo.new` holds once its defaults are filled in. */
  const Defaults := TagRecord([], [], [], None, [], false)

  /** The Ruby `TagInfo` struct, whose fields the parse methods assign. */
  class TagInfo {
    var tagName: String
    var classes: seq<String>
    var ids: seq<String>
    var attributesHash: Option<String>
    var content: String
    var hasRubyCode: bool

    constructor ()
      ensures Record() == Defaults
    {
      tagName := [];
      classes := [];
      ids := [];
      attributesHash := None;
      content := [];
      hasRubyCode := false;
    }

    function Record(): TagRecord
      reads this
    {
      TagRecord(tagName, classes, ids, attributesHash, content, hasRubyCode)
    }
  }

  // ---------------------------------------------------------------------------
  // The pieces of the parse, as functions

  predicate IsMark(c: char) { c == '.' || c == '#' }

  /** `[.#:a-zA-Z0-9_-]`, the characters of a chain of class and id names. */
  predicate IsClassIdChar(c: char) { IsMark(c) || c == ':' || IsWordOrDash(c) }

  /** The end of the longest run of class-and-id characters from `j`. */
  function ClassIdRunEnd(s: String, j: nat): (e: nat)
    requires j <= |s|
    ensures j <= e <= |s|
    ensures forall k :: j <= k < e ==> IsClassIdChar(s[k])
    ensures e < |s| ==> !IsClassIdChar(s[e])
    decreases |s| - j
  {
    if j < |s| && IsClassIdChar(s[j]) then ClassIdRunEnd(s, j + 1) else j
  }

  /** The index of the first `.` or `#` at or after `k`, or the end of `s`. */
  function NextMark(s: String, k: nat): (n: nat)
    requires k <= |s|
    ensures k <= n <= |s|
    ensures forall m :: k <= m < n ==> !IsMark(s[m])
    ensures n < |s| ==> IsMark(s[n])
    decreases |s| - k
  {
    if k == |s| || IsMark(s[k]) then k else NextMark(s, k + 1)
  }

  /** `s.split(/(?=[.#])/)`: `s` cut just before every `.` and `#`. */
  function Segments(s: String): (r: seq<String>)
    ensures forall i :: 0 <= i < |r| ==> r[i] != [] && forall k :: 1 <= k < |r[i]| ==> !IsMark(r[i][k])
    ensures forall i :: 0 < i < |r| ==> IsMark(r[i][0])
    ensures s != [] ==> r != [] && r[0][0] == s[0]
    decreases |s|
  {
    if s == [] then []
    else
      var n := NextMark(s, 1);
      var rest := Segments(s[n..]);
      assert forall k :: 1 <= k < |s[..n]| ==> !IsMark(s[..n][k]);
      [s[..n]] + rest
  }

  /** One part of the chain: `.name` adds a class, `#name` an id, anything else nothing. */
  function AddPart(r: TagRecord, part: String): (r': TagRecord)
  {
    if part == [] then r
    else if part[0] == '.' then r.(classes := r.classes + [part[1..]])
    else if part[0] == '#' then r.(ids := r.ids + [part[1..]])
    else r
  }

  function AddParts(r: TagRecord, parts: seq<String>): (r': TagRecord)
    ensures r'.tagName == r.tagName && r'.attributesHash == r.attributesHash
    ensures r'.content == r.content && r'.hasRubyCode == r.hasRubyCode
    ensures |r.classes| <= |r'.classes| && r'.classes[..|r.classes|] == r.classes
    ensures |r.ids| <= |r'.ids| && r'.ids[..|r.ids|] == r.ids
    decreases |parts|
  {
    if parts == [] then r else AddParts(AddPart(r, parts[0]), parts[1..])
  }

  /** The parts laid end to end. */
  function Concat(parts: seq<String>): String
    decreases |parts|
  {
    if parts == [] then [] else parts[0] + Concat(parts[1..])
  }

  lemma ConcatCons(a: String, rest: seq<String>)
    ensures Concat([a] + rest) == a + Concat(rest)
  {
    assert ([a] + rest)[1..] == rest;
  }

  lemma SegmentsCons(s: String)
    requires s != []
    ensures Segments(s) == [s[..NextMark(s, 1)]] + Segments(s[NextMark(s, 1)..])
  {
  }

  /** The split loses and reorders nothing: its segments put back together give the input. */
  lemma {:induction false} SegmentsConcat(s: String)
    ensures Concat(Segments(s)) == s
    decreases |s|
  {
    if s != [] {
      var n := NextMark(s, 1);
      SegmentsConcat(s[n..]);
      SegmentsCons(s);
      ConcatStep(s, n, Segments(s[n..]));
    }
  }

  lemma ConcatStep(s: String, n: nat, rest: seq<String>)
    requires n <= |s| && Concat(rest) == s[n..]
    ensures Concat([s[..n]] + rest) == s
  {
    ConcatCons(s[..n], rest);
    assert s[..n] + s[n..] == s;
  }

  /** The name `part` carries when it starts with `mark`, as a list of zero or one names. */
  function MarkedName(part: String, mark: char): seq<String>
  {
    if part != [] && part[0] == mark then [part[1..]] else []
  }

  /** The names carried by the parts that start with `mark`, in order. */
  function Marked(parts: seq<String>, mark: char): seq<String>
    decreases |parts|
  {
    if parts == [] then [] else MarkedName(parts[0], mark) + Marked(parts[1..], mark)
  }

  lemma AddPartNames(r: TagRecord, part: String)
    ensures AddPart(r, part).classes == r.classes + MarkedName(part, '.')
    ensures AddPart(r, part).ids == r.ids + MarkedName(part, '#')
  {
  }

  lemma AddPartsCons(r: TagRecord, parts: seq<String>, mark: char)
    requires parts != []
    ensures AddParts(r, parts) == AddParts(AddPart(r, parts[0]), parts[1..])
    ensures Marked(parts, mark) == MarkedName(parts[0], mark) + Marked(parts[1..], mark)
  {
  }

  lemma {:induction false} AddPartsClasses(r: TagRecord, parts: seq<String>)
    ensures AddParts(r, parts).classes == r.classes + Marked(parts, '.')
    decreases |parts|
  {
    if parts != [] {
      AddPartNames(r, parts[0]);
      AddPartsClasses(AddPart(r, parts[0]), parts[1..]);
      AddPartsCons(r, parts, '.');
      var c, mc := MarkedName(parts[0], '.'), Marked(parts[1..], '.');
      assert r.classes + c + mc == r.classes + (c + mc);
    }
  }

  lemma {:induction false} AddPartsIds(r: TagRecord, parts: seq<String>)
    ensures AddParts(r, parts).ids == r.ids + Marked(parts, '#')
    decreases |parts|
  {
    if parts != [] {
      AddPartNames(r, parts[0]);
      AddPartsIds(AddPart(r, parts[0]), parts[1..]);
      AddPartsCons(r, parts, '#');
      var d, md := MarkedName(parts[0], '#'), Marked(parts[1..], '#');
      assert r.ids + d + md == r.ids + (d + md);
    }
  }

  /** Adding the parts appends exactly the `.` names to the classes and the `#` names to the ids, in order. */
  lemma {:induction false} AddPartsCollects(r: TagRecord, parts: seq<String>)
    ensures AddParts(r, parts).classes == r.classes + Marked(parts, '.')
    ensures AddParts(r, parts).ids == r.ids + Marked(parts, '#')
  {
    AddPartsClasses(r, parts);
    AddPartsIds(r, parts);
  }

  /** `parse_class_id_spec`: the record with the chain's names added, and the text after the chain. */
  function ClassIdSpec(spec: String, r: TagRecord): (TagRecord, String)
  {
    var e := ClassIdRunEnd(spec, 0);
    if e == 0 then (r, []) else (AddParts(r, Segments(spec[..e])), spec[e..])
  }

  /**
    The chain at the head of `spec` is cut into segments that give back the chain,
    and the record gains exactly the chain's `.` names as classes and its `#` names
    as ids, in source order; a spec without a chain leaves the record alone.
   */
  lemma ClassIdSpecNames(spec: String, r: TagRecord)
    ensures var e := ClassIdRunEnd(spec, 0);
      var (t, after) := ClassIdSpec(spec, r);
      && (e == 0 ==> t == r && after == [])
      && (e > 0 ==> Concat(Segments(spec[..e])) == spec[..e] && after == spec[e..]
                    && t.classes == r.classes + Marked(Segments(spec[..e]), '.')
                    && t.ids == r.ids + Marked(Segments(spec[..e]), '#'))
  {
    var e := ClassIdRunEnd(spec, 0);
    if e > 0 {
      SegmentsConcat(spec[..e]);
      AddPartsCollects(r, Segments(spec[..e]));
    }
  }

  /** The attribute hash that opens `remaining`, if it starts (after whitespace) with a balanced `{…}`. */
  function HashPart(remaining: String): (r: Option<Braced>)
    ensures r.Some? ==> Strip(remaining) == "{" + r.value.content + "}" + r.value.remaining
    ensures r.Some? ==> ClosesAt(Strip(remaining), 0, |r.value.content| + 1, '{', '}', true)
    ensures r.None? <==> !StartsWith(Strip(remaining), "{")
                         || forall k :: 0 <= k < |Strip(remaining)| ==> !ClosesAt(Strip(remaining), 0, k, '{', '}', true)
  {
    StripTrimmed(Strip(remaining));
    if StartsWith(Strip(remaining), "{") then ExtractBalancedBraces(Strip(remaining), true) else None
  }

  /** The attribute-hash step: on a balanced `{…}`, the text inside is recorded and what follows goes on. */
  function WithHash(r: TagRecord, remaining: String): (p: (TagRecord, String))
    ensures p.0 == r.(attributesHash := p.0.attributesHash)
  {
    match HashPart(remaining)
    case Some(b) => (r.(attributesHash := Some(b.content)), b.remaining)
    case None => (r, remaining)
  }

  /** `parse_content`: `=code` is Ruby output, other text is literal content, nothing leaves the defaults. */
  function WithContent(r: TagRecord, content: String): (r': TagRecord)
    ensures r'.tagName == r.tagName && r'.classes == r.classes && r'.ids == r.ids
    ensures r'.attributesHash == r.attributesHash
  {
    if content == [] then r
    else if content[0] == '=' then r.(hasRubyCode := true, content := Strip(content[1..]))
    else r.(content := content)
  }

  /** The attribute-hash step and then the content step, which the element and class parsers share. */
  function HashAndContent(r: TagRecord, remaining: String): (r': TagRecord)
    ensures r'.tagName == r.tagName && r'.classes == r.classes && r'.ids == r.ids
  {
    var (r2, rem2) := WithHash(r, remaining);
    WithContent(r2, Strip(rem2))
  }

  /** `parse_element_tag` on the stripped line `t`. */
  function ElementTag(t: String): Option<TagRecord>
  {
    if t == [] || t[0] != '%' then None
    else
      var e := WordRunEnd(t, 1);
      if e == 1 then None
      else
        var r0 := Defaults.(tagName := t[1..e]);
        var rem := t[e..];
        var (r1, rem1) := if rem != [] && IsMark(rem[0]) then ClassIdSpec(rem, r0) else (r0, rem);
        Some(HashAndContent(r1, rem1))
  }

  /** `parse_class_shorthand` on the stripped line `t`. */
  function ClassShorthand(t: String): TagRecord
  {
    var r0 := Defaults.(tagName := "div");
    var e := if t != [] && IsMark(t[0]) then ClassIdRunEnd(t, 1) else 0;
    var (r1, rem1) := if e > 1 then var (r, x) := ClassIdSpec(t[..e], r0); (r, x + t[e..]) else (r0, t);
    HashAndContent(r1, rem1)
  }

  /** `parse_id_shorthand` on the stripped line `t`. */
  function IdShorthand(t: String): Option<TagRecord>
  {
    if t == [] || t[0] != '#' then None
    else
      var e := WordRunEnd(t, 1);
      if e == 1 then None
      else Some(WithContent(Defaults.(tagName := "div", ids := [t[1..e]]), Strip(t[e..])))
  }

  /** `TagParser.parse(line)` */
  function ParseSpec(line: String): Option<TagRecord>
  {
    var t := Strip(line);
    if t == [] then None
    else if t[0] == '%' then ElementTag(t)
    else if t[0] == '.' then Some(ClassShorthand(t))
    else if t[0] == '#' then IdShorthand(t)
    else None
  }

  // ---------------------------------------------------------------------------
  // The parse methods, which fill in a TagInfo

  /** `parse_class_id_spec(spec, tag_info)` */
  method ParseClassIdSpec(spec: String, info: TagInfo) returns (remaining: String)
    modifies info
    ensures (info.Record(), remaining) == ClassIdSpec(spec, old(info.Record()))
  {
    remaining := [];
    var e := ClassIdRunEnd(spec, 0);
    if e > 0 {
      remaining := spec[e..];
      var parts := Segments(spec[..e]);
      var i := 0;
      while i < |parts|
        invariant i <= |parts|
        invariant AddParts(info.Record(), parts[i..]) == AddParts(old(info.Record()), parts)
      {
        assert parts[i..][1..] == parts[i + 1..];
        var part := parts[i];
        if part != [] {
          if part[0] == '.' {
            info.classes := info.classes + [part[1..]];
          } else if part[0] == '#' {
            info.ids := info.ids + [part[1..]];
          }
        }
        i := i + 1;
      }
    }
  }

  /** `parse_content(content, tag_info)` */
  method ParseContent(content: String, info: TagInfo)
    modifies info
    ensures info.Record() == WithContent(old(info.Record()), content)
  {
    if content == [] {
      return;
    }
    if content[0] == '=' {
      info.hasRubyCode := true;
      info.content := Strip(content[1..]);
    } else {
      info.content := content;
    }
  }

  /** The attribute-hash step shared by the element and class parsers. */
  method ParseHash(remaining: String, info: TagInfo) returns (rest: String)
    modifies info
    ensures (info.Record(), rest) == WithHash(old(info.Record()), remaining)
  {
    rest := remaining;
    if StartsWith(Strip(remaining), "{") {
      var result := ExtractBalancedBraces(Strip(remaining), true);
      if result.Some? {
        info.attributesHash := Some(result.value.content);
        rest := result.value.remaining;
      }
    }
  }

  /** `parse_element_tag` */
  method ParseElementTag(t: String) returns (r: Option<TagInfo>)
    ensures r.None? <==> ElementTag(t).None?
    ensures r.Some? ==> fresh(r.value) && r.value.Record() == ElementTag(t).value
  {
    if t == [] || t[0] != '%' {
      return None;
    }
    var e := WordRunEnd(t, 1);
    if e == 1 {
      return None;
    }
    var info := new TagInfo();
    info.tagName := t[1..e];
    var remaining := t[e..];
    if remaining != [] && IsMark(remaining[0]) {
      remaining := ParseClassIdSpec(remaining, info);
    }
    remaining := ParseHash(remaining, info);
    ParseContent(Strip(remaining), info);
    return Some(info);
  }

  /** `parse_class_shorthand` */
  method ParseClassShorthand(t: String) returns (info: TagInfo)
    ensures fresh(info) && info.Record() == ClassShorthand(t)
  {
    info := new TagInfo();
    info.tagName := "div";
    var remaining := t;
    var e := if t != [] && IsMark(t[0]) then ClassIdRunEnd(t, 1) else 0;
    if e > 1 {
      remaining := ParseClassIdSpec(t[..e], info);
      remaining := remaining + t[e..];
    }
    remaining := ParseHash(remaining, info);
    ParseContent(Strip(remaining), info);
  }

  /** `parse_id_shorthand` */
  method ParseIdShorthand(t: String) returns (r: Option<TagInfo>)
    ensures r.None? <==> IdShorthand(t).None?
    ensures r.Some? ==> fresh(r.value) && r.value.Record() == IdShorthand(t).value
  {
    if t == [] || t[0] != '#' {
      return None;
    }
    var info := new TagInfo();
    info.tagName := "div";
    var e := WordRunEnd(t, 1);
    if e == 1 {
      return None;
    }
    info.ids := info.ids + [t[1..e]];
    ParseContent(Strip(t[e..]), info);
    return Some(info);
  }

  /** `TagParser.parse(line)` */
  method Parse(line: String) returns (r: Option<TagInfo>)
    ensures r.None? <==> ParseSpec(line).None?
    ensures r.Some? ==> fresh(r.value) && r.value.Record() == ParseSpec(line).value
  {
    var t := Strip(line);
    if t == [] {
      r := None;
    } else if t[0] == '%' {
      r := ParseElementTag(t);
    } else if t[0] == '.' {
      var info := ParseClassShorthand(t);
      r := Some(info);
    } else if t[0] == '#' {
      r := ParseIdShorthand(t);
    } else {
      r := None;
    }
  }

  // ---------------------------------------------------------------------------
  // What the parse promises

  /** A line parses exactly when its stripped text starts with `.`, or with `%` or `#` and a name character. */
  lemma ParseAccepts(line: String)
    ensures var t := Strip(line);
      ParseSpec(line).Some? <==>
        t != [] && (t[0] == '.' || ((t[0] == '%' || t[0] == '#') && |t| > 1 && IsWordOrDash(t[1])))
  {
  }

  /** `%name` takes the longest run of `[a-zA-Z0-9_-]` as the tag; both shorthands make a `div`. */
  lemma ParsedTagName(line: String)
    requires ParseSpec(line).Some?
    ensures var t := Strip(line);
      var r := ParseSpec(line).value;
      && (t[0] == '%' ==> r.tagName == t[1..WordRunEnd(t, 1)] && r.tagName != [])
      && (t[0] != '%' ==> r.tagName == "div")
  {
    var t := Strip(line);
    if t[0] == '%' {
      var e := WordRunEnd(t, 1);
      var r0 := Defaults.(tagName := t[1..e]);
      var rem := t[e..];
      if rem != [] && IsMark(rem[0]) {
        assert ClassIdSpec(rem, r0).0.tagName == t[1..e];
      }
    }
  }

  /** The id shorthand records exactly one id, no class and no attribute hash. */
  lemma IdShorthandRecord(line: String)
    requires ParseSpec(line).Some? && Strip(line)[0] == '#'
    ensures var t := Strip(line);
      var r := ParseSpec(line).value;
      r.ids == [t[1..WordRunEnd(t, 1)]] && r.classes == [] && r.attributesHash.None?
  {
  }

  predicate NoMark(a: String)
  {
    forall k :: 0 <= k < |a| ==> !IsMark(a[k])
  }

  lemma {:induction false} NextMarkOf(s: String, k: nat, n: nat)
    requires k <= n <= |s|
    requires forall m :: k <= m < n ==> !IsMark(s[m])
    requires n < |s| ==> IsMark(s[n])
    ensures NextMark(s, k) == n
    decreases n - k
  {
    if k < n {
      NextMarkOf(s, k + 1, n);
    }
  }

  /** A chain is cut before each mark: a leading `.name` or `#name` is a part of its own. */
  lemma SegmentsPrepend(m: char, a: String, rest: String)
    requires IsMark(m) && NoMark(a) && (rest == [] || IsMark(rest[0]))
    ensures Segments([m] + a + rest) == [[m] + a] + Segments(rest)
  {
    var s := [m] + a + rest;
    forall k | 1 <= k < |a| + 1 ensures !IsMark(s[k]) {
      assert s[k] == a[k - 1];
    }
    if rest != [] { assert s[|a| + 1] == rest[0]; }
    NextMarkOf(s, 1, |a| + 1);
    assert s[..|a| + 1] == [m] + a;
    assert s[|a| + 1..] == rest;
  }

  /** A name of word characters. */
  predicate Name(a: String)
  {
    a != [] && forall k :: 0 <= k < |a| ==> IsWordOrDash(a[k])
  }

  lemma {:induction false} ClassIdRunEndOf(s: String, j: nat, e: nat)
    requires j <= e <= |s|
    requires forall k :: j <= k < e ==> IsClassIdChar(s[k])
    requires e < |s| ==> !IsClassIdChar(s[e])
    ensures ClassIdRunEnd(s, j) == e
    decreases e - j
  {
    if j < e {
      ClassIdRunEndOf(s, j + 1, e);
    }
  }

  lemma AddTwoParts(r: TagRecord, x: String, y: String)
    ensures AddParts(r, [x, y]) == AddPart(AddPart(r, x), y)
  {
    assert [x, y][1..] == [y];
    assert [y][1..] == [];
    assert AddParts(r, [x, y]) == AddParts(AddPart(r, x), [y]);
    assert AddParts(AddPart(r, x), [y]) == AddParts(AddPart(AddPart(r, x), y), []);
  }

  /** A step of `ClassIdChain` below: `.a#b` splits into its two segments. */
  lemma ChainSegments(a: String, b: String)
    requires Name(a) && Name(b)
    ensures Segments("." + a + "#" + b) == ["." + a, "#" + b]
  {
    assert "." + a + "#" + b == ['.'] + a + ("#" + b);
    assert "#" + b == ['#'] + b + [];
    SegmentsPrepend('.', a, "#" + b);
    SegmentsPrepend('#', b, []);
  }

  lemma ChainRun(a: String, b: String)
    requires Name(a) && Name(b)
    ensures ClassIdRunEnd("." + a + "#" + b, 0) == |a| + |b| + 2
  {
    var spec := "." + a + "#" + b;
    forall k | 0 <= k < |spec| ensures IsClassIdChar(spec[k]) {
      if 0 < k <= |a| { assert spec[k] == a[k - 1]; }
      if |a| + 1 < k { assert spec[k] == b[k - |a| - 2]; }
    }
    ClassIdRunEndOf(spec, 0, |spec|);
  }

  /** `.a#b`: the parts go, in order, to the classes and the ids. */
  lemma ClassIdChain(r: TagRecord, a: String, b: String)
    requires Name(a) && Name(b)
    ensures ClassIdSpec("." + a + "#" + b, r) == (r.(classes := r.classes + [a], ids := r.ids + [b]), [])
  {
    var spec := "." + a + "#" + b;
    ChainRun(a, b);
    assert spec[..|spec|] == spec;
    assert spec[|spec|..] == [];
    ChainSegments(a, b);
    AddTwoParts(r, "." + a, "#" + b);
    assert ("." + a)[1..] == a;
    assert ("#" + b)[1..] == b;
  }

  /** `%name.a#b` parses to the tag, one class and one id, and no content. */
  lemma ElementWithChain(name: String, a: String, b: String)
    requires Name(name) && Name(a) && Name(b)
    ensures ParseSpec("%" + name + "." + a + "#" + b) == Some(TagRecord(name, [a], [b], None, [], false))
  {
    var t := "%" + name + "." + a + "#" + b;
    StripTrimmed(t);
    WordRunEndOf(t, 1, |name| + 1);
    assert t[1..|name| + 1] == name;
    assert t[|name| + 1..] == "." + a + "#" + b;
    ClassIdChain(Defaults.(tagName := name), a, b);
    assert Strip([]) == [];
  }

  /** `#name` alone: a `div` with that id and nothing else. */
  lemma IdAlone(name: String)
    requires Name(name)
    ensures ParseSpec("#" + name) == Some(TagRecord("div", [], [name], None, [], false))
  {
    var t := "#" + name;
    StripTrimmed(t);
    WordRunEndOf(t, 1, |t|);
    assert t[1..|t|] == name;
    assert Strip(t[|t|..]) == [];
  }

  /** `.name` alone: a `div` with that class and nothing else. */
  lemma ClassAlone(name: String)
    requires Name(name)
    ensures ParseSpec("." + name) == Some(TagRecord("div", [name], [], None, [], false))
  {
    var t := "." + name;
    StripTrimmed(t);
    forall k | 1 <= k < |t| ensures IsClassIdChar(t[k]) {
      assert t[k] == name[k - 1];
    }
    ClassIdRunEndOf(t, 1, |t|);
    ClassIdRunEndOf(t, 0, |t|);
    assert t[..|t|] == t;
    assert t == ['.'] + name + [];
    SegmentsPrepend('.', name, []);
    assert t[1..] == name;
    assert [name][1..] == [];
    var r0 := Defaults.(tagName := "div");
    assert AddParts(r0, [t]) == AddParts(AddPart(r0, t), []);
    assert ClassIdSpec(t, r0) == (r0.(classes := [name]), []);
    assert [] + t[|t|..] == [];
    assert Strip([]) == [];
  }

  /** The hash step on `{h} c`: the text inside the braces is recorded, then `c` is the content. */
  lemma HashThenContent(r: TagRecord, h: String, c: String)
    requires c != [] && !IsSpace(c[0]) && !IsSpace(c[|c| - 1])
    requires forall m :: 0 <= m < |h| ==> !IsQuote(h[m]) && h[m] != '{' && h[m] != '}'
    ensures HashAndContent(r, "{" + h + "}" + " " + c) == WithContent(r.(attributesHash := Some(h)), c)
  {
    var rem := "{" + h + "}" + " " + c;
    assert rem == "{" + h + "}" + (" " + c);
    StripTrimmed(rem);
    BracedPlain(h, " " + c, true);
    assert HashPart(rem) == Some(Braced(h, " " + c));
    StripOfPadded(" ", c, []);
    assert " " + c + [] == " " + c;
  }

  /** A stripped `%name…` line whose name is not followed by a mark goes straight to the hash step. */
  lemma ElementNoChain(t: String, n: nat)
    requires Strip(t) == t && 1 < n <= |t| && t[0] == '%'
    requires forall k :: 1 <= k < n ==> IsWordOrDash(t[k])
    requires n < |t| ==> !IsWordOrDash(t[n]) && !IsMark(t[n])
    ensures ParseSpec(t) == Some(HashAndContent(Defaults.(tagName := t[1..n]), t[n..]))
  {
    WordRunEndOf(t, 1, n);
  }

  /**
    `%name{h} c`: the text between the braces is the attribute hash and the text
    after them is the content, Ruby output when it starts with `=`.
   */
  lemma ElementWithHash(name: String, h: String, c: String)
    requires Name(name) && c != [] && !IsSpace(c[0]) && !IsSpace(c[|c| - 1])
    requires forall m :: 0 <= m < |h| ==> !IsQuote(h[m]) && h[m] != '{' && h[m] != '}'
    ensures ParseSpec("%" + name + "{" + h + "}" + " " + c) ==
      Some(if c[0] == '=' then TagRecord(name, [], [], Some(h), Strip(c[1..]), true)
           else TagRecord(name, [], [], Some(h), c, false))
  {
    var rem := "{" + h + "}" + " " + c;
    var t := "%" + name + rem;
    assert t == "%" + name + "{" + h + "}" + " " + c;
    assert t[|name| + 1] == '{';
    StripTrimmed(t);
    assert t[1..|name| + 1] == name;
    assert t[|name| + 1..] == rem;
    ElementNoChain(t, |name| + 1);
    HashThenContent(Defaults.(tagName := name), h, c);
  }
}
