/**
  `TagBuilder`: renders a parsed `TagInfo` as one line of HTML. Classes and ids
  become `class="…"` and `id="…"`, the attribute hash is rendered by
  `AttributeParser` and folded in by this builder's own merge (which, unlike
  `AttributeMerger`, appends class values without de-duplicating them), and the
  element is written as a void tag, a Ruby-output pair, an empty pair, an open
  tag, or a pair around the interpolated content.
 */
module TagBuilder {
  import opened Wrappers
  import opened Text
  import opened StringUtils
  import opened RubyHash
  import opened Html
  import opened TagParser
  import AttributeParser
  import AttributeMerger

  // ---------------------------------------------------------------------------
  // The scans of merge_attributes

  /** One `key="value"` match of `([\w-]+)="([^"]*)"`, and the index just past the closing quote. */
  datatype Assignment = Assignment(key: String, value: String, end: nat)

  /** The match of `([\w-]+)="([^"]*)"` starting exactly at `p`, if there is one. */
  function AssignmentAt(s: String, p: nat): (r: Option<Assignment>)
    requires p <= |s|
    ensures r.Some? ==> var a := r.value;
      && a.key != [] && (forall k :: 0 <= k < |a.key| ==> IsWordOrDash(a.key[k])) && '"' !in a.value
      && a.end == p + |a.key| + |a.value| + 3 <= |s|
      && s[p..a.end] == a.key + "=\"" + a.value + "\""
  {
    var e := WordRunEnd(s, p);
    if e == p || e + 1 >= |s| || s[e] != '=' || s[e + 1] != '"' then None
    else match IndexOfChar(s, '"', e + 2)
      case None => None
      case Some(c) =>
        var v := s[e + 2..c];
        assert '"' !in v by {
          forall m | 0 <= m < |v| ensures v[m] != '"' { assert v[m] == s[e + 2 + m]; }
        }
        assert s[p..c + 1] == s[p..e] + "=\"" + v + "\"";
        Some(Assignment(s[p..e], v, c + 1))
  }

  /** `attr.match(/([\w-]+)="([^"]*)"$/)`: the leftmost match from `p` that ends the string. */
  function FinalAssignment(s: String, p: nat): (r: Option<Assignment>)
    requires p <= |s|
    ensures r.Some? ==> r.value.end == |s|
    decreases |s| - p
  {
    if p == |s| then None
    else match AssignmentAt(s, p)
      case Some(a) => if a.end == |s| then Some(a) else FinalAssignment(s, p + 1)
      case None => FinalAssignment(s, p + 1)
  }

  /** `s.scan(/([\w-]+)="([^"]*)"/)` from `p`. */
  function Assignments(s: String, p: nat): (r: seq<(String, String)>)
    requires p <= |s|
    decreases |s| - p
  {
    if p == |s| then []
    else match AssignmentAt(s, p)
      case Some(a) => [(a.key, a.value)] + Assignments(s, a.end)
      case None => Assignments(s, p + 1)
  }

  /** `s.gsub(/<%=.*?%>/, "")`: each `<%=` and the first `%>` after it removed, with what lies between. */
  function RemoveErb(s: String): (r: String)
    ensures |r| <= |s|
    decreases |s|
  {
    match IndexOf(s, "<%=")
    case None => s
    case Some(p) =>
      match IndexFrom(s, "%>", p + 3)
      case None => s
      case Some(n) => s[..p] + RemoveErb(s[n + 2..])
  }

  /** Text without `<%=` holds no ERB output tag, so nothing is removed. */
  lemma RemoveErbIdentity(s: String)
    requires !Contains(s, "<%=")
    ensures RemoveErb(s) == s
  {
  }

  /**
    The first ERB output tag goes, from its `<%=` through the first `%>` after
    it, and the removal goes on after it; the text before the tag is kept.
    So no word inside the tag reaches the bare-word scan.
   */
  lemma RemoveErbTag(a: String, x: String, b: String)
    requires !Contains(a, "<%=") && !Contains(x, "%>")
    ensures RemoveErb(a + "<%=" + x + "%>" + b) == a + RemoveErb(b)
  {
    var s := a + "<%=" + x + "%>" + b;
    var p := |a|;
    ErbOpensAt(a, x + "%>" + b);
    assert s == a + "<%=" + (x + "%>" + b);
    ErbClosesAt(s, p + 3, x, b);
    assert s[..p] == a;
    assert s[p + 3 + |x| + 2..] == b;
  }

  lemma ErbOpensAt(a: String, t: String)
    requires !Contains(a, "<%=")
    ensures IndexOf(a + "<%=" + t, "<%=") == Some(|a|)
  {
    var s := a + "<%=" + t;
    assert s[|a|..] == "<%=" + t;
    forall k | 0 <= k < |a| ensures !StartsWith(s[k..], "<%=") {
      if k + 3 <= |a| {
        NotContainsAt(a, "<%=", k);
        assert a[k..][..3] == s[k..][..3];
      } else if k + 2 == |a| {
        assert s[k..][2] == s[k + 2] == '<';
      } else {
        assert s[k..][1] == s[k + 1] == '<';
      }
    }
    IndexFromIs(s, "<%=", 0, |a|);
  }

  lemma ErbClosesAt(s: String, from: nat, x: String, b: String)
    requires from <= |s| && s[from..] == x + "%>" + b && !Contains(x, "%>")
    ensures IndexFrom(s, "%>", from) == Some(from + |x|)
  {
    assert s[from + |x|..] == "%>" + b;
    forall k | from <= k < from + |x| ensures !StartsWith(s[k..], "%>") {
      if k + 2 <= from + |x| {
        NotContainsAt(x, "%>", k - from);
        assert x[k - from..][..2] == s[k..][..2];
      } else {
        assert s[k..][1] == s[from + |x|] == '%';
      }
    }
    IndexFromIs(s, "%>", from, from + |x|);
  }

  /** `[\w-]+` at `j`, followed by whitespace (not consumed) or the end: the word and where it ends. */
  function FollowedWord(s: String, j: nat): (r: Option<(String, nat)>)
    requires j <= |s|
    ensures r.Some? ==> j < r.value.1 <= |s| && r.value.0 == s[j..r.value.1]
  {
    var e := WordRunEnd(s, j);
    if e == j then None
    else if e == |s| || IsSpace(s[e]) then Some((s[j..e], e))
    else None
  }

  /** The match of `(?:^|\s)([\w-]+)(?=\s|$)` at `p`. */
  function FlagWordAt(s: String, p: nat): (r: Option<(String, nat)>)
    requires p < |s|
    ensures r.Some? ==> p < r.value.1 <= |s|
  {
    if p == 0 && FollowedWord(s, 0).Some? then FollowedWord(s, 0)
    else if IsSpace(s[p]) then FollowedWord(s, p + 1)
    else None
  }

  /** The scan for bare words from `p`: the lookahead leaves the following space to the next match. */
  function FlagWords(s: String, p: nat): (r: seq<String>)
    decreases |s| - p
  {
    if p >= |s| then []
    else match FlagWordAt(s, p)
      case Some((w, e)) => [w] + FlagWords(s, e)
      case None => FlagWords(s, p + 1)
  }

  // ---------------------------------------------------------------------------
  // The hash of merge_attributes

  /** One base attribute: its key and value if it matches, nothing otherwise. */
  function PutBase(h: Hash, attr: String): Hash
  {
    match FinalAssignment(attr, 0)
    case Some(a) => Put(h, a.key, Str(a.value))
    case None => h
  }

  function PutBases(h: Hash, attrs: seq<String>): Hash
    decreases |attrs|
  {
    if attrs == [] then h else PutBases(PutBase(h, attrs[0]), attrs[1..])
  }

  /** One additional pair: a `class` that is already set gets the value appended after a space. */
  function PutAssignment(h: Hash, key: String, value: String): Hash
  {
    if key == "class" && HasKey(h, "class") then Put(h, "class", Str(Get(h, "class").value.ToS() + " " + value))
    else Put(h, key, Str(value))
  }

  function PutAssignments(h: Hash, pairs: seq<(String, String)>): Hash
    decreases |pairs|
  {
    if pairs == [] then h else PutAssignments(PutAssignment(h, pairs[0].0, pairs[0].1), pairs[1..])
  }

  /** The hash that `merge_attributes` builds: base pairs, then additional pairs, then bare words. */
  function MergedHash(base: seq<String>, additional: String): Hash
  {
    var h := PutAssignments(PutBases([], base), Assignments(additional, 0));
    AttributeMerger.PutFlags(h, FlagWords(RemoveErb(additional), 0))
  }

  /** `merge_attributes(base_attrs, additional_attrs)` */
  function MergedAttributes(base: seq<String>, additional: String): seq<String>
  {
    if additional == [] then base else AttributeMerger.RenderEntries(MergedHash(base, additional))
  }

  // ---------------------------------------------------------------------------
  // build_attributes and build

  /** The `class=` and `id=` attributes of the shorthand names, class first, each only if there are names. */
  function ShorthandAttributes(t: TagRecord): seq<String>
  {
    (if t.classes == [] then [] else [Attribute("class", t.classes)]) +
    (if t.ids == [] then [] else [Attribute("id", t.ids)])
  }

  /** The attribute list of the tag, with the rendered hash merged in. */
  function AttributeList(t: TagRecord): seq<String>
  {
    match t.attributesHash
    case None => ShorthandAttributes(t)
    case Some(h) => MergedAttributes(ShorthandAttributes(t), AttributeParser.Attributes(h))
  }

  /** `build_attributes`: "" or a space and the attributes joined with spaces. */
  function AttributeString(t: TagRecord): String
  {
    var attrs := AttributeList(t);
    if attrs == [] then [] else " " + Join(attrs, " ")
  }

  /** `build`: the line of HTML for the tag. */
  function Build(t: TagRecord, indent: String, hasChildren: bool): String
  {
    var open := OpenTag(t.tagName, AttributeString(t));
    if IsVoid(t.tagName) then indent + open + "\n"
    else if t.hasRubyCode then indent + open + "<%= " + t.content + " %>" + CloseTag(t.tagName) + "\n"
    else if t.content == [] then
      if hasChildren then indent + open + "\n" else indent + open + CloseTag(t.tagName) + "\n"
    else
      if hasChildren then indent + open + "\n"
      else indent + open + ProcessInterpolation(t.content) + CloseTag(t.tagName) + "\n"
  }

  // ---------------------------------------------------------------------------
  // The mutating code of build_attributes and merge_attributes

  /** `merge_attributes`: the three loops assigning into `attrs_hash`, then the map back to strings. */
  method MergeAttributes(base: seq<String>, additional: String) returns (r: seq<String>)
    ensures r == MergedAttributes(base, additional)
  {
    if additional == [] {
      return base;
    }
    var hash := PutBaseAttributes(base);
    hash := PutAdditionalPairs(hash, additional);
    hash := PutBareWords(hash, RemoveErb(additional));
    r := AttributeMerger.RenderEntries(hash);
  }

  /** The first loop of `merge_attributes`: each base attribute's last `key="value"` pair, in order. */
  method PutBaseAttributes(base: seq<String>) returns (hash: Hash)
    ensures hash == PutBases([], base)
  {
    hash := [];
    var i := 0;
    while i < |base|
      invariant i <= |base|
      invariant PutBases(hash, base[i..]) == PutBases([], base)
    {
      assert base[i..][1..] == base[i + 1..];
      match FinalAssignment(base[i], 0) {
        case Some(a) => hash := Put(hash, a.key, Str(a.value));
        case None =>
      }
      i := i + 1;
    }
  }

  /** The second loop: the added pairs, a `class` appended to one already there. */
  method PutAdditionalPairs(start: Hash, additional: String) returns (hash: Hash)
    ensures hash == PutAssignments(start, Assignments(additional, 0))
  {
    hash := start;
    var p := 0;
    while p < |additional|
      invariant p <= |additional|
      invariant PutAssignments(hash, Assignments(additional, p)) == PutAssignments(start, Assignments(additional, 0))
      decreases |additional| - p
    {
      match AssignmentAt(additional, p) {
        case Some(a) =>
          if a.key == "class" && HasKey(hash, "class") {
            hash := Put(hash, "class", Str(Get(hash, "class").value.ToS() + " " + a.value));
          } else {
            hash := Put(hash, a.key, Str(a.value));
          }
          p := a.end;
        case None =>
          p := p + 1;
      }
    }
  }

  /** The third loop: each bare word of the ERB-free text becomes a flag unless its key is already there. */
  method PutBareWords(start: Hash, temp: String) returns (hash: Hash)
    ensures hash == AttributeMerger.PutFlags(start, FlagWords(temp, 0))
  {
    hash := start;
    var p := 0;
    while p < |temp|
      invariant p <= |temp|
      invariant AttributeMerger.PutFlags(hash, FlagWords(temp, p)) == AttributeMerger.PutFlags(start, FlagWords(temp, 0))
      decreases |temp| - p
    {
      var w := FlagWordAt(temp, p);
      if w.Some? {
        var (key, e) := w.value;
        if !HasKey(hash, key) {
          hash := Put(hash, key, Flag);
        }
        p := e;
      } else {
        p := p + 1;
      }
    }
  }

  /** `build_attributes`: the shorthand attributes pushed in order, then the hash merged in. */
  method BuildAttributes(t: TagRecord) returns (s: String)
    ensures s == AttributeString(t)
  {
    var attrs: seq<String> := [];
    if t.classes != [] {
      attrs := attrs + [Attribute("class", t.classes)];
    }
    if t.ids != [] {
      attrs := attrs + [Attribute("id", t.ids)];
    }
    assert attrs == ShorthandAttributes(t);
    if t.attributesHash.Some? {
      var hashAttrs := AttributeParser.Parse(t.attributesHash.value);
      attrs := MergeAttributes(attrs, hashAttrs);
    }
    assert attrs == AttributeList(t);
    s := if attrs == [] then [] else " " + Join(attrs, " ");
  }

  // ---------------------------------------------------------------------------
  // What the builder promises

  /** A void tag is the open tag alone, whatever its content, Ruby flag or children. */
  lemma VoidTag(t: TagRecord, indent: String, hasChildren: bool, content: String, ruby: bool)
    requires IsVoid(t.tagName)
    ensures Build(t, indent, hasChildren) == indent + OpenTag(t.tagName, AttributeString(t)) + "\n"
    ensures Build(t.(content := content, hasRubyCode := ruby), indent, !hasChildren) == Build(t, indent, hasChildren)
  {
  }

  /** Ruby code gives one closed line `<tag …><%= code %></tag>` with or without children. */
  lemma RubyContent(t: TagRecord, indent: String)
    requires !IsVoid(t.tagName) && t.hasRubyCode
    ensures Build(t, indent, true) == Build(t, indent, false)
    ensures Build(t, indent, false) ==
      indent + OpenTag(t.tagName, AttributeString(t)) + "<%= " + t.content + " %>" + CloseTag(t.tagName) + "\n"
  {
  }

  /** No content: an open tag when children follow, else an immediately closed pair. */
  lemma EmptyContent(t: TagRecord, indent: String, hasChildren: bool)
    requires !IsVoid(t.tagName) && !t.hasRubyCode && t.content == []
    ensures Build(t, indent, hasChildren) ==
      indent + OpenTag(t.tagName, AttributeString(t)) + (if hasChildren then [] else CloseTag(t.tagName)) + "\n"
  {
  }

  /**
    Literal content: dropped when children follow; otherwise interpolated between
    the tags, so that content without `#{` appears as it is.
   */
  lemma LiteralContent(t: TagRecord, indent: String)
    requires !IsVoid(t.tagName) && !t.hasRubyCode && t.content != []
    ensures Build(t, indent, true) == Build(t.(content := []), indent, true)
    ensures Build(t, indent, false) ==
      indent + OpenTag(t.tagName, AttributeString(t)) + ProcessInterpolation(t.content) + CloseTag(t.tagName) + "\n"
    ensures !Contains(t.content, "#{") ==>
      Build(t, indent, false) == indent + OpenTag(t.tagName, AttributeString(t)) + t.content + CloseTag(t.tagName) + "\n"
  {
    if !Contains(t.content, "#{") {
      ProcessInterpolationIdentity(t.content);
    }
  }

  /** Without an attribute hash: the class attribute, then the id attribute, and "" when there is neither. */
  lemma ShorthandOrder(t: TagRecord)
    requires t.attributesHash.None?
    ensures AttributeString(t) == [] <==> t.classes == [] && t.ids == []
    ensures t.classes != [] && t.ids != [] ==>
      AttributeString(t) == " " + Attribute("class", t.classes) + " " + Attribute("id", t.ids)
    ensures t.classes != [] && t.ids == [] ==> AttributeString(t) == " " + Attribute("class", t.classes)
    ensures t.classes == [] && t.ids != [] ==> AttributeString(t) == " " + Attribute("id", t.ids)
  {
    if t.classes != [] && t.ids != [] {
      assert AttributeList(t) == [Attribute("class", t.classes), Attribute("id", t.ids)];
      JoinTwo(Attribute("class", t.classes), Attribute("id", t.ids), " ");
    }
  }

  /** An attribute hash that renders to nothing leaves the shorthand attributes as they are. */
  lemma EmptyHashRendering(t: TagRecord)
    requires t.attributesHash.Some? && AttributeParser.Attributes(t.attributesHash.value) == []
    ensures AttributeString(t) == AttributeString(t.(attributesHash := None))
  {
  }

  /** A word that the bare-word scan finds and no pair assigns is rendered as a bare name; a keyed word keeps its value. */
  lemma FlagAttribute(base: seq<String>, additional: String, k: String)
    requires additional != []
    ensures var h := PutAssignments(PutBases([], base), Assignments(additional, 0));
      && (!HasKey(h, k) && k in FlagWords(RemoveErb(additional), 0) ==>
            Get(MergedHash(base, additional), k) == Some(Flag) && k in MergedAttributes(base, additional))
      && (HasKey(h, k) ==> Get(MergedHash(base, additional), k) == Get(h, k))
  {
    var h := PutAssignments(PutBases([], base), Assignments(additional, 0));
    AttributeMerger.PutFlagsGet(h, FlagWords(RemoveErb(additional), 0), k);
    if !HasKey(h, k) && k in FlagWords(RemoveErb(additional), 0) {
      AttributeMerger.RenderedEntry(MergedHash(base, additional), k);
    }
  }

  // ---------------------------------------------------------------------------
  // A class from the shorthand and a class from the hash

  /** A word key `k`, then `="x"` at `p`, is the match there. */
  lemma AssignmentAtOf(s: String, p: nat, k: String, x: String)
    requires k != [] && (forall m :: 0 <= m < |k| ==> IsWordOrDash(k[m])) && '"' !in x
    requires p + |k| + |x| + 3 <= |s| && s[p..p + |k| + |x| + 3] == k + "=\"" + x + "\""
    ensures AssignmentAt(s, p) == Some(Assignment(k, x, p + |k| + |x| + 3))
  {
    var e := p + |k|;
    var c := e + 2 + |x|;
    AssignmentKeyLayout(s, p, k, x);
    AssignmentValueLayout(s, p, k, x);
    WordRunEndOf(s, p, e);
    IndexOfCharAt(s, '"', e + 2, c);
    AssignmentAtParts(s, p, e, c);
  }

  /** The key part of `k="x"` laid out in `s` at `p`. */
  lemma AssignmentKeyLayout(s: String, p: nat, k: String, x: String)
    requires k != [] && (forall m :: 0 <= m < |k| ==> IsWordOrDash(k[m]))
    requires p + |k| + |x| + 3 <= |s| && s[p..p + |k| + |x| + 3] == k + "=\"" + x + "\""
    ensures forall m :: p <= m < p + |k| ==> IsWordOrDash(s[m])
    ensures s[p + |k|] == '=' && s[p + |k| + 1] == '"' && s[p..p + |k|] == k
  {
    var w := s[p..p + |k| + |x| + 3];
    forall m | p <= m < p + |k| ensures IsWordOrDash(s[m]) {
      assert s[m] == w[m - p] == k[m - p];
    }
    assert s[p + |k|] == w[|k|];
    assert s[p + |k| + 1] == w[|k| + 1];
    forall m | 0 <= m < |k| ensures s[p..p + |k|][m] == k[m] {
      assert s[p + m] == w[m] == k[m];
    }
  }

  /** The value part of `k="x"` laid out in `s` at `p`. */
  lemma AssignmentValueLayout(s: String, p: nat, k: String, x: String)
    requires '"' !in x
    requires p + |k| + |x| + 3 <= |s| && s[p..p + |k| + |x| + 3] == k + "=\"" + x + "\""
    ensures forall m :: p + |k| + 2 <= m < p + |k| + 2 + |x| ==> s[m] != '"'
    ensures s[p + |k| + 2 + |x|] == '"' && s[p + |k| + 2..p + |k| + 2 + |x|] == x
  {
    var w := s[p..p + |k| + |x| + 3];
    var b := p + |k| + 2;
    forall m | b <= m < b + |x| ensures s[m] != '"' {
      assert s[m] == w[m - p] == x[m - b];
    }
    assert s[b + |x|] == w[|k| + 2 + |x|];
    forall m | 0 <= m < |x| ensures s[b..b + |x|][m] == x[m] {
      assert s[b + m] == w[|k| + 2 + m] == x[m];
    }
  }

  /** The match at `p`, given where its name ends and where its closing quote is. */
  lemma AssignmentAtParts(s: String, p: nat, e: nat, c: nat)
    requires p < e && e + 1 < |s| && WordRunEnd(s, p) == e && s[e] == '=' && s[e + 1] == '"'
    requires IndexOfChar(s, '"', e + 2) == Some(c)
    ensures AssignmentAt(s, p) == Some(Assignment(s[p..e], s[e + 2..c], c + 1))
  {
  }

  /** `class="x"` as a base attribute gives the pair `class`, `x`. */
  lemma BaseClassMatch(x: String)
    requires '"' !in x
    ensures PutBases([], ["class=\"" + x + "\""]) == [("class", Str(x))]
  {
    var s := "class=\"" + x + "\"";
    assert s[0..|s|] == s;
    AssignmentAtOf(s, 0, "class", x);
    assert ["class=\"" + x + "\""][1..] == [];
  }

  /** From `p` on there is no whitespace, so no bare word. */
  lemma {:induction false} NoFlagsWithoutSpace(s: String, p: nat)
    requires 0 < p && forall i :: p <= i < |s| ==> !IsSpace(s[i])
    ensures FlagWords(s, p) == []
    decreases |s| - p
  {
    if p < |s| {
      NoFlagsWithoutSpace(s, p + 1);
    }
  }

  /** ` k="x"`, with `x` free of quotes, whitespace and `<`, is one pair and no bare word. */
  lemma OnePair(k: String, x: String)
    requires k != [] && (forall m :: 0 <= m < |k| ==> IsWordOrDash(k[m]))
    requires '"' !in x && '<' !in x && NoSpace(x)
    ensures var s := " " + k + "=\"" + x + "\"";
      Assignments(s, 0) == [(k, x)] && FlagWords(RemoveErb(s), 0) == []
  {
    OnePairAssignments(k, x);
    OnePairNoFlags(k, x);
  }

  /** ` k="x"` is the one pair `(k, x)`. */
  lemma OnePairAssignments(k: String, x: String)
    requires k != [] && (forall m :: 0 <= m < |k| ==> IsWordOrDash(k[m]))
    requires '"' !in x
    ensures Assignments(" " + k + "=\"" + x + "\"", 0) == [(k, x)]
  {
    var s := " " + k + "=\"" + x + "\"";
    assert s[1..|s|] == k + "=\"" + x + "\"";
    AssignmentAtOf(s, 1, k, x);
    SpaceNoAssignment(s);
    AssignmentsSkip(s, 0);
    AssignmentsTake(s, 1, Assignment(k, x, |s|));
  }

  lemma SpaceNoAssignment(s: String)
    requires s != [] && s[0] == ' '
    ensures AssignmentAt(s, 0).None?
  {
    assert WordRunEnd(s, 0) == 0;
  }

  lemma AssignmentsSkip(s: String, p: nat)
    requires p < |s| && AssignmentAt(s, p).None?
    ensures Assignments(s, p) == Assignments(s, p + 1)
  {
  }

  lemma AssignmentsTake(s: String, p: nat, a: Assignment)
    requires p < |s| && AssignmentAt(s, p) == Some(a) && a.end == |s|
    ensures Assignments(s, p) == [(a.key, a.value)]
  {
  }

  /** ` k="x"`, with `x` free of whitespace and `<`, holds no bare word. */
  lemma OnePairNoFlags(k: String, x: String)
    requires k != [] && (forall m :: 0 <= m < |k| ==> IsWordOrDash(k[m]))
    requires '<' !in x && NoSpace(x)
    ensures FlagWords(RemoveErb(" " + k + "=\"" + x + "\""), 0) == []
  {
    PairNoErb(k, x);
    PairNoFlagWords(k, x);
  }

  /** ` k="x"` with `x` free of `<` holds no ERB tag to remove. */
  lemma PairNoErb(k: String, x: String)
    requires k != [] && (forall m :: 0 <= m < |k| ==> IsWordOrDash(k[m]))
    requires '<' !in x
    ensures RemoveErb(" " + k + "=\"" + x + "\"") == " " + k + "=\"" + x + "\""
  {
    var s := " " + k + "=\"" + x + "\"";
    forall i | 0 <= i < |s| ensures s[i] != '<' {
      if 1 <= i <= |k| { assert s[i] == k[i - 1]; }
      if |k| + 3 <= i < |k| + 3 + |x| { assert s[i] == x[i - |k| - 3]; }
    }
    MissingHead(s, "<%=");
  }

  /** In ` k="x"` with `x` free of whitespace the only word is followed by `=`, so it is not bare. */
  lemma PairNoFlagWords(k: String, x: String)
    requires k != [] && (forall m :: 0 <= m < |k| ==> IsWordOrDash(k[m]))
    requires NoSpace(x)
    ensures FlagWords(" " + k + "=\"" + x + "\"", 0) == []
  {
    var s := " " + k + "=\"" + x + "\"";
    forall m | 1 <= m <= |k| ensures IsWordOrDash(s[m]) { assert s[m] == k[m - 1]; }
    WordRunEndOf(s, 1, |k| + 1);
    forall i | 1 <= i < |s| ensures !IsSpace(s[i]) {
      if 1 <= i <= |k| { assert s[i] == k[i - 1]; }
      if |k| + 3 <= i < |k| + 3 + |x| { assert s[i] == x[i - |k| - 3]; }
    }
    NoFlagsWithoutSpace(s, 1);
    assert WordRunEnd(s, 0) == 0;
    assert s[|k| + 1] == '=';
    assert FollowedWord(s, 1).None?;
    assert FlagWordAt(s, 0).None?;
  }

  /** Without bare words, the merged hash is the additional pairs folded into the base pairs. */
  lemma MergedWithoutFlags(base: seq<String>, additional: String)
    requires FlagWords(RemoveErb(additional), 0) == []
    ensures MergedHash(base, additional) == PutAssignments(PutBases([], base), Assignments(additional, 0))
  {
  }

  /** A base holding only a class, and an addition holding only a class pair. */
  lemma AppendToClass(base: seq<String>, additional: String, a: String, b: String)
    requires additional != [] && PutBases([], base) == [("class", Str(a))]
    requires Assignments(additional, 0) == [("class", b)] && FlagWords(RemoveErb(additional), 0) == []
    ensures MergedAttributes(base, additional) == ["class=\"" + a + " " + b + "\""]
  {
    assert [("class", b)][1..] == [];
    var h0: Hash := [("class", Str(a))];
    var h := [("class", Str(a + " " + b))];
    assert Get(h0, "class") == Some(Str(a));
    assert h0[1..] == [];
    assert Put(h0, "class", Str(a + " " + b)) == h;
    assert PutAssignment(h0, "class", b) == h;
    assert PutAssignments(h0, [("class", b)]) == PutAssignments(h, []);
    assert MergedHash(base, additional) == h;
    assert AttributeMerger.RenderEntries(h) == [AttributeMerger.RenderEntry(h[0])] + AttributeMerger.RenderEntries(h[1..]);
    assert h[1..] == [];
    assert AttributeMerger.RenderEntry(h[0]) == "class" + "=\"" + (a + " " + b) + "\"";
    assert "class" + "=\"" + (a + " " + b) + "\"" == "class=\"" + a + " " + b + "\"";
    assert MergedAttributes(base, additional) == AttributeMerger.RenderEntries(h);
  }

  /**
    A hash `class` is appended to the shorthand class after a space, and the two
    are not de-duplicated: `class="a"` merged with ` class="a"` gives `class="a a"`.
   */
  lemma ClassAppended(a: String, b: String)
    requires '"' !in a && '"' !in b && '<' !in b && NoSpace(b)
    ensures MergedAttributes(["class=\"" + a + "\""], " class=\"" + b + "\"") == ["class=\"" + a + " " + b + "\""]
  {
    var add := " class=\"" + b + "\"";
    assert add == " " + "class" + "=\"" + b + "\"";
    BaseClassMatch(a);
    OnePair("class", b);
    AppendToClass(["class=\"" + a + "\""], add, a, b);
  }

  /** `AttributeMerger`, in contrast, keeps a repeated class token once. */
  lemma MergerDeduplicates(a: String)
    requires a != [] && NoSpace(a)
    ensures AttributeMerger.MergeClassValues(Str(a), Str(a)) == a
  {
    WordsOfJoin([a]);
    assert Join([a], " ") == a;
    assert Words(Str(a).ToS()) == [a];
    assert [a] + [a] == [a, a];
    assert [a, a][1..] == [a];
    assert [a][1..] == [];
    assert [] + [a] == [a];
    assert UniqAfter([a, a], []) == [a] + UniqAfter([a], [a]);
    assert Uniq([a] + [a]) == [a];
  }

  // ---------------------------------------------------------------------------
  // Whole lines through TagParser and TagBuilder

  /** One class, no id and no hash: the attribute string is ` class="c"`. */
  lemma OneClassAttribute(t: TagRecord, c: String)
    requires t.classes == [c] && t.ids == [] && t.attributesHash.None?
    ensures AttributeString(t) == " class=\"" + c + "\""
  {
    ShorthandOrder(t);
    assert Join([c], " ") == c;
  }

  /** A closed `div` pair with the attribute string `attrs`. */
  lemma DivPair(t: TagRecord, indent: String, attrs: String)
    requires t.tagName == "div" && !t.hasRubyCode && t.content == [] && AttributeString(t) == attrs
    ensures Build(t, indent, false) == indent + "<div" + attrs + "></div>\n"
  {
    DivNotVoid();
    EmptyContent(t, indent, false);
    DivText(indent, attrs);
  }

  /** `div` is not a void element. */
  lemma DivNotVoid()
    ensures !IsVoid("div")
  {
    forall v | v in VoidElements ensures v != "div" {
      assert v[0] != 'd';
    }
  }

  lemma DivText(indent: String, attrs: String)
    ensures indent + OpenTag("div", attrs) + CloseTag("div") + "\n" == indent + "<div" + attrs + "></div>\n"
  {
  }

  lemma DivClassText(indent: String, x: String)
    ensures indent + "<div" + (" class=\"" + x + "\"") + "></div>\n" == indent + "<div class=\"" + x + "\"></div>\n"
  {
  }

  lemma DivTwoClassText(indent: String, a: String, b: String)
    ensures indent + "<div" + (" class=\"" + a + " " + b + "\"") + "></div>\n" ==
            indent + "<div class=\"" + a + " " + b + "\"></div>\n"
  {
  }

  /**
    A bare `.name` line with no children becomes a closed `div` pair carrying the class:
    the one-class form of what the cases at spec/haml2erb_spec.rb:108-112 and 167-171
    expect. The class-line renderer differs here (`ElementConverter.BareClassDiverges`).
   */
  lemma BareClassLine(name: String, indent: String)
    requires Name(name)
    ensures ParseSpec("." + name).Some? &&
      Build(ParseSpec("." + name).value, indent, false) == indent + "<div class=\"" + name + "\"></div>\n"
  {
    ClassAlone(name);
    var t := ParseSpec("." + name).value;
    OneClassAttribute(t, name);
    DivPair(t, indent, " class=\"" + name + "\"");
    DivClassText(indent, name);
  }

  /**
    `.a{class: "b"}` as a record: the shorthand class and the hash class share one attribute,
    shorthand first, as the case at spec/haml2erb_spec.rb:414-418 expects of the class line.
   */
  lemma ShorthandAndHashClass(t: TagRecord, a: String, b: String, indent: String)
    requires t == TagRecord("div", [a], [], Some("class: \"" + b + "\""), [], false)
    requires Name(a) && AttributeParser.Plain(b) && ',' !in b && '<' !in b && NoSpace(b)
    ensures Build(t, indent, false) == indent + "<div class=\"" + a + " " + b + "\"></div>\n"
  {
    HashClassAttribute(t, a, b);
    DivPair(t, indent, " class=\"" + a + " " + b + "\"");
    DivTwoClassText(indent, a, b);
  }

  lemma ClassTexts(a: String, b: String)
    ensures "class" + ": \"" + b + "\"" == "class: \"" + b + "\""
    ensures " " + "class" + "=\"" + b + "\"" == " class=\"" + b + "\""
    ensures " " + ("class=\"" + a + " " + b + "\"") == " class=\"" + a + " " + b + "\""
  {
  }

  lemma ShorthandOneClass(t: TagRecord, a: String)
    requires t.classes == [a] && t.ids == []
    ensures ShorthandAttributes(t) == ["class=\"" + a + "\""]
  {
    assert Join([a], " ") == a;
    assert Attribute("class", t.classes) == "class=\"" + a + "\"";
  }

  lemma NameNoQuote(a: String)
    requires Name(a)
    ensures '"' !in a
  {
    forall i | 0 <= i < |a| ensures a[i] != '"' { assert IsWordOrDash(a[i]); }
  }

  lemma PlainNoQuote(b: String)
    requires AttributeParser.Plain(b)
    ensures '"' !in b
  {
    forall i | 0 <= i < |b| ensures b[i] != '"' { assert !IsQuote(b[i]); }
  }

  lemma HashClassRendering(b: String)
    requires AttributeParser.Plain(b) && ',' !in b
    ensures AttributeParser.Attributes("class: \"" + b + "\"") == " class=\"" + b + "\""
  {
    assert AttributeParser.ValidKey("class");
    AttributeParser.QuotedPairRendering("class", b);
    ClassTexts([], b);
  }

  /** The attribute list of `.a{class: "b"}`: one class attribute, shorthand first (spec/haml2erb_spec.rb:414-418). */
  lemma HashClassList(t: TagRecord, a: String, b: String)
    requires t.classes == [a] && t.ids == [] && t.attributesHash == Some("class: \"" + b + "\"")
    requires Name(a) && AttributeParser.Plain(b) && ',' !in b && '<' !in b && NoSpace(b)
    ensures AttributeList(t) == ["class=\"" + a + " " + b + "\""]
  {
    HashClassRendering(b);
    ShorthandOneClass(t, a);
    NameNoQuote(a);
    PlainNoQuote(b);
    ClassAppended(a, b);
  }

  lemma HashClassAttribute(t: TagRecord, a: String, b: String)
    requires t.classes == [a] && t.ids == [] && t.attributesHash == Some("class: \"" + b + "\"")
    requires Name(a) && AttributeParser.Plain(b) && ',' !in b && '<' !in b && NoSpace(b)
    ensures AttributeString(t) == " class=\"" + a + " " + b + "\""
  {
    HashClassList(t, a, b);
    var x := "class=\"" + a + " " + b + "\"";
    assert Join([x], " ") == x;
    ClassTexts(a, b);
  }
}
