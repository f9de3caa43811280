/**
  `AttributeParser` (lib/haml2erb/attribute_parser.rb): turns the text between
  the braces of a HAML attribute hash into HTML attribute text.

  The text is split on commas outside quotes; each stripped fragment is tried
  against a fixed cascade of patterns and the first that matches anywhere in the
  fragment decides the rendering. Each pattern is written out as a matcher:
  at a given start position every one of them can match in at most one way (the
  character runs are maximal because what must follow a run is never in the
  run's class, and `.*?` ends at the first closing quote), so the leftmost
  search over start positions is what Ruby's `match` returns.
 */
module AttributeParser {
  import opened Wrappers
  import opened Text
  import opened StringUtils

  // ---------------------------------------------------------------------------
  // Character classes of the patterns
  // ---------------------------------------------------------------------------

  /** `[a-zA-Z_-]`, the first character of a key. */
  predicate KeyHead(c: char) { IsLetter(c) || c == '_' || c == '-' }

  /** `[a-zA-Z_]`, the first character of a symbol or of quoted-key code. */
  predicate SymbolHead(c: char) { IsLetter(c) || c == '_' }

  /** `[a-zA-Z_@:]`, the first character of bare-key code. */
  predicate BareCodeHead(c: char) { IsLetter(c) || c == '_' || c == '@' || c == ':' }

  /** The classes over which the patterns take maximal runs. */
  datatype CharClass =
    | KeyTail        // [a-zA-Z0-9_-]
    | Digit          // \d
    | QuotedCodeTail // [a-zA-Z0-9_.:()]
    | BareCodeTail   // [a-zA-Z0-9_.()@:\[\]&]
    | Space          // \s

  predicate InClass(c: char, cls: CharClass)
  {
    match cls
    case KeyTail => IsWordOrDash(c)
    case Digit => IsDigit(c)
    case QuotedCodeTail => IsLetter(c) || IsDigit(c) || c == '_' || c == '.' || c == ':' || c == '(' || c == ')'
    case BareCodeTail =>
      IsLetter(c) || IsDigit(c) || c == '_' || c == '.' || c == '(' || c == ')' || c == '@' || c == ':'
      || c == '[' || c == ']' || c == '&'
    case Space => IsSpace(c)
  }

  /** The end of the longest run of `cls` characters starting at `j`. */
  function RunEnd(s: String, j: nat, cls: CharClass): (e: nat)
    requires j <= |s|
    ensures j <= e <= |s|
    ensures forall k :: j <= k < e ==> InClass(s[k], cls)
    ensures e < |s| ==> !InClass(s[e], cls)
    decreases |s| - j
  {
    if j < |s| && InClass(s[j], cls) then RunEnd(s, j + 1, cls) else j
  }

  // ---------------------------------------------------------------------------
  // Patterns
  // ---------------------------------------------------------------------------

  /** How a pattern writes its key: `:key`, `'key'` / `"key"`, or `key`. */
  datatype KeyForm = SymbolKey | QuotedKey | BareKey

  /** What separates key and value: `\s*=>\s*` or `\s*:\s*`. */
  datatype Separator = Rocket | Colon

  /** The value a pattern accepts. */
  datatype ValueForm =
    | QuotedString   // (['"])(.*?)\N
    | Number         // \d+
    | Boolean        // (true|false)
    | QuotedKeyCode  // [a-zA-Z_][a-zA-Z0-9_.:()]+
    | BareCode       // [a-zA-Z_@:][a-zA-Z0-9_.()@:\[\]&]+
    | OpenBrace      // \{ (the start of a nested hash)

  /** A pattern of the cascade; `normalize` says whether its renderer normalizes the key. */
  datatype Pattern = Pattern(key: KeyForm, sep: Separator, value: ValueForm, normalize: bool)

  /** What a match captures, and the index just after the match. */
  datatype Capture = Capture(key: String, value: String, end: nat)

  /** The key at `j`, and the index after it. */
  function KeyAt(s: String, j: nat, form: KeyForm): (r: Option<(String, nat)>)
    requires j <= |s|
    ensures r.Some? ==> j < r.value.1 <= |s|
  {
    match form
    case SymbolKey =>
      if j + 1 < |s| && s[j] == ':' && SymbolHead(s[j + 1]) then
        var e := RunEnd(s, j + 2, KeyTail);
        Some((s[j + 1..e], e))
      else None
    case QuotedKey =>
      if j + 1 < |s| && IsQuote(s[j]) && KeyHead(s[j + 1]) then
        var e := RunEnd(s, j + 2, KeyTail);
        if e < |s| && s[e] == s[j] then Some((s[j + 1..e], e + 1)) else None
      else None
    case BareKey =>
      if j < |s| && KeyHead(s[j]) then
        var e := RunEnd(s, j + 1, KeyTail);
        Some((s[j..e], e))
      else None
  }

  /** The index after the separator that starts at `j`, spaces included. */
  function SeparatorEnd(s: String, j: nat, sep: Separator): (r: Option<nat>)
    requires j <= |s|
    ensures r.Some? ==> j < r.value <= |s|
  {
    var k := RunEnd(s, j, Space);
    match sep
    case Rocket => if k + 1 < |s| && s[k] == '=' && s[k + 1] == '>' then Some(RunEnd(s, k + 2, Space)) else None
    case Colon => if k < |s| && s[k] == ':' then Some(RunEnd(s, k + 1, Space)) else None
  }

  /** The value at `j`, and the index after it. */
  function ValueAt(s: String, j: nat, form: ValueForm): (r: Option<(String, nat)>)
    requires j <= |s|
    ensures r.Some? ==> j < r.value.1 <= |s|
  {
    match form
    case QuotedString =>
      if j < |s| && IsQuote(s[j]) then
        match IndexOfChar(s, s[j], j + 1)
        case Some(m) => Some((s[j + 1..m], m + 1))
        case None => None
      else None
    case Number =>
      var e := RunEnd(s, j, Digit);
      if e > j then Some((s[j..e], e)) else None
    case Boolean =>
      if StartsWith(s[j..], "true") then Some(("true", j + 4))
      else if StartsWith(s[j..], "false") then Some(("false", j + 5))
      else None
    case QuotedKeyCode =>
      if j < |s| && SymbolHead(s[j]) then
        var e := RunEnd(s, j + 1, QuotedCodeTail);
        if e > j + 1 then Some((s[j..e], e)) else None
      else None
    case BareCode =>
      if j < |s| && BareCodeHead(s[j]) then
        var e := RunEnd(s, j + 1, BareCodeTail);
        if e > j + 1 then Some((s[j..e], e)) else None
      else None
    case OpenBrace =>
      if j < |s| && s[j] == '{' then Some(([], j + 1)) else None
  }

  /** The match of `p` that starts at `j`, if there is one. */
  function MatchAt(p: Pattern, s: String, j: nat): (r: Option<Capture>)
    requires j <= |s|
    ensures r.Some? ==> j < r.value.end <= |s|
  {
    match KeyAt(s, j, p.key)
    case None => None
    case Some((key, k)) =>
      match SeparatorEnd(s, k, p.sep)
      case None => None
      case Some(v) =>
        match ValueAt(s, v, p.value)
        case None => None
        case Some((value, e)) => Some(Capture(key, value, e))
  }

  /** Where a search found its match. */
  datatype Found = Found(at: nat, capture: Capture)

  /** Ruby's unanchored `match` from `j` on: the leftmost start at which `p` matches. */
  function Search(p: Pattern, s: String, j: nat): (r: Option<Found>)
    requires j <= |s|
    ensures r.Some? ==> j <= r.value.at < |s| && MatchAt(p, s, r.value.at) == Some(r.value.capture)
    decreases |s| - j
  {
    if j == |s| then None
    else if MatchAt(p, s, j).Some? then Some(Found(j, MatchAt(p, s, j).value))
    else Search(p, s, j + 1)
  }

  /** A search that finds its match past `j` has passed over `j`. */
  lemma SearchPastStart(p: Pattern, s: String, j: nat)
    requires j <= |s| && Search(p, s, j).Some? && Search(p, s, j).value.at > j
    ensures MatchAt(p, s, j).None? && Search(p, s, j) == Search(p, s, j + 1)
  {
  }

  /** A search that fails from `j` fails from `j + 1` too, and finds nothing at `j`. */
  lemma SearchFailing(p: Pattern, s: String, j: nat)
    requires j < |s| && Search(p, s, j).None?
    ensures MatchAt(p, s, j).None? && Search(p, s, j + 1).None?
  {
  }

  /** The search finds the leftmost match from `j` on: no start before the one it finds matches. */
  lemma {:induction false} SearchLeftmost(p: Pattern, s: String, j: nat, k: nat)
    requires j <= k && j <= |s| && Search(p, s, j).Some? && k < Search(p, s, j).value.at
    ensures MatchAt(p, s, k).None?
    decreases k - j
  {
    SearchPastStart(p, s, j);
    if k > j {
      SearchLeftmost(p, s, j + 1, k);
    }
  }

  /** The search fails only when no start position from `j` on matches. */
  lemma {:induction false} SearchNone(p: Pattern, s: String, j: nat)
    requires j <= |s| && Search(p, s, j).None?
    ensures forall k :: j <= k <= |s| ==> MatchAt(p, s, k).None?
    decreases |s| - j
  {
    if j == |s| {
      MatchAtEnd(p, s);
    } else {
      SearchFailing(p, s, j);
      SearchNone(p, s, j + 1);
      forall k | j <= k <= |s| ensures MatchAt(p, s, k).None? {
        if k == j {
          assert MatchAt(p, s, j).None?;
        } else {
          assert j + 1 <= k <= |s|;
        }
      }
    }
  }

  /** No pattern matches at the very end of the text. */
  lemma MatchAtEnd(p: Pattern, s: String)
    ensures MatchAt(p, s, |s|).None?
  {
    assert KeyAt(s, |s|, p.key).None?;
  }

  /** `:k => 'v'` (`parse_old_format_string`). */
  const OldFormatString := Pattern(SymbolKey, Rocket, QuotedString, false)
  /** `:k => 123` (`parse_old_format_numeric`). */
  const OldFormatNumeric := Pattern(SymbolKey, Rocket, Number, false)
  /** `'k': 'v'` (`parse_new_format_quoted`). */
  const NewFormatQuoted := Pattern(QuotedKey, Colon, QuotedString, true)
  /** `'k': true` (`parse_new_format_boolean`). */
  const NewFormatBoolean := Pattern(QuotedKey, Colon, Boolean, true)
  /** `'k': code` (`parse_new_format_code`). */
  const NewFormatCode := Pattern(QuotedKey, Colon, QuotedKeyCode, true)
  /** `k: 'v'` (`parse_symbol_quoted`). */
  const SymbolQuoted := Pattern(BareKey, Colon, QuotedString, true)
  /** `k: true` (`parse_symbol_boolean`), which keeps the key as written. */
  const SymbolBoolean := Pattern(BareKey, Colon, Boolean, false)
  /** `k: code` (`parse_symbol_code`). */
  const SymbolCode := Pattern(BareKey, Colon, BareCode, true)
  /** `k: 123` (`parse_symbol_numeric`), which keeps the key as written. */
  const SymbolNumeric := Pattern(BareKey, Colon, Number, false)
  /** `k: {` (the opening of `extract_nested_hash_attribute`). */
  const NestedOpener := Pattern(BareKey, Colon, OpenBrace, false)

  /** The patterns after the nested form, in the order `process_attribute` tries them. */
  const Cascade: seq<Pattern> := [
    OldFormatString, OldFormatNumeric,
    NewFormatQuoted, NewFormatBoolean, NewFormatCode,
    SymbolQuoted, SymbolBoolean, SymbolCode, SymbolNumeric
  ]

  /** The first pattern of the cascade, from index `i`, that matches somewhere in `attr`. */
  function FirstPattern(attr: String, i: nat): (r: Option<(nat, Found)>)
    requires i <= |Cascade|
    ensures r.Some? ==> i <= r.value.0 < |Cascade| && Search(Cascade[r.value.0], attr, 0) == Some(r.value.1)
    ensures r.Some? ==> forall k :: i <= k < r.value.0 ==> Search(Cascade[k], attr, 0).None?
    ensures r.None? ==> forall k :: i <= k < |Cascade| ==> Search(Cascade[k], attr, 0).None?
    decreases |Cascade| - i
  {
    if i == |Cascade| then None
    else match Search(Cascade[i], attr, 0)
      case Some(f) => Some((i, f))
      case None => FirstPattern(attr, i + 1)
  }

  // ---------------------------------------------------------------------------
  // Renderers
  // ---------------------------------------------------------------------------

  /** `normalize_key`: every `_` becomes `-`. */
  function NormalizeKey(key: String): (r: String)
    ensures |r| == |key| && '_' !in r
    ensures forall i :: 0 <= i < |key| && key[i] != '_' ==> r[i] == key[i]
    ensures '_' !in key ==> r == key
  {
    ReplaceChar(key, '_', '-')
  }

  /** The renderer of pattern `p`: ` k="v"`, ` k="<%= v %>"`, or for a boolean ` k` or nothing. */
  function Render(p: Pattern, c: Capture): String
  {
    var k := if p.normalize then NormalizeKey(c.key) else c.key;
    match p.value
    case Boolean => if c.value == "true" then " " + k else ""
    case QuotedKeyCode => " " + k + "=\"<%= " + c.value + " %>\""
    case BareCode => " " + k + "=\"<%= " + c.value + " %>\""
    case _ => " " + k + "=\"" + c.value + "\""
  }

  // ---------------------------------------------------------------------------
  // Nested hashes
  // ---------------------------------------------------------------------------

  /** What `extract_nested_hash_attribute` returns besides the fragment: the key and the stripped inner text. */
  datatype NestedHash = NestedHash(prefix: String, content: String)

  /**
    The nested form of a fragment: the leftmost `key\s*:\s*\{`, then the brace
    scan from that `{`; nothing when there is no opener or the braces do not
    balance.
   */
  function NestedHashOf(attr: String): (r: Option<NestedHash>)
  {
    match Search(NestedOpener, attr, 0)
    case None => None
    case Some(f) =>
      OpenerEndsAtBrace(attr, f.at, f.capture);
      NestedFrom(attr, f.capture.key, f.capture.end - 1)
  }

  /** The nested form whose opener has key `key` and ends with the `{` at `b`. */
  function NestedFrom(attr: String, key: String, b: nat): Option<NestedHash>
    requires b < |attr|
  {
    match ClosingFrom(attr, b, Unquoted, 0, '{', '}', true)
    case None => None
    case Some(i) => Some(NestedHash(key, Strip(attr[b + 1..i])))
  }

  /** Once the opener is found, the nested form is decided by the brace scan from its `{`. */
  lemma NestedHashFound(attr: String, f: Found, key: String, b: nat)
    requires Search(NestedOpener, attr, 0) == Some(f) && key == f.capture.key && b + 1 == f.capture.end && b < |attr|
    ensures NestedHashOf(attr) == NestedFrom(attr, key, b)
  {
  }

  /** The opener found ends within the attribute text. */
  lemma OpenerEnd(attr: String, f: Found)
    requires Search(NestedOpener, attr, 0) == Some(f)
    ensures 0 < f.capture.end <= |attr|
  {
    OpenerEndsAtBrace(attr, f.at, f.capture);
  }

  /** A match of the nested opener ends with its `{`. */
  lemma OpenerEndsAtBrace(s: String, j: nat, c: Capture)
    requires j <= |s| && MatchAt(NestedOpener, s, j) == Some(c)
    ensures 0 < c.end <= |s| && s[c.end - 1] == '{'
  { }

  /** One inner entry of a nested hash: ` prefix-key="value"` for a `key: 'value'` entry, nothing otherwise. */
  function NestedEntry(prefix: String, entry: String): String
  {
    var e := Strip(entry);
    if e == [] then []
    else match Search(SymbolQuoted, e, 0)
      case None => []
      case Some(f) =>
        " " + prefix + "-" + NormalizeKey(f.capture.key) + "=\"" + RewriteInterpolation(f.capture.value) + "\""
  }

  /** The renderings of the inner entries, concatenated in order. */
  function NestedEntries(prefix: String, entries: seq<String>): String
  {
    if entries == [] then []
    else NestedEntries(prefix, entries[..|entries| - 1]) + NestedEntry(prefix, entries[|entries| - 1])
  }

  /** One entry more renders what the entries so far render, then that entry. */
  lemma NestedEntriesNext(prefix: String, entries: seq<String>, i: nat)
    requires i < |entries|
    ensures NestedEntries(prefix, entries[..i + 1]) == NestedEntries(prefix, entries[..i]) + NestedEntry(prefix, entries[i])
  {
    assert entries[..i + 1][..i] == entries[..i];
  }

  /** `parse_nested_hash`: the inner text is split like the outer one and each entry rendered. */
  function NestedAttributes(prefix: String, content: String): String
  {
    NestedEntries(prefix, Split(content, ',', false, false))
  }

  // ---------------------------------------------------------------------------
  // The cascade and the whole hash
  // ---------------------------------------------------------------------------

  /** The rendering of the fragment by `p`, if `p` matches anywhere in it. */
  function Try(p: Pattern, attr: String): (r: Option<String>)
    ensures r.Some? <==> Search(p, attr, 0).Some?
  {
    match Search(p, attr, 0)
    case None => None
    case Some(f) => Some(Render(p, f.capture))
  }

  /** `process_attribute` on a stripped fragment: nothing for an empty or unmatched one. */
  function ProcessAttribute(attr: String): (r: Option<String>)
  {
    if attr == [] then None
    else if NestedHashOf(attr).Some? then
      var n := NestedHashOf(attr).value;
      Some(NestedAttributes(n.prefix, n.content))
    else TryFrom(attr, 0)
  }

  /** The `elsif` chain from pattern `i` of `Cascade` on: the rendering by the first pattern that matches. */
  function TryFrom(attr: String, i: nat): (r: Option<String>)
    requires i <= |Cascade|
    decreases |Cascade| - i
  {
    if i == |Cascade| then None
    else if Try(Cascade[i], attr).Some? then Try(Cascade[i], attr)
    else TryFrom(attr, i + 1)
  }

  /** The renderings of the fragments, in order; a fragment that matches nothing adds nothing. */
  function Renderings(fragments: seq<String>): String
  {
    if fragments == [] then []
    else Renderings(fragments[..|fragments| - 1]) + ProcessAttribute(Strip(fragments[|fragments| - 1])).GetOr([])
  }

  /** One fragment more renders what the fragments so far render, then that fragment. */
  lemma RenderingsNext(fragments: seq<String>, i: nat)
    requires i < |fragments|
    ensures Renderings(fragments[..i + 1]) == Renderings(fragments[..i]) + ProcessAttribute(Strip(fragments[i])).GetOr([])
  {
    assert fragments[..i + 1][..i] == fragments[..i];
  }

  /** What `AttributeParser.parse` returns for an attribute hash's inner text. */
  function Attributes(attrString: String): String
  {
    if attrString == [] then [] else Renderings(Split(attrString, ',', false, false))
  }

  // ---------------------------------------------------------------------------
  // What the cascade makes of the common forms
  // ---------------------------------------------------------------------------

  /** A key as the bare-key patterns read it: `[a-zA-Z_-][a-zA-Z0-9_-]*`. */
  predicate ValidKey(k: String)
  {
    k != [] && KeyHead(k[0]) && forall i :: 0 < i < |k| ==> IsWordOrDash(k[i])
  }

  /** A symbol as the hash-rocket patterns read it: `[a-zA-Z_][a-zA-Z0-9_-]*`. */
  predicate ValidSymbol(k: String)
  {
    ValidKey(k) && SymbolHead(k[0])
  }

  /** Text with no quote, no `:` and no `{`, so that no pattern can start or end inside it. */
  predicate Plain(v: String)
  {
    forall i :: 0 <= i < |v| ==> !IsQuote(v[i]) && v[i] != ':' && v[i] != '{'
  }

  /** A run is maximal when the character after it is outside the class. */
  lemma {:induction false} RunEndOf(s: String, j: nat, e: nat, cls: CharClass)
    requires j <= e <= |s|
    requires forall m :: j <= m < e ==> InClass(s[m], cls)
    requires e == |s| || !InClass(s[e], cls)
    ensures RunEnd(s, j, cls) == e
    decreases e - j
  {
    if j < e {
      RunEndOf(s, j + 1, e, cls);
    }
  }

  /** A pattern with a `:` separator needs a `:` after its start. */
  lemma NoColonNoMatch(p: Pattern, s: String, j: nat)
    requires p.sep == Colon && j <= |s|
    requires forall m :: j < m < |s| ==> s[m] != ':'
    ensures MatchAt(p, s, j).None?
  {
  }

  /** Without a `{` no fragment is a nested hash. */
  lemma NoBraceNoNested(s: String)
    requires '{' !in s
    ensures NestedHashOf(s).None?
  {
    forall j | 0 <= j <= |s|
      ensures MatchAt(NestedOpener, s, j).None?
    {
    }
  }

  /** The hash-rocket patterns need a `:` directly followed by a symbol's first character. */
  lemma NoSymbolNoOldFormat(p: Pattern, s: String)
    requires p.key == SymbolKey
    requires forall j :: 0 <= j < |s| - 1 && s[j] == ':' ==> !SymbolHead(s[j + 1])
    ensures Search(p, s, 0).None?
  {
    forall j | 0 <= j <= |s|
      ensures MatchAt(p, s, j).None?
    {
    }
  }

  /** A pattern that does not match passes the fragment on to the next one. */
  lemma FirstPatternSkips(attr: String, i: nat)
    requires i < |Cascade| && Search(Cascade[i], attr, 0).None?
    ensures FirstPattern(attr, i) == FirstPattern(attr, i + 1)
  {
  }

  /** The cascade picks pattern `i` when it matches and no earlier pattern does. */
  lemma FirstPatternIs(attr: String, i: nat)
    requires i < |Cascade| && Search(Cascade[i], attr, 0).Some?
    requires forall k :: 0 <= k < i ==> Search(Cascade[k], attr, 0).None?
    ensures FirstPattern(attr, 0) == Some((i, Search(Cascade[i], attr, 0).value))
  {
  }

  /**
    In `k: w`, with `w` not starting with a space, a bare-key pattern starting
    inside `k` reads the rest of `k` as its key and then its value at `w`.
   */
  lemma BareKeyMatch(p: Pattern, k: String, w: String, j: nat)
    requires p.key == BareKey && p.sep == Colon
    requires ValidKey(k) && (w == [] || !IsSpace(w[0])) && j < |k|
    ensures var s := k + ": " + w;
      MatchAt(p, s, j) ==
        if !KeyHead(k[j]) then None
        else match ValueAt(s, |k| + 2, p.value)
          case None => None
          case Some((v, e)) => Some(Capture(k[j..], v, e))
  {
    var s := k + ": " + w;
    assert s[|k|] == ':' && s[|k| + 1] == ' ';
    assert |k| + 2 < |s| ==> s[|k| + 2] == w[0];
    RunEndOf(s, |k| + 1, |k| + 2, Space);
    assert SeparatorEnd(s, |k|, Colon) == Some(|k| + 2);
    RunEndOf(s, j + 1, |k|, KeyTail);
    assert s[j..|k|] == k[j..];
  }

  /**
    In `k: w`, where `w` has no `:` and does not start with a space, a bare-key
    pattern matches at the start or nowhere, according to its value at `w`.
   */
  lemma BareKeySearch(p: Pattern, k: String, w: String)
    requires p.key == BareKey && p.sep == Colon
    requires ValidKey(k) && ':' !in w && (w == [] || !IsSpace(w[0]))
    ensures var s := k + ": " + w;
      Search(p, s, 0) ==
        match ValueAt(s, |k| + 2, p.value)
        case None => None
        case Some((v, e)) => Some(Found(0, Capture(k, v, e)))
  {
    var s := k + ": " + w;
    forall j | 0 <= j <= |s|
      ensures j < |k| ==> (MatchAt(p, s, j) ==
        if !KeyHead(k[j]) then None
        else match ValueAt(s, |k| + 2, p.value)
          case None => None
          case Some((v, e)) => Some(Capture(k[j..], v, e)))
      ensures |k| <= j ==> MatchAt(p, s, j).None?
    {
      if j < |k| {
        BareKeyMatch(p, k, w, j);
      } else {
        assert forall m :: j < m < |s| ==> s[m] == (" " + w)[m - |k| - 1];
        NoColonNoMatch(p, s, j);
      }
    }
    assert k[0..] == k;
  }

  /** A bare-key pattern whose value does not start at `w` does not match `k: w` at all. */
  lemma BareKeyNoValue(p: Pattern, k: String, w: String)
    requires p.key == BareKey && p.sep == Colon
    requires ValidKey(k) && ':' !in w && (w == [] || !IsSpace(w[0]))
    requires ValueAt(k + ": " + w, |k| + 2, p.value).None?
    ensures Search(p, k + ": " + w, 0).None?
  {
    BareKeySearch(p, k, w);
  }

  /** The text after `k: ` is `w`. */
  lemma AfterKey(k: String, w: String)
    ensures (k + ": " + w)[|k| + 2..] == w
    ensures w != [] ==> (k + ": " + w)[|k| + 2] == w[0]
  {
  }

  /** A value that starts with a character other than a quote is not a quoted string. */
  lemma NotQuotedValue(s: String, j: nat)
    requires j < |s| && !IsQuote(s[j])
    ensures ValueAt(s, j, QuotedString).None?
  {
  }

  /** A value that spells neither `true` nor `false` at its start is not a boolean. */
  lemma NotBooleanValue(s: String, j: nat)
    requires j <= |s| && !StartsWith(s[j..], "true") && !StartsWith(s[j..], "false")
    ensures ValueAt(s, j, Boolean).None?
  {
  }

  /** A value that starts with a digit is not bare-key code. */
  lemma NotCodeValue(s: String, j: nat)
    requires j < |s| && !BareCodeHead(s[j])
    ensures ValueAt(s, j, BareCode).None?
  {
  }

  /** A pattern found in the fragment renders what it captured. */
  lemma TryFound(p: Pattern, s: String, f: Found)
    requires Search(p, s, 0) == Some(f)
    ensures Try(p, s) == Some(Render(p, f.capture))
  {
  }

  /** A match assembled from its key, its separator and its value. */
  lemma MatchAtParts(p: Pattern, s: String, j: nat, kEnd: nat, vStart: nat, c: Capture)
    requires j <= |s|
    requires KeyAt(s, j, p.key) == Some((c.key, kEnd))
    requires SeparatorEnd(s, kEnd, p.sep) == Some(vStart)
    requires ValueAt(s, vStart, p.value) == Some((c.value, c.end))
    ensures MatchAt(p, s, j) == Some(c)
  {
  }

  /** In `k: w`, where `w` has no `:`, no quoted-key pattern matches. */
  lemma QuotedKeySearchFails(p: Pattern, k: String, w: String)
    requires p.key == QuotedKey && p.sep == Colon
    requires ValidKey(k) && ':' !in w
    ensures Search(p, k + ": " + w, 0).None?
  {
    var s := k + ": " + w;
    forall j | 0 <= j <= |s|
      ensures MatchAt(p, s, j).None?
    {
      if j > |k| {
        NoColonNoMatch(p, s, j);
      }
    }
  }

  /** In `k: w`, where `w` has no `:`, neither hash-rocket pattern matches. */
  lemma OldFormatSearchFails(p: Pattern, k: String, w: String)
    requires p.key == SymbolKey
    requires ValidKey(k) && ':' !in w
    ensures Search(p, k + ": " + w, 0).None?
  {
    NoSymbolNoOldFormat(p, k + ": " + w);
  }

  /** In `k: w`, with no `:` and no `{` in `w`, the cascade reaches the bare-key patterns. */
  lemma BareKeyCascade(k: String, w: String)
    requires ValidKey(k) && ':' !in w && '{' !in w
    ensures NestedHashOf(k + ": " + w).None?
    ensures Search(OldFormatString, k + ": " + w, 0).None? && Search(OldFormatNumeric, k + ": " + w, 0).None?
    ensures Search(NewFormatQuoted, k + ": " + w, 0).None? && Search(NewFormatBoolean, k + ": " + w, 0).None?
    ensures Search(NewFormatCode, k + ": " + w, 0).None?
  {
    NoBraceNoNested(k + ": " + w);
    OldFormatSearchFails(OldFormatString, k, w);
    OldFormatSearchFails(OldFormatNumeric, k, w);
    QuotedKeySearchFails(NewFormatQuoted, k, w);
    QuotedKeySearchFails(NewFormatBoolean, k, w);
    QuotedKeySearchFails(NewFormatCode, k, w);
  }

  /**
    Apart from the nested form, a fragment is rendered by the first pattern of
    `Cascade` that matches it anywhere.
   */
  lemma CascadeOrder(attr: String)
    requires attr != [] && NestedHashOf(attr).None?
    ensures ProcessAttribute(attr) ==
      match FirstPattern(attr, 0)
      case None => None
      case Some((i, f)) => Some(Render(Cascade[i], f.capture))
  {
    CascadeFrom(attr, 0);
  }

  /** The chain from pattern `i` on renders by the first pattern from `i` on that matches. */
  lemma {:induction false} CascadeFrom(attr: String, i: nat)
    requires i <= |Cascade|
    ensures TryFrom(attr, i) ==
      match FirstPattern(attr, i)
      case None => None
      case Some((j, f)) => Some(Render(Cascade[j], f.capture))
    decreases |Cascade| - i
  {
    if i < |Cascade| && Search(Cascade[i], attr, 0).None? {
      CascadeFrom(attr, i + 1);
    }
  }

  /** The patterns of the chain, by position. */
  lemma CascadeIs()
    ensures Cascade[0] == OldFormatString && Cascade[1] == OldFormatNumeric && Cascade[2] == NewFormatQuoted
    ensures Cascade[3] == NewFormatBoolean && Cascade[4] == NewFormatCode && Cascade[5] == SymbolQuoted
    ensures Cascade[6] == SymbolBoolean && Cascade[7] == SymbolCode && Cascade[8] == SymbolNumeric
  {
  }

  /** A pattern that does not match passes the fragment on to the next one of the chain. */
  lemma TryFromSkips(attr: String, i: nat)
    requires i < |Cascade| && Search(Cascade[i], attr, 0).None?
    ensures TryFrom(attr, i) == TryFrom(attr, i + 1)
  {
  }

  /** In `k: w`, with no `:` and no `{` in `w`, the first five patterns fail and the bare-key ones decide. */
  lemma BareKeyProcess(k: String, w: String)
    requires ValidKey(k) && ':' !in w && '{' !in w
    ensures ProcessAttribute(k + ": " + w) ==
      if Try(SymbolQuoted, k + ": " + w).Some? then Try(SymbolQuoted, k + ": " + w)
      else if Try(SymbolBoolean, k + ": " + w).Some? then Try(SymbolBoolean, k + ": " + w)
      else if Try(SymbolCode, k + ": " + w).Some? then Try(SymbolCode, k + ": " + w)
      else Try(SymbolNumeric, k + ": " + w)
  {
    var s := k + ": " + w;
    CascadeIs();
    BareKeyCascade(k, w);
    TryFromSkips(s, 0);
    TryFromSkips(s, 1);
    TryFromSkips(s, 2);
    TryFromSkips(s, 3);
    TryFromSkips(s, 4);
    BareKeyChain(s);
  }

  /** The last four links of the chain. */
  lemma BareKeyChain(s: String)
    ensures TryFrom(s, 5) ==
      if Try(SymbolQuoted, s).Some? then Try(SymbolQuoted, s)
      else if Try(SymbolBoolean, s).Some? then Try(SymbolBoolean, s)
      else if Try(SymbolCode, s).Some? then Try(SymbolCode, s)
      else Try(SymbolNumeric, s)
  {
    CascadeIs();
    assert TryFrom(s, 8) == Try(SymbolNumeric, s);
    assert TryFrom(s, 7) == if Try(SymbolCode, s).Some? then Try(SymbolCode, s) else TryFrom(s, 8);
    assert TryFrom(s, 6) == if Try(SymbolBoolean, s).Some? then Try(SymbolBoolean, s) else TryFrom(s, 7);
  }

  /** A quoted value ends at the first repetition of its opening quote. */
  lemma QuotedValueAt(s: String, j: nat, e: nat)
    requires j < e < |s| && IsQuote(s[j]) && s[e] == s[j]
    requires forall m :: j < m < e ==> s[m] != s[j]
    ensures ValueAt(s, j, QuotedString) == Some((s[j + 1..e], e + 1))
  {
  }

  /** A pattern that matches at the start is found there. */
  lemma SearchAtStart(p: Pattern, s: String)
    requires MatchAt(p, s, 0).Some?
    ensures Search(p, s, 0) == Some(Found(0, MatchAt(p, s, 0).value))
  {
  }

  /** The value of `k: 'v'`, whatever follows it. */
  lemma SymbolQuotedValue(k: String, q: char, v: String, rest: String)
    requires IsQuote(q) && forall i :: 0 <= i < |v| ==> !IsQuote(v[i])
    ensures var s := k + ": " + [q] + v + [q] + rest;
      ValueAt(s, |k| + 2, QuotedString) == Some((v, |k| + |v| + 4))
  {
    var s := k + ": " + [q] + v + [q] + rest;
    var e := |k| + 3 + |v|;
    assert s[|k| + 2] == q && s[e] == q;
    assert forall m :: |k| + 2 < m < e ==> s[m] == v[m - |k| - 3];
    QuotedValueAt(s, |k| + 2, e);
    assert s[|k| + 3..e] == v;
  }

  /** The match of `k: 'v'`, whatever follows the value. */
  lemma SymbolQuotedMatch(k: String, q: char, v: String, rest: String)
    requires ValidKey(k) && IsQuote(q) && forall i :: 0 <= i < |v| ==> !IsQuote(v[i])
    ensures var s := k + ": " + [q] + v + [q] + rest;
      Search(SymbolQuoted, s, 0) == Some(Found(0, Capture(k, v, |k| + |v| + 4)))
  {
    var w := [q] + v + [q] + rest;
    var s := k + ": " + w;
    assert s == k + ": " + [q] + v + [q] + rest;
    SymbolQuotedValue(k, q, v, rest);
    BareKeyMatch(SymbolQuoted, k, w, 0);
    assert k[0..] == k;
    SearchAtStart(SymbolQuoted, s);
  }

  /** `k: 'v'` renders as ` k="v"` with the key normalized. */
  lemma SymbolQuotedRendering(k: String, q: char, v: String)
    requires ValidKey(k) && IsQuote(q) && Plain(v)
    ensures ProcessAttribute(k + ": " + [q] + v + [q]) == Some(" " + NormalizeKey(k) + "=\"" + v + "\"")
  {
    var w := [q] + v + [q];
    assert k + ": " + [q] + v + [q] == k + ": " + w;
    BareKeyProcess(k, w);
    SymbolQuotedTry(k, q, v);
  }

  lemma SymbolQuotedTry(k: String, q: char, v: String)
    requires ValidKey(k) && IsQuote(q) && Plain(v)
    ensures Try(SymbolQuoted, k + ": " + [q] + v + [q]) == Some(" " + NormalizeKey(k) + "=\"" + v + "\"")
  {
    var s := k + ": " + [q] + v + [q];
    assert s + [] == s;
    SymbolQuotedMatch(k, q, v, []);
    TryFound(SymbolQuoted, s, Found(0, Capture(k, v, |k| + |v| + 4)));
  }

  /** `k: true` renders as the bare key and `k: false` as nothing; the key is not normalized. */
  lemma SymbolBooleanRendering(k: String)
    requires ValidKey(k)
    ensures ProcessAttribute(k + ": true") == Some(" " + k)
    ensures ProcessAttribute(k + ": false") == Some("")
  {
    SymbolBooleanCase(k, "true");
    assert k + ": " + "true" == k + ": true";
    SymbolBooleanCase(k, "false");
    assert k + ": " + "false" == k + ": false";
  }

  lemma SymbolBooleanCase(k: String, b: String)
    requires ValidKey(k) && (b == "true" || b == "false")
    ensures ProcessAttribute(k + ": " + b) == Some(if b == "true" then " " + k else "")
  {
    BareKeyProcess(k, b);
    SymbolBooleanTry(k, b);
  }

  lemma SymbolBooleanTry(k: String, b: String)
    requires ValidKey(k) && (b == "true" || b == "false")
    ensures Try(SymbolQuoted, k + ": " + b).None?
    ensures Try(SymbolBoolean, k + ": " + b) == Some(if b == "true" then " " + k else "")
  {
    var s := k + ": " + b;
    AfterKey(k, b);
    NotQuotedValue(s, |k| + 2);
    BareKeyNoValue(SymbolQuoted, k, b);
    BareKeySearch(SymbolBoolean, k, b);
  }

  /** A value `bare_key` code accepts, which none of the earlier patterns takes. */
  predicate CodeValue(c: String)
  {
    |c| >= 2 && BareCodeHead(c[0]) && (forall i :: 1 <= i < |c| ==> InClass(c[i], BareCodeTail))
    && ':' !in c && !StartsWith(c, "true") && !StartsWith(c, "false")
  }

  /** `k: code` renders as ` k="<%= code %>"` with the key normalized. */
  lemma SymbolCodeRendering(k: String, c: String)
    requires ValidKey(k) && CodeValue(c)
    ensures ProcessAttribute(k + ": " + c) == Some(" " + NormalizeKey(k) + "=\"<%= " + c + " %>\"")
  {
    assert '{' !in c by {
      forall i | 0 <= i < |c| ensures c[i] != '{' {
        if i > 0 { assert InClass(c[i], BareCodeTail); }
      }
    }
    BareKeyProcess(k, c);
    SymbolCodeTry(k, c);
  }

  lemma SymbolCodeTry(k: String, c: String)
    requires ValidKey(k) && CodeValue(c)
    ensures Try(SymbolQuoted, k + ": " + c).None? && Try(SymbolBoolean, k + ": " + c).None?
    ensures Try(SymbolCode, k + ": " + c) == Some(" " + NormalizeKey(k) + "=\"<%= " + c + " %>\"")
  {
    var s := k + ": " + c;
    AfterKey(k, c);
    NotQuotedValue(s, |k| + 2);
    BareKeyNoValue(SymbolQuoted, k, c);
    NotBooleanValue(s, |k| + 2);
    BareKeyNoValue(SymbolBoolean, k, c);
    SymbolCodeMatch(k, c);
    TryFound(SymbolCode, s, Found(0, Capture(k, c, |k| + 2 + |c|)));
  }

  lemma SymbolCodeMatch(k: String, c: String)
    requires ValidKey(k) && CodeValue(c)
    ensures Search(SymbolCode, k + ": " + c, 0) == Some(Found(0, Capture(k, c, |k| + 2 + |c|)))
  {
    SymbolCodeMatchAt(k, c);
    SearchAtStart(SymbolCode, k + ": " + c);
  }

  lemma SymbolCodeMatchAt(k: String, c: String)
    requires ValidKey(k) && CodeValue(c)
    ensures MatchAt(SymbolCode, k + ": " + c, 0) == Some(Capture(k, c, |k| + 2 + |c|))
  {
    SymbolCodeValue(k, c);
    BareKeyMatch(SymbolCode, k, c, 0);
    assert k[0..] == k;
  }

  lemma SymbolCodeValue(k: String, c: String)
    requires ValidKey(k) && CodeValue(c)
    ensures ValueAt(k + ": " + c, |k| + 2, BareCode) == Some((c, |k| + 2 + |c|))
  {
    var s := k + ": " + c;
    assert forall m :: |k| + 2 <= m < |s| ==> s[m] == c[m - |k| - 2];
    RunValueAt(s, |k| + 2, BareCode);
    assert s[|k| + 2..] == c;
  }

  /** A code or numeric value that runs to the end of the text takes all of it. */
  lemma RunValueAt(s: String, j: nat, form: ValueForm)
    requires form == BareCode || form == Number
    requires j < |s|
    requires form == BareCode ==> j + 2 <= |s| && BareCodeHead(s[j]) && forall m :: j < m < |s| ==> InClass(s[m], BareCodeTail)
    requires form == Number ==> forall m :: j <= m < |s| ==> IsDigit(s[m])
    ensures ValueAt(s, j, form) == Some((s[j..], |s|))
  {
    if form == BareCode {
      RunEndOf(s, j + 1, |s|, BareCodeTail);
      assert s[j..|s|] == s[j..];
    } else {
      RunEndOf(s, j, |s|, Digit);
      assert s[j..|s|] == s[j..];
    }
  }

  /** `k: 123` renders as ` k="123"`; the key is not normalized. */
  lemma SymbolNumericRendering(k: String, d: String)
    requires ValidKey(k) && d != [] && forall i :: 0 <= i < |d| ==> IsDigit(d[i])
    ensures ProcessAttribute(k + ": " + d) == Some(" " + k + "=\"" + d + "\"")
  {
    BareKeyProcess(k, d);
    SymbolNumericTry(k, d);
  }

  lemma SymbolNumericTry(k: String, d: String)
    requires ValidKey(k) && d != [] && forall i :: 0 <= i < |d| ==> IsDigit(d[i])
    ensures Try(SymbolQuoted, k + ": " + d).None? && Try(SymbolBoolean, k + ": " + d).None?
    ensures Try(SymbolCode, k + ": " + d).None?
    ensures Try(SymbolNumeric, k + ": " + d) == Some(" " + k + "=\"" + d + "\"")
  {
    var s := k + ": " + d;
    AfterKey(k, d);
    assert IsDigit(d[0]);
    NotQuotedValue(s, |k| + 2);
    BareKeyNoValue(SymbolQuoted, k, d);
    assert !StartsWith(d, "true") && !StartsWith(d, "false");
    NotBooleanValue(s, |k| + 2);
    BareKeyNoValue(SymbolBoolean, k, d);
    NotCodeValue(s, |k| + 2);
    BareKeyNoValue(SymbolCode, k, d);
    SymbolNumericMatch(k, d);
    TryFound(SymbolNumeric, s, Found(0, Capture(k, d, |k| + 2 + |d|)));
  }

  lemma SymbolNumericMatch(k: String, d: String)
    requires ValidKey(k) && d != [] && forall i :: 0 <= i < |d| ==> IsDigit(d[i])
    ensures Search(SymbolNumeric, k + ": " + d, 0) == Some(Found(0, Capture(k, d, |k| + 2 + |d|)))
  {
    SymbolNumericMatchAt(k, d);
    SearchAtStart(SymbolNumeric, k + ": " + d);
  }

  lemma SymbolNumericMatchAt(k: String, d: String)
    requires ValidKey(k) && d != [] && forall i :: 0 <= i < |d| ==> IsDigit(d[i])
    ensures MatchAt(SymbolNumeric, k + ": " + d, 0) == Some(Capture(k, d, |k| + 2 + |d|))
  {
    SymbolNumericValue(k, d);
    BareKeyMatch(SymbolNumeric, k, d, 0);
    assert k[0..] == k;
  }

  lemma SymbolNumericValue(k: String, d: String)
    requires d != [] && forall i :: 0 <= i < |d| ==> IsDigit(d[i])
    ensures ValueAt(k + ": " + d, |k| + 2, Number) == Some((d, |k| + 2 + |d|))
  {
    var s := k + ": " + d;
    assert forall m :: |k| + 2 <= m < |s| ==> s[m] == d[m - |k| - 2];
    RunValueAt(s, |k| + 2, Number);
    assert s[|k| + 2..] == d;
  }

  /** `:k => 'v'` renders as ` k="v"`; the key is not normalized. */
  lemma OldFormatRendering(k: String, q: char, v: String)
    requires ValidSymbol(k) && IsQuote(q) && Plain(v)
    ensures ProcessAttribute(":" + k + " => " + [q] + v + [q]) == Some(" " + k + "=\"" + v + "\"")
  {
    var s := ":" + k + " => " + [q] + v + [q];
    assert '{' !in s by {
      forall i | 0 <= i < |s| ensures s[i] != '{' {
        if 1 <= i <= |k| { assert s[i] == k[i - 1]; }
        if |k| + 6 <= i < |s| - 1 { assert s[i] == v[i - |k| - 6]; }
      }
    }
    NoBraceNoNested(s);
    OldFormatMatch(k, q, v);
  }

  lemma OldFormatMatch(k: String, q: char, v: String)
    requires ValidSymbol(k) && IsQuote(q) && Plain(v)
    ensures Try(OldFormatString, ":" + k + " => " + [q] + v + [q]) == Some(" " + k + "=\"" + v + "\"")
  {
    var s := ":" + k + " => " + [q] + v + [q];
    var c := Capture(k, v, |k| + 7 + |v|);
    OldFormatKey(k, q, v);
    OldFormatSeparator(k, q, v);
    OldFormatValue(k, q, v);
    MatchAtParts(OldFormatString, s, 0, |k| + 1, |k| + 5, c);
    SearchAtStart(OldFormatString, s);
    TryFound(OldFormatString, s, Found(0, c));
  }

  lemma OldFormatKey(k: String, q: char, v: String)
    requires ValidSymbol(k) && IsQuote(q)
    ensures KeyAt(":" + k + " => " + [q] + v + [q], 0, SymbolKey) == Some((k, |k| + 1))
  {
    var s := ":" + k + " => " + [q] + v + [q];
    assert forall m :: 1 <= m < |k| + 1 ==> s[m] == k[m - 1];
    assert s[|k| + 1] == ' ';
    RunEndOf(s, 2, |k| + 1, KeyTail);
    assert s[1..|k| + 1] == k;
  }

  lemma OldFormatSeparator(k: String, q: char, v: String)
    requires IsQuote(q)
    ensures var s := ":" + k + " => " + [q] + v + [q];
      |k| + 1 <= |s| && SeparatorEnd(s, |k| + 1, Rocket) == Some(|k| + 5)
  {
    var s := ":" + k + " => " + [q] + v + [q];
    assert s[|k| + 1] == ' ' && s[|k| + 2] == '=' && s[|k| + 3] == '>' && s[|k| + 4] == ' ' && s[|k| + 5] == q;
    RunEndOf(s, |k| + 1, |k| + 2, Space);
    RunEndOf(s, |k| + 4, |k| + 5, Space);
  }

  lemma OldFormatValue(k: String, q: char, v: String)
    requires IsQuote(q) && Plain(v)
    ensures var s := ":" + k + " => " + [q] + v + [q];
      |k| + 5 <= |s| && ValueAt(s, |k| + 5, QuotedString) == Some((v, |k| + 7 + |v|))
  {
    var s := ":" + k + " => " + [q] + v + [q];
    var e := |k| + 6 + |v|;
    assert s[|k| + 5] == q && s[e] == q;
    assert forall m :: |k| + 5 < m < e ==> s[m] == v[m - |k| - 6];
    QuotedValueAt(s, |k| + 5, e);
    assert s[|k| + 6..e] == v;
  }

  /** `'k': 'v'` renders as ` k="v"` with the key normalized. */
  lemma NewFormatRendering(q: char, k: String, r: char, v: String)
    requires IsQuote(q) && ValidKey(k) && IsQuote(r) && Plain(v)
    ensures ProcessAttribute([q] + k + [q] + ": " + [r] + v + [r]) == Some(" " + NormalizeKey(k) + "=\"" + v + "\"")
  {
    var s := [q] + k + [q] + ": " + [r] + v + [r];
    assert forall i :: 1 <= i <= |k| ==> s[i] == k[i - 1];
    assert forall i :: |k| + 5 <= i < |s| - 1 ==> s[i] == v[i - |k| - 5];
    assert '{' !in s;
    NoBraceNoNested(s);
    NoSymbolNoOldFormat(OldFormatString, s);
    NoSymbolNoOldFormat(OldFormatNumeric, s);
    CascadeIs();
    TryFromSkips(s, 0);
    TryFromSkips(s, 1);
    NewFormatMatch(q, k, r, v);
  }

  lemma NewFormatMatch(q: char, k: String, r: char, v: String)
    requires IsQuote(q) && ValidKey(k) && IsQuote(r) && Plain(v)
    ensures Try(NewFormatQuoted, [q] + k + [q] + ": " + [r] + v + [r]) == Some(" " + NormalizeKey(k) + "=\"" + v + "\"")
  {
    var s := [q] + k + [q] + ": " + [r] + v + [r];
    var c := Capture(k, v, |k| + 6 + |v|);
    NewFormatKey(q, k, r, v);
    NewFormatSeparator(q, k, r, v);
    NewFormatValue(q, k, r, v);
    MatchAtParts(NewFormatQuoted, s, 0, |k| + 2, |k| + 4, c);
    SearchAtStart(NewFormatQuoted, s);
    TryFound(NewFormatQuoted, s, Found(0, c));
  }

  lemma NewFormatKey(q: char, k: String, r: char, v: String)
    requires IsQuote(q) && ValidKey(k)
    ensures KeyAt([q] + k + [q] + ": " + [r] + v + [r], 0, QuotedKey) == Some((k, |k| + 2))
  {
    var s := [q] + k + [q] + ": " + [r] + v + [r];
    assert forall m :: 1 <= m < |k| + 1 ==> s[m] == k[m - 1];
    assert s[0] == q && s[|k| + 1] == q;
    RunEndOf(s, 2, |k| + 1, KeyTail);
    assert s[1..|k| + 1] == k;
  }

  lemma NewFormatSeparator(q: char, k: String, r: char, v: String)
    requires IsQuote(r)
    ensures var s := [q] + k + [q] + ": " + [r] + v + [r];
      |k| + 2 <= |s| && SeparatorEnd(s, |k| + 2, Colon) == Some(|k| + 4)
  {
    var s := [q] + k + [q] + ": " + [r] + v + [r];
    assert s[|k| + 2] == ':' && s[|k| + 3] == ' ' && s[|k| + 4] == r;
    RunEndOf(s, |k| + 3, |k| + 4, Space);
  }

  lemma NewFormatValue(q: char, k: String, r: char, v: String)
    requires IsQuote(r) && Plain(v)
    ensures var s := [q] + k + [q] + ": " + [r] + v + [r];
      |k| + 4 <= |s| && ValueAt(s, |k| + 4, QuotedString) == Some((v, |k| + 6 + |v|))
  {
    var s := [q] + k + [q] + ": " + [r] + v + [r];
    var e := |k| + 5 + |v|;
    assert s[|k| + 4] == r && s[e] == r;
    assert forall m :: |k| + 4 < m < e ==> s[m] == v[m - |k| - 5];
    QuotedValueAt(s, |k| + 4, e);
    assert s[|k| + 5..e] == v;
  }

  /** A quoted value may hold commas: `k: 'a, b'` is one fragment. */
  lemma CommaInQuotedValue(k: String, q: char, v: String)
    requires ValidKey(k) && IsQuote(q) && forall i :: 0 <= i < |v| ==> !IsQuote(v[i])
    ensures Split(k + ": " + [q] + v + [q], ',', false, false) == [k + ": " + [q] + v + [q]]
  {
    var s := k + ": " + [q] + v + [q];
    var o := |k| + 2;
    assert forall m :: 0 <= m < |k| ==> s[m] == k[m];
    assert s[|k|] == ':' && s[|k| + 1] == ' ' && s[o] == q && s[|s| - 1] == q;
    assert forall m :: o < m < |s| - 1 ==> s[m] == v[m - o - 1];
    ScanOverInert(s, 0, 0, o, '(', ')', false);
    assert ScanTo(s, 0, o + 1, '(', ')', false) == Scan(Quoted(q), 0);
    ScanOverInert(s, 0, o + 1, |s| - 1, '(', ')', false);
    forall j | 0 <= j < |s|
      ensures !SplitsAt(s, j, ',', false, false)
    {
    }
    SplitWithoutCut(s, ',', false, false);
  }

  /** So `k: 'a, b'` is one attribute: ` k="a, b"`. */
  lemma CommaInQuotedAttribute(k: String, q: char, v: String)
    requires ValidKey(k) && IsQuote(q) && Plain(v)
    ensures Attributes(k + ": " + [q] + v + [q]) == " " + NormalizeKey(k) + "=\"" + v + "\""
  {
    var s := k + ": " + [q] + v + [q];
    CommaInQuotedValue(k, q, v);
    StripTrimmed(s);
    SingleFragment(s);
    SymbolQuotedRendering(k, q, v);
  }

  /** A text that is one trimmed fragment renders as that fragment. */
  lemma SingleFragment(s: String)
    requires s != [] && Split(s, ',', false, false) == [s] && Strip(s) == s
    ensures Attributes(s) == ProcessAttribute(s).GetOr([])
  {
    RenderingsOfOne(s);
  }

  lemma RenderingsOfOne(x: String)
    ensures Renderings([x]) == ProcessAttribute(Strip(x)).GetOr([])
  {
    assert [x][..0] == [];
  }

  /** `k: "b"` in the hash, for a key without `_`, renders as ` k="b"`. */
  lemma QuotedPairRendering(k: String, b: String)
    requires ValidKey(k) && '_' !in k && ',' !in k
    requires Plain(b) && ',' !in b
    ensures Attributes(k + ": \"" + b + "\"") == " " + k + "=\"" + b + "\""
  {
    var s := k + ": \"" + b + "\"";
    assert s == k + ": " + ['"'] + b + ['"'];
    SymbolQuotedRendering(k, '"', b);
    assert ',' !in s;
    SplitWithoutDelimiter(s, ',', false, false);
    StripTrimmed(s);
    SingleFragment(s);
  }

  /** A value for a nested entry: no quote, no backslash and no comma; braces and `#{…}` are allowed. */
  predicate NestedValue(v: String)
  {
    forall i :: 0 <= i < |v| ==> !IsQuote(v[i]) && v[i] != '\\' && v[i] != ','
  }

  /** `prefix: { e }` opens a nested hash at its start. */
  lemma NestedOpenerMatch(p: String, e: String)
    requires ValidKey(p)
    ensures Search(NestedOpener, p + ": " + "{ " + e + " }", 0) == Some(Found(0, Capture(p, [], |p| + 3)))
  {
    NestedOpenerMatchAt(p, e);
    SearchAtStart(NestedOpener, p + ": " + "{ " + e + " }");
  }

  lemma NestedOpenerMatchAt(p: String, e: String)
    requires ValidKey(p)
    ensures MatchAt(NestedOpener, p + ": " + "{ " + e + " }", 0) == Some(Capture(p, [], |p| + 3))
  {
    var w := "{ " + e + " }";
    assert p + ": " + "{ " + e + " }" == p + ": " + w;
    BareKeyMatch(NestedOpener, p, w, 0);
    assert (p + ": " + w)[|p| + 2] == '{';
    assert p[0..] == p;
  }

  /**
    A brace scan from an opening `{` over unquoted text without braces, then one
    quoted literal, then ` }`, ends at that `}`.
   */
  lemma ClosingAfterLiteral(s: String, b: nat, qo: nat, qc: nat)
    requires b < qo < qc && qc + 2 < |s|
    requires s[b] == '{' && IsQuote(s[qo]) && s[qc] == s[qo] && s[qc - 1] != '\\' && s[qc + 1] == ' ' && s[qc + 2] == '}'
    requires forall m :: b < m < qo ==> !IsQuote(s[m]) && s[m] != '{' && s[m] != '}'
    requires forall m :: qo < m < qc ==> !IsQuote(s[m])
    ensures ClosingFrom(s, b, Unquoted, 0, '{', '}', true) == Some(qc + 2)
  {
    assert ScanTo(s, b, b + 1, '{', '}', true) == Scan(Unquoted, 1);
    ScanOverInert(s, b, b + 1, qo, '{', '}', true);
    assert ScanTo(s, b, qo + 1, '{', '}', true) == Scan(Quoted(s[qo]), 1);
    ScanOverInert(s, b, qo + 1, qc, '{', '}', true);
    assert ScanTo(s, b, qc + 1, '{', '}', true) == Scan(Unquoted, 1);
    assert ScanTo(s, b, qc + 2, '{', '}', true) == Scan(Unquoted, 1);
    assert ClosesAt(s, b, qc + 2, '{', '}', true);
    forall j | b <= j < qc + 2
      ensures !ClosesAt(s, b, j, '{', '}', true)
    {
    }
    ClosingIsFirstHit(s, b, '{', '}', true);
  }

  /**
    The layout of an inner entry whose key part (key, `:` and space) has length
    `n`: unquoted text without braces, then one quoted literal not ending in a
    backslash, and no comma anywhere.
   */
  predicate EntryShaped(e: String, n: nat)
  {
    n + 2 <= |e| && IsQuote(e[n]) && e[|e| - 1] == e[n] && e[|e| - 2] != '\\'
    && (forall m :: 0 <= m < n ==> !IsQuote(e[m]) && e[m] != '{' && e[m] != '}')
    && (forall m :: n < m < |e| - 1 ==> !IsQuote(e[m]))
    && (forall m :: 0 <= m < |e| ==> e[m] != ',')
  }

  lemma EntryLayout(k: String, q: char, v: String)
    requires ValidKey(k) && IsQuote(q) && NestedValue(v)
    ensures EntryShaped(k + ": " + [q] + v + [q], |k| + 2)
    ensures (k + ": " + [q] + v + [q])[0] == k[0] && ',' !in k + ": " + [q] + v + [q]
  {
    var e := k + ": " + [q] + v + [q];
    assert forall m :: 0 <= m < |k| ==> e[m] == k[m];
    assert forall m :: |k| + 2 < m < |e| - 1 ==> e[m] == v[m - |k| - 3];
  }

  /** The layout of `prefix: { inner }`. */
  lemma WrappedLayout(p: String, inner: String)
    ensures var s := p + ": " + "{ " + inner + " }";
      |s| == |p| + |inner| + 6 && s[|p| + 2] == '{' && s[|p| + 3] == ' ' && s[|s| - 2] == ' ' && s[|s| - 1] == '}'
      && (forall m :: 0 <= m < |inner| ==> s[|p| + 4 + m] == inner[m])
      && s[|p| + 3..|s| - 1] == " " + inner + " "
  {
  }

  /** In `prefix: { e }`, with `e` an entry, the brace scan from the `{` ends at the final `}`. */
  lemma WrappedClosing(p: String, e: String, n: nat)
    requires EntryShaped(e, n)
    ensures var s := p + ": " + "{ " + e + " }";
      ClosingFrom(s, |p| + 2, Unquoted, 0, '{', '}', true) == Some(|s| - 1)
  {
    var s := p + ": " + "{ " + e + " }";
    var b := |p| + 2;
    WrappedKeyPart(p, e, n);
    WrappedLiteral(p, e, n);
    WrappedEnds(p, e, n);
    ClosingAfterLiteral(s, b, b + 2 + n, b + 1 + |e|);
  }

  lemma WrappedKeyPart(p: String, e: String, n: nat)
    requires EntryShaped(e, n)
    ensures var s := p + ": " + "{ " + e + " }";
      forall m :: |p| + 2 < m < |p| + 4 + n ==> !IsQuote(s[m]) && s[m] != '{' && s[m] != '}'
  {
    var s := p + ": " + "{ " + e + " }";
    var b := |p| + 2;
    forall m | b < m < b + 2 + n
      ensures !IsQuote(s[m]) && s[m] != '{' && s[m] != '}'
    {
      if m == b + 1 {
        WrappedSpace(p, e);
      } else {
        WrappedChar(p, e, m - b - 2);
      }
    }
  }

  /** The space after the `{` of `prefix: { e }`. */
  lemma WrappedSpace(p: String, e: String)
    ensures (p + ": " + "{ " + e + " }")[|p| + 3] == ' '
  {
  }

  /** Character `m` of `e` inside `prefix: { e }`. */
  lemma WrappedChar(p: String, e: String, m: nat)
    requires m < |e|
    ensures (p + ": " + "{ " + e + " }")[|p| + 4 + m] == e[m]
  {
  }

  lemma WrappedLiteral(p: String, e: String, n: nat)
    requires EntryShaped(e, n)
    ensures var s := p + ": " + "{ " + e + " }";
      forall m :: |p| + 4 + n < m < |p| + 3 + |e| ==> !IsQuote(s[m])
  {
    var s := p + ": " + "{ " + e + " }";
    var b := |p| + 2;
    forall m | b + 2 + n < m < b + 1 + |e|
      ensures !IsQuote(s[m])
    {
      WrappedChar(p, e, m - b - 2);
    }
  }

  lemma WrappedEnds(p: String, e: String, n: nat)
    requires EntryShaped(e, n)
    ensures var s := p + ": " + "{ " + e + " }"; var b := |p| + 2;
      |s| == b + |e| + 4 && s[b] == '{' && IsQuote(s[b + 2 + n]) && s[b + 1 + |e|] == s[b + 2 + n]
      && s[b + |e|] != '\\' && s[b + 2 + |e|] == ' ' && s[b + 3 + |e|] == '}'
  {
    var s := p + ": " + "{ " + e + " }";
    WrappedLayout(p, e);
    var b := |p| + 2;
    assert s[b + 2 + n] == e[n];
    assert s[b + 1 + |e|] == e[|e| - 1];
    assert s[b + |e|] == e[|e| - 2];
  }

  /** In `prefix: { k: 'v' }` the brace scan from the `{` ends at the final `}`; braces inside the value do not count. */
  lemma NestedClosing(p: String, k: String, q: char, v: String)
    requires ValidKey(p) && ValidKey(k) && IsQuote(q) && NestedValue(v)
    ensures var s := p + ": " + "{ " + (k + ": " + [q] + v + [q]) + " }";
      ClosingFrom(s, |p| + 2, Unquoted, 0, '{', '}', true) == Some(|s| - 1)
  {
    EntryLayout(k, q, v);
    WrappedClosing(p, k + ": " + [q] + v + [q], |k| + 2);
  }

  /** `prefix: { e }` is a nested hash with key `prefix` and inner text `e`. */
  lemma WrappedNested(p: String, e: String, n: nat)
    requires ValidKey(p) && EntryShaped(e, n) && !IsSpace(e[0])
    ensures NestedHashOf(p + ": " + "{ " + e + " }") == Some(NestedHash(p, e))
  {
    var s := p + ": " + "{ " + e + " }";
    var b, c := |p| + 2, |s| - 1;
    NestedOpenerMatch(p, e);
    WrappedClosing(p, e, n);
    assert ClosingFrom(s, b, Unquoted, 0, '{', '}', true) == Some(c);
    WrappedInner(p, e, n);
    NestedHashFrom(s, p, b + 1, b, c, e);
  }

  /** The text between the braces of `prefix: { e }`, stripped, is `e`. */
  lemma WrappedInner(p: String, e: String, n: nat)
    requires EntryShaped(e, n) && !IsSpace(e[0])
    ensures var s := p + ": " + "{ " + e + " }";
      |p| + 3 <= |s| - 1 && Strip(s[|p| + 3..|s| - 1]) == e
  {
    WrappedLayout(p, e);
    StripOfPadded(" ", e, " ");
  }

  /** The nested form read off its opener match and its closing brace. */
  lemma NestedHashFrom(s: String, p: String, o: nat, b: nat, c: nat, content: String)
    requires Search(NestedOpener, s, 0) == Some(Found(0, Capture(p, [], o))) && b + 1 == o
    requires ClosingFrom(s, b, Unquoted, 0, '{', '}', true) == Some(c)
    requires o <= c <= |s| && Strip(s[o..c]) == content
    ensures NestedHashOf(s) == Some(NestedHash(p, content))
  {
    OpenerEnd(s, Found(0, Capture(p, [], o)));
    NestedHashFound(s, Found(0, Capture(p, [], o)), p, b);
    NestedFromClosing(s, p, b, c, content);
  }

  /** The nested form from the `{` at `b` whose closing brace is at `c`. */
  lemma NestedFromClosing(s: String, p: String, b: nat, c: nat, content: String)
    requires b < |s| && ClosingFrom(s, b, Unquoted, 0, '{', '}', true) == Some(c)
    requires b + 1 <= c <= |s| && Strip(s[b + 1..c]) == content
    ensures NestedFrom(s, p, b) == Some(NestedHash(p, content))
  {
  }

  /**
    So `prefix: { k: 'v' }` is a nested hash with key `prefix` and inner text `k: 'v'`:
    the shape of the case at spec/haml2erb_spec.rb:420-424 (`data: { test_id: 'test' }`).
   */
  lemma NestedHashScenario(p: String, k: String, q: char, v: String)
    requires ValidKey(p) && ValidKey(k) && IsQuote(q) && NestedValue(v)
    ensures NestedHashOf(p + ": " + "{ " + (k + ": " + [q] + v + [q]) + " }") == Some(NestedHash(p, k + ": " + [q] + v + [q]))
  {
    EntryLayout(k, q, v);
    WrappedNested(p, k + ": " + [q] + v + [q], |k| + 2);
  }

  /** One entry without a comma is rendered on its own. */
  lemma OneNestedEntry(p: String, e: String)
    requires e != [] && ',' !in e
    ensures NestedAttributes(p, e) == NestedEntry(p, e)
  {
    SplitWithoutDelimiter(e, ',', false, false);
    NestedEntriesOfOne(p, e);
  }

  lemma NestedEntriesOfOne(p: String, e: String)
    ensures NestedEntries(p, [e]) == NestedEntry(p, e)
  {
    assert [e][..0] == [];
  }

  /** The inner entry `k: 'v'` of `prefix` renders as ` prefix-k="v"`, the key normalized and `#{…}` in the value rewritten. */
  lemma NestedEntryScenario(p: String, k: String, q: char, v: String)
    requires ValidKey(k) && IsQuote(q) && NestedValue(v)
    ensures NestedAttributes(p, k + ": " + [q] + v + [q]) ==
      " " + p + "-" + NormalizeKey(k) + "=\"" + RewriteInterpolation(v) + "\""
  {
    EntryLayout(k, q, v);
    OneNestedEntry(p, k + ": " + [q] + v + [q]);
    NestedEntryOf(p, k, q, v);
  }

  lemma NestedEntryOf(p: String, k: String, q: char, v: String)
    requires ValidKey(k) && IsQuote(q) && NestedValue(v)
    ensures NestedEntry(p, k + ": " + [q] + v + [q]) ==
      " " + p + "-" + NormalizeKey(k) + "=\"" + RewriteInterpolation(v) + "\""
  {
    var inner := k + ": " + [q] + v + [q];
    EntryLayout(k, q, v);
    StripTrimmed(inner);
    assert inner + [] == inner;
    SymbolQuotedMatch(k, q, v, []);
  }

  /** `prefix: { k: 'v' }` renders as ` prefix-k="v"`. */
  lemma NestedRendering(p: String, k: String, q: char, v: String)
    requires ValidKey(p) && ValidKey(k) && IsQuote(q) && NestedValue(v)
    ensures ProcessAttribute(p + ": " + "{ " + (k + ": " + [q] + v + [q]) + " }") ==
      Some(" " + p + "-" + NormalizeKey(k) + "=\"" + RewriteInterpolation(v) + "\"")
  {
    NestedHashScenario(p, k, q, v);
    NestedEntryScenario(p, k, q, v);
  }

  // ---------------------------------------------------------------------------
  // The loops of the source
  // ---------------------------------------------------------------------------

  /** `smart_split_attributes`: split on commas outside quotes; parentheses, braces and backslashes do not matter. */
  method SmartSplitAttributes(attrString: String) returns (result: seq<String>)
    ensures result == Split(attrString, ',', false, false)
    ensures attrString != [] && SplitsAt(attrString, |attrString| - 1, ',', false, false) ==> Join(result, ",") + "," == attrString
    ensures !(attrString != [] && SplitsAt(attrString, |attrString| - 1, ',', false, false)) ==> Join(result, ",") == attrString
  {
    SplitRejoins(attrString, ',', false, false);
    result := [];
    var currentAttr := "";
    var quote := Unquoted;
    var i := 0;
    while i < |attrString|
      invariant 0 <= i <= |attrString|
      invariant SplitPrefix(attrString, i, ',', false, false) == (currentAttr, result)
      invariant ScanTo(attrString, 0, i, '(', ')', false).quote == quote
    {
      var c := attrString[i];
      if quote.Unquoted? && IsQuote(c) {
        quote := Quoted(c);
        currentAttr := currentAttr + [c];
      } else if quote.Quoted? && c == quote.q {
        quote := Unquoted;
        currentAttr := currentAttr + [c];
      } else if quote.Unquoted? && c == ',' {
        result := result + [currentAttr];
        currentAttr := "";
      } else {
        currentAttr := currentAttr + [c];
      }
      i := i + 1;
    }
    if currentAttr != [] {
      result := result + [currentAttr];
    }
  }

  /** `extract_nested_hash_attribute`: the opener by pattern, then the brace scan from its `{`. */
  method ExtractNestedHashAttribute(attr: String) returns (r: Option<NestedHash>)
    ensures r == NestedHashOf(attr)
  {
    var opener := Search(NestedOpener, attr, 0);
    if opener.None? {
      return None;
    }
    OpenerEnd(attr, opener.value);
    var key := opener.value.capture.key;
    var startPos := opener.value.capture.end - 1;
    NestedHashFound(attr, opener.value, key, startPos);
    var close := ScanNestedBraces(attr, startPos);
    if close.None? {
      return None;
    }
    return Some(NestedHash(key, Strip(attr[startPos + 1..close.value])));
  }

  /**
    The loop of `extract_nested_hash_attribute` from the `{` at `startPos`: quotes
    are tracked, a quote preceded by a backslash does not close, and the index of
    the `}` that brings the count back to zero is the answer.
   */
  method ScanNestedBraces(attr: String, startPos: nat) returns (r: Option<nat>)
    requires startPos < |attr|
    ensures r == ClosingFrom(attr, startPos, Unquoted, 0, '{', '}', true)
  {
    ghost var closing := ClosingFrom(attr, startPos, Unquoted, 0, '{', '}', true);
    var braceCount := 0;
    var quote := Unquoted;
    var i := startPos;
    while i < |attr|
      invariant startPos <= i <= |attr|
      invariant i == startPos ==> braceCount == 0 && quote.Unquoted?
      invariant ClosingFrom(attr, i, quote, braceCount, '{', '}', true) == closing
    {
      var c := attr[i];
      if quote.Unquoted? {
        if IsQuote(c) {
          quote := Quoted(c);
        } else if c == '{' {
          braceCount := braceCount + 1;
        } else if c == '}' {
          braceCount := braceCount - 1;
          if braceCount == 0 {
            return Some(i);
          }
        }
      } else if c == quote.q && (i == 0 || attr[i - 1] != '\\') {
        quote := Unquoted;
      }
      i := i + 1;
    }
    return None;
  }

  /** `parse_nested_hash`: the renderings of the inner entries, accumulated in order. */
  method ParseNestedHash(prefix: String, nestedAttrs: String) returns (r: String)
    ensures r == NestedAttributes(prefix, nestedAttrs)
  {
    var entries := SmartSplitAttributes(nestedAttrs);
    r := [];
    var i := 0;
    while i < |entries|
      invariant 0 <= i <= |entries|
      invariant r == NestedEntries(prefix, entries[..i])
    {
      NestedEntriesNext(prefix, entries, i);
      r := r + NestedEntry(prefix, entries[i]);
      i := i + 1;
    }
    assert entries[..|entries|] == entries;
  }

  /** `parse`: the renderings of the fragments, accumulated in order. */
  method Parse(attrString: String) returns (r: String)
    ensures r == Attributes(attrString)
    ensures attrString == [] ==> r == []
  {
    if attrString == [] {
      return [];
    }
    var fragments := SmartSplitAttributes(attrString);
    r := [];
    var i := 0;
    while i < |fragments|
      invariant 0 <= i <= |fragments|
      invariant r == Renderings(fragments[..i])
    {
      RenderingsNext(fragments, i);
      var processed := ProcessAttribute(Strip(fragments[i]));
      if processed.Some? {
        r := r + processed.value;
      }
      i := i + 1;
    }
    assert fragments[..|fragments|] == fragments;
  }
}
