/**
  The string operations of Ruby's core library that the converter relies on
  (`strip`, `lines`, `chomp`, `split`, `include?`, `index`, `join`, `uniq`),
  on strings of characters. Whitespace is ASCII whitespace, which is what
  Ruby's `\s` and `split(" ")` use.
 */
module Text {
  import opened Wrappers

  type String = seq<char>

  /** Ruby's `\s`: space, tab, line feed, vertical tab, form feed, carriage return. */
  predicate IsSpace(c: char)
  {
    c == ' ' || c == '\t' || c == '\n' || c == '\U{B}' || c == '\U{C}' || c == '\r'
  }

  predicate IsDigit(c: char) { '0' <= c <= '9' }

  predicate IsLetter(c: char) { 'a' <= c <= 'z' || 'A' <= c <= 'Z' }

  /** `[a-zA-Z0-9_-]`, which is also `[\w-]` */
  predicate IsWordOrDash(c: char) { IsLetter(c) || IsDigit(c) || c == '_' || c == '-' }

  predicate IsQuote(c: char) { c == '"' || c == '\'' }

  predicate AllSpace(s: String)
  {
    forall i :: 0 <= i < |s| ==> IsSpace(s[i])
  }

  predicate NoSpace(s: String)
  {
    forall i :: 0 <= i < |s| ==> !IsSpace(s[i])
  }

  predicate StartsWith(s: String, p: String) { p <= s }

  predicate EndsWith(s: String, p: String)
  {
    |p| <= |s| && s[|s| - |p|..] == p
  }

  // The leading run of whitespace (what `s[/^\s*/]` gives).
  function LeadingSpace(s: String): (r: String)
    ensures r <= s && AllSpace(r)
    ensures |r| < |s| ==> !IsSpace(s[|r|])
  {
    if s == [] || !IsSpace(s[0]) then [] else [s[0]] + LeadingSpace(s[1..])
  }

  function LStrip(s: String): (r: String)
    ensures r == s[|LeadingSpace(s)|..]
    ensures r == [] || !IsSpace(r[0])
  {
    s[|LeadingSpace(s)|..]
  }

  function RStrip(s: String): (r: String)
    ensures r <= s && AllSpace(s[|r|..])
    ensures r == [] || !IsSpace(r[|r| - 1])
  {
    if s == [] || !IsSpace(s[|s| - 1]) then s
    else
      var r := RStrip(s[..|s| - 1]);
      assert s[|r|..] == s[..|s| - 1][|r|..] + [s[|s| - 1]];
      r
  }

  /** Ruby's `strip`: `s` without its leading and trailing whitespace. */
  function Strip(s: String): (r: String)
    ensures |LeadingSpace(s)| + |r| <= |s|
    ensures r == s[|LeadingSpace(s)|..|LeadingSpace(s)| + |r|]
    ensures AllSpace(s[|LeadingSpace(s)| + |r|..])
    ensures r == [] || (!IsSpace(r[0]) && !IsSpace(r[|r| - 1]))
  {
    RStrip(LStrip(s))
  }

  lemma StripBlank(s: String)
    ensures Strip(s) == [] <==> AllSpace(s)
  {
    var k := |LeadingSpace(s)|;
    var r := Strip(s);
    if AllSpace(s) {
      AllSpaceSlice(s, k, k + |r|);
    }
    if r == [] {
      assert LeadingSpace(s) + s[k..] == s;
      AllSpaceConcat(LeadingSpace(s), s[k..]);
    }
  }

  lemma AllSpaceSlice(s: String, i: nat, j: nat)
    requires i <= j <= |s| && AllSpace(s)
    ensures AllSpace(s[i..j])
  {
    forall m | 0 <= m < j - i ensures IsSpace(s[i..j][m]) {
      assert s[i..j][m] == s[i + m];
    }
  }

  lemma AllSpaceConcat(a: String, b: String)
    requires AllSpace(a) && AllSpace(b)
    ensures AllSpace(a + b)
  {
    forall m | 0 <= m < |a + b| ensures IsSpace((a + b)[m]) {
      if m < |a| { assert (a + b)[m] == a[m]; } else { assert (a + b)[m] == b[m - |a|]; }
    }
  }

  /** Stripping a string without whitespace at either end changes nothing. */
  lemma StripTrimmed(s: String)
    requires s == [] || (!IsSpace(s[0]) && !IsSpace(s[|s| - 1]))
    ensures Strip(s) == s
  {
    if s != [] {
      assert LeadingSpace(s) == [];
    }
  }

  lemma StripOfPadded(a: String, s: String, b: String)
    requires AllSpace(a) && AllSpace(b)
    requires s == [] || (!IsSpace(s[0]) && !IsSpace(s[|s| - 1]))
    ensures Strip(a + s + b) == s
  {
    var t := a + s + b;
    assert a + s + b == a + (s + b);
    if s == [] {
      StripBlank(t);
    } else {
      LeadingSpaceOfPadded(a, s + b);
      assert LStrip(t) == s + b;
      RStripOfPadded(s, b);
    }
  }

  lemma LeadingSpaceOfPadded(a: String, s: String)
    requires AllSpace(a)
    requires s == [] || !IsSpace(s[0])
    ensures LeadingSpace(a + s) == a
  {
    if a != [] {
      assert (a + s)[1..] == a[1..] + s;
      LeadingSpaceOfPadded(a[1..], s);
    }
  }

  lemma RStripOfPadded(s: String, b: String)
    requires AllSpace(b)
    requires s != [] && !IsSpace(s[|s| - 1])
    ensures RStrip(s + b) == s
  {
    if b != [] {
      assert (s + b)[..|s + b| - 1] == s + b[..|b| - 1];
      RStripOfPadded(s, b[..|b| - 1]);
    }
  }

  /** The index of the first `c` in `s` at or after `from`. */
  function IndexOfChar(s: String, c: char, from: nat): (r: Option<nat>)
    requires from <= |s|
    ensures r.Some? ==> from <= r.value < |s| && s[r.value] == c
    ensures r.Some? ==> forall k :: from <= k < r.value ==> s[k] != c
    ensures r.None? ==> forall k :: from <= k < |s| ==> s[k] != c
    decreases |s| - from
  {
    if from == |s| then None
    else if s[from] == c then Some(from)
    else IndexOfChar(s, c, from + 1)
  }

  /** Ruby's `s.index(p)`: the first position at which `p` occurs in `s`. */
  function IndexOf(s: String, p: String): (r: Option<nat>)
    ensures r.Some? ==> r.value + |p| <= |s| && s[r.value..r.value + |p|] == p && StartsWith(s[r.value..], p)
    ensures r.Some? ==> forall k :: 0 <= k < r.value ==> !StartsWith(s[k..], p)
    ensures r.None? ==> forall k :: 0 <= k <= |s| ==> !StartsWith(s[k..], p)
  {
    IndexFrom(s, p, 0)
  }

  function IndexFrom(s: String, p: String, from: nat): (r: Option<nat>)
    requires from <= |s|
    ensures r.Some? ==> from <= r.value && r.value + |p| <= |s| && s[r.value..r.value + |p|] == p
    ensures r.Some? ==> forall k :: from <= k < r.value ==> !StartsWith(s[k..], p)
    ensures r.None? ==> forall k :: from <= k <= |s| ==> !StartsWith(s[k..], p)
    decreases |s| - from
  {
    if StartsWith(s[from..], p) then Some(from)
    else if from == |s| then None
    else IndexFrom(s, p, from + 1)
  }

  /** The search from `from` stops at `i` when `p` starts there and nowhere between. */
  lemma {:induction false} IndexFromIs(s: String, p: String, from: nat, i: nat)
    requires from <= i <= |s| && StartsWith(s[i..], p)
    requires forall k :: from <= k < i ==> !StartsWith(s[k..], p)
    ensures IndexFrom(s, p, from) == Some(i)
    decreases i - from
  {
    if from < i {
      IndexFromIs(s, p, from + 1, i);
    }
  }

  /** Ruby's `s.include?(p)`. */
  predicate Contains(s: String, p: String)
  {
    IndexOf(s, p).Some?
  }

  lemma NotContainsAt(s: String, p: String, k: nat)
    requires !Contains(s, p) && k <= |s|
    ensures !StartsWith(s[k..], p)
  {
  }

  lemma NotContainsTail(s: String, p: String)
    requires !Contains(s, p) && s != []
    ensures !Contains(s[1..], p)
  {
    forall k | 0 <= k <= |s| - 1 ensures !StartsWith(s[1..][k..], p) {
      assert s[1..][k..] == s[k + 1..];
      NotContainsAt(s, p, k + 1);
    }
  }

  /** A pattern whose first character does not occur in `s` does not occur in `s`. */
  lemma MissingHead(s: String, p: String)
    requires p != [] && p[0] !in s
    ensures !Contains(s, p) && IndexOf(s, p).None?
  {
    forall k | 0 <= k <= |s| ensures !StartsWith(s[k..], p) {
      if k < |s| {
        assert s[k..][0] == s[k];
      }
    }
  }

  /** A text without `p` has no occurrence of `p`'s two characters side by side. */
  lemma NotContainsPair(s: String, p: String, k: nat)
    requires !Contains(s, p) && |p| == 2 && k + 1 < |s|
    ensures s[k] != p[0] || s[k + 1] != p[1]
  {
    NotContainsAt(s, p, k);
    assert s[k..][..2] == [s[k], s[k + 1]];
  }

  /** The first `c` at or after `from`, given where it is. */
  lemma {:induction false} IndexOfCharAt(s: String, c: char, from: nat, i: nat)
    requires from <= i < |s| && s[i] == c && forall k :: from <= k < i ==> s[k] != c
    ensures IndexOfChar(s, c, from) == Some(i)
    decreases i - from
  {
    if from < i {
      IndexOfCharAt(s, c, from + 1, i);
    }
  }

  /** An occurrence at `k` makes the text contain `p`. */
  lemma ContainsAt(s: String, p: String, k: nat)
    requires k <= |s| && StartsWith(s[k..], p)
    ensures Contains(s, p)
  {
  }

  /** Ruby's `parts.join(sep)`. */
  function Join(parts: seq<String>, sep: String): String
  {
    if |parts| == 0 then []
    else if |parts| == 1 then parts[0]
    else Join(parts[..|parts| - 1], sep) + sep + parts[|parts| - 1]
  }

  lemma JoinTwo(a: String, b: String, sep: String)
    ensures Join([a, b], sep) == a + sep + b
  {
    assert [a, b][..1] == [a];
  }

  lemma JoinAppend(parts: seq<String>, x: String, sep: String)
    requires parts != []
    ensures Join(parts + [x], sep) == Join(parts, sep) + sep + x
  {
    assert (parts + [x])[..|parts|] == parts;
  }

  /** `" " * n` */
  function Spaces(n: nat): (r: String)
    ensures |r| == n && forall i :: 0 <= i < n ==> r[i] == ' '
  {
    seq(n, _ => ' ')
  }

  /** Ruby's `chomp` without argument: drops one trailing `\r\n`, `\n` or `\r`. */
  function Chomp(s: String): (r: String)
    ensures r <= s && |s| - 2 <= |r|
  {
    if EndsWith(s, "\r\n") then s[..|s| - 2]
    else if EndsWith(s, "\n") || EndsWith(s, "\r") then s[..|s| - 1]
    else s
  }

  /** The length of the first line of `s`, its `\n` included. */
  function LineLength(s: String): (n: nat)
    requires s != []
    ensures 0 < n <= |s|
    ensures forall k :: 0 <= k < n - 1 ==> s[k] != '\n'
    ensures n < |s| ==> s[n - 1] == '\n'
  {
    var nl := IndexOfChar(s, '\n', 0);
    if nl.Some? then nl.value + 1 else |s|
  }

  /** Ruby's `String#lines`: the pieces of `s`, each ending just after a `\n` except maybe the last. */
  function Lines(s: String): (r: seq<String>)
    ensures forall i :: 0 <= i < |r| ==> r[i] != []
    decreases |s|
  {
    if s == [] then [] else [s[..LineLength(s)]] + Lines(s[LineLength(s)..])
  }

  /** Concatenating the lines gives the document back. */
  lemma {:induction false} LinesConcat(s: String)
    ensures Join(Lines(s), []) == s
    decreases |s|
  {
    if s != [] {
      var n := LineLength(s);
      LinesUnfold(s);
      LinesConcat(s[n..]);
      JoinEmptyPrepend(s[..n], Lines(s[n..]), s[n..]);
      assert s[..n] + s[n..] == s;
    }
  }

  lemma LinesUnfold(s: String)
    requires s != []
    ensures Lines(s) == [s[..LineLength(s)]] + Lines(s[LineLength(s)..])
  {
  }

  lemma JoinEmptyPrepend(x: String, parts: seq<String>, t: String)
    requires Join(parts, []) == t
    ensures Join([x] + parts, []) == x + t
  {
    JoinPrepend(x, parts, []);
    if parts != [] {
      assert x + [] + t == x + t;
    }
  }

  lemma {:induction false} JoinPrepend(x: String, parts: seq<String>, sep: String)
    ensures Join([x] + parts, sep) == if parts == [] then x else x + sep + Join(parts, sep)
    decreases |parts|
  {
    var xs := [x] + parts;
    if |parts| > 1 {
      var init := parts[..|parts| - 1];
      var last := parts[|parts| - 1];
      assert xs[..|xs| - 1] == [x] + init;
      assert xs[|xs| - 1] == last;
      JoinPrepend(x, init, sep);
      var j := Join(init, sep);
      assert Join(xs, sep) == (x + sep + j) + sep + last;
      assert Join(parts, sep) == j + sep + last;
      assert (x + sep + j) + sep + last == x + sep + (j + sep + last);
    } else if |parts| == 1 {
      assert xs == [x, parts[0]];
      assert xs[..1] == [x];
    }
  }

  /** The leading run of non-whitespace characters of `s`. */
  function Word(s: String): (r: String)
    ensures r <= s && NoSpace(r) && (|r| < |s| ==> IsSpace(s[|r|]))
  {
    if s == [] || IsSpace(s[0]) then [] else [s[0]] + Word(s[1..])
  }

  /**
    Ruby's `s.split(" ", 2)`: awk-style splitting into at most two fields. The
    leading whitespace is skipped, the first field is the next run of
    non-whitespace, and the second field is what follows the whitespace after it.
   */
  function SplitFirstWord(s: String): (r: seq<String>)
    ensures |r| <= 2
    ensures s == [] <==> r == []
  {
    var t := LStrip(s);
    if s == [] then []
    else if t == [] then [[]]
    else
      var w := Word(t);
      if |w| == |t| then [w] else [w, LStrip(t[|w|..])]
  }

  /** A single word splits into itself. */
  lemma SplitOneWord(x: String)
    requires x != [] && NoSpace(x)
    ensures SplitFirstWord(x) == [x]
  {
    assert LeadingSpace(x) == [];
    assert x + [] == x;
    WordOfPrefix(x, []);
  }

  /** A word, one space and a text that does not start with whitespace split into the word and the text. */
  lemma SplitWordAndRest(x: String, c: String)
    requires x != [] && NoSpace(x) && c != [] && !IsSpace(c[0])
    ensures SplitFirstWord(x + " " + c) == [x, c]
  {
    var s := x + " " + c;
    assert s == x + (" " + c);
    assert LeadingSpace(s) == [];
    WordOfPrefix(x, " " + c);
    assert s[|x|..] == " " + c;
    assert LeadingSpace(" " + c) == " ";
    assert (" " + c)[1..] == c;
  }

  /** Ruby's `s.split` without argument: the whitespace-separated words of `s`. */
  function Words(s: String): (r: seq<String>)
    ensures forall i :: 0 <= i < |r| ==> r[i] != [] && NoSpace(r[i])
    decreases |s|
  {
    var t := LStrip(s);
    if t == [] then []
    else
      var w := Word(t);
      [w] + Words(t[|w|..])
  }

  lemma {:induction false} WordOfPrefix(x: String, t: String)
    requires NoSpace(x) && (t == [] || IsSpace(t[0]))
    ensures Word(x + t) == x
    decreases |x|
  {
    if x != [] {
      assert (x + t)[1..] == x[1..] + t;
      WordOfPrefix(x[1..], t);
    }
  }

  lemma WordsOfWord(x: String, t: String)
    requires x != [] && NoSpace(x) && (t == [] || IsSpace(t[0]))
    ensures Words(x + t) == [x] + Words(t)
  {
    assert LeadingSpace(x + t) == [];
    WordOfPrefix(x, t);
    assert (x + t)[|x|..] == t;
  }

  lemma WordsAfterSpace(t: String)
    ensures Words(" " + t) == Words(t)
  {
    assert (" " + t)[1..] == t;
    assert LeadingSpace(" " + t) == " " + LeadingSpace(t);
    assert LStrip(" " + t) == LStrip(t);
  }

  lemma WordsOfJoinStep(x: String, j: String)
    requires x != [] && NoSpace(x)
    ensures Words(x + " " + j) == [x] + Words(j)
  {
    assert x + " " + j == x + (" " + j);
    WordsOfWord(x, " " + j);
    WordsAfterSpace(j);
  }

  /** Splitting words joined by single spaces gives the words back. */
  lemma {:induction false} WordsOfJoin(ws: seq<String>)
    requires forall i :: 0 <= i < |ws| ==> ws[i] != [] && NoSpace(ws[i])
    ensures Words(Join(ws, " ")) == ws
    decreases |ws|
  {
    if |ws| == 1 {
      assert ws[0] + [] == ws[0];
      WordsOfWord(ws[0], []);
    } else if ws != [] {
      var rest := ws[1..];
      assert ws == [ws[0]] + rest;
      JoinPrepend(ws[0], rest, " ");
      WordsOfJoin(rest);
      WordsOfJoinStep(ws[0], Join(rest, " "));
    }
  }

  /** The end of the longest run of `[\w-]` characters starting at `j`. */
  function WordRunEnd(s: String, j: nat): (e: nat)
    requires j <= |s|
    ensures j <= e <= |s|
    ensures forall k :: j <= k < e ==> IsWordOrDash(s[k])
    ensures e < |s| ==> !IsWordOrDash(s[e])
    decreases |s| - j
  {
    if j < |s| && IsWordOrDash(s[j]) then WordRunEnd(s, j + 1) else j
  }

  lemma {:induction false} WordRunEndOf(s: String, j: nat, e: nat)
    requires j <= e <= |s|
    requires forall k :: j <= k < e ==> IsWordOrDash(s[k])
    requires e < |s| ==> !IsWordOrDash(s[e])
    ensures WordRunEnd(s, j) == e
    decreases e - j
  {
    if j < e {
      WordRunEndOf(s, j + 1, e);
    }
  }

  /** `s.split(c).reject(&:empty?)`: the non-empty runs of characters other than `c`. */
  function NonEmptyFields(s: String, c: char): (r: seq<String>)
    ensures forall i :: 0 <= i < |r| ==> r[i] != [] && c !in r[i]
    decreases |s|
  {
    if s == [] then []
    else if s[0] == c then NonEmptyFields(s[1..], c)
    else
      var n := FieldLength(s, c);
      [s[..n]] + NonEmptyFields(s[n..], c)
  }

  function FieldLength(s: String, c: char): (n: nat)
    ensures n <= |s| && c !in s[..n] && (n < |s| ==> s[n] == c)
  {
    if s == [] || s[0] == c then 0 else 1 + FieldLength(s[1..], c)
  }

  /** `s.gsub(a, b)` for single characters. */
  function ReplaceChar(s: String, a: char, b: char): (r: String)
    ensures |r| == |s|
    ensures forall i :: 0 <= i < |s| ==> r[i] == (if s[i] == a then b else s[i])
  {
    seq(|s|, i requires 0 <= i < |s| => if s[i] == a then b else s[i])
  }

  /** Ruby's `uniq`: the first occurrence of each element, in order. */
  function Uniq<T(==)>(xs: seq<T>): (r: seq<T>)
  {
    UniqAfter(xs, [])
  }

  function UniqAfter<T(==)>(xs: seq<T>, seen: seq<T>): (r: seq<T>)
    decreases |xs|
  {
    if xs == [] then []
    else if xs[0] in seen then UniqAfter(xs[1..], seen)
    else [xs[0]] + UniqAfter(xs[1..], seen + [xs[0]])
  }

  predicate NoDuplicates<T(==)>(xs: seq<T>)
  {
    forall i, j :: 0 <= i < j < |xs| ==> xs[i] != xs[j]
  }

  /** `uniq` keeps every element once: the same elements, no repeats. */
  lemma {:induction false} UniqAfterSpec<T>(xs: seq<T>, seen: seq<T>)
    ensures forall x :: x in UniqAfter(xs, seen) <==> x in xs && x !in seen
    ensures NoDuplicates(UniqAfter(xs, seen))
    decreases |xs|
  {
    if xs != [] {
      UniqAfterSpec(xs[1..], seen);
      UniqAfterSpec(xs[1..], seen + [xs[0]]);
      assert xs == [xs[0]] + xs[1..];
    }
  }

  lemma UniqSpec<T>(xs: seq<T>)
    ensures forall x :: x in Uniq(xs) <==> x in xs
    ensures NoDuplicates(Uniq(xs))
  {
    UniqAfterSpec(xs, []);
  }
}
