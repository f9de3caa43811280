/**
  `Converter`: the document driver. It first merges multi-line statements
  (attribute blocks spread over several lines, and `=` lines continued by a
  trailing comma) into single logical lines; then it walks the logical lines,
  threading the block stack and the filter slot, and joins what it appended.
 */
module Converter {
  import opened Wrappers
  import opened Text
  import LineProcessor
  import opened BlockStackManager
  import opened FilterProcessor

  /** The length of the line's leading whitespace; the newline of a blank line counts too. */
  function Indent(line: String): nat
  {
    |LeadingSpace(line)|
  }

  /** The line is whitespace only. */
  predicate Blank(line: String)
    decreases |line|
  {
    line == [] || (IsSpace(line[0]) && Blank(line[1..]))
  }

  /** `Blank` is Ruby's `line.strip.empty?`. */
  lemma BlankIsStripEmpty(line: String)
    ensures Blank(line) <==> Strip(line) == []
  {
    BlankIsAllSpace(line);
    StripBlank(line);
  }

  lemma {:induction false} BlankIsAllSpace(line: String)
    ensures Blank(line) <==> AllSpace(line)
    decreases |line|
  {
    if line != [] {
      BlankIsAllSpace(line[1..]);
      if AllSpace(line) {
        assert forall k :: 0 <= k < |line| - 1 ==> line[1..][k] == line[k + 1];
      }
    }
  }

  /** A blank line's indent is its length: `"\n"` has indent 1. */
  lemma {:induction false} BlankLineIndent(line: String)
    requires Blank(line)
    ensures Indent(line) == |line|
    decreases |line|
  {
    if line != [] {
      BlankLineIndent(line[1..]);
      assert LeadingSpace(line) == [line[0]] + LeadingSpace(line[1..]);
    }
  }

  // ---------------------------------------------------------------------
  // Multi-line attribute blocks
  // ---------------------------------------------------------------------

  /**
    The stripped line opens a multi-line attribute block:
    `.class{` (a class name and nothing else) or `%tag…{`, with the brace last.
   */
  predicate OpensAttributeBlock(s: String)
  {
    3 <= |s| && s[|s| - 1] == '{' &&
    ((s[0] == '.' && (IsLetter(s[1]) || s[1] == '_' || s[1] == '-') &&
      forall k :: 2 <= k < |s| - 1 ==> IsWordOrDash(s[k]))
     || (s[0] == '%' && IsWordOrDash(s[1])))
  }

  /** A stripped attribute line with one trailing comma dropped. */
  function AttributeText(s: String): (r: String)
    ensures s != [] && s[|s| - 1] == ',' ==> r + "," == s
    ensures !(s != [] && s[|s| - 1] == ',') ==> r == s
  {
    if s != [] && s[|s| - 1] == ',' then s[..|s| - 1] else s
  }

  /** `attrs` with the attributes of a run of lines appended; blank lines and lone commas add nothing. */
  function Attrs(attrs: seq<String>, ls: seq<String>): seq<String>
    decreases |ls|
  {
    if ls == [] then attrs
    else
      var a := if Blank(ls[0]) then [] else AttributeText(Strip(ls[0]));
      Attrs(if a == [] then attrs else attrs + [a], ls[1..])
  }

  /** Lines `i..c` are all blank or attribute lines deeper than `base`, none a lone `}`. */
  predicate AttributeRun(lines: seq<String>, i: nat, c: nat, base: nat)
    requires i <= c <= |lines|
  {
    forall k :: i <= k < c ==> Blank(lines[k]) || (Strip(lines[k]) != "}" && Indent(lines[k]) > base)
  }

  /**
    The inner loop of `merge_multiline_attributes`: the attributes gathered
    and the index of the lone `}`, or None when a non-blank line that is not
    deeper than `base` comes first, or no `}` comes at all.
   */
  function AttributeLines(lines: seq<String>, i: nat, base: nat, attrs: seq<String>): (r: Option<(seq<String>, nat)>)
    requires i <= |lines|
    ensures r.Some? ==> i <= r.value.1 < |lines|
    decreases |lines| - i
  {
    if i == |lines| then None
    else if Blank(lines[i]) then AttributeLines(lines, i + 1, base, attrs)
    else
      var s := Strip(lines[i]);
      if s == "}" then Some((attrs, i))
      else if Indent(lines[i]) <= base then None
      else
        var a := AttributeText(s);
        AttributeLines(lines, i + 1, base, if a == [] then attrs else attrs + [a])
  }

  /** A found `}` ends an attribute run, and the attributes are those of the run. */
  lemma AttributeLinesFound(lines: seq<String>, i: nat, base: nat, attrs: seq<String>)
    requires i <= |lines|
    ensures var r := AttributeLines(lines, i, base, attrs);
      r.Some? ==> (Strip(lines[r.value.1]) == "}" && AttributeRun(lines, i, r.value.1, base) &&
                   r.value.0 == Attrs(attrs, lines[i..r.value.1]))
  {
    var r := AttributeLines(lines, i, base, attrs);
    if r.Some? {
      var g := r.value.0;
      var c := r.value.1;
      FoundAtBrace(lines, i, base, attrs, g, c);
      FoundRun(lines, i, base, attrs, g, c);
      FoundAttrs(lines, i, base, attrs, g, c);
    }
  }

  /** The attributes a line adds: none when it is blank or reduces to nothing. */
  function Gathered(attrs: seq<String>, line: String): seq<String>
  {
    var a := if Blank(line) then [] else AttributeText(Strip(line));
    if a == [] then attrs else attrs + [a]
  }

  /** The index found holds the lone `}`. */
  lemma {:induction false} FoundAtBrace(lines: seq<String>, i: nat, base: nat, attrs: seq<String>, g: seq<String>, c: nat)
    requires i <= |lines| && AttributeLines(lines, i, base, attrs) == Some((g, c))
    ensures Strip(lines[c]) == "}"
    decreases |lines| - i
  {
    if Strip(lines[i]) != "}" || Blank(lines[i]) {
      FoundAtBrace(lines, i + 1, base, Gathered(attrs, lines[i]), g, c);
    }
  }

  /** Every line before the found `}` is blank or a deeper attribute line. */
  lemma {:induction false} FoundRun(lines: seq<String>, i: nat, base: nat, attrs: seq<String>, g: seq<String>, c: nat)
    requires i <= |lines| && AttributeLines(lines, i, base, attrs) == Some((g, c))
    ensures AttributeRun(lines, i, c, base)
    decreases |lines| - i
  {
    if Strip(lines[i]) != "}" || Blank(lines[i]) {
      FoundRun(lines, i + 1, base, Gathered(attrs, lines[i]), g, c);
      RunExtend(lines, i, c, base);
    }
  }

  /** An attribute run extends one line back over a blank or deeper non-`}` line. */
  lemma RunExtend(lines: seq<String>, i: nat, c: nat, base: nat)
    requires i < c <= |lines| && AttributeRun(lines, i + 1, c, base)
    requires Blank(lines[i]) || (Strip(lines[i]) != "}" && Indent(lines[i]) > base)
    ensures AttributeRun(lines, i, c, base)
  {
  }

  /** The attributes gathered are those of the lines before the found `}`. */
  lemma {:induction false} FoundAttrs(lines: seq<String>, i: nat, base: nat, attrs: seq<String>, g: seq<String>, c: nat)
    requires i <= |lines| && AttributeLines(lines, i, base, attrs) == Some((g, c))
    ensures g == Attrs(attrs, lines[i..c])
    decreases |lines| - i
  {
    if Strip(lines[i]) != "}" || Blank(lines[i]) {
      FoundAttrs(lines, i + 1, base, Gathered(attrs, lines[i]), g, c);
      var t := lines[i..c];
      assert t[0] == lines[i] && t[1..] == lines[i + 1..c];
    } else {
      assert lines[i..c] == [];
    }
  }

  /** Conversely, a lone `}` ending an attribute run is found. */
  lemma {:induction false} AttributeLinesAt(lines: seq<String>, i: nat, c: nat, base: nat, attrs: seq<String>)
    requires i <= c < |lines| && Strip(lines[c]) == "}" && AttributeRun(lines, i, c, base)
    ensures AttributeLines(lines, i, base, attrs).Some?
    decreases c - i
  {
    if i == c {
      assert !Blank(lines[c]) by {
        BlankIsStripEmpty(lines[c]);
      }
    } else if Blank(lines[i]) {
      AttributeLinesAt(lines, i + 1, c, base, attrs);
    } else {
      var a := AttributeText(Strip(lines[i]));
      AttributeLinesAt(lines, i + 1, c, base, if a == [] then attrs else attrs + [a]);
    }
  }

  /**
    The content loop after the `}`: the stripped lines that share the indent
    of the first non-blank one, blank lines skipped; and where the run ends.
   */
  function ContentRun(lines: seq<String>, j: nat, baseIndent: Option<nat>, acc: seq<String>): (r: (seq<String>, nat))
    requires j <= |lines|
    ensures j <= r.1 <= |lines|
    decreases |lines| - j
  {
    if j == |lines| then (acc, j)
    else if Blank(lines[j]) then ContentRun(lines, j + 1, baseIndent, acc)
    else
      var b := if baseIndent.Some? then baseIndent.value else Indent(lines[j]);
      if Indent(lines[j]) != b then (acc, j)
      else ContentRun(lines, j + 1, Some(b), acc + [Strip(lines[j])])
  }

  /** `acc` with the non-blank lines of a run appended, stripped. */
  function NonBlank(acc: seq<String>, ls: seq<String>): seq<String>
    decreases |ls|
  {
    if ls == [] then acc else NonBlank(if Blank(ls[0]) then acc else acc + [Strip(ls[0])], ls[1..])
  }

  /** Lines `j..c` that are not blank all have indent `b`. */
  predicate SameIndent(lines: seq<String>, j: nat, c: nat, b: nat)
    requires j <= c <= |lines|
  {
    forall k :: j <= k < c && !Blank(lines[k]) ==> Indent(lines[k]) == b
  }

  /** The content is the run's non-blank lines, stripped. */
  lemma {:induction false} ContentRunText(lines: seq<String>, j: nat, baseIndent: Option<nat>, acc: seq<String>)
    requires j <= |lines|
    ensures var r := ContentRun(lines, j, baseIndent, acc);
      r.0 == NonBlank(acc, lines[j..r.1])
    decreases |lines| - j
  {
    var r := ContentRun(lines, j, baseIndent, acc);
    if j < |lines| {
      var t := lines[j..r.1];
      var b := if baseIndent.Some? then baseIndent.value else Indent(lines[j]);
      if Blank(lines[j]) {
        ContentRunText(lines, j + 1, baseIndent, acc);
        assert t[0] == lines[j] && t[1..] == lines[j + 1..r.1];
      } else if Indent(lines[j]) != b {
        assert t == [];
      } else {
        ContentRunText(lines, j + 1, Some(b), acc + [Strip(lines[j])]);
        assert t[0] == lines[j] && t[1..] == lines[j + 1..r.1];
      }
    }
  }

  /**
    Lines `j..c` are a content run at indent `b`: `b` is the given indent if
    there is one, every non-blank line of the run has it, and the run stops at
    the end or at a non-blank line with another indent.
   */
  predicate RunAt(lines: seq<String>, j: nat, c: nat, baseIndent: Option<nat>, b: nat)
    requires j <= c <= |lines|
  {
    (baseIndent.Some? ==> b == baseIndent.value) && SameIndent(lines, j, c, b) &&
    (c < |lines| ==> !Blank(lines[c]) && Indent(lines[c]) != b)
  }

  /**
    The content run shares one indent (the given one, or else the indent of
    its first non-blank line; it need not be deeper than the opener), and it
    stops at the end or at the first non-blank line with another indent.
   */
  lemma {:induction false} ContentRunIndent(lines: seq<String>, j: nat, baseIndent: Option<nat>, acc: seq<String>)
    requires j <= |lines|
    ensures exists b :: RunAt(lines, j, ContentRun(lines, j, baseIndent, acc).1, baseIndent, b)
    decreases |lines| - j
  {
    var r := ContentRun(lines, j, baseIndent, acc);
    if j == |lines| {
      assert RunAt(lines, j, r.1, baseIndent, if baseIndent.Some? then baseIndent.value else 0);
    } else {
      var b := if baseIndent.Some? then baseIndent.value else Indent(lines[j]);
      if Blank(lines[j]) {
        ContentRunIndent(lines, j + 1, baseIndent, acc);
        var b' :| RunAt(lines, j + 1, r.1, baseIndent, b');
        assert RunAt(lines, j, r.1, baseIndent, b');
      } else if Indent(lines[j]) != b {
        assert RunAt(lines, j, r.1, baseIndent, b);
      } else {
        ContentRunIndent(lines, j + 1, Some(b), acc + [Strip(lines[j])]);
        var b' :| RunAt(lines, j + 1, r.1, Some(b), b');
        assert RunAt(lines, j, r.1, baseIndent, b);
      }
    }
  }

  /** The result of merging a block: the logical line, and the index where scanning resumes. */
  datatype Merged = Merged(line: String, nextIndex: nat)

  /** The merged brace text: `indent element{ a1, a2 }`, then the content after a space, if any. */
  function BraceLine(indent: String, element: String, attrs: seq<String>, content: seq<String>): String
  {
    indent + element + "{ " + Join(attrs, ", ") + " }" + (if content == [] then [] else " " + Join(content, " "))
  }

  /** The stripped line ends with `{` after at least one character: `/^(.+?)\{\s*$/`. */
  predicate EndsWithBrace(s: String)
  {
    2 <= |s| && s[|s| - 1] == '{'
  }

  /** `merge_multiline_attributes` on the line at `start`. */
  function AttributeBlock(lines: seq<String>, start: nat): (r: Option<Merged>)
    requires start < |lines|
    ensures r.Some? ==> start + 1 < r.value.nextIndex <= |lines|
  {
    var line := lines[start];
    var s := Strip(line);
    if !EndsWithBrace(s) then None
    else
      match AttributeLines(lines, start + 1, Indent(line), [])
      case None => None
      case Some((attrs, close)) =>
        var (content, next) := ContentRun(lines, close + 1, None, []);
        Some(Merged(BraceLine(LeadingSpace(line), s[..|s| - 1], attrs, content), next))
  }

  /**
    Brace merging gives nothing exactly when no lone `}` ends a run of
    attribute lines that are all deeper than the opener.
   */
  lemma AttributeBlockNone(lines: seq<String>, start: nat)
    requires start < |lines| && EndsWithBrace(Strip(lines[start]))
    ensures AttributeBlock(lines, start).None? <==>
      !exists c :: start < c < |lines| && Strip(lines[c]) == "}" && AttributeRun(lines, start + 1, c, Indent(lines[start]))
  {
    var base := Indent(lines[start]);
    AttributeLinesFound(lines, start + 1, base, []);
    forall c | start < c < |lines| && Strip(lines[c]) == "}" && AttributeRun(lines, start + 1, c, base)
      ensures AttributeLines(lines, start + 1, base, []).Some?
    {
      AttributeLinesAt(lines, start + 1, c, base, []);
    }
  }

  /** Once the attribute loop has found its `}`, the block is the brace line and the content run after it. */
  lemma AttributeBlockAt(lines: seq<String>, start: nat, attrs: seq<String>, close: nat)
    requires start < |lines| && EndsWithBrace(Strip(lines[start]))
    requires AttributeLines(lines, start + 1, Indent(lines[start]), []) == Some((attrs, close))
    ensures var s := Strip(lines[start]);
      var run := ContentRun(lines, close + 1, None, []);
      AttributeBlock(lines, start) == Some(Merged(BraceLine(LeadingSpace(lines[start]), s[..|s| - 1], attrs, run.0), run.1))
  {
  }

  /** The attribute loop ends exactly at the `}` that ends the run, with the run's attributes. */
  lemma AttributeLinesIs(lines: seq<String>, i: nat, c: nat, base: nat, attrs: seq<String>)
    requires i <= c < |lines| && Strip(lines[c]) == "}" && AttributeRun(lines, i, c, base)
    ensures AttributeLines(lines, i, base, attrs) == Some((Attrs(attrs, lines[i..c]), c))
  {
    AttributeLinesAt(lines, i, c, base, attrs);
    AttributeLinesFound(lines, i, base, attrs);
    var r := AttributeLines(lines, i, base, attrs);
    ClosingBraceUnique(lines, i, c, r.value.1, base);
  }

  /** Two lone `}` lines cannot both end the same attribute run. */
  lemma ClosingBraceUnique(lines: seq<String>, i: nat, c: nat, d: nat, base: nat)
    requires i <= c < |lines| && i <= d < |lines|
    requires Strip(lines[c]) == "}" && AttributeRun(lines, i, c, base)
    requires Strip(lines[d]) == "}" && AttributeRun(lines, i, d, base)
    ensures c == d
  {
    BlankIsStripEmpty(lines[c]);
    BlankIsStripEmpty(lines[d]);
  }

  // ---------------------------------------------------------------------
  // Comma continuation
  // ---------------------------------------------------------------------

  /** An `=` line whose stripped text ends with a comma. */
  predicate ContinuesWithComma(line: String)
  {
    StartsWith(Strip(line), "=") && EndsWith(Strip(line), ",")
  }

  /** What an absorbed line adds: a space and its stripped text; a blank line adds nothing. */
  function Piece(line: String): String
  {
    if Blank(line) then [] else " " + Strip(line)
  }

  /** `acc` with the pieces of a run of absorbed lines appended, in order. */
  function Absorbed(acc: String, ls: seq<String>): String
    decreases |ls|
  {
    if ls == [] then acc else Absorbed(acc + Piece(ls[0]), ls[1..])
  }

  /** The inner loop of the comma continuation: the merged text and the index where it stops. */
  function Continuation(lines: seq<String>, j: nat, base: nat, acc: String): (r: (String, nat))
    requires j <= |lines|
    ensures j <= r.1 <= |lines|
    decreases |lines| - j
  {
    if j == |lines| then (acc, j)
    else if Blank(lines[j]) then Continuation(lines, j + 1, base, acc)
    else if Indent(lines[j]) <= base then (acc, j)
    else Continuation(lines, j + 1, base, acc + Piece(lines[j]))
  }

  /** One line of the continuation loop: a blank line is skipped, a line not deeper stops it, a deeper one is absorbed. */
  lemma ContinuationStep(lines: seq<String>, j: nat, base: nat, acc: String)
    requires j < |lines|
    ensures Continuation(lines, j, base, acc) ==
      if Strip(lines[j]) == [] then Continuation(lines, j + 1, base, acc)
      else if Indent(lines[j]) <= base then (acc, j)
      else Continuation(lines, j + 1, base, acc + (" " + Strip(lines[j])))
  {
    BlankIsStripEmpty(lines[j]);
  }

  /** One line of the content loop: a blank line is skipped, the first other line fixes the depth, a line at another depth stops it. */
  lemma ContentRunStep(lines: seq<String>, j: nat, b: Option<nat>, acc: seq<String>)
    requires j < |lines|
    ensures ContentRun(lines, j, b, acc) ==
      if Strip(lines[j]) == [] then ContentRun(lines, j + 1, b, acc)
      else
        var d := if b.Some? then b.value else Indent(lines[j]);
        if Indent(lines[j]) != d then (acc, j)
        else ContentRun(lines, j + 1, Some(d), acc + [Strip(lines[j])])
  {
    BlankIsStripEmpty(lines[j]);
  }

  /** One line of the attribute loop: a blank line is skipped, `}` ends the run, a line not deeper abandons it. */
  lemma AttributeLinesStep(lines: seq<String>, i: nat, base: nat, attrs: seq<String>)
    requires i < |lines|
    ensures AttributeLines(lines, i, base, attrs) ==
      if Strip(lines[i]) == [] then AttributeLines(lines, i + 1, base, attrs)
      else if Strip(lines[i]) == "}" then Some((attrs, i))
      else if Indent(lines[i]) <= base then None
      else
        var a := AttributeText(Strip(lines[i]));
        AttributeLines(lines, i + 1, base, if a == [] then attrs else attrs + [a])
  {
    BlankIsStripEmpty(lines[i]);
  }

  /** Every line the continuation absorbs is blank or deeper than the `=` line. */
  lemma ContinuationDeeper(lines: seq<String>, j: nat, base: nat, acc: String)
    requires j <= |lines|
    ensures forall k :: j <= k < Continuation(lines, j, base, acc).1 ==> Blank(lines[k]) || Indent(lines[k]) > base
  {
    forall k | j <= k < Continuation(lines, j, base, acc).1
      ensures Blank(lines[k]) || Indent(lines[k]) > base
    {
      ContinuationDeeperAt(lines, j, base, acc, k);
    }
  }

  /** The pointwise form of `ContinuationDeeper`, by induction on `j`. */
  lemma {:induction false} ContinuationDeeperAt(lines: seq<String>, j: nat, base: nat, acc: String, k: nat)
    requires j <= |lines| && j <= k < Continuation(lines, j, base, acc).1
    ensures Blank(lines[k]) || Indent(lines[k]) > base
    decreases |lines| - j
  {
    if k > j {
      if Blank(lines[j]) {
        assert Continuation(lines, j, base, acc) == Continuation(lines, j + 1, base, acc);
        ContinuationDeeperAt(lines, j + 1, base, acc, k);
      } else {
        var more := acc + Piece(lines[j]);
        assert Continuation(lines, j, base, acc) == Continuation(lines, j + 1, base, more);
        ContinuationDeeperAt(lines, j + 1, base, more, k);
      }
    }
  }

  /** The continuation stops at the end or at a non-blank line that is not deeper than the `=` line. */
  lemma {:induction false} ContinuationStops(lines: seq<String>, j: nat, base: nat, acc: String)
    requires j <= |lines|
    ensures var c := Continuation(lines, j, base, acc).1;
      c < |lines| ==> !Blank(lines[c]) && Indent(lines[c]) <= base
    decreases |lines| - j
  {
    if j < |lines| && Blank(lines[j]) {
      ContinuationStops(lines, j + 1, base, acc);
    } else if j < |lines| && Indent(lines[j]) > base {
      ContinuationStops(lines, j + 1, base, acc + Piece(lines[j]));
    }
  }

  /** The absorbed lines are joined, stripped, with single spaces; blank lines are dropped. */
  lemma {:induction false} ContinuationText(lines: seq<String>, j: nat, base: nat, acc: String)
    requires j <= |lines|
    ensures var r := Continuation(lines, j, base, acc);
      r.0 == Absorbed(acc, lines[j..r.1])
    decreases |lines| - j
  {
    var r := Continuation(lines, j, base, acc);
    if j < |lines| {
      var t := lines[j..r.1];
      if Blank(lines[j]) {
        ContinuationText(lines, j + 1, base, acc);
        assert t[0] == lines[j] && t[1..] == lines[j + 1..r.1];
        assert acc + Piece(lines[j]) == acc;
      } else if Indent(lines[j]) <= base {
        assert t == [];
      } else {
        ContinuationText(lines, j + 1, base, acc + Piece(lines[j]));
        assert t[0] == lines[j] && t[1..] == lines[j + 1..r.1];
      }
    }
  }

  // ---------------------------------------------------------------------
  // merge_multiline_statements
  // ---------------------------------------------------------------------

  /** The logical line that starts at `i`, and the index of the next one. */
  function MergeAt(lines: seq<String>, i: nat): (r: (String, nat))
    requires i < |lines|
    ensures i < r.1 <= |lines|
  {
    var line := lines[i];
    var block := if OpensAttributeBlock(Strip(line)) then AttributeBlock(lines, i) else None;
    if block.Some? then (block.value.line + "\n", block.value.nextIndex)
    else if ContinuesWithComma(line) then
      var (merged, next) := Continuation(lines, i + 1, Indent(line), Chomp(line));
      (merged + "\n", next)
    else (line, i + 1)
  }

  /** `acc` with the logical lines from index `i` on appended. */
  function LogicalLines(lines: seq<String>, i: nat, acc: seq<String>): seq<String>
    requires i <= |lines|
    decreases |lines| - i
  {
    if i == |lines| then acc else LogicalLines(lines, MergeAt(lines, i).1, acc + [MergeAt(lines, i).0])
  }

  /** A line that starts no multi-line statement. */
  predicate SingleLine(lines: seq<String>, i: nat)
    requires i < |lines|
  {
    !(OpensAttributeBlock(Strip(lines[i])) && AttributeBlock(lines, i).Some?) && !ContinuesWithComma(lines[i])
  }

  /** A line that starts no multi-line statement is its own logical line. */
  lemma MergeAtSingle(lines: seq<String>, i: nat)
    requires i < |lines| && SingleLine(lines, i)
    ensures MergeAt(lines, i) == (lines[i], i + 1)
  {
  }

  /** A brace block that merges becomes one logical line, and scanning resumes after its content. */
  lemma MergeAtBlock(lines: seq<String>, i: nat)
    requires i < |lines| && OpensAttributeBlock(Strip(lines[i])) && AttributeBlock(lines, i).Some?
    ensures MergeAt(lines, i) == (AttributeBlock(lines, i).value.line + "\n", AttributeBlock(lines, i).value.nextIndex)
  {
  }

  /** A comma-continued `=` line that opens no brace block becomes the continuation's text. */
  lemma MergeAtComma(lines: seq<String>, i: nat, merged: String, next: nat)
    requires i < |lines| && !(OpensAttributeBlock(Strip(lines[i])) && AttributeBlock(lines, i).Some?)
    requires ContinuesWithComma(lines[i])
    requires Continuation(lines, i + 1, Indent(lines[i]), Chomp(lines[i])) == (merged, next)
    ensures MergeAt(lines, i) == (merged + "\n", next)
  {
  }

  /** Without multi-line statements, merging changes nothing. */
  lemma MergedIdentity(lines: seq<String>, i: nat, acc: seq<String>)
    requires i <= |lines|
    requires forall k :: i <= k < |lines| ==> SingleLine(lines, k)
    ensures LogicalLines(lines, i, acc) == acc + lines[i..]
  {
    forall k | i <= k < |lines|
      ensures MergeAt(lines, k) == (lines[k], k + 1)
    {
      MergeAtSingle(lines, k);
    }
    OwnLogicalLines(lines, i, acc);
  }

  /** When every line from `i` on is its own logical line, the logical lines are the lines. */
  lemma {:induction false} OwnLogicalLines(lines: seq<String>, i: nat, acc: seq<String>)
    requires i <= |lines|
    requires forall k :: i <= k < |lines| ==> MergeAt(lines, k) == (lines[k], k + 1)
    ensures LogicalLines(lines, i, acc) == acc + lines[i..]
    decreases |lines| - i
  {
    if i < |lines| {
      LogicalStep(lines, i, acc, lines[i], i + 1);
      OwnLogicalLines(lines, i + 1, acc + [lines[i]]);
      AppendRest(acc, lines, i);
    }
  }

  /** Appending the line at `i` and then the lines after it appends the lines from `i` on. */
  lemma AppendRest<T>(acc: seq<T>, xs: seq<T>, i: nat)
    requires i < |xs|
    ensures acc + [xs[i]] + xs[i + 1..] == acc + xs[i..]
  {
    assert xs[i..] == [xs[i]] + xs[i + 1..];
  }

  /** The logical lines from `i` on: the one that starts at `i`, then those from where it ends. */
  lemma LogicalStep(lines: seq<String>, i: nat, acc: seq<String>, line: String, next: nat)
    requires i < |lines| && MergeAt(lines, i) == (line, next)
    ensures LogicalLines(lines, i, acc) == LogicalLines(lines, next, acc + [line])
  {
  }

  /**
    A comma-continued `=` line absorbs the lines after it up to the first
    non-blank line that is not deeper; the absorbed text follows the line's
    own text, chomped, and the merged line ends with a newline.
   */
  lemma CommaMerge(lines: seq<String>, i: nat)
    requires i < |lines| && ContinuesWithComma(lines[i])
    ensures var r := MergeAt(lines, i);
      r.0 == Absorbed(Chomp(lines[i]), lines[i + 1..r.1]) + "\n" &&
      (forall k :: i < k < r.1 ==> Blank(lines[k]) || Indent(lines[k]) > Indent(lines[i])) &&
      (r.1 < |lines| ==> !Blank(lines[r.1]) && Indent(lines[r.1]) <= Indent(lines[i]))
  {
    assert !OpensAttributeBlock(Strip(lines[i]));
    var c := Continuation(lines, i + 1, Indent(lines[i]), Chomp(lines[i]));
    MergeAtComma(lines, i, c.0, c.1);
    ContinuationDeeper(lines, i + 1, Indent(lines[i]), Chomp(lines[i]));
    ContinuationStops(lines, i + 1, Indent(lines[i]), Chomp(lines[i]));
    ContinuationText(lines, i + 1, Indent(lines[i]), Chomp(lines[i]));
  }

  // ---------------------------------------------------------------------
  // The main loop
  // ---------------------------------------------------------------------

  /** The loop's state: the block stack, the filter slot and the output lines so far. */
  datatype State = State(stack: seq<Frame>, filter: Option<ActiveFilter>, out: seq<String>)

  /** The next line's indent, or 0 after the last line. */
  function NextIndent(lines: seq<String>, i: nat): nat
    requires i < |lines|
  {
    if i + 1 < |lines| then Indent(lines[i + 1]) else 0
  }

  /** What the loop appends for a processed line, and the filter slot after it. */
  function Appended(result: LineProcessor.Output, slot: Option<ActiveFilter>): (r: (seq<String>, Option<ActiveFilter>))
    ensures |r.0| <= 1
  {
    match result
    case FilterStart(filterType, n) =>
      if filterType == "ruby" then ([Spaces(n) + "<%\n"], Some(ActiveFilter(n, "ruby"))) else ([], slot)
    case Line(text) => (if text == [] then [] else [text], slot)
  }

  /** What `process_line` gives for the logical line at `i`. */
  function Processed(lines: seq<String>, i: nat): LineProcessor.Output
    requires i < |lines|
  {
    LineProcessor.Process(lines[i], NextIndent(lines, i) > Indent(lines[i]))
  }

  /** The processed output of every logical line, in order. */
  function Outputs(lines: seq<String>): (r: seq<LineProcessor.Output>)
    ensures |r| == |lines|
  {
    seq(|lines|, i requires 0 <= i < |lines| => Processed(lines, i))
  }

  /**
    The loop body on a non-blank line the filter did not take, given what
    `process_line` made of it: close, append, track.
   */
  function Render(lines: seq<String>, i: nat, st: State, result: LineProcessor.Output): State
    requires i < |lines|
  {
    var line := lines[i];
    var current := Indent(line);
    var next := NextIndent(lines, i);
    var k := Kept(st.stack, current, IsElseOrElsif(line));
    var appended := Appended(result, st.filter);
    State(st.stack[..k] + Pushed(line, current, next), appended.1, st.out + Closers(st.stack[k..]) + appended.0)
  }

  /** One pass of the loop body on the logical line at `i`. */
  function Step(lines: seq<String>, i: nat, st: State, result: LineProcessor.Output): State
    requires i < |lines|
  {
    var line := lines[i];
    var filtered := Content(st.filter, line, Indent(line));
    var afterFilter := State(st.stack, filtered.after, st.out + filtered.emitted);
    if filtered.consumed then afterFilter
    else if Blank(line) then State(st.stack, filtered.after, afterFilter.out + [line])
    else Render(lines, i, afterFilter, result)
  }

  /** The state after the first `n` logical lines, `outs` being what each was processed into. */
  function Run(lines: seq<String>, outs: seq<LineProcessor.Output>, n: nat): (st: State)
    requires n <= |lines| == |outs|
    ensures Increasing(st.stack)
  {
    if n == 0 then State([], None, [])
    else
      var i := n - 1;
      var before := Run(lines, outs, i);
      var after := Step(lines, i, before, outs[i]);
      StepKeepsIncreasing(lines, i, before, outs[i]);
      after
  }

  /** `Run` one line further. */
  lemma RunNext(lines: seq<String>, outs: seq<LineProcessor.Output>, n: nat)
    requires n < |lines| == |outs|
    ensures Run(lines, outs, n + 1) == Step(lines, n, Run(lines, outs, n), outs[n])
  {
  }

  /** After the loop: the filter closer, then the closers of the open blocks, innermost first. */
  function Finish(st: State): seq<String>
  {
    st.out + Closing(st.filter) + Closers(st.stack)
  }

  /** The whole conversion. */
  function Document(haml: String): String
  {
    var logical := LogicalLines(Lines(haml), 0, []);
    Join(Finish(Run(logical, Outputs(logical), |logical|)), [])
  }

  /** A blank line outside a filter is copied as it is and leaves the stack alone. */
  lemma BlankLineCopied(lines: seq<String>, i: nat, st: State, result: LineProcessor.Output)
    requires i < |lines| && st.filter.None? && Blank(lines[i])
    ensures Step(lines, i, st, result) == State(st.stack, None, st.out + [lines[i]])
  {
    assert st.out + [] == st.out;
  }

  /** Inside a filter, a deeper line is copied as it is, and the stack and the filter stay. */
  lemma FilterLineCopied(lines: seq<String>, i: nat, st: State, result: LineProcessor.Output)
    requires i < |lines| && st.filter.Some? && Indent(lines[i]) > st.filter.value.indent
    ensures Step(lines, i, st, result) == State(st.stack, st.filter, st.out + [lines[i]])
  {
  }

  /**
    Rendering a line emits the closers of the popped blocks first, innermost
    first, and at most one line of its own after them; the kept blocks stay.
   */
  lemma ClosersFirst(lines: seq<String>, i: nat, st: State, result: LineProcessor.Output)
    requires i < |lines|
    ensures var k := Kept(st.stack, Indent(lines[i]), IsElseOrElsif(lines[i]));
      var r := Render(lines, i, st, result);
      st.out + Closers(st.stack[k..]) <= r.out && |r.out| <= |st.out| + |st.stack| - k + 1 &&
      r.stack[..k] == st.stack[..k]
  {
  }

  /** A non-blank line outside a filter is rendered. */
  lemma StepRenders(lines: seq<String>, i: nat, st: State, result: LineProcessor.Output)
    requires i < |lines| && st.filter.None? && !Blank(lines[i])
    ensures Step(lines, i, st, result) == Render(lines, i, st, result)
  {
    assert st.out + [] == st.out;
  }

  /** The line before a blank `"\n"` line counts as having children when it is not indented. */
  lemma BlankNextLineIsChild(lines: seq<String>, i: nat)
    requires i + 1 < |lines| && lines[i + 1] == "\n" && Indent(lines[i]) == 0
    ensures NextIndent(lines, i) > Indent(lines[i])
  {
    BlankLineIndent(lines[i + 1]);
  }

  /** Rendering keeps the stack's indents strictly increasing from bottom to top. */
  lemma RenderKeepsIncreasing(lines: seq<String>, i: nat, st: State, result: LineProcessor.Output)
    requires i < |lines| && Increasing(st.stack)
    ensures Increasing(Render(lines, i, st, result).stack)
  {
    var line := lines[i];
    var current := Indent(line);
    var next := NextIndent(lines, i);
    var ee := IsElseOrElsif(line);
    var k := Kept(st.stack, current, ee);
    var kept := st.stack[..k];
    assert Increasing(kept);
    if ee {
      ElseDoesNotPush(line, current, next);
      assert kept + Pushed(line, current, next) == kept;
    } else {
      TopAfterClose(st.stack, current, ee);
      PushKeepsIncreasing(kept, line, current, next);
    }
  }

  /** One step keeps the stack's indents strictly increasing. */
  lemma StepKeepsIncreasing(lines: seq<String>, i: nat, st: State, result: LineProcessor.Output)
    requires i < |lines| && Increasing(st.stack)
    ensures Increasing(Step(lines, i, st, result).stack)
  {
    var filtered := Content(st.filter, lines[i], Indent(lines[i]));
    RenderKeepsIncreasing(lines, i, State(st.stack, filtered.after, st.out + filtered.emitted), result);
  }

  /** At the end, an open filter's closer precedes the closers of the open blocks. */
  lemma FilterClosedFirst(st: State)
    requires st.filter.Some?
    ensures Finish(st)[|st.out|] == FilterCloser(st.filter.value)
    ensures Finish(st)[|st.out| + 1..] == Closers(st.stack)
  {
  }

  /** The converter: its input, and the block stack and filter slot its loop drives. */
  class Converter {
    const hamlContent: String
    const blockStack: Manager
    const filter: Filter

    /** Between conversions no block is open and no filter is active. */
    predicate Idle()
      reads this, blockStack, filter
    {
      blockStack.stack == [] && filter.current == None
    }

    constructor (haml: String)
      ensures hamlContent == haml && Idle()
      ensures fresh(blockStack) && fresh(filter)
    {
      hamlContent := haml;
      blockStack := new Manager();
      filter := new Filter();
    }

    /** `convert`: the whole document, through the block stack and the filter slot. */
    method Convert() returns (erb: String)
      requires Idle()
      modifies blockStack, filter
      ensures erb == Document(hamlContent)
      ensures Idle()
    {
      var lines := Lines(hamlContent);
      var processed := MergeMultilineStatements(lines);
      var erbLines: seq<String> := [];
      var index := 0;
      while index < |processed|
        invariant 0 <= index <= |processed|
        invariant State(blockStack.stack, filter.current, erbLines) == Run(processed, Outputs(processed), index)
      {
        erbLines := ConvertLine(processed, index, erbLines);
        RunNext(processed, Outputs(processed), index);
        index := index + 1;
      }
      erbLines := filter.CloseFilter(erbLines);
      erbLines := blockStack.CloseAllBlocks(erbLines);
      erb := Join(erbLines, []);
    }

    /** The body of `convert`'s loop on the logical line at `index`. */
    method ConvertLine(lines: seq<String>, index: nat, erbLines: seq<String>) returns (out: seq<String>)
      requires index < |lines|
      modifies blockStack, filter
      ensures State(blockStack.stack, filter.current, out) ==
        Step(lines, index, State(old(blockStack.stack), old(filter.current), erbLines), Processed(lines, index))
    {
      var line := lines[index];
      var currentIndent := Indent(line);
      var consumed := false;
      out := erbLines;
      if filter.Active() {
        consumed, out := filter.ProcessFilterContent(line, currentIndent, out);
      } else {
        assert out + [] == out;
      }
      if consumed {
        return;
      }
      BlankIsStripEmpty(line);
      if Strip(line) == [] {
        out := out + [line];
        return;
      }
      out := RenderLine(lines, index, out);
    }

    /** The rest of the body: close blocks, process the line, start a filter or append, track. */
    method RenderLine(lines: seq<String>, index: nat, erbLines: seq<String>) returns (out: seq<String>)
      requires index < |lines|
      modifies blockStack, filter
      ensures State(blockStack.stack, filter.current, out) ==
        Render(lines, index, State(old(blockStack.stack), old(filter.current), erbLines), Processed(lines, index))
    {
      var line := lines[index];
      var currentIndent := Indent(line);
      var nextIndent := NextIndent(lines, index);
      var isElseElsif := IsElseOrElsif(line);
      out := blockStack.CloseBlocksForIndent(currentIndent, erbLines, isElseElsif);
      var result := LineProcessor.Process(line, nextIndent > currentIndent);
      out := EmitResult(result, out);
      blockStack.TrackBlockForLine(line, currentIndent, nextIndent);
    }

    /** What the loop does with `process_line`'s result: start the filter it asks for, or append a non-empty line. */
    method EmitResult(result: LineProcessor.Output, erbLines: seq<String>) returns (out: seq<String>)
      modifies filter
      ensures out == erbLines + Appended(result, old(filter.current)).0
      ensures filter.current == Appended(result, old(filter.current)).1
    {
      out := erbLines;
      match result {
        case FilterStart(filterType, n) =>
          var started := filter.StartFilter(filterType, n);
          if started.Some? {
            out := out + [started.value];
          }
        case Line(text) =>
          if text != [] {
            out := out + [text];
          }
      }
    }

    /** `merge_multiline_statements`: the logical lines of the document. */
    method MergeMultilineStatements(lines: seq<String>) returns (result: seq<String>)
      ensures result == LogicalLines(lines, 0, [])
    {
      result := [];
      var i := 0;
      while i < |lines|
        invariant 0 <= i <= |lines|
        invariant LogicalLines(lines, i, result) == LogicalLines(lines, 0, [])
        decreases |lines| - i
      {
        var line := lines[i];
        if OpensAttributeBlock(Strip(line)) {
          var block := MergeMultilineAttributes(lines, i);
          if block.Some? {
            MergeAtBlock(lines, i);
            result := result + [block.value.line + "\n"];
            i := block.value.nextIndex;
            continue;
          }
        }
        if ContinuesWithComma(line) {
          ghost var start := i;
          var mergedLine;
          mergedLine, i := AbsorbContinuation(lines, i + 1, Indent(line), Chomp(line));
          MergeAtComma(lines, start, mergedLine, i);
          result := result + [mergedLine + "\n"];
        } else {
          MergeAtSingle(lines, i);
          result := result + [line];
          i := i + 1;
        }
      }
    }

    /** The inner loop of a comma continuation: absorb the deeper lines after the `=` line. */
    method AbsorbContinuation(lines: seq<String>, j: nat, baseIndent: nat, acc: String) returns (merged: String, next: nat)
      requires j <= |lines|
      ensures (merged, next) == Continuation(lines, j, baseIndent, acc)
    {
      merged, next := acc, j;
      while next < |lines|
        invariant j <= next <= |lines|
        invariant Continuation(lines, next, baseIndent, merged) == Continuation(lines, j, baseIndent, acc)
      {
        var nextStripped := Strip(lines[next]);
        ContinuationStep(lines, next, baseIndent, merged);
        if nextStripped == [] {
          next := next + 1;
          continue;
        }
        if !(Indent(lines[next]) > baseIndent) {
          break;
        }
        merged := merged + (" " + nextStripped);
        next := next + 1;
      }
    }

    /** The content loop of `merge_multiline_attributes`: the lines after `}` at the depth of the first non-blank one. */
    method GatherContent(lines: seq<String>, from: nat) returns (contentLines: seq<String>, contentI: nat)
      requires from <= |lines|
      ensures (contentLines, contentI) == ContentRun(lines, from, None, [])
    {
      contentI := from;
      contentLines := [];
      var contentBase: Option<nat> := None;
      while contentI < |lines|
        invariant from <= contentI <= |lines|
        invariant ContentRun(lines, contentI, contentBase, contentLines) == ContentRun(lines, from, None, [])
      {
        var contentStripped := Strip(lines[contentI]);
        ContentRunStep(lines, contentI, contentBase, contentLines);
        if contentStripped == [] {
          contentI := contentI + 1;
          continue;
        }
        if contentBase.None? {
          contentBase := Some(Indent(lines[contentI]));
        }
        if Indent(lines[contentI]) != contentBase.value {
          break;
        }
        contentLines := contentLines + [contentStripped];
        contentI := contentI + 1;
      }
    }

    /** `merge_multiline_attributes`: the brace block that opens at `start`, merged into one line. */
    method MergeMultilineAttributes(lines: seq<String>, start: nat) returns (merged: Option<Merged>)
      requires start < |lines|
      ensures merged == AttributeBlock(lines, start)
    {
      var line := lines[start];
      var baseIndent := Indent(line);
      var s := Strip(line);
      if |s| < 2 || s[|s| - 1] != '{' {
        return None;
      }
      var elementPart := s[..|s| - 1];
      var attrs: seq<String> := [];
      var i := start + 1;
      while i < |lines|
        invariant start + 1 <= i <= |lines|
        invariant AttributeLines(lines, i, baseIndent, attrs) == AttributeLines(lines, start + 1, baseIndent, [])
        decreases |lines| - i
      {
        var attrStripped := Strip(lines[i]);
        AttributeLinesStep(lines, i, baseIndent, attrs);
        if attrStripped == [] {
          i := i + 1;
          continue;
        }
        if attrStripped == "}" {
          var contentLines, contentI := GatherContent(lines, i + 1);
          return Some(Merged(BraceLine(LeadingSpace(line), elementPart, attrs, contentLines), contentI));
        }
        if !(Indent(lines[i]) > baseIndent) {
          break;
        }
        var attrContent := AttributeText(attrStripped);
        if attrContent != [] {
          attrs := attrs + [attrContent];
        }
        i := i + 1;
      }
      return None;
    }
  }
}
