/**
  `BlockStackManager`: the stack of open scopes. A line that opens a block or
  an element with children pushes a frame holding its indent and its closing
  text; a later line at the same or a shallower indent pops frames, emitting
  their closers top first.
 */
module BlockStackManager {
  import opened Wrappers
  import opened Text

  /** One open scope: the indent of the line that opened it and the text that closes it. */
  datatype Frame = Frame(indent: nat, closeTag: String)

  /** The output line that closes a frame: its closing text behind as many spaces as its indent. */
  function Closer(f: Frame): String
  {
    Spaces(f.indent) + f.closeTag + "\n"
  }

  /** The closers of `frames`, listed bottom to top, in the order popping emits them: top first. */
  function Closers(frames: seq<Frame>): (r: seq<String>)
    ensures |r| == |frames|
    ensures forall i :: 0 <= i < |r| ==> r[i] == Closer(frames[|frames| - 1 - i])
  {
    if frames == [] then [] else [Closer(frames[|frames| - 1])] + Closers(frames[..|frames| - 1])
  }

  /** Popping one more frame, from below the part already popped, appends its closer. */
  lemma ClosersStep(frames: seq<Frame>, j: nat)
    requires 0 < j <= |frames|
    ensures Closers(frames[j - 1..]) == Closers(frames[j..]) + [Closer(frames[j - 1])]
  {
    var a := Closers(frames[j - 1..]);
    var b := Closers(frames[j..]) + [Closer(frames[j - 1])];
    assert |a| == |b|;
    forall i | 0 <= i < |a| ensures a[i] == b[i] {
      if i < |a| - 1 {
        assert frames[j - 1..][|frames[j - 1..]| - 1 - i] == frames[j..][|frames[j..]| - 1 - i];
      }
    }
  }

  /**
    Whether closing for a line at `current` pops a frame opened at `top`: a
    normal line pops frames at its own indent too, an `else`/`elsif` line only
    deeper ones, so that the frame of its `if` survives.
   */
  predicate Pops(top: nat, current: nat, elseElsif: bool)
  {
    if elseElsif then current < top else current <= top
  }

  /** How many frames, counted from the bottom, survive the close for a line at `current`. */
  function Kept(stack: seq<Frame>, current: nat, elseElsif: bool): (k: nat)
    ensures k <= |stack|
    ensures k > 0 ==> !Pops(stack[k - 1].indent, current, elseElsif)
    ensures forall i :: k <= i < |stack| ==> Pops(stack[i].indent, current, elseElsif)
    decreases |stack|
  {
    if stack == [] then 0
    else if Pops(stack[|stack| - 1].indent, current, elseElsif) then Kept(stack[..|stack| - 1], current, elseElsif)
    else |stack|
  }

  /** Frame indents strictly increase from the bottom of the stack to its top. */
  predicate Increasing(stack: seq<Frame>)
  {
    forall i, j :: 0 <= i < j < |stack| ==> stack[i].indent < stack[j].indent
  }

  /**
    On a stack whose indents increase, the close removes exactly the frames it
    pops: every surviving frame is one the close would not pop.
   */
  lemma KeptByIndent(stack: seq<Frame>, current: nat, elseElsif: bool)
    requires Increasing(stack)
    ensures forall i :: 0 <= i < Kept(stack, current, elseElsif) ==> !Pops(stack[i].indent, current, elseElsif)
  {
    var k := Kept(stack, current, elseElsif);
    forall i | 0 <= i < k ensures !Pops(stack[i].indent, current, elseElsif) {
      if i < k - 1 {
        assert stack[i].indent < stack[k - 1].indent;
      }
    }
  }

  /** After a normal close the top frame is shallower than the line; after an `else`/`elsif` close it is not deeper. */
  lemma TopAfterClose(stack: seq<Frame>, current: nat, elseElsif: bool)
    ensures var k := Kept(stack, current, elseElsif);
      k > 0 ==> (if elseElsif then stack[k - 1].indent <= current else stack[k - 1].indent < current)
  {
  }

  /** Ruby's `line.strip`, then its code after the sigil, stripped. */
  function CodeAfterSigil(line: String): String
  {
    var s := Strip(line);
    if s == [] then [] else Strip(s[1..])
  }

  /** `is_else_or_elsif?`: a `-` line whose code starts with `else` or `elsif`. */
  predicate IsElseOrElsif(line: String)
  {
    StartsWith(Strip(line), "-") && (StartsWith(CodeAfterSigil(line), "else") || StartsWith(CodeAfterSigil(line), "elsif"))
  }

  /** The keywords that open a block statement. */
  const BlockKeywords: seq<String> := ["if", "unless", "case", "while", "until", "for", "begin"]

  /** Ruby code that is `kw` itself or starts with `kw` and a space. */
  predicate OpensWith(code: String, kw: String)
  {
    StartsWith(code, kw + " ") || code == kw
  }

  /** `block_keywords.any?`: some keyword of `kws` from position `i` on opens the code. */
  function AnyKeyword(code: String, kws: seq<String>, i: nat): (r: bool)
    requires i <= |kws|
    ensures r <==> exists j :: i <= j < |kws| && OpensWith(code, kws[j])
    decreases |kws| - i
  {
    if i == |kws| then false
    else OpensWith(code, kws[i]) || AnyKeyword(code, kws, i + 1)
  }

  /** `creates_block?`: a block keyword opens the code, or it calls a method with a `do` block. */
  predicate CreatesBlock(code: String)
  {
    AnyKeyword(code, BlockKeywords, 0) || Contains(code, " do ")
  }

  /**
    A keyword only counts as a whole word: `if` glued to more text (`iffy`, `if(x)`)
    opens no block, so such code creates one only through a ` do `.
   */
  lemma KeywordNeedsBoundary(rest: String)
    requires rest != [] && rest[0] != ' '
    ensures CreatesBlock("if" + rest) <==> Contains("if" + rest, " do ")
  {
    var code := "if" + rest;
    forall j | 0 <= j < |BlockKeywords| ensures !OpensWith(code, BlockKeywords[j]) {
      var kw := BlockKeywords[j];
      if j == 0 {
        assert |code| > 2;
        if StartsWith(code, kw + " ") { assert code[2] == rest[0]; }
      } else {
        assert kw[0] != 'i' && code[0] == 'i';
        if StartsWith(code, kw + " ") { assert (kw + " ")[0] == kw[0]; }
      }
    }
  }

  /** `if`, `unless` and `begin`, alone or followed by a space, open blocks. */
  lemma KeywordBlocks(rest: String)
    ensures CreatesBlock("if") && CreatesBlock("unless") && CreatesBlock("begin")
    ensures CreatesBlock("if " + rest) && CreatesBlock("while " + rest) && CreatesBlock("case " + rest)
  {
    assert OpensWith("if", BlockKeywords[0]);
    assert OpensWith("unless", BlockKeywords[1]);
    assert OpensWith("begin", BlockKeywords[6]);
    assert StartsWith("if " + rest, "if ");
    assert OpensWith("if " + rest, BlockKeywords[0]);
    assert StartsWith("while " + rest, "while ");
    assert OpensWith("while " + rest, BlockKeywords[3]);
    assert StartsWith("case " + rest, "case ");
    assert OpensWith("case " + rest, BlockKeywords[2]);
  }

  /** The tag a `%name` line closes with: the run of `[a-zA-Z0-9_-]` after the `%`, if there is one. */
  function TagOf(s: String): (r: Option<String>)
    ensures r.Some? ==> r.value != [] && 1 + |r.value| <= |s| && s[1..1 + |r.value|] == r.value
    ensures r.Some? ==> forall k :: 0 <= k < |r.value| ==> IsWordOrDash(r.value[k])
    ensures r.Some? ==> 1 + |r.value| == |s| || !IsWordOrDash(s[1 + |r.value|])
    ensures r.None? <==> |s| < 2 || s[0] != '%' || !IsWordOrDash(s[1])
  {
    if |s| >= 2 && s[0] == '%' && IsWordOrDash(s[1]) then Some(s[1..WordRunEnd(s, 1)]) else None
  }

  /** The frames `track_block_for_line` pushes for a line at `current` followed by one at `next`. */
  function Pushed(line: String, current: nat, next: nat): (r: seq<Frame>)
    ensures |r| <= 1
    ensures forall i :: 0 <= i < |r| ==> r[i].indent == current
    ensures r != [] && !(StartsWith(Strip(line), "=") && Contains(Strip(line), " do")) ==> next > current
  {
    var s := Strip(line);
    if StartsWith(s, "=") && Contains(s, " do") then [Frame(current, "<% end %>")]
    else if StartsWith(s, "-") && next > current then
      var code := Strip(s[1..]);
      if !(StartsWith(code, "else") || StartsWith(code, "elsif")) && CreatesBlock(code)
      then [Frame(current, "<% end %>")] else []
    else if StartsWith(s, "%") && next > current then
      match TagOf(s)
      case Some(tag) => [Frame(current, "</" + tag + ">")]
      case None => []
    else if StartsWith(s, ".") && next > current then [Frame(current, "</div>")]
    else if StartsWith(s, "#") && next > current then [Frame(current, "</div>")]
    else []
  }

  /** An `=` line containing ` do` pushes `<% end %>` whatever the next line's indent. */
  lemma OutputDoPushes(line: String, current: nat, next: nat)
    requires StartsWith(Strip(line), "=") && Contains(Strip(line), " do")
    ensures Pushed(line, current, next) == [Frame(current, "<% end %>")]
  {
  }

  /**
    A `-` line followed by a deeper one pushes `<% end %>` exactly when it is not
    an `else`/`elsif` and its code opens a block.
   */
  lemma CodePushes(line: String, current: nat, next: nat)
    requires StartsWith(Strip(line), "-") && next > current
    ensures Pushed(line, current, next) != [] <==>
      !(StartsWith(CodeAfterSigil(line), "else") || StartsWith(CodeAfterSigil(line), "elsif")) && CreatesBlock(CodeAfterSigil(line))
    ensures Pushed(line, current, next) != [] ==> Pushed(line, current, next) == [Frame(current, "<% end %>")]
  {
    var s := Strip(line);
    assert s[0] == '-';
  }

  /** A `%tag` line followed by a deeper one pushes the tag's closer. */
  lemma ElementPushes(line: String, current: nat, next: nat)
    requires next > current && TagOf(Strip(line)).Some?
    ensures Pushed(line, current, next) == [Frame(current, "</" + TagOf(Strip(line)).value + ">")]
  {
    var s := Strip(line);
    assert s[0] == '%';
  }

  /** A `.` or `#` line followed by a deeper one pushes `</div>`. */
  lemma ShorthandPushes(line: String, current: nat, next: nat)
    requires next > current && Strip(line) != [] && (Strip(line)[0] == '.' || Strip(line)[0] == '#')
    ensures Pushed(line, current, next) == [Frame(current, "</div>")]
  {
    var s := Strip(line);
    assert !StartsWith(s, "=") && !StartsWith(s, "-") && !StartsWith(s, "%");
  }

  /** An `else`/`elsif` line pushes nothing. */
  lemma ElseDoesNotPush(line: String, current: nat, next: nat)
    requires IsElseOrElsif(line)
    ensures Pushed(line, current, next) == []
  {
    var s := Strip(line);
    assert s[0] == '-';
  }

  /** A push onto a stack whose top is shallower than the line keeps the indents increasing. */
  lemma PushKeepsIncreasing(stack: seq<Frame>, line: String, current: nat, next: nat)
    requires Increasing(stack)
    requires stack == [] || stack[|stack| - 1].indent < current
    ensures Increasing(stack + Pushed(line, current, next))
  {
    var t := stack + Pushed(line, current, next);
    forall i, j | 0 <= i < j < |t| ensures t[i].indent < t[j].indent {
      if j >= |stack| {
        assert t[j].indent == current;
        if i < |stack| - 1 {
          assert stack[i].indent < stack[|stack| - 1].indent;
        }
      }
    }
  }

  /** The stack of open scopes, as `track_block_for_line` and the two closing methods update it. */
  class Manager {
    var stack: seq<Frame>

    constructor ()
      ensures stack == []
    {
      stack := [];
    }

    /** `empty?` */
    predicate IsEmpty()
      reads this
    {
      stack == []
    }

    /**
      `close_blocks_for_indent`: pops the frames the line at `current` closes,
      appending each one's closer to `lines` as it goes.
     */
    method CloseBlocksForIndent(current: nat, lines: seq<String>, elseElsif: bool) returns (out: seq<String>)
      modifies this
      ensures stack == old(stack)[..Kept(old(stack), current, elseElsif)]
      ensures out == lines + Closers(old(stack)[Kept(old(stack), current, elseElsif)..])
    {
      out := lines;
      while stack != [] && Pops(stack[|stack| - 1].indent, current, elseElsif)
        invariant |stack| <= |old(stack)| && stack == old(stack)[..|stack|]
        invariant Kept(stack, current, elseElsif) == Kept(old(stack), current, elseElsif)
        invariant out == lines + Closers(old(stack)[|stack|..])
        decreases |stack|
      {
        var closed := stack[|stack| - 1];
        ClosersStep(old(stack), |stack|);
        stack := stack[..|stack| - 1];
        out := out + [Closer(closed)];
      }
    }

    /** `track_block_for_line`: pushes the frame, if any, that the line opens. */
    method TrackBlockForLine(line: String, current: nat, next: nat)
      modifies this
      ensures stack == old(stack) + Pushed(line, current, next)
    {
      var s := Strip(line);
      if StartsWith(s, "=") && Contains(s, " do") {
        stack := stack + [Frame(current, "<% end %>")];
      } else if StartsWith(s, "-") && next > current {
        var code := Strip(s[1..]);
        if !(StartsWith(code, "else") || StartsWith(code, "elsif")) && CreatesBlock(code) {
          stack := stack + [Frame(current, "<% end %>")];
        }
      } else if StartsWith(s, "%") && next > current {
        var tag := TagOf(s);
        if tag.Some? {
          stack := stack + [Frame(current, "</" + tag.value + ">")];
        }
      } else if StartsWith(s, ".") && next > current {
        stack := stack + [Frame(current, "</div>")];
      } else if StartsWith(s, "#") && next > current {
        stack := stack + [Frame(current, "</div>")];
      }
    }

    /** `close_all_blocks`: empties the stack, one closer per frame, top first. */
    method CloseAllBlocks(lines: seq<String>) returns (out: seq<String>)
      modifies this
      ensures stack == []
      ensures out == lines + Closers(old(stack))
    {
      out := lines;
      while stack != []
        invariant |stack| <= |old(stack)| && stack == old(stack)[..|stack|]
        invariant out == lines + Closers(old(stack)[|stack|..])
        decreases |stack|
      {
        var closed := stack[|stack| - 1];
        ClosersStep(old(stack), |stack|);
        stack := stack[..|stack| - 1];
        out := out + [Closer(closed)];
      }
      assert old(stack)[0..] == old(stack);
    }
  }
}
