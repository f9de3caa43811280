/**
  `FilterProcessor`: the single `:ruby` filter slot. Starting the filter opens
  an ERB code tag; the lines deeper than the filter line are copied into it as
  they are; the first line that is not deeper, or the end of the document,
  closes the tag.
 */
module FilterProcessor {
  import opened Wrappers
  import opened Text

  /** The active filter: the indent of its `:ruby` line and its type. */
  datatype ActiveFilter = ActiveFilter(indent: nat, filterType: String)

  /** The line that closes the filter's code tag, at the filter's indent. */
  function FilterCloser(f: ActiveFilter): String
  {
    Spaces(f.indent) + "%>\n"
  }

  /** What `process_filter_content` does: whether the line was consumed, what it appends, and the slot after it. */
  datatype ContentStep = ContentStep(consumed: bool, emitted: seq<String>, after: Option<ActiveFilter>)

  /**
    The filter's treatment of a line at `indent`: nothing while no filter is
    active; a deeper line is filter content, copied as it is; any other line
    closes the filter and is left to the caller.
   */
  function Content(slot: Option<ActiveFilter>, line: String, indent: nat): (r: ContentStep)
    ensures slot.None? ==> r == ContentStep(false, [], None)
    ensures r.consumed ==> slot.Some? && indent > slot.value.indent && r.emitted == [line] && r.after == slot
    ensures !r.consumed ==> r.after.None?
    ensures slot.Some? && !r.consumed ==> r.emitted == [FilterCloser(slot.value)]
  {
    match slot
    case None => ContentStep(false, [], None)
    case Some(f) =>
      if indent <= f.indent then ContentStep(false, [FilterCloser(f)], None)
      else ContentStep(true, [line], slot)
  }

  /** What `close_filter` appends: the closer of the active filter, if there is one. */
  function Closing(slot: Option<ActiveFilter>): (r: seq<String>)
    ensures |r| <= 1 && (r == [] <==> slot.None?)
  {
    match slot
    case None => []
    case Some(f) => [FilterCloser(f)]
  }

  /** A filter content line keeps the filter active at the same indent, whatever the line holds. */
  lemma ContentKeepsFilter(f: ActiveFilter, line: String, indent: nat)
    requires indent > f.indent
    ensures Content(Some(f), line, indent) == ContentStep(true, [line], Some(f))
  {
  }

  /** A line at or above the filter's indent closes it with `%>` at the filter's indent. */
  lemma ShallowLineCloses(f: ActiveFilter, line: String, indent: nat)
    requires indent <= f.indent
    ensures Content(Some(f), line, indent) == ContentStep(false, [Spaces(f.indent) + "%>\n"], None)
  {
  }

  /** The filter slot: at most one filter, held in one field. */
  class Filter {
    var current: Option<ActiveFilter>

    constructor ()
      ensures current == None
    {
      current := None;
    }

    /** `active?` */
    predicate Active()
      reads this
    {
      current.Some?
    }

    /**
      `start_filter`: a `ruby` filter takes the slot at `indent` and opens a code
      tag there; any other type returns nothing and leaves the slot alone.
     */
    method StartFilter(filterType: String, indent: nat) returns (r: Option<String>)
      modifies this
      ensures filterType == "ruby" ==> current == Some(ActiveFilter(indent, "ruby")) && r == Some(Spaces(indent) + "<%\n")
      ensures filterType != "ruby" ==> current == old(current) && r == None
    {
      if filterType == "ruby" {
        current := Some(ActiveFilter(indent, "ruby"));
        r := Some(Spaces(indent) + "<%\n");
      } else {
        r := None;
      }
    }

    /** `process_filter_content`: appends to `lines` what the filter makes of the line. */
    method ProcessFilterContent(line: String, currentIndent: nat, lines: seq<String>) returns (consumed: bool, out: seq<String>)
      modifies this
      ensures var step := Content(old(current), line, currentIndent);
        consumed == step.consumed && out == lines + step.emitted && current == step.after
    {
      if current.None? {
        return false, lines;
      }
      if currentIndent <= current.value.indent {
        out := lines + [Spaces(current.value.indent) + "%>\n"];
        current := None;
        consumed := false;
      } else {
        out := lines + [line];
        consumed := true;
      }
    }

    /** `close_filter`: closes the active filter, if any; a second call appends nothing. */
    method CloseFilter(lines: seq<String>) returns (out: seq<String>)
      modifies this
      ensures current == None
      ensures out == lines + Closing(old(current))
    {
      if current.None? {
        return lines;
      }
      out := lines + [Spaces(current.value.indent) + "%>\n"];
      current := None;
    }
  }
}
