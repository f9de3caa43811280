# haml2erb in Dafny

A model of the haml2erb conversion engine (`lib/haml2erb/`), a single-pass,
line-oriented translator from HAML templates to ERB that works on strings
only, together with proofs of what the engine promises.

The engine reads a HAML document as lines. It first merges multi-line
statements: an `=` line ending in a comma absorbs its deeper continuation
lines, and an element whose attribute hash opens with `{` on one line and
closes with a lone `}` later becomes one line. It then walks the logical
lines. Each line is classified by its leading sigil (`!!!`, `-#`, `%`, `.`,
`#`, `=`, `-`, `&=`, `!=`, `/`, `:`, else text) and rendered as ERB. An
indentation scope stack emits the closing tags and `<% end %>` lines of the
blocks a line leaves. A single-slot `:ruby` filter copies its body between
`<%` and `%>`.

## Layout

One module per Ruby file, plus four support modules:

- `Wrappers` (`wrappers.dfy`): the `Option` of a Ruby `nil`-or-value result.
- `Text` (`text.dfy`): the Ruby string built-ins the engine relies on, such as
  `strip`, `lines`, `chomp`, `split`, `include?`, `index`, `join` and `uniq`.
- `Html` (`html.dfy`): the void-element list of the WHATWG HTML standard
  (section 13.1.2, "Elements"), plus `param` from section 8.1.2 of W3C
  HTML5. Both renderers use it.
- `RubyHash` (`ordered_hash.dfy`): Ruby's insertion-ordered `Hash` with a
  string or `true` value, as the attribute mergers use it.

The modules for the Ruby files:

- `StringUtils` (`string_utils.rb`): the `#{}` rewrite, the balanced-brace
  extraction, the quote-aware closing-delimiter search and the quote- and
  parenthesis-aware split.
- `AttributeParser` (`attribute_parser.rb`): the comma split of an attribute
  hash, the cascade of fragment patterns, and the nested `data: {…}` form.
- `AttributeMerger` (`attribute_merger.rb`): merging two HTML attribute
  strings through ordered hashes. Classes are de-duplicated and styles joined.
- `TagParser` (`tag_parser.rb`): the mutable `TagInfo` record and the parser
  of `%tag.class#id{…} content` lines.
- `TagBuilder` (`tag_builder.rb`): rendering a `TagInfo` as HTML.
- `ElementConverter` (`element_converter.rb`): the `%`, `.` and `#` line
  renderers the conversion path uses.
- `LineProcessor` (`line_processor.rb`): the sigil dispatch and the ERB
  wrappers. Its result is a line of text or a filter-start record.
- `BlockStackManager` (`block_stack_manager.rb`): the scope stack, as the
  class `Manager`.
- `FilterProcessor` (`filter_processor.rb`): the `:ruby` filter, as the class
  `Filter`.
- `Converter` (`converter.rb`): the multi-line merge and the main loop, as the
  class `Converter`.

Pure Ruby code is modelled as functions. Each Ruby loop is a method with a
`while` loop. The method is proved equal to a recursive specification
function, and the lemmas are stated about that function. The three stateful
Ruby classes are Dafny classes whose methods state their whole new state.
Each regular expression is a hand-written matcher, and an unanchored `match`
takes the leftmost start position at which the matcher succeeds.

The main results:

- `Converter.Converter.Convert` returns `Converter.Document` of its input.
- `Converter.Run` keeps the scope stack's indents strictly increasing.
- `Converter.ClosersFirst` and `Converter.FilterClosedFirst` fix the order of
  the closers.
- `AttributeParser.CascadeOrder` proves the `elsif` chain equal to a
  first-match search over a list of patterns.
- `StringUtils.SplitRejoins` shows that the split loses nothing.
- `StringUtils.ClosingIsFirstHit` shows that the delimiter search finds the
  first balancing close, and nothing exactly when none exists.
- `TagParser.SegmentsConcat` with `TagParser.ClassIdSpecNames` shows that a
  `.a#b.c` chain yields its classes and ids in source order.

## Model

| member | source | states |
|---|---|---|
| StringUtils.ProcessInterpolation | lib/haml2erb/string_utils.rb:9-20 | definition: the left-to-right `gsub` of `\?#{…}` with the shortest `[^}]+` body; an escaped match keeps `#{…}`, an unescaped one becomes `<%= … %>` |
| StringUtils.RewriteInterpolation | lib/haml2erb/attribute_parser.rb:190-193 | definition: the escape-free `gsub(/#\{([^}]+)\}/, '<%= \1 %>')`, which `convert_text_line` applies too |
| StringUtils.Split | lib/haml2erb/string_utils.rb:79-116 | definition: the parts `smart_split` cuts at delimiters outside quotes and parentheses, a final empty part dropped |
| StringUtils.InterpolationClose | lib/haml2erb/string_utils.rb:10 | the index of the first `}` after `#{` and at least one other character, and none exactly when the input does not open such a match |
| StringUtils.InterpolationCloseOf | lib/haml2erb/string_utils.rb:10 | a `#{x}` with `x` free of `}` closes right after `x` |
| StringUtils.ProcessInterpolationOutput | lib/haml2erb/string_utils.rb:9-20 | an unescaped `#{x}` becomes `<%= x %>` and the rewrite goes on after it |
| StringUtils.ProcessInterpolationEscaped | lib/haml2erb/string_utils.rb:11-13 | a backslash-escaped `\#{x}` loses only its backslash and stays literal |
| StringUtils.ProcessInterpolationPlain | lib/haml2erb/string_utils.rb:9-20 | text without `#` or backslash passes through unchanged |
| StringUtils.ProcessInterpolationIdentity | lib/haml2erb/string_utils.rb:9-20 | a string holding no `#{` is returned unchanged |
| StringUtils.RewriteInterpolationOutput | lib/haml2erb/attribute_parser.rb:190-193 | the substitution without escapes turns `#{x}` into `<%= x %>` and goes on after it |
| StringUtils.RewriteInterpolationPlain | lib/haml2erb/attribute_parser.rb:190-193 | text without `#` passes through the substitution unchanged |
| StringUtils.RewritesAgreeWithoutBackslash | lib/haml2erb/string_utils.rb:9-20 | on text without a backslash, `process_interpolation` and the plain substitution agree |
| StringUtils.RewriteKeepsBackslash | lib/haml2erb/line_processor.rb:102 | the plain substitution keeps the backslash of `\#{x}` and still converts `#{x}` |
| StringUtils.ClosingFrom | lib/haml2erb/string_utils.rb:42-70 | a found position holds the closing delimiter and lies at or after the start |
| StringUtils.ClosingIsFirstHit | lib/haml2erb/string_utils.rb:48-69 | the position found is the first unquoted close that brings the count back to zero, and none is found exactly when no position does so |
| StringUtils.QuotedIsInert | lib/haml2erb/string_utils.rb:51-64 | inside a string literal a delimiter changes neither the count nor ends the scan |
| StringUtils.EscapedQuoteStaysOpen | lib/haml2erb/string_utils.rb:54 | with backslash escapes, a quote right after a backslash does not close the literal |
| StringUtils.ScanQuoteIsQuote | lib/haml2erb/string_utils.rb:51-53 | a literal is only ever opened by `'` or `"` |
| StringUtils.QuoteStateOverPlain | lib/haml2erb/string_utils.rb:51-56 | characters that are not quotes leave the quote state as it was |
| StringUtils.FindClosingDelimiter | lib/haml2erb/string_utils.rb:42-70 | the loop returns the first position where an unquoted close brings the count to zero, and nil when there is none |
| StringUtils.ExtractBalancedBraces | lib/haml2erb/string_utils.rb:24-35 | on success the stripped text is `{`, the content, `}` and the remainder, the `}` is the first balancing one; nil exactly when the stripped text does not start with `{` or never balances |
| StringUtils.BracedPlain | lib/haml2erb/element_converter.rb:211-246 | a brace pair holding no quote or brace is split off as content and remainder |
| StringUtils.BracedQuoted | lib/haml2erb/element_converter.rb:211-246 | a brace pair holding one string literal, braces inside it included, is split off at the brace after the literal |
| StringUtils.EscapedQuoteScans | lib/haml2erb/element_converter.rb:224-229 | the element converter's copy ignores backslashes, so `{a: "x\"}` closes, while `find_closing_delimiter` finds no close |
| StringUtils.EscapedQuoteOpen | lib/haml2erb/string_utils.rb:54 | with backslash escapes, a literal whose last quote is escaped never closes |
| StringUtils.OpenAfterQuote | lib/haml2erb/string_utils.rb:48-69 | a literal that is never closed hides every later brace, so no close is found |
| StringUtils.BracedAt | lib/haml2erb/string_utils.rb:28-34 | content is the text between the `{` and the balancing `}`, remainder the text after it |
| StringUtils.SplitPrefixRejoins | lib/haml2erb/string_utils.rb:87-112 | the parts cut so far and the part being built join back, with the delimiter, to the text read; the part is empty right after a cut |
| StringUtils.SplitRejoins | lib/haml2erb/string_utils.rb:79-116 | the parts join back with the delimiter to the input, less a final delimiter whose empty part is dropped |
| StringUtils.SplitWithoutCut | lib/haml2erb/string_utils.rb:114 | a non-empty text with no cut position is one part |
| StringUtils.SplitWithoutDelimiter | lib/haml2erb/string_utils.rb:104-114 | a non-empty text without the delimiter is one part |
| StringUtils.SmartSplit | lib/haml2erb/string_utils.rb:79-116 | the loop's parts are those of the quote- and parenthesis-aware split, and they join back to the input |
| StringUtils.ClosingFromScan | lib/haml2erb/string_utils.rb:48-69 | resuming the scan at any position with the state reached there gives the same answer as scanning from the start |
| StringUtils.ScanOverInert | lib/haml2erb/string_utils.rb:51-66 | characters that are neither quotes nor, outside a literal, delimiters leave the scan state unchanged |
| StringUtils.ClosingOverPlain | lib/haml2erb/string_utils.rb:51-66 | outside a literal, a run of characters that are neither quotes nor delimiters does not change the answer |
| StringUtils.ClosingFromQuoted | lib/haml2erb/string_utils.rb:54-56 | inside a literal the scan resumes unquoted right after the first unescaped matching quote |
| StringUtils.ClosingAfterQuoted | lib/haml2erb/string_utils.rb:48-69 | `{` followed by plain text and one string literal and then `}` closes at that `}` |
| StringUtils.ClosingFromOpen | lib/haml2erb/string_utils.rb:54-69 | a literal with no unescaped closing quote runs to the end, and no close is found |
| StringUtils.BracedNoneAt | lib/haml2erb/string_utils.rb:28-35 | text whose braces never balance yields nil |
| StringUtils.BracedQuotedScan | lib/haml2erb/element_converter.rb:211-246 | the stripped text is itself and starts with a `{` whose balancing `}` follows the string literal |
| StringUtils.NoCutOnePart | lib/haml2erb/string_utils.rb:87-112 | while no cut has happened, every part read so far is the one being built, with none completed |
| AttributeParser.Attributes | lib/haml2erb/attribute_parser.rb:14-23 | definition: `parse`: the fragments of the quote-aware comma split, each stripped, rendered and concatenated |
| AttributeParser.Renderings | lib/haml2erb/attribute_parser.rb:16-22 | definition: the renderings of the fragments in order; a fragment that matches nothing adds nothing |
| AttributeParser.ProcessAttribute | lib/haml2erb/attribute_parser.rb:68-93 | definition: `process_attribute`: nothing for an empty fragment, the nested form first, then the nine patterns in `elsif` order |
| AttributeParser.TryFrom | lib/haml2erb/attribute_parser.rb:74-92 | definition: the `elsif` chain from a given branch on |
| AttributeParser.Render | lib/haml2erb/attribute_parser.rb:98-155 | definition: the `parse_*` renderers: ` key="v"`, ` key="<%= code %>"`, a bare key for `true` and nothing for `false` |
| AttributeParser.NestedHashOf | lib/haml2erb/attribute_parser.rb:198-238 | definition: `extract_nested_hash_attribute`: the leftmost `key: {` opener and the stripped text up to its balancing brace, or nil |
| AttributeParser.NestedAttributes | lib/haml2erb/attribute_parser.rb:158-183 | definition: `parse_nested_hash`: the inner text split like the outer one and each entry rendered under the key |
| AttributeParser.NestedEntries | lib/haml2erb/attribute_parser.rb:167-180 | definition: the renderings of the inner entries, concatenated in order |
| AttributeParser.NestedEntry | lib/haml2erb/attribute_parser.rb:170-180 | definition: ` prefix-key="value"` for a `key: 'value'` entry, with `#{}` rewritten; nothing otherwise |
| AttributeParser.RunEnd | lib/haml2erb/attribute_parser.rb:74-90 | the end of the longest run of one character class: every character before it is in the class and the one at it is not |
| AttributeParser.Search | lib/haml2erb/attribute_parser.rb:74-92 | `String#match`: a found match starts at or after the start position and the pattern matches there |
| AttributeParser.SearchPastStart | lib/haml2erb/attribute_parser.rb:74-92 | a match found later than the start means the pattern fails at the start and the search is the same from the next position |
| AttributeParser.SearchFailing | lib/haml2erb/attribute_parser.rb:74-92 | no match means no match at the start nor from the next position |
| AttributeParser.SearchLeftmost | lib/haml2erb/attribute_parser.rb:74-92 | the match found is the leftmost: the pattern fails at every earlier position |
| AttributeParser.SearchNone | lib/haml2erb/attribute_parser.rb:74-92 | no match means the pattern fails at every position |
| AttributeParser.MatchAtEnd | lib/haml2erb/attribute_parser.rb:74-92 | no pattern matches the empty rest of a string |
| AttributeParser.FirstPattern | lib/haml2erb/attribute_parser.rb:74-92 | the first pattern of the cascade, in source order, that matches the attribute, and every pattern before it fails; none exactly when all fail |
| AttributeParser.NormalizeKey | lib/haml2erb/attribute_parser.rb:186-188 | every `_` becomes `-`, every other character stays in place, and a key without `_` is returned unchanged |
| AttributeParser.Try | lib/haml2erb/attribute_parser.rb:74-92 | one branch of the cascade yields a rendering exactly when its pattern matches |
| AttributeParser.CascadeIs | lib/haml2erb/attribute_parser.rb:74-92 | the cascade lists the nine patterns in the order of the `elsif` chain |
| AttributeParser.CascadeOrder | lib/haml2erb/attribute_parser.rb:68-93 | for a non-empty attribute that is not a nested hash, `process_attribute` renders with the first matching pattern of the cascade, and gives nil when none matches |
| AttributeParser.FirstPatternSkips | lib/haml2erb/attribute_parser.rb:74-92 | a failing pattern passes the choice to the next one |
| AttributeParser.FirstPatternIs | lib/haml2erb/attribute_parser.rb:74-92 | a matching pattern preceded only by failing ones is the one chosen |
| AttributeParser.NoColonNoMatch | lib/haml2erb/attribute_parser.rb:82-90 | a pattern whose separator is `:` fails where no `:` follows |
| AttributeParser.NoBraceNoNested | lib/haml2erb/attribute_parser.rb:200-201 | an attribute without `{` is not a nested hash |
| AttributeParser.NoSymbolNoOldFormat | lib/haml2erb/attribute_parser.rb:76-79 | the `:key =>` patterns need a `:` followed by a symbol's head character |
| AttributeParser.BareKeySearch | lib/haml2erb/attribute_parser.rb:82-90 | on `key: w` a bare-key pattern matches at the start with the key captured whole, exactly when its value form matches `w` |
| AttributeParser.BareKeyNoValue | lib/haml2erb/attribute_parser.rb:82-90 | on `key: w` a bare-key pattern whose value form fails there does not match at all |
| AttributeParser.BareKeyCascade | lib/haml2erb/attribute_parser.rb:74-82 | `key: w` with no `:` or `{` in `w` is neither a nested hash nor any old-format or quoted-key form |
| AttributeParser.BareKeyProcess | lib/haml2erb/attribute_parser.rb:74-92 | on `key: w` the cascade reduces to the four bare-key patterns, in source order |
| AttributeParser.SymbolQuotedRendering | lib/haml2erb/attribute_parser.rb:84-85 | `key: "v"` renders as ` key="v"` with the key normalised |
| AttributeParser.SymbolQuotedMatch | lib/haml2erb/attribute_parser.rb:84 | on `key: "v" …` the quoted pattern captures the key and `v` and ends after the closing quote |
| AttributeParser.SymbolBooleanRendering | lib/haml2erb/attribute_parser.rb:143-151 | `key: true` renders as the bare key and `key: false` as nothing |
| AttributeParser.SymbolBooleanCase | lib/haml2erb/attribute_parser.rb:86-87 | `key: true`/`key: false` renders as the bare key or as nothing |
| AttributeParser.SymbolCodeRendering | lib/haml2erb/attribute_parser.rb:88-89 | `key: code` renders as ` key="<%= code %>"` with the key normalised |
| AttributeParser.SymbolNumericRendering | lib/haml2erb/attribute_parser.rb:90-91 | `key: 42` renders as ` key="42"` with the key kept as written |
| AttributeParser.OldFormatRendering | lib/haml2erb/attribute_parser.rb:76-77 | `:key => "v"` renders as ` key="v"` with the key kept as written |
| AttributeParser.NewFormatRendering | lib/haml2erb/attribute_parser.rb:80-81 | `"key": "v"` renders as ` key="v"` with the key normalised |
| AttributeParser.CommaInQuotedValue | lib/haml2erb/attribute_parser.rb:30-62 | a comma between quotes does not split the attribute |
| AttributeParser.CommaInQuotedAttribute | lib/haml2erb/attribute_parser.rb:14-23 | `key: "v"` as the whole attribute string renders as ` key="v"` |
| AttributeParser.SingleFragment | lib/haml2erb/attribute_parser.rb:14-23 | an attribute string that is one stripped fragment renders as that fragment's rendering, nothing when it renders nil |
| AttributeParser.QuotedPairRendering | lib/haml2erb/attribute_parser.rb:14-23 | a whole attribute string `key: "b"` renders as ` key="b"` |
| AttributeParser.NestedOpenerMatch | lib/haml2erb/attribute_parser.rb:200 | the opener pattern matches `p: { … }` at the start and ends right after the `{` |
| AttributeParser.NestedHashFound | lib/haml2erb/attribute_parser.rb:200-205 | the nested hash is read from the brace at which the opener match ends |
| AttributeParser.NestedHashFrom | lib/haml2erb/attribute_parser.rb:198-240 | the key of the opener and the stripped text between its brace and the balancing `}` form the nested hash |
| AttributeParser.NestedHashScenario | lib/haml2erb/attribute_parser.rb:198-240 | `p: { k: "v" }` is read as the nested hash of prefix `p` with content `k: "v"`, the shape of the case at spec/haml2erb_spec.rb:420-424 |
| AttributeParser.OneNestedEntry | lib/haml2erb/attribute_parser.rb:166-182 | content without a comma is one entry |
| AttributeParser.NestedEntryOf | lib/haml2erb/attribute_parser.rb:170-180 | an entry `k: "v"` renders as ` p-k="v"` with the key normalised and `#{}` in the value rewritten |
| AttributeParser.NestedEntryScenario | lib/haml2erb/attribute_parser.rb:158-183 | the content `k: "v"` renders as the one entry ` p-k="v"` |
| AttributeParser.NestedRendering | lib/haml2erb/attribute_parser.rb:73-75 | `p: { k: "v" }` renders as ` p-k="v"` |
| AttributeParser.SmartSplitAttributes | lib/haml2erb/attribute_parser.rb:30-62 | the loop's parts are those of the quote-aware comma split, and they join back to the input |
| AttributeParser.ExtractNestedHashAttribute | lib/haml2erb/attribute_parser.rb:198-240 | the method returns the nested hash that the opener and the balancing brace define, nil when the opener is missing or never closes |
| AttributeParser.ScanNestedBraces | lib/haml2erb/attribute_parser.rb:206-237 | the loop returns the first unquoted `}` that balances the `{` at the start position, nil when there is none |
| AttributeParser.ParseNestedHash | lib/haml2erb/attribute_parser.rb:158-183 | the loop's result is the concatenated rendering of the matching entries |
| AttributeParser.Parse | lib/haml2erb/attribute_parser.rb:14-23 | the loop's result is the concatenated rendering of the stripped fragments, nil renderings dropped, and "" for an empty string |
| AttributeParser.KeyAt | lib/haml2erb/attribute_parser.rb:74-90 | a key group that matches consumes at least one character and stays within the string |
| AttributeParser.SeparatorEnd | lib/haml2erb/attribute_parser.rb:74-90 | the `\s*=>\s*` or `\s*:\s*` separator, when it matches, consumes at least one character and stays within the string |
| AttributeParser.ValueAt | lib/haml2erb/attribute_parser.rb:74-90 | a value group that matches consumes at least one character and stays within the string |
| AttributeParser.MatchAt | lib/haml2erb/attribute_parser.rb:74-90 | a pattern matching at a position ends after it and within the string |
| AttributeParser.MatchAtParts | lib/haml2erb/attribute_parser.rb:74-90 | key, separator and value matching one after the other make the whole pattern match with their captures |
| AttributeParser.SearchAtStart | lib/haml2erb/attribute_parser.rb:74-90 | a pattern that matches at the start is found there |
| AttributeParser.RunEndOf | lib/haml2erb/attribute_parser.rb:74-90 | a run of one character class that the next character ends is the longest run |
| AttributeParser.NotQuotedValue | lib/haml2erb/attribute_parser.rb:74-85 | `(['"])(.*?)` fails where no quote stands |
| AttributeParser.NotBooleanValue | lib/haml2erb/attribute_parser.rb:80-87 | the `true`-or-`false` group fails where neither word starts |
| AttributeParser.NotCodeValue | lib/haml2erb/attribute_parser.rb:82-89 | the code value fails where its head character is missing |
| AttributeParser.QuotedValueAt | lib/haml2erb/attribute_parser.rb:74-85 | `(['"])(.*?)\2` captures up to the first matching quote, lazily |
| AttributeParser.TryFound | lib/haml2erb/attribute_parser.rb:74-91 | a branch whose pattern is found renders that match |
| AttributeParser.CascadeFrom | lib/haml2erb/attribute_parser.rb:74-92 | walking the `elsif` chain from any branch renders with the first pattern from there that matches, nil when none does |
| AttributeParser.TryFromSkips | lib/haml2erb/attribute_parser.rb:74-92 | a branch whose pattern fails passes on to the next |
| AttributeParser.QuotedKeySearchFails | lib/haml2erb/attribute_parser.rb:78-82 | `key: w` without a quote-wrapped key matches none of the `"key":` patterns |
| AttributeParser.OldFormatSearchFails | lib/haml2erb/attribute_parser.rb:74-76 | `key: w` with no further `:` matches none of the `:key =>` patterns |
| AttributeParser.BareKeyMatch | lib/haml2erb/attribute_parser.rb:84-90 | on `key: w` a bare-key pattern starting inside the key matches exactly when its value form matches `w`, capturing the key's rest |
| AttributeParser.BareKeyChain | lib/haml2erb/attribute_parser.rb:84-92 | the last four branches of the chain are tried in source order |
| AttributeParser.SymbolQuotedValue | lib/haml2erb/attribute_parser.rb:84 | after `key: ` the quoted value group captures `v` and ends after its closing quote |
| AttributeParser.SymbolQuotedTry | lib/haml2erb/attribute_parser.rb:84-85 | the `key: "v"` branch renders ` key="v"` with the key normalised |
| AttributeParser.SymbolBooleanTry | lib/haml2erb/attribute_parser.rb:84-87 | `key: true` is not a quoted value, and the boolean branch renders it as the bare key, `false` as nothing |
| AttributeParser.SymbolCodeTry | lib/haml2erb/attribute_parser.rb:84-89 | `key: code` is neither quoted nor boolean, and the code branch renders it as an ERB output tag |
| AttributeParser.SymbolCodeMatch | lib/haml2erb/attribute_parser.rb:88 | on `key: code` the code pattern is found at the start, capturing the key and the whole code |
| AttributeParser.SymbolCodeMatchAt | lib/haml2erb/attribute_parser.rb:88 | the code pattern matches `key: code` at the start, capturing the key and the whole code |
| AttributeParser.SymbolCodeValue | lib/haml2erb/attribute_parser.rb:88 | after `key: ` the code value group captures the whole code |
| AttributeParser.RunValueAt | lib/haml2erb/attribute_parser.rb:88-91 | a code or digit run reaching the end of the string is captured whole |
| AttributeParser.SymbolNumericTry | lib/haml2erb/attribute_parser.rb:84-91 | `key: 42` fails the quoted, boolean and code branches, and the numeric branch renders ` key="42"` |
| AttributeParser.SymbolNumericMatch | lib/haml2erb/attribute_parser.rb:90 | on `key: 42` the numeric pattern is found at the start, capturing the key and the digits |
| AttributeParser.SymbolNumericMatchAt | lib/haml2erb/attribute_parser.rb:90 | the numeric pattern matches `key: 42` at the start |
| AttributeParser.SymbolNumericValue | lib/haml2erb/attribute_parser.rb:90 | after `key: ` the digit group captures all the digits |
| AttributeParser.OldFormatMatch | lib/haml2erb/attribute_parser.rb:74-75 | the first old-format branch renders `:key => "v"` as ` key="v"` |
| AttributeParser.OldFormatKey | lib/haml2erb/attribute_parser.rb:74 | `:([a-zA-Z_][a-zA-Z0-9_-]*)` captures the symbol's name |
| AttributeParser.OldFormatSeparator | lib/haml2erb/attribute_parser.rb:74 | `\s*=>\s*` consumes ` => ` |
| AttributeParser.OldFormatValue | lib/haml2erb/attribute_parser.rb:74 | the quoted group captures the value between the quotes |
| AttributeParser.NewFormatMatch | lib/haml2erb/attribute_parser.rb:78-79 | the quoted-key branch renders `"key": "v"` as ` key="v"` with the key normalised |
| AttributeParser.NewFormatKey | lib/haml2erb/attribute_parser.rb:78 | `(['"])(…)\1` captures the key between its quotes |
| AttributeParser.NewFormatSeparator | lib/haml2erb/attribute_parser.rb:78 | `\s*:\s*` consumes `: ` |
| AttributeParser.NewFormatValue | lib/haml2erb/attribute_parser.rb:78 | the quoted group captures the value between the quotes |
| AttributeParser.RenderingsNext | lib/haml2erb/attribute_parser.rb:16-22 | the loop over fragments adds each stripped fragment's rendering, nothing for a nil one |
| AttributeParser.RenderingsOfOne | lib/haml2erb/attribute_parser.rb:16-22 | one fragment renders as its stripped rendering, nothing when nil |
| AttributeParser.NestedEntriesNext | lib/haml2erb/attribute_parser.rb:167-180 | the loop over nested entries adds each entry's rendering |
| AttributeParser.NestedEntriesOfOne | lib/haml2erb/attribute_parser.rb:167-182 | one nested entry renders as that entry |
| AttributeParser.OpenerEnd | lib/haml2erb/attribute_parser.rb:200-204 | the opener match ends within the attribute, so the brace position is valid |
| AttributeParser.OpenerEndsAtBrace | lib/haml2erb/attribute_parser.rb:200-204 | the opener match ends right after a `{` |
| AttributeParser.NestedOpenerMatchAt | lib/haml2erb/attribute_parser.rb:200 | the opener pattern matches `p: { … }` at the start, ending after the `{` |
| AttributeParser.ClosingAfterLiteral | lib/haml2erb/attribute_parser.rb:212-235 | a `{` followed by plain text, one quoted literal and ` }` is balanced by that `}` |
| AttributeParser.NestedClosing | lib/haml2erb/attribute_parser.rb:212-235 | in `p: { k: "v" }` the last `}` balances the opening brace |
| AttributeParser.WrappedNested | lib/haml2erb/attribute_parser.rb:198-238 | `p: { e }` for a single entry `e` is the nested hash of prefix `p` with content `e` |
| AttributeParser.NestedFromClosing | lib/haml2erb/attribute_parser.rb:223-226 | the balancing brace and the stripped text before it form the nested hash |
| AttributeMerger.Merge | lib/haml2erb/attribute_merger.rb:6-21 | definition: `AttributeMerger.merge`: nil read as "", both sides parsed, merged and rendered |
| AttributeMerger.AttributesHash | lib/haml2erb/attribute_merger.rb:25-44 | definition: `parse_attributes_to_hash`: the `key="value"` pairs in order, then each bare word as `true` unless already keyed |
| AttributeMerger.ValuePairs | lib/haml2erb/attribute_merger.rb:30 | definition: the matches of the `(\S+?)="([^"]*)"` scan, each resuming after the last |
| AttributeMerger.PutPairs | lib/haml2erb/attribute_merger.rb:30-32 | definition: each scanned pair assigned in turn |
| AttributeMerger.BareWords | lib/haml2erb/attribute_merger.rb:35 | definition: the words of the consuming bare-word scan |
| AttributeMerger.PutFlags | lib/haml2erb/attribute_merger.rb:35-41 | definition: each bare word set to `true` unless its key is present |
| AttributeMerger.MergedHash | lib/haml2erb/attribute_merger.rb:46-63 | definition: `merge_hashes`: the added entries folded into a copy of the base, in order |
| AttributeMerger.MergeEntry | lib/haml2erb/attribute_merger.rb:49-59 | definition: one entry of the fold: class and style merged when the base has them, any other key overwritten |
| AttributeMerger.MergeClassValues | lib/haml2erb/attribute_merger.rb:65-69 | definition: `merge_class_values`: both lists split on whitespace, de-duplicated, joined by spaces |
| AttributeMerger.MergeStyleValues | lib/haml2erb/attribute_merger.rb:71-80 | definition: `merge_style_values`: both sides stripped and `;`-terminated, joined by a space, stripped |
| AttributeMerger.BuildAttributesString | lib/haml2erb/attribute_merger.rb:82-95 | definition: `build_attributes_string`: "" for an empty hash, otherwise a space and the rendered entries |
| AttributeMerger.RenderEntry | lib/haml2erb/attribute_merger.rb:85-92 | definition: a bare key for `true`, `key="value"` otherwise |
| AttributeMerger.PairFrom | lib/haml2erb/attribute_merger.rb:30 | a match found with the lazy key grown from a given length has the shape `key="value"` at the position: a non-empty key without whitespace, a value without `"`, ending just past the closing quote |
| AttributeMerger.PairAt | lib/haml2erb/attribute_merger.rb:30 | a `(\S+?)="([^"]*)"` match at the position has that same shape |
| AttributeMerger.WordAt | lib/haml2erb/attribute_merger.rb:35 | a bare word found at the position ends strictly after it |
| AttributeMerger.BareWordAt | lib/haml2erb/attribute_merger.rb:35 | a bare-word match moves the scan strictly forward |
| AttributeMerger.ParseAttributesToHash | lib/haml2erb/attribute_merger.rb:25-44 | the two scans fill the hash that `AttributesHash` describes, and its keys are distinct |
| AttributeMerger.KeyedValue | lib/haml2erb/attribute_merger.rb:30-32 | a key gets the value of its last `key="value"` pair |
| AttributeMerger.BareWordFlag | lib/haml2erb/attribute_merger.rb:35-41 | a bare word that no pair assigns is stored as `true` |
| AttributeMerger.PutPairsGet | lib/haml2erb/attribute_merger.rb:30-32 | after storing the pairs a key holds the value of its last pair, or its old value when no pair names it |
| AttributeMerger.PutFlagsGet | lib/haml2erb/attribute_merger.rb:35-41 | a bare word becomes `true` only when the key is still absent; every present key keeps its value |
| AttributeMerger.MergeHashes | lib/haml2erb/attribute_merger.rb:46-63 | the loop over the additional entries computes `MergedHash` |
| AttributeMerger.MergedGet | lib/haml2erb/attribute_merger.rb:46-63 | per key: a base-only key keeps its value, `class` or `style` present on both sides is merged, and any other additional key overwrites |
| AttributeMerger.MergedKeys | lib/haml2erb/attribute_merger.rb:46-63 | the merged keys are the base keys in order followed by the new additional keys in the order they are met |
| AttributeMerger.MergeEntryOthers | lib/haml2erb/attribute_merger.rb:49-59 | one merge step leaves every other key alone |
| AttributeMerger.MergeEntryKeys | lib/haml2erb/attribute_merger.rb:49-59 | one merge step keeps the key order and appends a key it adds |
| AttributeMerger.ClassMerge | lib/haml2erb/attribute_merger.rb:65-69 | the merged class list is the de-duplicated concatenation of both word lists: a word is in it exactly when it is in either side, and no word repeats |
| AttributeMerger.TerminatedTrimmed | lib/haml2erb/attribute_merger.rb:76-77 | a trimmed declaration list stays empty only if it was, and otherwise ends with `;` |
| AttributeMerger.StyleMerge | lib/haml2erb/attribute_merger.rb:71-80 | each side is stripped and ends with `;` unless empty, and the result is the two sides joined by one space, or the non-empty one alone |
| AttributeMerger.RenderEntries | lib/haml2erb/attribute_merger.rb:85-92 | one output attribute per entry, in order: the bare key for `true`, `key="value"` otherwise |
| AttributeMerger.RenderedEntry | lib/haml2erb/attribute_merger.rb:85-92 | a `true` key appears bare in the output and a string value as `key="value"` |
| AttributeMerger.MergeAttributes | lib/haml2erb/attribute_merger.rb:6-21 | the method computes `Merge`, reading a missing side as `""` |
| AttributeMerger.MergeEmpty | lib/haml2erb/attribute_merger.rb:82-95 | the merge is `""` exactly when both sides hold no attribute, and otherwise starts with a space |
| RubyHash.Keys | lib/haml2erb/attribute_merger.rb:85 | iterating the hash meets one key per entry |
| RubyHash.KeysAt | lib/haml2erb/attribute_merger.rb:85 | the keys come in insertion order |
| RubyHash.Get | lib/haml2erb/attribute_merger.rb:38-55 | a lookup finds a value exactly when the key is present, and that value is the one its entry holds |
| RubyHash.Put | lib/haml2erb/attribute_merger.rb:30-58 | after `hash[k] = v` the key holds `v` |
| RubyHash.PutKeys | lib/haml2erb/attribute_merger.rb:30-58 | assigning an existing key keeps its position; a new key is appended |
| RubyHash.PutOthers | lib/haml2erb/attribute_merger.rb:30-58 | assigning one key leaves every other key's value alone |
| RubyHash.PutValid | lib/haml2erb/attribute_merger.rb:30-58 | assignment never lets a key appear twice |
| TagParser.ParseSpec | lib/haml2erb/tag_parser.rb:20-38 | definition: `TagParser.parse`: the element, class or id reading of the stripped line, nil for any other line |
| TagParser.ElementTag | lib/haml2erb/tag_parser.rb:47-71 | definition: `parse_element_tag`: the name run, the class and id chain, the hash and the content |
| TagParser.ClassShorthand | lib/haml2erb/tag_parser.rb:75-97 | definition: `parse_class_shorthand`: a div with the chain after `.`, then hash and content |
| TagParser.IdShorthand | lib/haml2erb/tag_parser.rb:100-112 | definition: `parse_id_shorthand`: a div with the single id after `#` and the content, nil without a name |
| TagParser.ClassIdSpec | lib/haml2erb/tag_parser.rb:114-137 | definition: `parse_class_id_spec`: the chain's names added to the record, and the text after the chain |
| TagParser.TagInfo.constructor | lib/haml2erb/tag_parser.rb:9-18 | a new `TagInfo` holds the defaults: no tag name, no classes or ids, no hash, empty content, no Ruby code |
| TagParser.ClassIdRunEnd | lib/haml2erb/tag_parser.rb:119 | the end of the longest run of `[.#:a-zA-Z0-9_-]` characters: every character before it is one of them and the one at it is not |
| TagParser.NextMark | lib/haml2erb/tag_parser.rb:124 | the first `.` or `#` at or after the position, or the end: no mark lies before it |
| TagParser.Segments | lib/haml2erb/tag_parser.rb:124 | the pieces of the split are non-empty, carry no mark after their first character, and every piece but the first starts with a mark |
| TagParser.SegmentsConcat | lib/haml2erb/tag_parser.rb:124 | the split loses and reorders nothing: its pieces put end to end give back the input |
| TagParser.SegmentsPrepend | lib/haml2erb/tag_parser.rb:124 | a leading `.name` or `#name` followed by a mark or nothing is a piece of its own |
| TagParser.AddParts | lib/haml2erb/tag_parser.rb:125-133 | the parts only extend the classes and ids: the tag name, hash, content and Ruby flag are untouched and the earlier names stay in front |
| TagParser.AddPartNames | lib/haml2erb/tag_parser.rb:128-132 | a `.name` part appends `name` to the classes, a `#name` part to the ids, and any other part nothing |
| TagParser.AddPartsClasses | lib/haml2erb/tag_parser.rb:125-133 | the classes gain exactly the names of the `.` parts, in order |
| TagParser.AddPartsIds | lib/haml2erb/tag_parser.rb:125-133 | the ids gain exactly the names of the `#` parts, in order |
| TagParser.AddPartsCollects | lib/haml2erb/tag_parser.rb:125-133 | both at once: classes gain the `.` names and ids the `#` names, in order |
| TagParser.ClassIdSpecNames | lib/haml2erb/tag_parser.rb:114-137 | a spec without a leading chain leaves the record alone and returns `""`; otherwise the chain's pieces give back the chain, the classes gain its `.` names, the ids its `#` names, and the text after the chain is returned |
| TagParser.ParseClassIdSpec | lib/haml2erb/tag_parser.rb:114-137 | the method leaves the struct holding, and returns, what `ClassIdSpec` describes |
| TagParser.HashPart | lib/haml2erb/tag_parser.rb:59-60 | a hash is found only when the stripped text opens with `{` that a matching `}` closes; the text is then `{` + content + `}` + remaining; none exactly when there is no `{` or no closing brace |
| TagParser.WithHash | lib/haml2erb/tag_parser.rb:59-65 | the hash step changes no field but the attributes hash |
| TagParser.ParseHash | lib/haml2erb/tag_parser.rb:59-65 | the method leaves the struct holding, and returns, what `WithHash` describes |
| TagParser.WithContent | lib/haml2erb/tag_parser.rb:139-148 | the content step keeps tag name, classes, ids and hash |
| TagParser.ParseContent | lib/haml2erb/tag_parser.rb:139-148 | the method leaves the struct holding what `WithContent` describes |
| TagParser.HashAndContent | lib/haml2erb/tag_parser.rb:58-68 | the hash and content steps keep tag name, classes and ids |
| TagParser.HashThenContent | lib/haml2erb/tag_parser.rb:58-68 | on `{h} c` the text between the braces becomes the hash and `c` goes to the content step |
| TagParser.ParseElementTag | lib/haml2erb/tag_parser.rb:47-71 | no struct exactly when the specification function finds no element, otherwise a fresh struct holding its record |
| TagParser.ParseClassShorthand | lib/haml2erb/tag_parser.rb:75-97 | a fresh struct holding the record of `ClassShorthand` |
| TagParser.ParseIdShorthand | lib/haml2erb/tag_parser.rb:100-112 | no struct exactly when `IdShorthand` finds none, otherwise a fresh struct holding its record |
| TagParser.Parse | lib/haml2erb/tag_parser.rb:20-38 | no struct exactly when `ParseSpec` gives none, otherwise a fresh struct holding its record |
| TagParser.ParseAccepts | lib/haml2erb/tag_parser.rb:28-44 | a line parses exactly when its stripped text starts with `.`, or with `%` or `#` followed by a name character |
| TagParser.ParsedTagName | lib/haml2erb/tag_parser.rb:48-52 | `%name` takes the longest non-empty run of name characters as the tag; both shorthands make a `div` |
| TagParser.IdShorthandRecord | lib/haml2erb/tag_parser.rb:100-112 | a `#` line records exactly one id, the name run after `#`, no classes and no hash |
| TagParser.NextMarkOf | lib/haml2erb/tag_parser.rb:124 | a position with no mark before it and a mark (or the end) at it is where the next mark is found |
| TagParser.ClassIdRunEndOf | lib/haml2erb/tag_parser.rb:119 | a position ending a run of chain characters is where the chain match ends |
| TagParser.ChainSegments | lib/haml2erb/tag_parser.rb:124 | `.a#b` splits into `.a` and `#b` |
| TagParser.ChainRun | lib/haml2erb/tag_parser.rb:119 | the chain match on `.a#b` takes the whole text |
| TagParser.ClassIdChain | lib/haml2erb/tag_parser.rb:114-137 | `.a#b` adds class `a` and id `b` and leaves nothing after it |
| TagParser.ElementWithChain | lib/haml2erb/tag_parser.rb:47-71 | `%name.a#b` parses to the tag `name` with class `a`, id `b`, no hash and no content |
| TagParser.IdAlone | lib/haml2erb/tag_parser.rb:100-112 | `#name` parses to a `div` with that one id and nothing else |
| TagParser.ClassAlone | lib/haml2erb/tag_parser.rb:75-97 | `.name` parses to a `div` with that one class and nothing else |
| TagParser.ElementNoChain | lib/haml2erb/tag_parser.rb:48-56 | a `%name` not followed by a mark goes straight to the hash and content steps |
| TagParser.ElementWithHash | lib/haml2erb/tag_parser.rb:47-71 | `%name{h} c` has hash `h` and content `c`, Ruby output with the code stripped when `c` starts with `=` |
| Html.IsVoid | lib/haml2erb/tag_builder.rb:10-13 | definition: membership in `VOID_ELEMENTS`, the same fourteen names as element_converter.rb:9-12 |
| TagBuilder.Assignments | lib/haml2erb/tag_builder.rb:76 | definition: the matches of the `([\w-]+)="([^"]*)"` scan, each resuming after the last |
| TagBuilder.FlagWords | lib/haml2erb/tag_builder.rb:88 | definition: the words of the bare-word scan whose lookahead leaves the following space to the next match |
| TagBuilder.PutBases | lib/haml2erb/tag_builder.rb:67-73 | definition: each base attribute's final `key="value"` pair assigned in turn |
| TagBuilder.PutAssignments | lib/haml2erb/tag_builder.rb:76-83 | definition: each added pair assigned in turn, a `class` already present extended after a space |
| TagBuilder.MergedHash | lib/haml2erb/tag_builder.rb:63-94 | definition: the hash `merge_attributes` fills: base pairs, then added pairs, then bare words of the ERB-free text |
| TagBuilder.MergedAttributes | lib/haml2erb/tag_builder.rb:63-104 | definition: `merge_attributes`: the base list when nothing is added, else the hash mapped back to strings |
| TagBuilder.ShorthandAttributes | lib/haml2erb/tag_builder.rb:48-52 | definition: `class=` then `id=`, each only when it has names |
| TagBuilder.AttributeList | lib/haml2erb/tag_builder.rb:45-58 | definition: the shorthand attributes with the rendered hash merged in |
| TagBuilder.AttributeString | lib/haml2erb/tag_builder.rb:45-61 | definition: `build_attributes`: "" or a space and the attributes joined by spaces |
| TagBuilder.Build | lib/haml2erb/tag_builder.rb:24-37 | definition: `build`: void tag, Ruby content, empty element or literal content, in the source's order |
| TagBuilder.AssignmentAt | lib/haml2erb/tag_builder.rb:76 | a `key="value"` match at the position has a non-empty `[\w-]` key, a value without `"`, and ends right after the closing quote, the text between being exactly `key="value"` |
| TagBuilder.AssignmentAtOf | lib/haml2erb/tag_builder.rb:76 | wherever the text reads `k="x"` with a word key and no quote in `x`, that is the match there |
| TagBuilder.AssignmentKeyLayout | lib/haml2erb/tag_builder.rb:76 | in `k="x"` laid out at a position, the key's characters are word characters followed by `="` |
| TagBuilder.AssignmentValueLayout | lib/haml2erb/tag_builder.rb:76 | in `k="x"` laid out at a position, the value holds no quote and the quote after it closes the match |
| TagBuilder.AssignmentAtParts | lib/haml2erb/tag_builder.rb:76 | a word run, `="`, and the next quote after it make the match, with the key, value and end they delimit |
| TagBuilder.FinalAssignment | lib/haml2erb/tag_builder.rb:70 | the anchored base-attribute match, when found, ends at the end of the attribute |
| TagBuilder.BaseClassMatch | lib/haml2erb/tag_builder.rb:69-73 | the base attribute `class="x"` enters the hash as the single pair `class` → `x` |
| TagBuilder.RemoveErb | lib/haml2erb/tag_builder.rb:87 | the lazy `gsub(/<%=.*?%>/, "")` never lengthens the text; what it removes is fixed by `RemoveErbIdentity` and `RemoveErbTag` |
| TagBuilder.RemoveErbIdentity | lib/haml2erb/tag_builder.rb:86-87 | text without `<%=` is left as it is |
| TagBuilder.RemoveErbTag | lib/haml2erb/tag_builder.rb:86-88 | the first `<%=` and everything through the first `%>` after it are removed, the text before is kept and the removal goes on after it, so no word inside an ERB output tag reaches the bare-word scan |
| TagBuilder.FollowedWord | lib/haml2erb/tag_builder.rb:88 | a bare word is a non-empty slice of the text starting at the position |
| TagBuilder.FlagWordAt | lib/haml2erb/tag_builder.rb:88 | a bare-word match moves the scan strictly forward |
| TagBuilder.NoFlagsWithoutSpace | lib/haml2erb/tag_builder.rb:88 | past the start, text without whitespace holds no bare word |
| TagBuilder.OnePair | lib/haml2erb/tag_builder.rb:76-94 | ` k="x"` with a space-free value gives exactly the pair `(k, x)` and no bare words |
| TagBuilder.MergeAttributes | lib/haml2erb/tag_builder.rb:63-104 | the three loops filling `attrs_hash` and the map back to strings compute `MergedAttributes`: the base list unchanged when there is nothing to add, else the rendered hash of base pairs, added pairs and bare words |
| TagBuilder.PutBaseAttributes | lib/haml2erb/tag_builder.rb:67-73 | the loop over the base attributes computes `PutBases`: each one's final `key="value"` pair put into the hash in order, an attribute without one skipped |
| TagBuilder.PutAdditionalPairs | lib/haml2erb/tag_builder.rb:76-83 | the scan over the added text computes `PutAssignments` over its `key="value"` pairs, left to right |
| TagBuilder.PutBareWords | lib/haml2erb/tag_builder.rb:88-94 | the scan over the ERB-free text computes `PutFlags` over its bare words |
| TagBuilder.FlagAttribute | lib/haml2erb/tag_builder.rb:88-94 | a bare word that no pair assigns becomes a `true` entry rendered as the bare name; a key that a pair assigns keeps that pair's value |
| TagBuilder.MergedWithoutFlags | lib/haml2erb/tag_builder.rb:63-104 | without bare words the hash is the base pairs updated by the added pairs |
| TagBuilder.AppendToClass | lib/haml2erb/tag_builder.rb:77-79 | an added `class` value is appended to the base class after a space |
| TagBuilder.ClassAppended | lib/haml2erb/tag_builder.rb:63-104 | merging ` class="b"` into `class="a"` gives `class="a b"`, appended and not de-duplicated |
| TagBuilder.MergerDeduplicates | lib/haml2erb/attribute_merger.rb:64-72 | by contrast the attribute merger collapses `a` merged with `a` to `a` |
| TagBuilder.BuildAttributes | lib/haml2erb/tag_builder.rb:45-61 | the method computes `AttributeString`: `""` with no attributes, else a space and the attributes joined by spaces |
| TagBuilder.ShorthandOrder | lib/haml2erb/tag_builder.rb:48-52 | without a hash the attributes are empty exactly when there are no classes and no ids, and otherwise `class` comes before `id` |
| TagBuilder.OneClassAttribute | lib/haml2erb/tag_builder.rb:45-61 | one class and nothing else renders as ` class="c"` |
| TagBuilder.ShorthandOneClass | lib/haml2erb/tag_builder.rb:49 | a single class name renders as the one attribute `class="a"` |
| TagBuilder.EmptyHashRendering | lib/haml2erb/tag_builder.rb:55-58 | a hash rendering to no attributes leaves the shorthand attributes as they are |
| TagBuilder.VoidTag | lib/haml2erb/tag_builder.rb:28-29 | a void element is the open tag alone, whatever its content, Ruby flag or children |
| TagBuilder.RubyContent | lib/haml2erb/tag_builder.rb:30-31 | Ruby content is wrapped in `<%= … %>` between the tags, with or without children |
| TagBuilder.EmptyContent | lib/haml2erb/tag_builder.rb:114-120 | an empty element is an open tag when it has children and an open-close pair otherwise |
| TagBuilder.LiteralContent | lib/haml2erb/tag_builder.rb:122-130 | with children only the open tag is written; otherwise the interpolated content goes between the tags, unchanged when it holds no `#{` |
| TagBuilder.DivNotVoid | lib/haml2erb/tag_builder.rb:10-13 | `div` is not a void element |
| TagBuilder.DivPair | lib/haml2erb/tag_builder.rb:114-120 | an empty childless `div` renders as `<div…></div>` |
| TagBuilder.BareClassLine | lib/haml2erb/tag_builder.rb:24-37 | `.name` builds to `<div class="name"></div>`, the one-class form of the cases at spec/haml2erb_spec.rb:108-112 and 167-171 |
| TagBuilder.HashClassRendering | lib/haml2erb/attribute_parser.rb:14-23 | the hash `class: "b"` renders as ` class="b"` |
| TagBuilder.HashClassList | lib/haml2erb/tag_builder.rb:45-61 | class `a` from the shorthand and `class: "b"` from the hash merge into the one attribute `class="a b"` (spec/haml2erb_spec.rb:414-418) |
| TagBuilder.HashClassAttribute | lib/haml2erb/tag_builder.rb:45-61 | the same, as the rendered attribute string ` class="a b"` |
| TagBuilder.ShorthandAndHashClass | lib/haml2erb/tag_builder.rb:24-37 | `.a{class: "b"}` builds to `<div class="a b"></div>` (spec/haml2erb_spec.rb:414-418) |
| ElementConverter.Convert | lib/haml2erb/element_converter.rb:31-119 | definition: `convert`: a `%tag…` line as HTML; a line holding `<%` or without a tag name copied behind the indent |
| ElementConverter.Element | lib/haml2erb/element_converter.rb:34-101 | definition: the tag name, the attribute string and the content of a `%tag…` line |
| ElementConverter.ChainHead | lib/haml2erb/element_converter.rb:44-72 | definition: the attributes of the class and id chain at the head of the rest, and what follows it |
| ElementConverter.HashStep | lib/haml2erb/element_converter.rb:76-101 | definition: the attribute-hash branch: the fused attributes and the stripped remainder, or the attributes unchanged |
| ElementConverter.FuseClasses | lib/haml2erb/element_converter.rb:82-91 | definition: when both strings hold a class, the values joined into the first and the hash's class removed |
| ElementConverter.ExpandReplacement | lib/haml2erb/element_converter.rb:89 | definition: Ruby's `gsub` replacement escapes for a group-less pattern: `\0` and `\&`, the pre- and post-match, empty group references, `\\` |
| ElementConverter.ReplaceClass | lib/haml2erb/element_converter.rb:89 | definition: each `class="…"` replaced by the expanded replacement, left to right |
| ElementConverter.RemoveClass | lib/haml2erb/element_converter.rb:90 | definition: each `\s*class="…"` removed with the whitespace before it |
| ElementConverter.Render | lib/haml2erb/element_converter.rb:104-118 | definition: the element's line, chosen by void-ness, children and content in the source's order |
| ElementConverter.ConvertClassAsWritten | lib/haml2erb/element_converter.rb:121-193 | definition: `convert_class` as written, with no result for the lone `.` on which it raises |
| ElementConverter.ConvertClass | lib/haml2erb/element_converter.rb:121-193 | definition: `convert_class`, with a missing class spec read as "", as `convert_id` reads a missing id |
| ElementConverter.HashClassLine | lib/haml2erb/element_converter.rb:125-160 | definition: the hash branch of `convert_class`: the hash's class joins the listed classes |
| ElementConverter.ClassLineAttributes | lib/haml2erb/element_converter.rb:139-151 | definition: the class attribute first, holding the hash's class after the listed ones, then the hash's other attributes |
| ElementConverter.PlainClassLine | lib/haml2erb/element_converter.rb:177-191 | definition: the branch without a usable hash: the inline content in a pair, otherwise the open tag only |
| ElementConverter.ConvertClassClosed | lib/haml2erb/element_converter.rb:121-193 | definition: `ConvertClass` with a bare childless class line closed as the tag builder closes it |
| ElementConverter.ConvertId | lib/haml2erb/element_converter.rb:195-207 | definition: `convert_id`: the first word is the id (`nil` prints as ""), the second the content |
| ElementConverter.ClassValueEnd | lib/haml2erb/element_converter.rb:84-85 | a `class="[^"]*"` match at the head of the text: it opens with `class="` and ends at the first quote after it |
| ElementConverter.ClassValue | lib/haml2erb/element_converter.rb:84-85 | the captured class value of the leftmost match holds no quote |
| ElementConverter.ExpandPlain | lib/haml2erb/element_converter.rb:89 | a gsub replacement without a backslash is inserted as it is |
| ElementConverter.ExpandWholeMatch | lib/haml2erb/element_converter.rb:89 | in a gsub replacement `\0` stands for the whole match, while `\\0` gives a literal backslash and `0` |
| ElementConverter.ExpandPlainPrefix | lib/haml2erb/element_converter.rb:89 | a backslash-free prefix of the replacement is copied and the expansion goes on after it |
| ElementConverter.FuseTwoClasses | lib/haml2erb/element_converter.rb:82-91 | with backslash-free values, ` class="a"` and ` class="b"` fuse into ` class="a b"` and the hash's class attribute is dropped |
| ElementConverter.FusedPair | lib/haml2erb/element_converter.rb:87-90 | the fused attribute is the replacement `class="a v"` expanded against the match `class="a"`, and the hash's class is removed |
| ElementConverter.FuseEscapedClass | lib/haml2erb/element_converter.rb:89 | a hash class value ending in `\0` makes Ruby's gsub insert the original `class="a"` match into the fused value |
| ElementConverter.ReplaceOne | lib/haml2erb/element_converter.rb:89 | a single class attribute is replaced by one expansion of the replacement against it |
| ElementConverter.RemoveOne | lib/haml2erb/element_converter.rb:90 | removing `\s*class="[^"]*"` from a lone class attribute leaves nothing |
| ElementConverter.ClassAttributeValue | lib/haml2erb/element_converter.rb:84-85 | the class value read out of ` class="v"` is `v` |
| ElementConverter.ElementMatch | lib/haml2erb/element_converter.rb:34-38 | a match exactly when the line is `%` and a name character; the line is then `%` + tag + rest, the tag is the longest non-empty name run, and the rest does not start with a name character |
| ElementConverter.ElementMatchOf | lib/haml2erb/element_converter.rb:34-38 | `%tag` followed by a non-name character matches with that tag and rest |
| ElementConverter.ChainParts | lib/haml2erb/element_converter.rb:55-63 | the part loop collects the classes and ids that the tag parser's part fold gives |
| ElementConverter.ConvertChain | lib/haml2erb/element_converter.rb:44-72 | the chain branch computes `ChainHead`: the chain's class and id attributes and the text after the chain, or nothing and the whole rest without a chain |
| ElementConverter.ChainHeadOf | lib/haml2erb/element_converter.rb:44-72 | a chain running to `e` gives the attributes of its collected names and the text from `e` on |
| ElementConverter.ClassChain | lib/haml2erb/element_converter.rb:44-72 | a `.a` chain gives ` class="a"` and leaves the text after it |
| ElementConverter.OneClassSpec | lib/haml2erb/element_converter.rb:55-63 | the spec `.a` collects the one class `a` |
| ElementConverter.OneClassAttributes | lib/haml2erb/element_converter.rb:65-68 | one class and no ids make ` class="a"` |
| ElementConverter.ExtractBalancedBraces | lib/haml2erb/element_converter.rb:211-246 | the brace-counting loop computes the shared balanced-brace function without backslash escapes: `nil` unless the stripped text opens with `{`, else the text inside the first brace that brings the count back to zero and what follows it |
| ElementConverter.ConvertHash | lib/haml2erb/element_converter.rb:76-101 | the hash branch computes `HashStep`: the fused attributes and the stripped content after the braces, or the attributes unchanged and the stripped rest |
| ElementConverter.HashStepOf | lib/haml2erb/element_converter.rb:76-95 | a balanced hash appends the fused hash attributes and takes the stripped remainder as content |
| ElementConverter.HashClass | lib/haml2erb/element_converter.rb:76-95 | `{class: "b"}` after ` class="a"` fuses into ` class="a b"` with no content |
| ElementConverter.BracedClass | lib/haml2erb/element_converter.rb:211-246 | `{class: "b"}` is one balanced hash with nothing after it |
| ElementConverter.ClassRendering | lib/haml2erb/element_converter.rb:79 | the hash text `class: "b"` renders as ` class="b"` |
| ElementConverter.ConvertElement | lib/haml2erb/element_converter.rb:31-119 | the method computes `Convert`: pass-through for ERB or a non-element, otherwise the rendered element |
| ElementConverter.ElementOf | lib/haml2erb/element_converter.rb:34-101 | the element is the tag with the attributes and content of its chain and hash steps |
| ElementConverter.PassThrough | lib/haml2erb/element_converter.rb:32-35 | a line holding `<%`, or not opening with `%` and a name character, is copied behind the indent |
| ElementConverter.VoidElement | lib/haml2erb/element_converter.rb:104-105 | a void element is its open tag alone, with or without children |
| ElementConverter.ChildrenOpenOnly | lib/haml2erb/element_converter.rb:108-109 | a non-void element with children is its open tag alone, and that line is a prefix of its childless form |
| ElementConverter.RenderWithChildren | lib/haml2erb/element_converter.rb:104-118 | rendering with children gives the open tag, a prefix of the childless rendering |
| ElementConverter.NoErb | lib/haml2erb/element_converter.rb:32 | a line without `<` holds no `<%` |
| ElementConverter.CodeLine | lib/haml2erb/element_converter.rb:112-114 | `%tag= code` renders as `<tag><%= code %></tag>` |
| ElementConverter.CodeRender | lib/haml2erb/element_converter.rb:112-114 | content `= code` renders as the stripped code inside `<%= … %>` between the tags |
| ElementConverter.CodeElement | lib/haml2erb/element_converter.rb:34-101 | `%tag= code` is an element with no attributes and content `= code` |
| ElementConverter.FusedClassLine | lib/haml2erb/element_converter.rb:31-119 | `%tag.a{class: "b"}` renders as `<tag class="a b"></tag>`, the case at spec/haml2erb_spec.rb:414-418 with a tag name |
| ElementConverter.FusedClassRender | lib/haml2erb/element_converter.rb:106-107 | an empty childless element with ` class="a b"` renders as an open-close pair |
| ElementConverter.FusedClassElement | lib/haml2erb/element_converter.rb:34-101 | `%tag.a{class: "b"}` is an element with the one attribute ` class="a b"` and no content |
| ElementConverter.BraceMatch | lib/haml2erb/element_converter.rb:126 | a match splits the rest into the text before the first `{`, the text up to the next `}`, and the text after it |
| ElementConverter.BraceMatchOf | lib/haml2erb/element_converter.rb:126 | `a{inner}` with no `{` in `a` and no `}` in `inner` matches as those parts |
| ElementConverter.ClassLineFails | lib/haml2erb/element_converter.rb:178-183 | as written, `convert_class` has no result exactly when the line is the lone `.` |
| ElementConverter.ClassLineAgrees | lib/haml2erb/element_converter.rb:121-193 | wherever `convert_class` as written has a result, the corrected function gives the same line |
| ElementConverter.ClosedAgrees | lib/haml2erb/element_converter.rb:186-191 | the closing variant differs from `convert_class` only on a bare line without children, where `</div>` takes the place of the final newline |
| ElementConverter.LoneDot | lib/haml2erb/element_converter.rb:178-191 | the corrected function renders a lone `.` as an open `div` with an empty class attribute |
| ElementConverter.ClassLinePlain | lib/haml2erb/element_converter.rb:177-191 | a class line without `{` takes its first word as the class spec and the second as the content |
| ElementConverter.ClassNoContent | lib/haml2erb/element_converter.rb:177-191 | `.spec` without content or hash renders an open `div` only, with or without children; its classes are the non-empty dot-fields of the spec |
| ElementConverter.ClosedNoContent | lib/haml2erb/element_converter.rb:177-191 | in the closing variant, `.spec` without content or hash renders a closed `div` pair, or the open `div` alone when it has children |
| ElementConverter.ClosedLinePlain | lib/haml2erb/element_converter.rb:177-191 | the closing variant also takes a class line's first word as the spec and the second as the content |
| ElementConverter.ClosedEmpty | lib/haml2erb/element_converter.rb:186-191 | in the closing variant, a plain class line without content is a closed pair unless it has children |
| ElementConverter.PlainCloses | lib/haml2erb/element_converter.rb:186-191 | closing a bare plain class line without children replaces its final newline with `</div>` and a newline, and changes no other line |
| ElementConverter.PlainOpenOnly | lib/haml2erb/element_converter.rb:189-190 | without content, or with children, the plain class line is the open `div` only |
| ElementConverter.PlainWithContent | lib/haml2erb/element_converter.rb:186-188 | with content and no children the plain class line wraps the interpolated content in the `div` pair |
| ElementConverter.ClassWithContent | lib/haml2erb/element_converter.rb:177-191 | `.spec c` wraps the interpolated `c` in a `div` pair, or opens the `div` only when there are children |
| ElementConverter.OneField | lib/haml2erb/element_converter.rb:183 | a dot-free name is its own single class |
| ElementConverter.WholeField | lib/haml2erb/element_converter.rb:183 | the first dot-field of a dot-free text is the whole text |
| ElementConverter.BareClassDiverges | lib/haml2erb/element_converter.rb:186-191 | `.name` without children renders an open `div` only, while the tag builder renders the closed pair `<div class="name"></div>`; the two disagree |
| ElementConverter.BareClassCloses | lib/haml2erb/element_converter.rb:186-191 | the closing variant renders a bare `.name` line without children exactly as the tag builder renders the same spec |
| ElementConverter.BareClassPair | lib/haml2erb/element_converter.rb:186-191 | the closing variant renders `.name` without children as `<div class="name"></div>` |
| ElementConverter.ClassLineHashClass | lib/haml2erb/element_converter.rb:125-160 | `.a{class: "b"}` renders as `<div class="a b"></div>`, the case at spec/haml2erb_spec.rb:414-418 |
| ElementConverter.ClassLineFused | lib/haml2erb/element_converter.rb:139-157 | a hash rendering to ` class="b"` after the class `a` gives `<div class="a b"></div>` |
| ElementConverter.ClosedHashClassLine | lib/haml2erb/element_converter.rb:150-157 | a class line with a hash and no content or children is the closed `div` pair around its attributes |
| ElementConverter.FusedClassAttributes | lib/haml2erb/element_converter.rb:139-151 | the hash's class value follows the listed classes in the one class attribute, and the hash's class attribute is dropped |
| ElementConverter.IdNoContent | lib/haml2erb/element_converter.rb:195-207 | `#id` without content renders an open `div` with that id |
| ElementConverter.IdWithContent | lib/haml2erb/element_converter.rb:195-207 | `#id c` wraps the interpolated `c` in a `div` pair, or opens the `div` only when there are children |
| ElementConverter.IdFields | lib/haml2erb/element_converter.rb:197 | the split of `id c` gives the two fields `id` and `c` |
| ElementConverter.IdLineOf | lib/haml2erb/element_converter.rb:195-207 | with the fields `id` and a non-empty `c`, the id line is the pair around the content, or the open tag with children |
| LineProcessor.Classify | lib/haml2erb/line_processor.rb:27-51 | definition: the `if`/`elsif` chain of `process`: the first sigil that selects the stripped line, else plain text |
| LineProcessor.Dispatch | lib/haml2erb/line_processor.rb:27-51 | definition: the renderer that `Classify` picks, applied to the stripped line and the indent |
| LineProcessor.Process | lib/haml2erb/line_processor.rb:21-52 | definition: `process`: a blank line returned as it is, any other dispatched behind its leading whitespace |
| LineProcessor.RubyOutputLine | lib/haml2erb/line_processor.rb:59-71 | definition: `convert_ruby_output_line`: split at the first ` #` outside a string into code and comment tags |
| LineProcessor.TextLine | lib/haml2erb/line_processor.rb:100-106 | definition: `convert_text_line`: interpolations rewritten, then `\-` unescaped |
| LineProcessor.DoctypeLine | lib/haml2erb/line_processor.rb:108-114 | definition: `convert_doctype_line`: only `!!!` itself becomes the HTML doctype |
| LineProcessor.FilterLine | lib/haml2erb/line_processor.rb:116-126 | definition: `convert_filter_line`: `:ruby` starts a filter at the indent's length, any other filter line is copied |
| LineProcessor.LiteralScan | lib/haml2erb/line_processor.rb:136-165 | definition: the three flags of `inside_string_literal?` after a prefix of the code |
| LineProcessor.FirstSigil | lib/haml2erb/line_processor.rb:27-51 | the reference classification: plain text, or the renderer of a table sigil that selects the line |
| LineProcessor.ClassifyIsFirstSigil | lib/haml2erb/line_processor.rb:27-51 | the `if`/`elsif` chain of `process` picks exactly the first sigil of the ordered table that selects the line |
| LineProcessor.FirstSigilFrom | lib/haml2erb/line_processor.rb:27-51 | once the entries before `i` are past, the table search from `i` still finds the chain's choice |
| LineProcessor.NotInTable | lib/haml2erb/line_processor.rb:49-50 | the one renderer that no sigil selects is plain text |
| LineProcessor.SigilMiss | lib/haml2erb/line_processor.rb:27-51 | a sigil tried before the chain's choice does not select the line |
| LineProcessor.SigilHit | lib/haml2erb/line_processor.rb:27-51 | the sigil of the chain's choice selects the line |
| LineProcessor.SigilStep | lib/haml2erb/line_processor.rb:27-51 | one step of the table search: a selecting sigil wins, otherwise the search goes on |
| LineProcessor.InsideStringLiteral | lib/haml2erb/line_processor.rb:136-165 | the loop with its three flags reports whether the scan of the code up to the position ends inside a quote |
| LineProcessor.LiteralScanPrefix | lib/haml2erb/line_processor.rb:142-162 | the scan up to a position does not look past it |
| LineProcessor.LiteralScanPlain | lib/haml2erb/line_processor.rb:142-162 | code without quotes or backslashes leaves the scan outside any literal |
| LineProcessor.EscapedPair | lib/haml2erb/line_processor.rb:145-153 | a backslash and the character it escapes leave the scan state as it was |
| LineProcessor.QuotedSpan | lib/haml2erb/line_processor.rb:155-161 | between a quote and its matching quote the scan is inside that quote, and after it outside again |
| LineProcessor.InsideSpan | lib/haml2erb/line_processor.rb:155-161 | after an opening quote and before its match the scan is inside the quote |
| LineProcessor.BlankLine | lib/haml2erb/line_processor.rb:25 | a blank line is returned unchanged |
| LineProcessor.ProcessOf | lib/haml2erb/line_processor.rb:21-52 | a trimmed line behind whitespace is dispatched on its stripped text with that whitespace as the indent |
| LineProcessor.BodyAfter | lib/haml2erb/line_processor.rb:74 | the text after a sigil and a space, stripped, is the body |
| LineProcessor.Trimmed | lib/haml2erb/line_processor.rb:22 | `sigil body` with trimmed ends is its own strip |
| LineProcessor.RubyCodeLine | lib/haml2erb/line_processor.rb:73-76 | `- code` becomes `<% code %>` |
| LineProcessor.RubyCodeParts | lib/haml2erb/line_processor.rb:39-40 | `- code` is a code line whose stripped body is the code |
| LineProcessor.ClassifyRubyCode | lib/haml2erb/line_processor.rb:29-40 | a `-` not followed by `#` selects the code renderer |
| LineProcessor.HamlCommentLine | lib/haml2erb/line_processor.rb:93-98 | `-# text` becomes `<%# text %>` |
| LineProcessor.HamlCommentParts | lib/haml2erb/line_processor.rb:29-30 | `-# text` is a HAML comment whose body is the text |
| LineProcessor.ClassifyHamlComment | lib/haml2erb/line_processor.rb:29-30 | `-#` selects the HAML comment renderer |
| LineProcessor.EscapedOutputLine | lib/haml2erb/line_processor.rb:78-81 | `&= code` becomes `<%= code %>` |
| LineProcessor.EscapedOutputParts | lib/haml2erb/line_processor.rb:41-42 | `&= code` is an escaped-output line whose body is the code |
| LineProcessor.ClassifyEscapedOutput | lib/haml2erb/line_processor.rb:41-42 | `&=` selects the escaped-output renderer |
| LineProcessor.UnescapedOutputLine | lib/haml2erb/line_processor.rb:83-86 | `!= code` becomes `<%== code %>` |
| LineProcessor.UnescapedOutputParts | lib/haml2erb/line_processor.rb:43-44 | `!= code` is an unescaped-output line whose body is the code |
| LineProcessor.ClassifyUnescapedOutput | lib/haml2erb/line_processor.rb:27-44 | `!=` not starting `!!!` selects the unescaped-output renderer |
| LineProcessor.CommentLine | lib/haml2erb/line_processor.rb:88-91 | `/ text` becomes `<!-- text -->` |
| LineProcessor.CommentParts | lib/haml2erb/line_processor.rb:45-46 | `/ text` is a comment line whose body is the text |
| LineProcessor.ClassifyComment | lib/haml2erb/line_processor.rb:45-46 | `/` selects the comment renderer |
| LineProcessor.DoctypeLines | lib/haml2erb/line_processor.rb:108-114 | `!!!` alone becomes `<!DOCTYPE html>` and any longer `!!!…` line is copied |
| LineProcessor.FilterLines | lib/haml2erb/line_processor.rb:116-126 | `:ruby` yields a filter start at the indent's length and any other filter line is copied |
| LineProcessor.ClassifyFilter | lib/haml2erb/line_processor.rb:47-48 | `:` selects the filter renderer |
| LineProcessor.ElementRoute | lib/haml2erb/line_processor.rb:31-32 | a `%` line goes to the element converter |
| LineProcessor.ClassRoute | lib/haml2erb/line_processor.rb:33-34 | a `.` line goes to the class converter |
| LineProcessor.IdRoute | lib/haml2erb/line_processor.rb:35-36 | a `#` line not opening `#{` goes to the id converter |
| LineProcessor.ClassifyId | lib/haml2erb/line_processor.rb:35-36 | `#` not followed by `{` selects the id renderer |
| LineProcessor.ClassifyInterpolation | lib/haml2erb/line_processor.rb:35-50 | a line opening with `#{` is plain text, not an id |
| LineProcessor.RubyOutputRoute | lib/haml2erb/line_processor.rb:37-38 | a `=` line goes to the Ruby-output renderer |
| LineProcessor.ClassifyRubyOutput | lib/haml2erb/line_processor.rb:37-38 | `=` selects the Ruby-output renderer |
| LineProcessor.RubyOutputPlain | lib/haml2erb/line_processor.rb:67-70 | `= code` without ` #` becomes `<%= code %>` |
| LineProcessor.FirstHashAfter | lib/haml2erb/line_processor.rb:63 | the first ` #` in `a #c` is the one after `a` when `a` holds none |
| LineProcessor.CommentedCode | lib/haml2erb/line_processor.rb:60 | the stripped code of `= a #c` is `a #c` |
| LineProcessor.RenderAtHash | lib/haml2erb/line_processor.rb:63-70 | a ` #` outside a string splits the line into `<%= a %> <%# c %>`; inside a string the whole code is one output tag |
| LineProcessor.HashAfter | lib/haml2erb/line_processor.rb:63 | for `a #c` the first ` #` is after `a` and the literal scan there sees only `a` |
| LineProcessor.CommentedRender | lib/haml2erb/line_processor.rb:59-71 | `= a #c`: an output tag and a comment tag when `a` ends outside a string, one output tag otherwise |
| LineProcessor.RubyOutputComment | lib/haml2erb/line_processor.rb:63-66 | `= a #c` with `a` outside a string gives `<%= a %> <%# c %>` |
| LineProcessor.RubyOutputHashInString | lib/haml2erb/line_processor.rb:63-69 | `= a #c` with the ` #` inside a string literal gives one `<%= a #c %>` |
| LineProcessor.UnescapeDash | lib/haml2erb/line_processor.rb:104 | dropping escape backslashes never lengthens the text |
| LineProcessor.UnescapeDashIdentity | lib/haml2erb/line_processor.rb:104 | text without `\-` is unchanged |
| LineProcessor.UnescapeDashPlain | lib/haml2erb/line_processor.rb:104 | a backslash-free prefix is copied and the rewrite goes on after it |
| LineProcessor.UnescapeDashAt | lib/haml2erb/line_processor.rb:104 | `\-` becomes `-` |
| LineProcessor.ClassifyText | lib/haml2erb/line_processor.rb:49-50 | a line opening with none of the sigil characters is plain text |
| LineProcessor.TextCopied | lib/haml2erb/line_processor.rb:100-106 | plain text without `#` or `\-` is copied behind the indent |
| LineProcessor.TextEscapedDash | lib/haml2erb/line_processor.rb:100-106 | a text line opening with `\-` starts with a plain `-` |
| LineProcessor.TextInterpolation | lib/haml2erb/line_processor.rb:100-106 | a text line opening with `#{x}` starts with `<%= x %>` |
| LineProcessor.OutputTagPlain | lib/haml2erb/line_processor.rb:102 | the output tag around a backslash-free `x` holds no backslash |
| LineProcessor.TextAfterRewrite | lib/haml2erb/line_processor.rb:100-106 | a backslash-free head of the rewritten text is kept as it is by the dash rewrite |
| LineProcessor.TextRoute | lib/haml2erb/line_processor.rb:49-50 | a plain-text line goes to the text renderer |
| BlockStackManager.Closer | lib/haml2erb/block_stack_manager.rb:51-56 | definition: a frame's closing text behind as many spaces as its indent |
| BlockStackManager.IsElseOrElsif | lib/haml2erb/block_stack_manager.rb:66-71 | definition: `is_else_or_elsif?`: a `-` line whose code starts with `else` or `elsif` |
| BlockStackManager.OpensWith | lib/haml2erb/block_stack_manager.rb:79 | definition: code that is the keyword itself or starts with it and a space |
| BlockStackManager.CreatesBlock | lib/haml2erb/block_stack_manager.rb:75-83 | definition: `creates_block?`: a block keyword opens the code, or it holds ` do ` |
| BlockStackManager.Manager.IsEmpty | lib/haml2erb/block_stack_manager.rb:58-60 | definition: `empty?` on the stack |
| BlockStackManager.Closers | lib/haml2erb/block_stack_manager.rb:51-56 | one closing line per frame, the top of the stack first, each at its frame's indent |
| BlockStackManager.ClosersStep | lib/haml2erb/block_stack_manager.rb:12-15 | popping one more frame appends that frame's closer after the closers of the frames above it |
| BlockStackManager.Kept | lib/haml2erb/block_stack_manager.rb:10-22 | the frames that stay are a prefix: every dropped frame is at or deeper than the line (deeper for else/elsif), and the top kept frame is not |
| BlockStackManager.KeptByIndent | lib/haml2erb/block_stack_manager.rb:10-22 | on a stack of increasing indents no kept frame would have been popped, so the close loop removes exactly the frames at or below the line's level |
| BlockStackManager.TopAfterClose | lib/haml2erb/block_stack_manager.rb:10-22 | after the close, the top frame is shallower than the line, or no deeper than it for else/elsif |
| BlockStackManager.AnyKeyword | lib/haml2erb/block_stack_manager.rb:77-79 | true exactly when some keyword from position `i` on opens the code (the keyword alone or followed by a space) |
| BlockStackManager.KeywordNeedsBoundary | lib/haml2erb/block_stack_manager.rb:75-83 | `if` followed by a non-space character is not the `if` keyword, so such code creates a block only through ` do ` |
| BlockStackManager.KeywordBlocks | lib/haml2erb/block_stack_manager.rb:77-79 | `if`, `unless` and `begin` alone, and `if …`, `while …`, `case …`, create blocks |
| BlockStackManager.TagOf | lib/haml2erb/block_stack_manager.rb:39-41 | the tag name is the longest non-empty `[\w-]` run right after `%`, and there is none exactly when the line lacks `%` and a name character at its head |
| BlockStackManager.Pushed | lib/haml2erb/block_stack_manager.rb:25-49 | at most one frame, at the line's indent, and only an `= … do` line pushes without deeper children |
| BlockStackManager.OutputDoPushes | lib/haml2erb/block_stack_manager.rb:28-29 | an `=` line holding ` do` pushes an `<% end %>` frame whatever follows |
| BlockStackManager.CodePushes | lib/haml2erb/block_stack_manager.rb:30-37 | a `-` line with deeper children pushes an `<% end %>` frame exactly when its code is not else/elsif and creates a block |
| BlockStackManager.ElementPushes | lib/haml2erb/block_stack_manager.rb:38-43 | a `%tag` line with deeper children pushes a frame closing that tag |
| BlockStackManager.ShorthandPushes | lib/haml2erb/block_stack_manager.rb:44-47 | a `.class` or `#id` line with deeper children pushes a `</div>` frame |
| BlockStackManager.ElseDoesNotPush | lib/haml2erb/block_stack_manager.rb:30-36 | an else/elsif line never pushes a frame |
| BlockStackManager.PushKeepsIncreasing | lib/haml2erb/block_stack_manager.rb:25-49 | pushing after a close keeps the stack's indents strictly increasing |
| BlockStackManager.Manager.constructor | lib/haml2erb/block_stack_manager.rb:5-7 | the stack starts empty |
| BlockStackManager.Manager.CloseBlocksForIndent | lib/haml2erb/block_stack_manager.rb:9-23 | the stack becomes its kept prefix and the closers of the popped frames are appended, innermost first |
| BlockStackManager.Manager.TrackBlockForLine | lib/haml2erb/block_stack_manager.rb:25-49 | the stack grows by exactly the frame the line pushes, if any |
| BlockStackManager.Manager.CloseAllBlocks | lib/haml2erb/block_stack_manager.rb:51-56 | the stack is emptied and every frame's closer is appended, innermost first |
| FilterProcessor.FilterCloser | lib/haml2erb/filter_processor.rb:32-37 | definition: `%>` behind as many spaces as the filter's indent |
| FilterProcessor.Filter.Active | lib/haml2erb/filter_processor.rb:39-41 | definition: `active?`: a filter is set |
| FilterProcessor.Content | lib/haml2erb/filter_processor.rb:17-30 | no filter: nothing happens; a deeper line is consumed and copied as it is, keeping the filter; any other line clears the filter, appends its closer and is not consumed |
| FilterProcessor.Closing | lib/haml2erb/filter_processor.rb:32-37 | one closer exactly when a filter is active, none otherwise |
| FilterProcessor.ContentKeepsFilter | lib/haml2erb/filter_processor.rb:26-28 | a deeper line is filter content whatever it holds |
| FilterProcessor.ShallowLineCloses | lib/haml2erb/filter_processor.rb:20-24 | a line at or above the filter's indent emits `%>` at the filter's indent and ends the filter |
| FilterProcessor.Filter.constructor | lib/haml2erb/filter_processor.rb:5-7 | no filter is active at the start |
| FilterProcessor.Filter.StartFilter | lib/haml2erb/filter_processor.rb:9-15 | `ruby` takes the slot at the indent and returns `<%` at that indent; any other type returns nothing and leaves the slot |
| FilterProcessor.Filter.ProcessFilterContent | lib/haml2erb/filter_processor.rb:17-30 | the new slot, the appended lines and the consumed flag are those of `Content` on the old slot |
| FilterProcessor.Filter.CloseFilter | lib/haml2erb/filter_processor.rb:32-37 | the slot is emptied and the closer of the old filter, if any, is appended |
| Converter.LogicalLines | lib/haml2erb/converter.rb:74-128 | definition: `merge_multiline_statements`: each logical line from an index on, a merged block or continuation counted once |
| Converter.Processed | lib/haml2erb/converter.rb:43 | definition: `process_line` on the line, with children when the next line is deeper |
| Converter.Render | lib/haml2erb/converter.rb:39-54 | definition: the loop body for a non-blank line the filter did not take: close blocks, append the result, track the line |
| Converter.Step | lib/haml2erb/converter.rb:26-54 | definition: one pass of the loop: the filter first, then a blank line copied or the line rendered |
| Converter.Finish | lib/haml2erb/converter.rb:57-61 | definition: the filter's closer, then the closers of the open blocks, innermost first |
| Converter.Document | lib/haml2erb/converter.rb:20-64 | definition: `convert`: the logical lines run through the loop, finished and joined |
| Converter.BlankIsStripEmpty | lib/haml2erb/converter.rb:34 | a whitespace-only line is exactly one whose strip is empty |
| Converter.BlankIsAllSpace | lib/haml2erb/converter.rb:34 | a blank line is one made of whitespace characters only |
| Converter.BlankLineIndent | lib/haml2erb/converter.rb:26 | the indent of a blank line is its whole length, newline included |
| Converter.AttributeText | lib/haml2erb/converter.rb:200 | one trailing comma is dropped from an attribute line, and a line without one is kept |
| Converter.AttributeLines | lib/haml2erb/converter.rb:147-206 | a found closing brace lies at or after the start of the scan and before the end of the lines |
| Converter.AttributeLinesFound | lib/haml2erb/converter.rb:147-206 | when the attribute loop finds its `}`, that line is a lone `}`, every line before it is blank or a deeper attribute line, and the attributes are exactly those lines' texts |
| Converter.FoundAtBrace | lib/haml2erb/converter.rb:159 | the index the attribute loop stops at holds a lone `}` |
| Converter.FoundRun | lib/haml2erb/converter.rb:153-202 | every line the attribute loop passed is blank or deeper than the opener and not a lone `}` |
| Converter.FoundAttrs | lib/haml2erb/converter.rb:199-201 | the attributes gathered are the non-empty comma-trimmed texts of the lines passed |
| Converter.RunExtend | lib/haml2erb/converter.rb:153-202 | a blank or deeper line in front of an attribute run extends it |
| Converter.AttributeLinesAt | lib/haml2erb/converter.rb:147-206 | a lone `}` ending a run of attribute lines is always found |
| Converter.AttributeLinesIs | lib/haml2erb/converter.rb:147-206 | the attribute loop stops exactly at the `}` ending the run, with the run's attributes |
| Converter.ClosingBraceUnique | lib/haml2erb/converter.rb:159 | only one lone `}` can end an attribute run |
| Converter.AttributeLinesStep | lib/haml2erb/converter.rb:147-206 | one pass of the attribute loop: a blank line is skipped, a `}` ends the loop, a line not deeper fails it, and a deeper line adds its attribute |
| Converter.ContentRun | lib/haml2erb/converter.rb:165-187 | the content loop stops at or after its start and within the lines |
| Converter.ContentRunText | lib/haml2erb/converter.rb:165-187 | the content gathered is the stripped non-blank lines the loop passed |
| Converter.ContentRunIndent | lib/haml2erb/converter.rb:176-182 | the lines passed share the first non-blank line's indent and the line the loop stopped at, if any, does not |
| Converter.ContentRunStep | lib/haml2erb/converter.rb:165-187 | one pass of the content loop: blank lines are skipped, the first non-blank line fixes the indent, and a line with another indent ends the loop |
| Converter.GatherContent | lib/haml2erb/converter.rb:161-187 | the content loop computes `ContentRun` from the line after the `}` |
| Converter.AttributeBlock | lib/haml2erb/converter.rb:136-210 | a merged block resumes scanning after its `}` line, within the lines |
| Converter.AttributeBlockNone | lib/haml2erb/converter.rb:136-210 | merging gives nothing exactly when no lone `}` ends a run of attribute lines deeper than the opener |
| Converter.AttributeBlockAt | lib/haml2erb/converter.rb:141-193 | once the `}` is found, the block is `indent element{ a1, a2 }`, then the content run joined with spaces, and scanning resumes where the content ends |
| Converter.MergeMultilineAttributes | lib/haml2erb/converter.rb:136-210 | the attribute loop and the content loop compute `AttributeBlock` |
| Converter.Continuation | lib/haml2erb/converter.rb:98-118 | the continuation loop stops at or after its start and within the lines |
| Converter.ContinuationStep | lib/haml2erb/converter.rb:98-118 | one pass of the continuation loop: a blank line is skipped, a line not deeper stops it, a deeper one is absorbed |
| Converter.ContinuationDeeper | lib/haml2erb/converter.rb:104-110 | every line the continuation absorbed or skipped is blank or deeper than the `=` line |
| Converter.ContinuationStops | lib/haml2erb/converter.rb:110 | the continuation stops at the end or at a non-blank line not deeper than the `=` line |
| Converter.ContinuationText | lib/haml2erb/converter.rb:113 | the merged text is the `=` line, chomped, followed by a space and each absorbed line's stripped text |
| Converter.Converter.AbsorbContinuation | lib/haml2erb/converter.rb:98-118 | the continuation loop computes `Continuation` |
| Converter.CommaMerge | lib/haml2erb/converter.rb:92-120 | a line ending with a comma merges the deeper lines after it into one logical line and resumes at the first line not deeper |
| Converter.MergeAt | lib/haml2erb/converter.rb:78-125 | each logical line consumes at least one physical line |
| Converter.MergeAtSingle | lib/haml2erb/converter.rb:121-124 | a line that starts no multi-line statement is its own logical line |
| Converter.MergeAtBlock | lib/haml2erb/converter.rb:82-88 | an opener with a closable block becomes the merged block line and scanning resumes after it |
| Converter.MergeAtComma | lib/haml2erb/converter.rb:92-120 | an `=` line ending with a comma becomes its continuation, newline-terminated |
| Converter.MergedIdentity | lib/haml2erb/converter.rb:74-128 | lines that start no multi-line statement pass through unchanged |
| Converter.OwnLogicalLines | lib/haml2erb/converter.rb:74-128 | lines that are each their own logical line come out as they went in |
| Converter.LogicalStep | lib/haml2erb/converter.rb:78-125 | the logical lines from `i` are the one at `i` followed by those from where it ends |
| Converter.Converter.MergeMultilineStatements | lib/haml2erb/converter.rb:74-128 | the loop computes `LogicalLines` |
| Converter.Appended | lib/haml2erb/converter.rb:45-51 | at most one output line is appended per processed line |
| Converter.Outputs | lib/haml2erb/converter.rb:43 | one processed output per logical line |
| Converter.Run | lib/haml2erb/converter.rb:25-55 | after any number of lines the frame indents on the block stack strictly increase from bottom to top |
| Converter.RunNext | lib/haml2erb/converter.rb:25-55 | the state after `n + 1` lines is one loop pass on the state after `n` |
| Converter.BlankLineCopied | lib/haml2erb/converter.rb:33-37 | a blank line outside a filter is copied as it is and leaves the stack alone |
| Converter.FilterLineCopied | lib/haml2erb/converter.rb:31 | inside a filter a deeper line is copied as it is and the stack and filter stay |
| Converter.StepRenders | lib/haml2erb/converter.rb:39-54 | a non-blank line outside a filter is closed for, processed and tracked |
| Converter.ClosersFirst | lib/haml2erb/converter.rb:39-51 | a rendered line emits the closers of the popped frames first, innermost first, and at most one line of its own; the kept frames stay |
| Converter.BlankNextLineIsChild | lib/haml2erb/converter.rb:26-28 | a top-level line followed by a blank `"\n"` line counts as having children, because the newline is counted as indent |
| Converter.RenderKeepsIncreasing | lib/haml2erb/converter.rb:39-54 | closing and tracking keep the frame indents strictly increasing |
| Converter.StepKeepsIncreasing | lib/haml2erb/converter.rb:25-55 | one loop pass keeps the frame indents strictly increasing |
| Converter.FilterClosedFirst | lib/haml2erb/converter.rb:57-61 | at the end, an open filter's closer comes before the closers of the open frames |
| Converter.Converter.constructor | lib/haml2erb/converter.rb:11-15 | a new converter holds its input, an empty block stack and an idle filter |
| Converter.Converter.Convert | lib/haml2erb/converter.rb:20-64 | the conversion returns `Document` of the input: the merged logical lines walked through the stack and the filter, then the filter and block closers, joined; the stack and filter are idle after it |
| Converter.Converter.ConvertLine | lib/haml2erb/converter.rb:26-54 | one pass of the loop body leaves the stack, the filter and the output as `Step` says |
| Converter.Converter.RenderLine | lib/haml2erb/converter.rb:39-54 | closing, processing, appending and tracking leave the state as `Render` says |
| Converter.Converter.EmitResult | lib/haml2erb/converter.rb:45-51 | a filter start opens the filter and appends its opener; a non-empty line is appended; nothing else changes |

## Left out

- The `Haml2erb.convert` wrapper in `lib/haml2erb.rb` and its unused `Error` class. `Converter.Converter.Convert` is the entry point.
- Regular expressions are matched on single-line subjects. Ruby's `.` not matching a newline, and `^` and `$` matching at inner line breaks, are not modelled. This only matters for a subject holding a newline in its middle; each physical line ends in at most one.
- Unicode: whitespace is ASCII whitespace. Ruby's `String#strip` also removes trailing NUL characters; the model's `Text.Strip` does not.
- ReplaceClass: the named reference `\k<name>` in a gsub replacement string is kept literally. The pattern has no named groups, and Ruby's reaction to such a reference is not modelled. The other replacement escapes are expanded as Ruby does (`ElementConverter.ExpandReplacement`).
- Dispatch: a lone `.` line is rendered by the corrected `ElementConverter.ConvertClass`, as an open `div` with an empty class. Ruby raises `NoMethodError` there (see Findings). `LineProcessor.Process`, `Converter.Document` and `Converter.Converter.Convert` therefore state an output for documents on which the program fails.
- Dispatch: a bare `.name` line without children keeps `convert_class`'s open `div`, as the program does. The closed pair that the repository's tests expect is `ElementConverter.ConvertClassClosed`, which the conversion path does not use (see Findings).
- `process_string_interpolations` (lib/haml2erb/line_processor.rb:128-132) returns its argument, so the `=` renderer uses the code unchanged.
- `ElementConverter#process_interpolation` (lib/haml2erb/element_converter.rb:248-260) is the same rewrite as `StringUtils.process_interpolation`, and both conversion paths use `StringUtils.ProcessInterpolation`.
- The second guard `rest.match(/^\s*\{/)` at lib/haml2erb/element_converter.rb:76 accepts exactly what `rest.strip.start_with?("{")` accepts, so only the first is modelled.
- The branch at lib/haml2erb/element_converter.rb:110-111 cannot be reached: empty content without children is caught two branches earlier. The model keeps it, and nothing is proved about it.
- I/O: there is none in the engine. The input is a string and the output is a string.

## Findings

| source | as written | input that shows it | evidently intended | confidence | as-written member | corrected member |
|---|---|---|---|---|---|---|
| lib/haml2erb/element_converter.rb:178-183 | `convert_class` splits the text after the dot with `split(" ", 2)` and calls `split(".")` on the first field, which is `nil` when that text is empty | the line `.` | read the missing class spec as `""`, as `convert_id` does for `#`, giving `<div class="">` | not executed | `ElementConverter.ClassLineFails` (on `ElementConverter.ConvertClassAsWritten`) | `ElementConverter.LoneDot` (on `ElementConverter.ConvertClass`) |
| lib/haml2erb/element_converter.rb:186-191 | a class line without `{`, content or children emits only `<div class="…">`, and no frame closes it later | `.card.border.active`, which the tests at spec/haml2erb_spec.rb:108-112 and spec/haml2erb_spec.rb:167-171 expect to become `<div class="card border active"></div>` | the closed pair, as the hash branch of `convert_class` and the tag builder emit it | not executed | `ElementConverter.BareClassDiverges` (on `ElementConverter.ConvertClass`) | `ElementConverter.BareClassCloses` (on `ElementConverter.ConvertClassClosed`) |
