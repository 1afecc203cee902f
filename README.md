# htmldocck in Dafny

A model of `src/etc/htmldocck.py`, the checker that the Rust documentation
tests use to check rustdoc's HTML output against directives written in the
test sources. The model covers the checker itself and proves properties of it:

- Reading a template: backslash-continued lines are joined into logical lines, each numbered by its first physical line (`concat_multi_lines`). The `@cmd args` directives are then found on those lines (`LINE_PATTERN`, `get_commands`).
- Parsing documentation pages into element trees: `CustomHTMLParser` drives a tree builder. Void elements are closed at once, and entity and character references are resolved. The tree builder follows the pure-Python `xml.etree.ElementTree.TreeBuilder` of Python 2.7. The source imports `cElementTree`, whose C builder differs in the ways listed under "Left out".
- Querying trees: the text flattening of `flatten`, and `normalize_xpath`.
- `CachedFiles`: the read-once cache of files and parsed trees, and the `-` shorthand for the previous path.
- The check engine: `check_string`, the tree tests, `@count`, and `check`, which runs the commands in order and stops at the first failure.

Pure logic is written as functions. The loops of the source are methods proved against those functions:

- `concat_multi_lines` and its inner prefix loop;
- `_flatten`;
- the element loops of `check_tree_attr` and `check_tree_text`;
- `check`.

The two objects whose fields the source updates are classes: the parser, with its builder, and the cache.

Everything outside the file is a field of `Environment.Host`:

- the file system, as a map from full path to contents;
- `os.path.normpath` and `os.path.join`;
- the `HTMLParser` tokenizer, as the events it reports and then the error it stops with;
- the standard entity table;
- `findall`;
- `re.search`;
- `shlex.split`.

Every `raise` is a constructor of `Failures.Error`. A generator that yields items and then raises is a `Failures.Stream`.

One quirk of the source is kept as written. `firstlineno = firstlineno or lineno` treats line 0 as "no line yet". So a continued directive that starts on the first physical line is numbered by its second line. `Directives.ContinuationJoins` states this case explicitly.

## Model

| member | source | states |
|---|---|---|
| Directives.PyOr | src/etc/htmldocck.py:187 | `a or b` on line numbers: the first unless it is missing or zero |
| Directives.CommonPrefixLen | src/etc/htmldocck.py:180-184 | the length of the longest common prefix of two lines: both agree below it, and they differ at it or one ends there |
| Directives.CommonPrefixIs | src/etc/htmldocck.py:180-184 | the shared prefix ends exactly at the first position below both lengths where the lines differ |
| Directives.SharedPrefix | src/etc/htmldocck.py:180-184 | the character-comparison loop computes exactly the common prefix length |
| Directives.StripSharedRemoves | src/etc/htmldocck.py:179-185 | a continuation line loses exactly the prefix it shares with the previous line and then only whitespace; what is kept is a suffix that does not start with whitespace |
| Directives.Advance | src/etc/htmldocck.py:186-195 | one line of the generator: a yielded line carries `firstlineno or lineno` and resets the state; a continued line keeps the pending first line number |
| Directives.ConcatMultiLines | src/etc/htmldocck.py:166-198 | the generator loop yields exactly the logical lines of the joining specification, then raises or ends as it does |
| Directives.JoinFromEnds | src/etc/htmldocck.py:175-198 | from any state, the only error the generator raises is the trailing-backslash one |
| Directives.JoinLines | src/etc/htmldocck.py:166-198 | the only error the joined template raises is the trailing backslash |
| Directives.PlainLinesPassThrough | src/etc/htmldocck.py:175-195 | without backslashes, each physical line becomes one logical line, numbered from 0, with its line terminator removed |
| Directives.ContinuationPends | src/etc/htmldocck.py:176-190 | in any state, a line that ends in a backslash once processed yields nothing; its body is appended to the pending text and becomes the previous line, and the first line number is kept (`firstlineno or lineno`) |
| Directives.ContinuationResumes | src/etc/htmldocck.py:179-194 | after any number of continued lines, a line that does not continue is yielded as the pending text plus that line stripped of the prefix it shares with the previous body, under the first line's number, or this line's when the first was line 0 |
| Directives.ContinuationChain | src/etc/htmldocck.py:179-194 | three joined lines: each is stripped against the body of the line just before it, not against the first, and the result is numbered 1 |
| Directives.ContinuationJoins | src/etc/htmldocck.py:187-194 | two joined physical lines give one logical line numbered by the first, with line 0 reported as 1 |
| Directives.ProcessedIsSuffix | src/etc/htmldocck.py:176-185 | the processed line is a suffix of the raw line without its terminator |
| Directives.EndsCleanly | src/etc/htmldocck.py:197-198 | a template whose last line does not end in a backslash never raises |
| Directives.TrailingBackslashRaises | src/etc/htmldocck.py:188-198 | with no continuation pending, a last line ending in a backslash makes the generator raise the trailing-backslash error |
| Directives.SharedBackslashAbsorbed | src/etc/htmldocck.py:179-198 | with a continuation pending, a last line ending in a backslash need not raise: the backslash can be stripped as part of the prefix shared with the line before |
| Directives.LoneContinuedLineRaises | src/etc/htmldocck.py:188-198 | a one-line template ending in a backslash yields nothing and raises |
| Directives.LineNumbersIncrease | src/etc/htmldocck.py:175-194 | logical line numbers are strictly increasing and lie within the template |
| Directives.LetterRunEnd | src/etc/htmldocck.py:202 | the end of the maximal run of ASCII letters from a position |
| Directives.CmdEnd | src/etc/htmldocck.py:202 | the greedy end of `[A-Za-z]+(?:-[A-Za-z]+)*` from a position: letters and inner hyphens each followed by a letter, and no further extension possible |
| Directives.CmdNameSlice | src/etc/htmldocck.py:202 | a slice of letters and letter-followed hyphens, starting and ending with a letter, is a command name |
| Directives.MatchAt | src/etc/htmldocck.py:200-204 | a match after an `@` splits the rest of the line into optional `!`, a command name and the arguments, which cannot extend the name |
| Directives.SearchFrom | src/etc/htmldocck.py:210 | `search` finds the leftmost position where the pattern matches, or reports that none does |
| Directives.CmdEndFinds | src/etc/htmldocck.py:202 | the greedy command-name scan stops exactly at the end of a command name followed by arguments that cannot extend it |
| Directives.CmdSplitUnique | src/etc/htmldocck.py:202-203 | a line splits into command name and arguments in one way only |
| Directives.BangCancels | src/etc/htmldocck.py:201 | the optional `!` can be cancelled from both sides of an equation |
| Directives.SearchFindsFirst | src/etc/htmldocck.py:210 | the first matching position is the match found |
| Directives.RenderedDirectiveMatches | src/etc/htmldocck.py:200-204 | in `prefix @[!]cmd args`, the pattern matches just after the `@` and nowhere before it |
| Directives.SearchFindsDirective | src/etc/htmldocck.py:200-204 | a written-out directive is found with its negation, command and arguments |
| Directives.ParseDirective | src/etc/htmldocck.py:210-220 | a line without a directive yields nothing; a directive whose arguments do not start with whitespace raises at its 1-based line; otherwise it yields the command with the matched fields, the split arguments and the 1-based line, or raises the splitter's quoting error |
| Directives.ParseDirectiveRoundTrip | src/etc/htmldocck.py:207-220 | a written-out directive is parsed back into its command, or raises the quoting error of the splitter |
| Directives.NoDirectiveNoCommands | src/etc/htmldocck.py:210-212 | lines without directives yield no commands and pass the joining error on |
| Directives.CommandsOrdered | src/etc/htmldocck.py:209-220 | commands from increasingly numbered lines have well-formed names and strictly increasing 1-based line numbers |
| Directives.Commands | src/etc/htmldocck.py:209-220 | at most one command per logical line; an error the line joining raised is still raised unless a directive raised first; a stream that ends cleanly had every line parse |
| Directives.GetCommands | src/etc/htmldocck.py:207-220 | the commands of any template carry well-formed names and strictly increasing line numbers within 1..N; a template that fails to join always raises |
| Text.Collapse | src/etc/htmldocck.py:304-305 | `' '.join(s.split())` leaves only single inner spaces and keeps exactly the words of `s` |
| Text.CollapseIdempotent | src/etc/htmldocck.py:304-305 | collapsing whitespace twice is collapsing it once |
| Text.WordsOfJoin | src/etc/htmldocck.py:304-305 | splitting a space-joined list of words gives the words back |
| Text.JoinSpacedCanonical | src/etc/htmldocck.py:304-305 | a space-joined list of words has only single inner spaces |
| Text.BlankCollapsesToEmpty | src/etc/htmldocck.py:304-305 | a string of whitespace collapses to the empty string |
| Text.WordsAtSpace | src/etc/htmldocck.py:304-305 | cutting a string just before a whitespace character cuts its `split()` there too |
| Text.WordsAroundBlank | src/etc/htmldocck.py:304-305 | the words of two texts joined by any whitespace run are the words of the first, then those of the second |
| Text.JoinSpacedAppend | src/etc/htmldocck.py:304-305 | `' '.join` of two non-empty word lists put together is their joins with one space between |
| Text.CollapseAroundBlank | src/etc/htmldocck.py:304-305 | any run of whitespace between two texts collapses to one space, or to nothing when either side has no words |
| Text.LStripBlank | src/etc/htmldocck.py:185 | `lstrip` drops exactly the leading whitespace |
| Text.LStripSuffix | src/etc/htmldocck.py:185 | what `lstrip` keeps is a suffix of the line, and everything it drops is whitespace |
| Text.FindFrom | src/etc/htmldocck.py:359 | the first occurrence of a separator at or after a position, or none |
| Text.ParseIntNumeral | src/etc/htmldocck.py:373 | `int(str(n))` is `n`, as `int(c.args[2])` reads the count (the same `int` as in `handle_charref` at line 156) |
| Text.HexValue | src/etc/htmldocck.py:156 | the hexadecimal digits of `n` have value `n` |
| Text.ParseIntHex | src/etc/htmldocck.py:156 | `int(h, 16)` is `n` for the hexadecimal digits `h` of `n` |
| Text.ParseDigits | src/etc/htmldocck.py:156 | `int(s, base)` of a non-empty run of digits, without sign or whitespace, is the digits' value |
| Text.ParseInt | src/etc/htmldocck.py:156 | `int(s, base)` (here and as `int(c.args[2])` at line 373) succeeds only when the stripped text ends in a digit, and is negative only after a leading minus |
| Tree.ConcatParts | src/etc/htmldocck.py:223-235 | joining the pieces `_flatten` collects gives the element's text content |
| Tree.FlattenInto | src/etc/htmldocck.py:223-229 | `_flatten` appends the element's text, then each child's pieces and non-empty tail, in order, to the accumulator |
| Tree.FlattenText | src/etc/htmldocck.py:232-235 | `flatten` returns the element's text content |
| Tree.FlattenLeaf | src/etc/htmldocck.py:223-225 | an element without children flattens to its text |
| Tree.FlattenAppendChild | src/etc/htmldocck.py:226-229 | appending a child appends its text content and its tail |
| Tree.Flatten | src/etc/htmldocck.py:232-235 | the text content of an element starts with the element's own text |
| Tree.FlattenContainsChild | src/etc/htmldocck.py:226-229 | every child's text content, followed by its tail, occurs in the parent's |
| Tree.NormalizeXPath | src/etc/htmldocck.py:238-245 | only paths starting with `//` or `.//` are accepted, and the result always starts with `.//`; any other path raises |
| Tree.NormalizeXPathIdempotent | src/etc/htmldocck.py:238-242 | a normalised path normalises to itself |
| TreeBuilder.Flush | src/etc/htmldocck.py:149-150 | buffered text becomes the text of the innermost open element if one was last started, or the tail of the element last closed; before any element it is dropped; nothing else changes and the builder stays well formed |
| TreeBuilder.Apply | src/etc/htmldocck.py:137-150 | one builder call keeps the builder well formed; `end` raises iff no element is open or the innermost open element has another tag |
| TreeBuilder.ApplyAllAppend | src/etc/htmldocck.py:135-157 | handling two runs of calls is handling the first, then the second from where it left off |
| TreeBuilder.Close | src/etc/htmldocck.py:161 | closing succeeds iff every element was closed and one exists, and then returns the last top-level element |
| TreeBuilder.RenderBuilds | src/etc/htmldocck.py:135-161 | the calls of a well-nested element, from any builder state, attach exactly that element and buffer its tail |
| TreeBuilder.BuildRender | src/etc/htmldocck.py:125-161 | the calls that render an element tree build that tree back, without its tail |
| Markup.Entities | src/etc/htmldocck.py:116-118 | the standard entity table plus `larrb` and `rarrb`, with the standard entries kept |
| Markup.AttrDict | src/etc/htmldocck.py:136 | the attribute dictionary has exactly the names of the attribute list |
| Markup.AttrDictLastWins | src/etc/htmldocck.py:136 | each name maps to its last occurrence's value, or `''` if that has none |
| Markup.CharRefText | src/etc/htmldocck.py:155-157 | a character reference gives one character, from hex after `x`/`X` and decimal otherwise; a reference that names no character raises |
| Markup.CharRefDecimal | src/etc/htmldocck.py:155-157 | the decimal reference to any character decodes to that character |
| Markup.CharRefHex | src/etc/htmldocck.py:155-157 | the hexadecimal reference to any character, after `x` or `X`, decodes to that character |
| Markup.Handle | src/etc/htmldocck.py:135-157 | a handler raises only for an unknown entity or a bad character reference |
| Markup.FeedAllIsApplyAll | src/etc/htmldocck.py:135-157 | when no handler raises, feeding the events is applying their builder calls in order |
| Markup.ParseRendered | src/etc/htmldocck.py:125-161 | a document whose events ask for the calls that render a tree parses back to that tree |
| Markup.VoidStartSelfCloses | src/etc/htmldocck.py:135-147 | a void element's start tag is handled exactly like its self-closing form |
| Markup.VoidStartIsLeaf | src/etc/htmldocck.py:135-139 | a void element's start tag attaches an element without children at once, from any builder state |
| Markup.BlankFeeds | src/etc/htmldocck.py:149-150 | text buffered before any element makes no difference to later events |
| Markup.BlankStep | src/etc/htmldocck.py:135-150 | one event handled while only text is buffered gives the same result as with nothing buffered, up to buffered text |
| Markup.LeadingTextDropped | src/etc/htmldocck.py:149-150 | text before the document's first element is dropped |
| Markup.CustomHtmlParser.constructor | src/etc/htmldocck.py:131-133 | a new parser has an empty builder and the given entity table |
| Markup.CustomHtmlParser.HandleStartTag | src/etc/htmldocck.py:135-139 | `handle_starttag` starts the element and ends a void one at once |
| Markup.CustomHtmlParser.HandleEndTag | src/etc/htmldocck.py:141-142 | `handle_endtag` ends the element, or raises the builder's error and leaves the builder as it was |
| Markup.CustomHtmlParser.HandleStartEndTag | src/etc/htmldocck.py:144-147 | `handle_startendtag` starts and ends the element |
| Markup.SelfClosingIsLeaf | src/etc/htmldocck.py:144-147 | a self-closing tag adds, after flushing pending text, a leaf element with its attributes and no text, children or tail |
| Markup.CustomHtmlParser.HandleData | src/etc/htmldocck.py:149-150 | `handle_data` passes the text to the builder |
| Markup.CustomHtmlParser.HandleEntityRef | src/etc/htmldocck.py:152-153 | `handle_entityref` passes the entity's text on; an unknown name raises and changes nothing |
| Markup.CustomHtmlParser.HandleCharRef | src/etc/htmldocck.py:155-157 | `handle_charref` passes the character on; a bad reference raises and changes nothing |
| Markup.CustomHtmlParser.Feed | src/etc/htmldocck.py:135-157 | feeding events leaves the builder where the event-by-event specification does, or raises its first error |
| Markup.CustomHtmlParser.Close | src/etc/htmldocck.py:159-161 | `close` raises the tokenizer's error first, then closes the builder |
| Markup.ParseDocument | src/etc/htmldocck.py:290 | parsing a file with a fresh parser gives the specified result |
| Markup.ParseEvents | src/etc/htmldocck.py:159-161 | a document the tokenizer stops on with an error never parses, and neither does one without any event (no root element) |
| Cache.Resolve | src/etc/htmldocck.py:255-263 | `-` means the previous path, and raises if there is none; any other path is normalised and becomes the previous path; nothing cached changes |
| Cache.FetchFile | src/etc/htmldocck.py:265-277 | `get_file` leaves the tree cache alone, never changes a cached text, and what it returns is cached under the resolved path |
| Cache.FetchTree | src/etc/htmldocck.py:279-295 | `get_tree` leaves the file cache alone, never changes a cached tree, and what it returns is cached under the resolved path |
| Cache.FetchFileTransparent | src/etc/htmldocck.py:265-277 | while the cache agrees with the disk, `get_file` returns what reading the disk returns, and the cache keeps agreeing |
| Cache.FetchTreeTransparent | src/etc/htmldocck.py:279-295 | while the cache agrees with the disk, `get_tree` returns what parsing the file returns, and the cache keeps agreeing |
| Cache.FetchSetsPreviousPath | src/etc/htmldocck.py:255-259 | every fetch sets the previous path as resolving does, whether or not the file opens |
| Cache.FetchFileAgain | src/etc/htmldocck.py:265-268 | a file read once is served again from the cache, unchanged |
| Cache.FetchTreeAgain | src/etc/htmldocck.py:279-282 | a tree parsed once is served again from the cache, unchanged |
| Cache.CachedFileIgnoresDisk | src/etc/htmldocck.py:267-268 | a cached file is served without reading the disk |
| Cache.EmptyCoherent | src/etc/htmldocck.py:249-253 | a fresh cache agrees with any disk |
| Cache.CachedFiles.constructor | src/etc/htmldocck.py:249-253 | a new cache is empty, with no previous path |
| Cache.CachedFiles.ResolvePath | src/etc/htmldocck.py:255-263 | `resolve_path` returns and records what `Resolve` specifies |
| Cache.CachedFiles.GetFile | src/etc/htmldocck.py:265-277 | `get_file` returns and caches what `FetchFile` specifies |
| Cache.CachedFiles.GetTree | src/etc/htmldocck.py:279-295 | `get_tree` parses with a fresh parser object, and returns and caches what `FetchTree` specifies |
| Engine.CheckString | src/etc/htmldocck.py:298-306 | an empty pattern always matches; a literal test never raises; only a bad regular expression raises |
| Engine.LiteralIgnoresSpacing | src/etc/htmldocck.py:303-306 | a literal test gives the same answer when text and pattern are already collapsed |
| Engine.LiteralFindsItself | src/etc/htmldocck.py:303-306 | a text matches any pattern with the same words |
| Engine.Select | src/etc/htmldocck.py:310-312 | a path that is not document-relative raises before the tree is queried |
| Engine.AnyAttrLiteral | src/etc/htmldocck.py:309-321 | a literal attribute test holds iff some selected element has the attribute with a matching value |
| Engine.AnyAttrPresence | src/etc/htmldocck.py:299-321 | with an empty pattern, the attribute test holds iff some selected element has the attribute |
| Engine.AnyTextLiteral | src/etc/htmldocck.py:324-336 | a literal text test holds iff some selected element's text content matches |
| Engine.AnyTextPresence | src/etc/htmldocck.py:299-336 | with an empty pattern, the text test holds iff the path selects something |
| Engine.AnyAttrRegex | src/etc/htmldocck.py:301-321 | with a pattern that compiles, a regular-expression attribute test holds iff some selected element has the attribute with a value the pattern is found in |
| Engine.AnyAttrRegexSyntax | src/etc/htmldocck.py:301-321 | with a pattern that does not compile, the attribute test raises iff some selected element has the attribute, and is false otherwise |
| Engine.AnyTextRegex | src/etc/htmldocck.py:301-336 | with a pattern that compiles, a regular-expression text test holds iff the pattern is found in some selected element's text content |
| Engine.AnyTextRegexSyntax | src/etc/htmldocck.py:301-336 | with a pattern that does not compile, the text test raises iff the path selects something, and is false otherwise |
| Engine.CheckTreeAttr | src/etc/htmldocck.py:309-321 | the element loop of `check_tree_attr` computes the attribute test on the selected elements |
| Engine.CheckTreeText | src/etc/htmldocck.py:324-336 | the element loop of `check_tree_text` computes the text test on the selected elements |
| Engine.TreeCount | src/etc/htmldocck.py:339-341 | the count test raises exactly when selection does, and holds iff the number selected equals the count |
| Engine.SplitQuery | src/etc/htmldocck.py:359-365 | the argument splits at its first `/@` into a path without `/@` and an attribute; otherwise it is a text query whose path is the argument with one trailing `/text()` dropped, if it has one, and the whole argument if not |
| Engine.SplitAttrQuery | src/etc/htmldocck.py:359-361 | `path/@attr` splits back into its path and attribute |
| Engine.SplitTextQuery | src/etc/htmldocck.py:362-365 | `path/text()`, for a path without `/@`, is a text query on that path |
| Engine.EvalCoherent | src/etc/htmldocck.py:345-385 | evaluating any command keeps a cache that agrees with the disk in agreement |
| Engine.Eval | src/etc/htmldocck.py:346-385 | only a known test command with an accepted number of arguments computes a result, and only such a command changes the cache; one-argument `@has` never raises |
| Engine.Run | src/etc/htmldocck.py:387-389 | a command passes iff its result differs from its negation flag; a command that raises fails with that error |
| Engine.NegationFlips | src/etc/htmldocck.py:387-389 | negation does not change what a command computes, and flips whether it passes unless it raises |
| Engine.UnimplementedFails | src/etc/htmldocck.py:378-382 | `@valid-html` and `@valid-links` fail, negated or not, and touch nothing |
| Engine.UnknownFails | src/etc/htmldocck.py:384-385 | an unknown command fails, negated or not, and touches nothing |
| Engine.WrongArgumentCountFails | src/etc/htmldocck.py:347-374 | `@has`/`@matches` with no or more than three arguments, one-argument `@matches`, and `@count` without exactly three arguments raise the argument-count error, negated or not, and touch nothing |
| Engine.MatchesNeedsPattern | src/etc/htmldocck.py:347-369 | `@matches` with one argument has the wrong number of arguments |
| Engine.HasFileExists | src/etc/htmldocck.py:349-354 | `@has PATH` never raises and holds iff the file can be read |
| Engine.CountIsExact | src/etc/htmldocck.py:371-373 | `@count PATH XPATH N` holds iff the path selects exactly N elements |
| Engine.TreeTestFetchesOnce | src/etc/htmldocck.py:358-361 | the second tree fetch of a tree test is a cache hit with no effect |
| Engine.TemplateErrorFails | src/etc/htmldocck.py:344-346 | an error raised by the template source always makes the run fail |
| Engine.PassMeansAllPass | src/etc/htmldocck.py:344-389 | a run passes only if every command passes in turn and the template raised nothing |
| Engine.FailureHidesRest | src/etc/htmldocck.py:344-389 | once a command fails, later commands and template errors make no difference |
| Engine.TrailingBackslashFails | src/etc/htmldocck.py:188-198 | a one-line template ending in a backslash fails the run with the trailing-backslash error |
| Engine.BadTemplateFails | src/etc/htmldocck.py:207-220 | a template that raises while being read fails the run |
| Engine.RunCommand | src/etc/htmldocck.py:346-389 | one iteration of `check` gives the outcome and cache state `Run` specifies |
| Engine.Check | src/etc/htmldocck.py:344-389 | `check` over a command stream gives the outcome of the run specification |
| Engine.CheckAll | src/etc/htmldocck.py:344-389 | a failure other than the template's own error comes from a command |
| Engine.CheckStream | src/etc/htmldocck.py:344-389 | a command stream that raised never passes; without commands the run fails exactly when the stream raised |

## Left out

- The command-line entry point (`__main__`, argument count, usage message): this is I/O.
- Opening and reading the template file is left out. A template is given as its lines, terminators included.
- The file system is a map from full path to contents. Files do not change during a run. Any failure to open a file is a missing key.
- `os.path.normpath` and `os.path.join` are host functions. Their definitions are not modelled.
- The `HTMLParser` tokenizer is a host function that reports events and the error it stops with. Its internals are not modelled: lowercasing of tags, unescaping of attribute values, and comments and declarations (reported as ignored events).
- ElementTree's `findall` is a host function that returns the selected elements or a syntax error. XPath evaluation is not modelled.
- `re.search` is a host function. Regular expressions are not modelled. A pattern that does not compile is the host's verdict.
- `shlex.split` is a host function. Quoting rules are not modelled.
- Markup.CharRefText: a surrogate code point (U+D800 to U+DFFF) is rejected. Python 2's `unichr` accepts it, but a Dafny `char` cannot hold it.
- Text.ParseInt: this models `int()` as optional surrounding whitespace, one optional sign and at least one digit. Python 2 forms such as a `0x` prefix with base 16, a trailing `L`, or whitespace after the sign are not modelled.
- Strings are sequences of Unicode characters. The UTF-8 byte encoding of character references and of file contents is not modelled.
- Markup.CustomHtmlParser: the builder is held as a value that the handlers reassign. Object identity of the ElementTree builder is not modelled.
- The tree builder follows the pure-Python `xml.etree.ElementTree.TreeBuilder` of Python 2.7. Its source is not part of this model. The source actually builds with `cElementTree`, whose C `TreeBuilder` behaves differently in three ways, listed next.
- TreeBuilder.Apply: `end` raises when the innermost open element has another tag, as the pure-Python builder's assertion does. The C builder does not compare tags and closes the innermost element whatever the tag.
- TreeBuilder.Apply: a second top-level element replaces the first as the one `close` returns, as in the pure-Python builder. The C builder raises on a second top-level element.
- TreeBuilder.Close: raises when elements are still open or none was closed, as the pure-Python builder's assertions do. The C builder does not check for open elements, and returns None when there is no root.
- Cache.FetchTree: a parse failure raises `CannotParse` with the path only. The message text of the underlying exception is not kept.
- Error messages are constructors with their data. The exact message strings are not modelled.
- `LINE_PATTERN` is matched against logical lines without a newline, so `.*$` takes the rest of the line.
