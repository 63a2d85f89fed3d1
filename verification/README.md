# pythreatspec in Dafny

This project models the core of pythreatspec, the Python implementation of
ThreatSpec. ThreatSpec is a way of writing a threat model as tags inside source
comments. The model has two parts.

**The tag engine** (`pythreatspec/pythreatspec.py`):
- It finds the tag lines of a comment (`@alias`, `@describe`, `@connects`,
  `@review`, `@mitigates`, `@exposes`, `@transfers`, `@accepts`).
- It dispatches each line to its handler, which reads the line with the
  handler's pattern.
- It normalises names into `@`-identifiers.
- It registers boundaries, components and threats.
- It appends review and element records (mitigations, exposures, transfers,
  acceptances), each with its source location.
- It fills the four-level data-flow diagram.
- It renders the whole graph as the intermediate JSON document.

**The CWE library converters** (`cwe_to_threatspec.py` and
`cwe_sfp_to_threatspec.py`): they turn a parsed CWE catalogue into a library of
threats.
- The first files every weakness under a generated identifier.
- The second builds the Software Fault Pattern hierarchy: top-level clusters
  under `@sfp`, sub-categories under their parent cluster, and weaknesses under
  their SFP category.
- `create_id`, `create_description` and `create_refs` are written out identically
  in both scripts (`cwe_sfp_to_threatspec.py:11-19`, `:24-42` and `:44-47`); the
  model defines them once, in CweCatalogue, and the SFP converter uses those.

Modules, leaves first:

| file | module | what it holds |
|---|---|---|
| wrappers.dfy | Wrappers | `Option`, `Result`, `Outcome` |
| chars.dfy | Chars | Python 2 character classes (`\s`, `\w`), `str.lower()`, case-insensitive comparison |
| identifiers.dfy | Identifiers | `is_identifier`, `text_to_identifier`, `remove_excessive_space` |
| identifier_examples.dfy | IdentifierExamples | the `text_to_identifier` and `remove_excessive_space` cases of the unit tests, proved from the general lemmas |
| records.dfy | Records | source locations, properties, records, errors, their JSON renderings |
| dfd.dfy | DataFlow | `PTSDfdEdge`, the `PTSDfd` tree as a class, its export |
| matchers.dfy | Matchers | the eight handler patterns as hand-written matchers, `re.findall(...)[0]` |
| matcher_lemmas.dfy | MatcherLemmas | what each matcher reads, and that a rendered tag line is read back |
| tags.dfy | Tags | the tag finder (`tag_regex`) and the `parse_table` dispatch |
| graph.dfy | ThreatModel | the parser's graph and every handler as a function on it, with the properties it keeps |
| parser.dfy | ParserState | `PyThreatspecParser` as a class whose methods update its dictionaries in place, each proved against ThreatModel |
| reporter.dfy | Reporter | `PyThreatspecReporter.export_to_json` and the document it builds |
| assignments.dfy | Assignments | a dictionary filled by a sequence of `d[k] = v` statements, the shape of the converter loops |
| cwe.dfy | CweCatalogue | `create_id`, `create_name`, `create_description`, `create_refs`, the weakness loop |
| cwe_sfp.dfy | SfpCatalogue | the SFP converter: category names and ids, its four passes, the whole library |

The tag engine has two layers:
- `ThreatModel` describes every handler as a function from graph to graph, or to
  an error. The lemmas about the handlers are proved there.
- `ParserState.Parser` holds the same dictionaries as fields. Each method's
  `ensures` ties its new state and result to the `ThreatModel` function applied
  to the old state.

The converters follow the same pattern. Each loop that fills a dictionary is a
method. It is proved equal to `Assignments.Assigned` applied to the sequence of
writes the loop performs. The lemmas about that sequence then say which entries
the library holds.

Semantics follow Python 2, which the source targets (it uses `iteritems`):
- `\w` is `[A-Za-z0-9_]`;
- in the tag engine, `\s` and `str.strip()` use the six ASCII whitespace
  characters, as they do on a Python 2 `str`; the converters are modelled the
  same way (see "## Left out");
- `str.lower()` changes only `A`–`Z`.

Three behaviours of the tag engine that the model keeps as the code has them:
- `PTSDfd.add_edge` (pythreatspec/pythreatspec.py:445-449) stores an edge only
  when its leaf is missing, so the FIRST edge between two end points is kept and
  a later one is ignored.
- The exported DFD leaf has the keys `type`, `function`, `fname` and `lineno`
  (pythreatspec/pythreatspec.py:423-426).
- `@transfers` reports a pattern mismatch with the `@exposes` message
  (pythreatspec/pythreatspec.py:1047). `Records.Error` keeps the keyword the
  code names.

## Model

| member | source | states |
|---|---|---|
| Chars.Lower | pythreatspec/pythreatspec.py:63 | `str.lower()` on one character never yields a capital letter, leaves every other character alone and keeps word characters word characters |
| Chars.LowerStrConcat | pythreatspec/pythreatspec.py:63 | lower-casing commutes with concatenation |
| Chars.LowerStrSlice | pythreatspec/pythreatspec.py:63 | lower-casing commutes with slicing |
| Identifiers.LeadingSpace | pythreatspec/pythreatspec.py:63 | `lstrip()` removes exactly the whitespace prefix: every character before the cut is whitespace and the first one kept is not |
| Identifiers.TrailingSpace | pythreatspec/pythreatspec.py:63 | `rstrip()` removes exactly the whitespace suffix: every character after the cut is whitespace and the last one kept is not |
| Identifiers.StripLeftConcat | pythreatspec/pythreatspec.py:63 | `lstrip()` of a whitespace run followed by text that starts with non-whitespace is that text |
| Identifiers.StripRightConcat | pythreatspec/pythreatspec.py:63 | `rstrip()` of text that ends with non-whitespace followed by a whitespace run is that text |
| Identifiers.Strip | pythreatspec/pythreatspec.py:63 | `strip()` leaves no whitespace at either end |
| Identifiers.StripSlice | pythreatspec/pythreatspec.py:63 | `strip()` returns a contiguous piece of the input with only whitespace cut off before and after it |
| Identifiers.StripAround | pythreatspec/pythreatspec.py:63 | `strip()` of a text wrapped in whitespace runs is that text, when it starts and ends with non-whitespace |
| Identifiers.SpacesToUnderscores | pythreatspec/pythreatspec.py:63 | `"_".join(s.split(" "))` turns every space into an underscore and keeps every other character in place |
| Identifiers.DropHyphens | pythreatspec/pythreatspec.py:63 | `re.sub('-', '', s)` leaves no hyphen, adds no character and is no longer than the input |
| Identifiers.DropHyphensKeeps | pythreatspec/pythreatspec.py:63 | a text without hyphens is unchanged by `re.sub('-', '', s)` |
| Identifiers.DropHyphensConcat | pythreatspec/pythreatspec.py:63 | removing hyphens works part by part, so the other characters keep their order |
| Identifiers.TextToIdentifier | pythreatspec/pythreatspec.py:45-63 | "" maps to "" and only "" does; an `@`-id is returned unchanged; any other text becomes `@` followed by the stripped text, lower-cased, spaces made underscores and hyphens removed, so with no space, hyphen or capital letter |
| Identifiers.CanonicalIffFixpoint | pythreatspec/pythreatspec.py:33-63 | a string is left unchanged by `text_to_identifier` exactly when it is "" or starts with `@` |
| Identifiers.TextToIdentifierIdempotent | pythreatspec/pythreatspec.py:45-63 | normalising an identifier twice equals normalising it once |
| Identifiers.CollapseSpec | pythreatspec/pythreatspec.py:77 | `re.sub('\s+', ' ', s)` has only single spaces as whitespace, the same non-whitespace characters in order, and keeps a non-whitespace first character |
| Identifiers.CollapseWord | pythreatspec/pythreatspec.py:77 | `re.sub('\s+', ' ', s)` keeps a word without whitespace as it is and goes on after it |
| Identifiers.CollapseRun | pythreatspec/pythreatspec.py:77 | `re.sub('\s+', ' ', s)` turns a whole whitespace run into one space, so the words on either side stay apart |
| Identifiers.RemoveExcessiveSpace | pythreatspec/pythreatspec.py:66-77 | the result has single spaces only, no space at either end, and the input's non-whitespace characters in order |
| Identifiers.NormalizedIffFixpoint | pythreatspec/pythreatspec.py:66-77 | a string is left unchanged by `remove_excessive_space` exactly when it is already normalised |
| Identifiers.RemoveExcessiveSpaceLeading | pythreatspec/pythreatspec.py:66-77 | leading whitespace does not change the result |
| Identifiers.RemoveExcessiveSpaceWord | pythreatspec/pythreatspec.py:66-77 | a word followed by a whitespace run and more text becomes the word, one space and the normalised rest; a word followed only by whitespace becomes the word |
| IdentifierExamples.TextToIdentifierKeeps | tests/pythreatspec_test.py:20-21 | `text_to_identifier("")` is "" and `text_to_identifier("@abc")` is "@abc" |
| IdentifierExamples.TextToIdentifierSpaces | tests/pythreatspec_test.py:22 | `text_to_identifier("a b c")` is "@a_b_c" |
| IdentifierExamples.TextToIdentifierTrims | tests/pythreatspec_test.py:23 | `text_to_identifier(" a b c ")` is "@a_b_c" |
| IdentifierExamples.TextToIdentifierHyphens | tests/pythreatspec_test.py:24 | `text_to_identifier("a-b-c")` is "@abc" |
| IdentifierExamples.RemoveExcessiveSpaceDouble | tests/pythreatspec_test.py:28 | `remove_excessive_space("a  b")` is "a b" |
| IdentifierExamples.RemoveExcessiveSpaceRuns | tests/pythreatspec_test.py:29 | `remove_excessive_space("  a  b c ")` is "a b c" |
| Identifiers.RemoveExcessiveSpaceIdempotent | pythreatspec/pythreatspec.py:66-77 | normalising space twice equals doing it once |
| Records.Strings | pythreatspec/pythreatspec.py:249-262 | the reference list exports as JSON strings, one per reference, in order |
| Records.MetaJson | pythreatspec/pythreatspec.py:100-107 | a source location exports as an object with exactly the keys file, line and function |
| Records.PropertyJson | pythreatspec/pythreatspec.py:129-136 | a property exports its name, and its description exactly when the description is not empty |
| Records.RecordJson | pythreatspec/pythreatspec.py:249-298 | exporting a review or element fails with "metadata has not been set" exactly when its metadata is missing; otherwise an object whose boundary, component, refs and source keys hold the record's values |
| DataFlow.MakeEdge | pythreatspec/pythreatspec.py:471-479 | every end point of an edge is canonical (empty or an `@`-reference), and the connection type and metadata are kept |
| DataFlow.EdgeAdded | pythreatspec/pythreatspec.py:430-449 | `add_edge` fails with "metadata has not been set" exactly when the metadata is unset, and with "incorrect type" exactly when it is some other object |
| DataFlow.LevelsKeepEdges | pythreatspec/pythreatspec.py:439-444 | creating the missing intermediate levels changes no stored edge |
| DataFlow.InsertLookup | pythreatspec/pythreatspec.py:445-449 | after an insertion the four end points hold the edge stored before, if any, or else the new one; every other edge is unchanged |
| DataFlow.InsertIdempotent | pythreatspec/pythreatspec.py:445-449 | inserting an edge whose end points are already filled changes nothing |
| DataFlow.EdgeJsonFields | pythreatspec/pythreatspec.py:422-426 | an exported leaf has exactly the keys type, function, fname and lineno, holding the connection and the declaring function, file and line |
| DataFlow.TreeJsonLookup | pythreatspec/pythreatspec.py:409-428 | every stored edge is exported at its own four keys |
| DataFlow.Dfd.constructor | pythreatspec/pythreatspec.py:405-407 | a new diagram has an empty tree |
| DataFlow.Dfd.AddEdge | pythreatspec/pythreatspec.py:430-449 | the outcome and the new tree are those of `EdgeAdded` on the old tree |
| DataFlow.Dfd.ExportToJson | pythreatspec/pythreatspec.py:409-428 | the loops build exactly the JSON rendering of the tree |
| DataFlow.ExportSourceComponents | pythreatspec/pythreatspec.py:415-426 | the loop over source components builds their rendering |
| DataFlow.ExportDestBoundaries | pythreatspec/pythreatspec.py:418-426 | the loop over destination boundaries builds their rendering |
| DataFlow.ExportDests | pythreatspec/pythreatspec.py:421-426 | the loop over destination components builds their rendering |
| Matchers.Keyword | pythreatspec/pythreatspec.py:648-655 | every tag keyword is a lower-case word of at least five letters |
| Matchers.FirstLine | pythreatspec/pythreatspec.py:779 | `.*` takes the prefix up to the first newline or the end |
| Matchers.Occurrence | pythreatspec/pythreatspec.py:947 | a found literal occurs at the returned position, up to case |
| Matchers.First | pythreatspec/pythreatspec.py:1106 | a pattern position found lies within the comment |
| MatcherLemmas.OccurrenceSound | pythreatspec/pythreatspec.py:947 | the literal is found at its leftmost position, and "not found" means it occurs nowhere |
| MatcherLemmas.OccurrenceFirst | pythreatspec/pythreatspec.py:947 | at a found position the literal occurs, and it occurs at no earlier position from the start |
| MatcherLemmas.RefEndSound | pythreatspec/pythreatspec.py:909 | `(@?\w+)` reads a reference and stops at the first non-word character |
| MatcherLemmas.PairEndSound | pythreatspec/pythreatspec.py:909 | `(@?\w+):(@?\w+)` reads two references separated by a colon |
| MatcherLemmas.LastSplitSound | pythreatspec/pythreatspec.py:1028 | the greedy `(.*)` ends at the last position where the rest of the pattern can follow |
| MatcherLemmas.LastSplitHere | pythreatspec/pythreatspec.py:1028 | the backwards search for the greedy split stops at a position where the rest of the pattern follows |
| MatcherLemmas.LastSplitStep | pythreatspec/pythreatspec.py:1028 | the search passes over a position where the rest of the pattern cannot follow |
| MatcherLemmas.PropertyTailSound | pythreatspec/pythreatspec.py:779 | an `@alias` or `@describe` match consists of a class, an id, an optional sub-id and the text, and the line spells them out, up to case |
| MatcherLemmas.ConnectsTailSound | pythreatspec/pythreatspec.py:868 | a `@connects` match consists of four words and a connector `to` or `with`, followed by a word boundary |
| MatcherLemmas.ConnectsReadSound | pythreatspec/pythreatspec.py:868 | the groups read at the positions found are four words and a connector, the line up to them is their rendering up to case, and a non-word character or the end follows |
| MatcherLemmas.ReviewTailSound | pythreatspec/pythreatspec.py:909 | a `@review` match splits the line into two references and the text |
| MatcherLemmas.LazyTailSound | pythreatspec/pythreatspec.py:947-988 | a `@mitigates` or `@exposes` match ends its threat at the first " with " |
| MatcherLemmas.LazyReadSound | pythreatspec/pythreatspec.py:947-988 | the groups read at the positions found are two references, a threat holding no " with ", and the text, and the line spells them out up to case |
| MatcherLemmas.GreedyTailSound | pythreatspec/pythreatspec.py:1028-1068 | a `@transfers` or `@accepts` match ends its threat at the last viable " to " |
| MatcherLemmas.TailMatchComplete | pythreatspec/pythreatspec.py:779-1068 | every well-formed match, written out after its keyword, is read back as itself |
| MatcherLemmas.MatchLineComplete | pythreatspec/pythreatspec.py:779-1068 | a rendered tag line is matched by its tag's pattern with the original groups |
| MatcherLemmas.TailMatchSound | pythreatspec/pythreatspec.py:779-1068 | whatever a pattern reads is a well-formed match that the line spells out |
| MatcherLemmas.MatchLineSound | pythreatspec/pythreatspec.py:779-1068 | a matched line starts with its tag's lead, up to case, and the rest reads as the match |
| MatcherLemmas.SearchLeftmost | pythreatspec/pythreatspec.py:779-1068 | `re.findall(...)[0]` is the match at the leftmost position where the pattern matches; no match means it matches nowhere |
| MatcherLemmas.SearchRendered | pythreatspec/pythreatspec.py:779-1068 | a comment that starts with a rendered tag line yields that line's match |
| MatcherLemmas.SearchWellFormed | pythreatspec/pythreatspec.py:779-1068 | every match found is well formed |
| MatcherLemmas.RenderStartsWithKeyword | pythreatspec/pythreatspec.py:779-1068 | a rendered tag line begins with `@` and the tag's keyword |
| Tags.TagKey | pythreatspec/pythreatspec.py:648-655 | a `parse_table` key is `@` followed by the lower-case keyword |
| Tags.KeywordAt | pythreatspec/pythreatspec.py:630 | the first alternative of the keyword group that starts the text, up to case; none when none does |
| Tags.TagOfLine | pythreatspec/pythreatspec.py:630 | a captured keyword equals some tag key up to case |
| Tags.Lines | pythreatspec/pythreatspec.py:1106 | a comment splits into newline-free lines |
| Tags.FindTagsConcat | pythreatspec/pythreatspec.py:1106 | the tags of two blocks of lines are the tags of each, in order |
| Tags.FindTagsLine | pythreatspec/pythreatspec.py:1106 | a single line contributes its own capture |
| Tags.LinesCons | pythreatspec/pythreatspec.py:1106 | a newline-free line, a newline and more text split into that line followed by the lines of the rest |
| Tags.KeyedLineTags | pythreatspec/pythreatspec.py:1106 | a single line that begins with a tag key yields exactly that key |
| Tags.TagOfKeywordLine | pythreatspec/pythreatspec.py:630 | a line that begins with a tag key yields that key |
| Tags.KeywordAtOnly | pythreatspec/pythreatspec.py:630 | no key is a prefix of another up to case, so the alternative found is the only one |
| Tags.HandlerSound | pythreatspec/pythreatspec.py:647-655 | a key with a handler is that handler's exact key |
| Tags.HandlerComplete | pythreatspec/pythreatspec.py:647-655 | every tag's key dispatches to its handler |
| Tags.HandlerIff | pythreatspec/pythreatspec.py:647-655 | a captured keyword reaches a handler exactly when it is that handler's lower-case key; other case is a KeyError |
| ThreatModel.Registered | pythreatspec/pythreatspec.py:681-684 | a registration adds the id, keeps every old entry and gives a new id a nameless description |
| ThreatModel.IdFor | pythreatspec/pythreatspec.py:678-686 | an explicit id is used as given; otherwise the name is normalised |
| ThreatModel.AddBoundary | pythreatspec/pythreatspec.py:657-686 | fails exactly when an explicit id comes with an `@`-reference; an `@`-reference is returned and nothing changes; otherwise only the boundaries gain the id, and old entries are kept |
| ThreatModel.AddComponent | pythreatspec/pythreatspec.py:688-721 | the same, for the components of one boundary; other boundaries' components are unchanged |
| ThreatModel.AddThreat | pythreatspec/pythreatspec.py:723-753 | the same, for threats |
| ThreatModel.AddBoundaryTwice | pythreatspec/pythreatspec.py:657-686 | registering a boundary a second time changes nothing |
| ThreatModel.WithStore | pythreatspec/pythreatspec.py:928-1087 | replacing one element collection leaves the others, the reviews and the diagram as they were |
| ThreatModel.Appended | pythreatspec/pythreatspec.py:958-964 | a record is appended to the list of its group, creating the group if needed; other groups are unchanged |
| ThreatModel.DescriptionSetFailsIffMissing | pythreatspec/pythreatspec.py:823-845 | `@describe` fails exactly when the described boundary, component or threat does not exist |
| ThreatModel.DescriptionSetOnlyDesc | pythreatspec/pythreatspec.py:823-843 | `@describe` replaces that entity's description, keeps its name, and changes no other entity |
| ThreatModel.DescriptionSetKeepsShape | pythreatspec/pythreatspec.py:823-843 | `@describe` adds no entity and touches no record or edge |
| ThreatModel.Reference | pythreatspec/pythreatspec.py:45-63 | the id under which a name is known: an `@`-reference as given, otherwise the normalised name |
| ThreatModel.BoundaryNoted | pythreatspec/pythreatspec.py:657-686 | a boundary named in a tag is registered unless it is an `@`-reference |
| ThreatModel.ComponentNoted | pythreatspec/pythreatspec.py:688-721 | a component named in a tag is registered under its boundary |
| ThreatModel.ThreatNoted | pythreatspec/pythreatspec.py:723-753 | a threat named in a tag is registered unless it is an `@`-reference |
| ThreatModel.AddBoundaryReference | pythreatspec/pythreatspec.py:657-686 | adding a boundary without an explicit id never fails and returns its reference |
| ThreatModel.AddComponentReference | pythreatspec/pythreatspec.py:688-721 | adding a component without an explicit id never fails and returns its reference |
| ThreatModel.AddThreatReference | pythreatspec/pythreatspec.py:723-753 | adding a threat without an explicit id never fails and returns its reference |
| ThreatModel.AddComponentNamed | pythreatspec/pythreatspec.py:699-721 | a component named in plain text is registered under its boundary with the id chosen by `IdFor` |
| ThreatModel.RelatedClosed | pythreatspec/pythreatspec.py:947-1087 | a relationship tag registers its boundary, component and threat, then appends one record under the normalised text |
| ThreatModel.RelatedAppendsOne | pythreatspec/pythreatspec.py:947-1087 | a relationship tag always succeeds and appends exactly one record to its own collection |
| ThreatModel.RelatedKeepsOthers | pythreatspec/pythreatspec.py:947-1087 | a relationship tag leaves the other collections, the reviews and the diagram unchanged |
| ThreatModel.RelatedRegisters | pythreatspec/pythreatspec.py:947-1087 | a relationship tag keeps every entity and registers those it names by text |
| ThreatModel.RelatedTwice | pythreatspec/pythreatspec.py:947-1087 | the same relationship tag twice gives two records; records accumulate and are never merged |
| ThreatModel.ReviewedClosed | pythreatspec/pythreatspec.py:909-926 | `@review` registers its boundary and component, then appends one review under the normalised text |
| ThreatModel.ReviewedAppendsOne | pythreatspec/pythreatspec.py:909-926 | `@review` always succeeds and appends exactly one review |
| ThreatModel.ReviewedKeepsOthers | pythreatspec/pythreatspec.py:909-926 | `@review` changes no element collection, threat or edge |
| ThreatModel.ReviewedRegisters | pythreatspec/pythreatspec.py:909-926 | `@review` keeps every boundary and registers those it names by text |
| ThreatModel.ConnectAddsEdge | pythreatspec/pythreatspec.py:868-883 | `@connects` always succeeds; the edge between the normalised end points is the earlier one if present, else a new one, uni-directional exactly for `to`; nothing else changes |
| ThreatModel.ConnectClosed | pythreatspec/pythreatspec.py:868-883 | `@connects` inserts the edge built from the normalised groups |
| ThreatModel.ApplyElement | pythreatspec/pythreatspec.py:947-1087 | the four relationship handlers apply the shared element step to the cleaned groups |
| ThreatModel.ApplyReview | pythreatspec/pythreatspec.py:909-923 | the `@review` handler, given a match of its own shape, registers the cleaned boundary, component and text |
| ThreatModel.ApplyTotal | pythreatspec/pythreatspec.py:868-1087 | `@connects`, `@review` and the four relationship tags never fail on a match |
| ThreatModel.HandleFailsIffNoMatch | pythreatspec/pythreatspec.py:868-1087 | for those tags a handler fails exactly when its pattern finds no match, with the "invalid pattern" error of that tag |
| ThreatModel.HandleApplies | pythreatspec/pythreatspec.py:779-1087 | a handler acts on the first match of its pattern |
| ThreatModel.RunTagsConcat | pythreatspec/pythreatspec.py:1106-1107 | the tags of a comment are handled in order, and the first failure stops the rest |
| ThreatModel.RunTagsSnoc | pythreatspec/pythreatspec.py:1106-1107 | one more tag is handled on the graph the earlier tags left |
| ThreatModel.UnknownKeywordStops | pythreatspec/pythreatspec.py:1107 | a keyword in the wrong case ends the comment with a KeyError, and earlier changes are kept |
| ThreatModel.NoTagsNoChange | pythreatspec/pythreatspec.py:1089-1107 | a missing comment, or one without tags, changes nothing |
| ThreatModel.RenderedTags | pythreatspec/pythreatspec.py:630 | a rendered tag line carries exactly its own tag |
| ThreatModel.RenderedStep | pythreatspec/pythreatspec.py:1106-1107 | dispatching a rendered tag line applies its match |
| ThreatModel.RenderedLine | pythreatspec/pythreatspec.py:1089-1107 | parsing a comment that is one rendered tag line applies that tag's match |
| ThreatModel.OneTag | pythreatspec/pythreatspec.py:1089-1107 | a comment with one tag is that tag's handler step |
| ThreatModel.ParseAllConcat | pythreatspec/pythreatspec.py:1174-1189 | comments are parsed in order; the first failure stops the rest |
| ThreatModel.ParseAllSnoc | pythreatspec/pythreatspec.py:1174-1189 | one more comment is parsed on the graph the earlier ones left |
| ThreatModel.RunTagsStopped | pythreatspec/pythreatspec.py:1106-1107 | after a failed tag the later tags change nothing |
| ThreatModel.ParseAllStopped | pythreatspec/pythreatspec.py:1174-1189 | after a failed comment the later comments change nothing |
| ThreatModel.EmptyValid | pythreatspec/pythreatspec.py:618-655 | a fresh parser's graph is valid: canonical keys everywhere and metadata on every record |
| ThreatModel.AddBoundaryValid | pythreatspec/pythreatspec.py:657-686 | registering a boundary keeps the graph valid and returns a canonical id |
| ThreatModel.AddComponentValid | pythreatspec/pythreatspec.py:688-721 | registering a component keeps the graph valid and returns a canonical id |
| ThreatModel.AddThreatValid | pythreatspec/pythreatspec.py:723-753 | registering a threat keeps the graph valid and returns a canonical id |
| ThreatModel.AliasValid | pythreatspec/pythreatspec.py:779-793 | `@alias` keeps the graph valid |
| ThreatModel.DescriptionSetValid | pythreatspec/pythreatspec.py:823-843 | setting a description keeps the graph valid |
| ThreatModel.DescribeValid | pythreatspec/pythreatspec.py:819-845 | `@describe` keeps the graph valid |
| ThreatModel.InsertCanonical | pythreatspec/pythreatspec.py:439-449 | inserting an edge with canonical end points keeps every key of the tree canonical |
| ThreatModel.ConnectValid | pythreatspec/pythreatspec.py:868-883 | `@connects` keeps the graph valid |
| ThreatModel.ReviewedValid | pythreatspec/pythreatspec.py:909-926 | `@review` keeps the graph valid |
| ThreatModel.RelatedValid | pythreatspec/pythreatspec.py:947-1087 | each relationship tag keeps the graph valid |
| ThreatModel.ApplyValid | pythreatspec/pythreatspec.py:779-1087 | every successful handler keeps the graph valid |
| ThreatModel.StepValid | pythreatspec/pythreatspec.py:1107 | every successful dispatch keeps the graph valid |
| ThreatModel.RunTagsValid | pythreatspec/pythreatspec.py:1106-1107 | handling the tags of a comment keeps the graph valid, even when a tag fails |
| ThreatModel.ParseCommentValid | pythreatspec/pythreatspec.py:1089-1107 | parsing a comment keeps the graph valid |
| ThreatModel.ParseAllValid | pythreatspec/pythreatspec.py:1174-1189 | parsing a file's comments keeps the graph valid |
| ParserState.Parser.constructor | pythreatspec/pythreatspec.py:618-655 | a new parser holds the empty graph and takes its creation and update time from the clock value given |
| ParserState.Parser.AddBoundary | pythreatspec/pythreatspec.py:657-686 | result and new fields are those of `ThreatModel.AddBoundary` on the old fields |
| ParserState.Parser.AddComponent | pythreatspec/pythreatspec.py:688-721 | result and new fields are those of `ThreatModel.AddComponent` |
| ParserState.Parser.AddThreat | pythreatspec/pythreatspec.py:723-753 | result and new fields are those of `ThreatModel.AddThreat` |
| ParserState.Parser.ParseAlias | pythreatspec/pythreatspec.py:755-793 | outcome and new fields are those of the `@alias` handler in ThreatModel |
| ParserState.Parser.ParseDescribe | pythreatspec/pythreatspec.py:795-845 | outcome and new fields are those of the `@describe` handler |
| ParserState.Parser.Describe | pythreatspec/pythreatspec.py:821-845 | the lookup of the described entity and its update agree with `ThreatModel.Describe` |
| ParserState.Parser.SetDescription | pythreatspec/pythreatspec.py:823-843 | setting a description agrees with `ThreatModel.DescriptionSet` |
| ParserState.Parser.ParseConnects | pythreatspec/pythreatspec.py:847-883 | outcome and new state, the diagram included, are those of the `@connects` handler |
| ParserState.Parser.Connect | pythreatspec/pythreatspec.py:869-881 | building the edge and adding it agree with `ThreatModel.Connect` |
| ParserState.Parser.Link | pythreatspec/pythreatspec.py:881 | an edge with metadata is always added: the diagram becomes the old tree with the edge inserted |
| ParserState.Parser.ParseReview | pythreatspec/pythreatspec.py:885-926 | outcome and new fields are those of the `@review` handler |
| ParserState.Parser.AppendReview | pythreatspec/pythreatspec.py:919-923 | the list under the key is created when missing and the record is appended to it; nothing else changes |
| ParserState.Parser.ParseRelationship | pythreatspec/pythreatspec.py:928-1087 | outcome and new fields are those of the `@mitigates`, `@exposes`, `@transfers` or `@accepts` handler |
| ParserState.Parser.Append | pythreatspec/pythreatspec.py:958-964 | appending a record changes only its own collection, as `ThreatModel.Appended` says |
| ParserState.Parser.Dispatch | pythreatspec/pythreatspec.py:1107 | a `parse_table` lookup and call agree with `ThreatModel.Step` |
| ParserState.Parser.ParseComment | pythreatspec/pythreatspec.py:1089-1107 | the tag loop leaves the graph and error of `ThreatModel.ParseComment` |
| ParserState.Parser.ParseComments | pythreatspec/pythreatspec.py:1174-1189 | the comment loop leaves the graph and error of `ThreatModel.ParseAll` |
| Reporter.StoreKey | pythreatspec/pythreatspec.py:568-574 | each element kind is exported under its own collection key, never "reviews" |
| Reporter.RecordsJson | pythreatspec/pythreatspec.py:576-604 | a list of records exports record by record; it fails with "metadata has not been set" exactly when some record lacks metadata |
| Reporter.StoreJson | pythreatspec/pythreatspec.py:576-604 | a collection exports exactly when every record has metadata |
| Reporter.Document | pythreatspec/pythreatspec.py:525-608 | the export fails exactly when some record lacks metadata, and then with "metadata has not been set" |
| Reporter.DocumentKeysFixed | pythreatspec/pythreatspec.py:532-546 | the document has exactly the keys specification, document, boundaries, components, threats, dfd and projects |
| Reporter.DocumentHeader | pythreatspec/pythreatspec.py:532-540 | the header names ThreatSpec 0.1.0 and carries the parser's creation and update times |
| Reporter.DocumentProject | pythreatspec/pythreatspec.py:568-606 | `projects` holds the one project, with exactly the five collection keys |
| Reporter.StoreRecords | pythreatspec/pythreatspec.py:576-580 | each group exports its records in order |
| Reporter.StoreCollection | pythreatspec/pythreatspec.py:582-604 | each element collection is exported under its key |
| Reporter.ExportedRecords | pythreatspec/pythreatspec.py:582-604 | every record of every element group appears, in order, under its group |
| Reporter.ExportedReviews | pythreatspec/pythreatspec.py:576-580 | every review appears, in order, under its group |
| Reporter.ExportedProperties | pythreatspec/pythreatspec.py:549-551 | every boundary is exported under its id as its property rendering |
| Reporter.ExportedEdges | pythreatspec/pythreatspec.py:565 | every stored edge is exported in the document's `dfd` at its four keys |
| Reporter.ValidExportable | pythreatspec/pythreatspec.py:525-608 | a valid graph always exports |
| Reporter.ParsedExports | pythreatspec/pythreatspec.py:525-608 | whatever comments were parsed, the graph exports without error |
| Reporter.Reporter.constructor | pythreatspec/pythreatspec.py:512-523 | the reporter keeps the parser and the project name |
| Reporter.Reporter.ExportToJson | pythreatspec/pythreatspec.py:525-608 | the loops build exactly `Document` of the parser's state |
| Reporter.ExportProperties | pythreatspec/pythreatspec.py:549-562 | the property loop builds the rendering of the map |
| Reporter.ExportComponents | pythreatspec/pythreatspec.py:553-558 | the nested component loop builds the rendering of each boundary's components |
| Reporter.ExportRecords | pythreatspec/pythreatspec.py:579-580 | the record loop agrees with `RecordsJson` |
| Reporter.ExportStore | pythreatspec/pythreatspec.py:576-604 | the group loop agrees with `StoreJson` |
| Assignments.AssignedKeys | cwe_sfp_to_threatspec.py:72-154 | after a sequence of assignments the keys are the old ones and every key assigned |
| Assignments.AssignedLast | cwe_sfp_to_threatspec.py:72-154 | the last assignment to a key decides its value |
| Assignments.AssignedAgreed | cwe_sfp_to_threatspec.py:72-154 | a key whose every assignment gives the same value ends with that value |
| Assignments.AssignedUntouched | cwe_sfp_to_threatspec.py:72-154 | a key no assignment touches keeps its old state |
| Assignments.AssignedValues | cwe_sfp_to_threatspec.py:72-154 | every value is an old one or an assigned one |
| CweCatalogue.Kept | cwe_to_threatspec.py:13 | only characters of `[a-zA-Z0-9_ \-]` remain, each taken from the name |
| CweCatalogue.KeptConcat | cwe_to_threatspec.py:13 | the filter works part by part, so the kept characters keep their order |
| CweCatalogue.KeptIdentity | cwe_to_threatspec.py:13 | a name made only of `[a-zA-Z0-9_ \-]` is kept whole |
| CweCatalogue.Sanitize | cwe_to_threatspec.py:13-15 | the sanitised name has only `[a-z0-9_]` and is no longer than the name |
| CweCatalogue.SanitizeChars | cwe_to_threatspec.py:13-15 | the sanitised name has one character per kept character, in order: a space or hyphen becomes `_`, anything else its lower case |
| CweCatalogue.SanitizeIdempotent | cwe_to_threatspec.py:13-15 | a sanitised name sanitises to itself |
| CweCatalogue.CreateId | cwe_to_threatspec.py:9-17 | the id is an `@`-reference made of `@cwe_`, the ID, `_` and then exactly the sanitised name, which has `[a-z0-9_]` only |
| CweCatalogue.CweNumberOfCreateId | cwe_to_threatspec.py:9-17 | the ID is read back from the id when it has no underscore |
| CweCatalogue.CreateIdInjective | cwe_to_threatspec.py:9-17 | weaknesses with different underscore-free IDs never share an id |
| CweCatalogue.CreateName | cwe_to_threatspec.py:19-20 | the name is the weakness's `@Name` |
| CweCatalogue.Blanked | cwe_to_threatspec.py:27 | each character of `[a-zA-Z0-9_ \-;:.,]` stays in its place and every other character becomes a space |
| CweCatalogue.Squeeze | cwe_to_threatspec.py:28 | runs of spaces become one space: no two spaces remain, and nothing new appears |
| CweCatalogue.SqueezeKeeps | cwe_to_threatspec.py:28 | squeezing spaces keeps every non-whitespace character in order |
| CweCatalogue.SqueezeSingle | cwe_to_threatspec.py:28 | a text with no two spaces in a row is unchanged |
| CweCatalogue.SqueezeCons | cwe_to_threatspec.py:28 | a character other than a space is kept in front |
| CweCatalogue.SqueezeWord | cwe_to_threatspec.py:28 | a word without spaces is kept as it is and squeezing goes on after it |
| CweCatalogue.SqueezeRun | cwe_to_threatspec.py:28 | a whole run of spaces before a non-space becomes exactly one space |
| CweCatalogue.CleanText | cwe_to_threatspec.py:27-28 | a cleaned text uses only the allowed characters, has no double space, is no longer than the input and keeps the non-space characters of the blanked text in order |
| CweCatalogue.CleanTextIdempotent | cwe_to_threatspec.py:27-28 | cleaning twice equals cleaning once |
| CweCatalogue.CleanTextKeeps | cwe_to_threatspec.py:27-28 | a text made only of allowed characters keeps every non-whitespace character, in order |
| CweCatalogue.Join | cwe_to_threatspec.py:32 | `sep.join(parts)` of no parts is empty and of one part is that part |
| CweCatalogue.JoinSnoc | cwe_to_threatspec.py:32 | joining one more part adds the separator and that part at the end |
| CweCatalogue.CreateDescription | cwe_to_threatspec.py:22-40 | a weakness without description gets "No description available."; otherwise the description is the cleaned summary, followed, when there is an extended text, by one space and the cleaned extended text; every description uses only the allowed characters |
| CweCatalogue.DescriptionParts | cwe_to_threatspec.py:26-40 | the description starts with the cleaned summary and is exactly that without an extended text; with one, a space follows and then a clean, single-spaced text holding the extended text's non-whitespace characters in order |
| CweCatalogue.CreateRefs | cwe_to_threatspec.py:42-45 | two references: "CWE " with the ID, and the definition page URL of the ID |
| CweCatalogue.BuildLibrary | cwe_to_threatspec.py:80-91 | the weakness loop leaves the map its assignments build, in catalogue order |
| CweCatalogue.LibraryKeys | cwe_to_threatspec.py:80-91 | the library is keyed by exactly the ids of the weaknesses |
| CweCatalogue.LibraryLastWins | cwe_to_threatspec.py:87-91 | among weaknesses sharing an id, the last in the catalogue is the one kept |
| CweCatalogue.LibraryComplete | cwe_to_threatspec.py:80-91 | with distinct underscore-free IDs, every weakness keeps its own entry: name, description and references |
| SfpCatalogue.CreateCategoryName | cwe_sfp_to_threatspec.py:56-60 | a name without ":" is kept as it is; otherwise the result has no ":" and no whitespace at either end |
| SfpCatalogue.CategoryNameSegment | cwe_sfp_to_threatspec.py:56-60 | "Prefix: title" and "Prefix: title: more" both name the category "title", stripped |
| SfpCatalogue.CreateCategoryId | cwe_sfp_to_threatspec.py:49-54 | a category id is `@` followed by exactly the sanitised category name, so `[a-z0-9_]` only, already canonical for `text_to_identifier` |
| SfpCatalogue.FindSfpView | cwe_sfp_to_threatspec.py:74-82 | `spf_id` is the ID of the last SFP view, and `spf_categories` maps exactly its `HasMember` category targets to "" |
| SfpCatalogue.SfpViewIdLast | cwe_sfp_to_threatspec.py:76-78 | the last view named "Software Fault Pattern (SFP) Clusters" gives `spf_id` |
| SfpCatalogue.SfpViewIdAbsent | cwe_sfp_to_threatspec.py:74-78 | without such a view `spf_id` stays "" |
| SfpCatalogue.SfpMembersOf | cwe_sfp_to_threatspec.py:79-82 | a category is a member exactly when some SFP view lists it as a `HasMember` category target |
| SfpCatalogue.FileTopCategories | cwe_sfp_to_threatspec.py:84-103 | the category loop leaves `category_map`, `spf_categories` and `threats` as its assignments build them |
| SfpCatalogue.TopCategoryFiled | cwe_sfp_to_threatspec.py:96-103 | a member category is filed under its id with parent `@sfp` and its ID as reference, and `spf_categories` maps it to its id |
| SfpCatalogue.TopCategoriesOnly | cwe_sfp_to_threatspec.py:96-103 | a key that no member category produces keeps its old entry |
| SfpCatalogue.FileSubCategory | cwe_sfp_to_threatspec.py:105-130 | a category listing the SFP view fails with the KeyError of its missing own or target ID, or is filed under its mapped id with `spf_categories` updated; any other category changes nothing |
| SfpCatalogue.FileSubCategories | cwe_sfp_to_threatspec.py:105-130 | the sub-category loop leaves the outcome `SubCategories` defines |
| SfpCatalogue.SubFailureStopped | cwe_sfp_to_threatspec.py:119-122 | once a lookup fails, later categories do not change the outcome |
| SfpCatalogue.SubCategoriesFail | cwe_sfp_to_threatspec.py:119-122 | the pass fails exactly when a category listing the SFP view has an ID or target missing from `category_map` |
| SfpCatalogue.SubCategoryFiled | cwe_sfp_to_threatspec.py:116-130 | a sub-category listing the SFP view is filed with its mapped name, its target's id as parent and its ID as reference, when no other write to that id disagrees |
| SfpCatalogue.SubCategoriesOnly | cwe_sfp_to_threatspec.py:106-114 | categories without a single relationship listing the SFP view add nothing |
| SfpCatalogue.SfpParentFirst | cwe_sfp_to_threatspec.py:134-138 | the parent is the `spf_categories` value of the first `ChildOf` relationship to a known category; none when there is no such relationship |
| SfpCatalogue.SfpParentAgrees | cwe_sfp_to_threatspec.py:134-138 | as written and corrected agree except on a single relationship |
| SfpCatalogue.SingleRelationshipDropped | cwe_sfp_to_threatspec.py:134-138 | a weakness whose only relationship is `ChildOf` a known SFP category has no parent as written, and that category's id when corrected |
| SfpCatalogue.FindSfpParent | cwe_sfp_to_threatspec.py:133-138 | the relationship loop stops at the first qualifying relationship and returns the corrected parent; this is the corrected parent of the Findings row, not the loop as written |
| SfpCatalogue.FileWeaknesses | cwe_sfp_to_threatspec.py:132-154 | the weakness loop leaves the map its assignments build (with the corrected parent of the Findings row, `SfpCatalogue.SfpParent`) |
| SfpCatalogue.WeaknessFiled | cwe_sfp_to_threatspec.py:140-154 | a weakness with a parent is filed under its id with name, description, references and parent, when no other weakness shares its id (with the corrected parent of the Findings row, `SfpCatalogue.SfpParent`) |
| SfpCatalogue.WeaknessesOnly | cwe_sfp_to_threatspec.py:140-141 | a weakness without a parent adds nothing (with the corrected parent of the Findings row, `SfpCatalogue.SfpParent`) |
| SfpCatalogue.BuildSfpLibrary | cwe_sfp_to_threatspec.py:72-154 | the whole conversion produces the `SfpLibrary` outcome (with the corrected parent of the Findings row, `SfpCatalogue.SfpParent`) |
| SfpCatalogue.LibraryParents | cwe_sfp_to_threatspec.py:72-154 | every entry of a finished library has a parent, and each parent is an `@`-reference (with the corrected parent of the Findings row, `SfpCatalogue.SfpParent`) |
| SfpCatalogue.LibraryFails | cwe_sfp_to_threatspec.py:105-130 | the conversion fails exactly when a category listing the SFP view has an ID or target missing from the category map |

## Left out

- Reading files and walking the Python AST (`parse`, `_parse_globals`, `_parse_classes`, `_parse_methods`, `_parse_functions`) are left out. A file is modelled as the sequence of its docstrings (absent or present), each with the source location the walk attaches.
- The clock (`current_milli_time`) is a constructor parameter of `ParserState.Parser`.
- `Parser.projects` (always empty) and `export` (it only returns the dictionaries) are left out. So is replacing `tag_regex` from outside the parser.
- Only the parts of `PTSElement`, `PTSReview` and `PTSReference` that the tag engine uses are modelled. Their `__str__` text is left out.
- The messages of the `ValueError`s are modelled as an error kind with the offending keyword, class or id. The formatted text of the source location is not modelled.
- The models of the CWE converters start from the parsed catalogue. They leave out XML parsing, the command line, writing the JSON file and the `specification`/`document` wrapper that holds `threats`.
- Dictionary iteration order is not modelled. Python 2 dictionaries have no defined order, so every map is rendered as a map and every record list as a sequence.
- CweCatalogue.ExtendedText: a non-string item in a list of texts (the join would raise) is not modelled.
- CweCatalogue.Weakness: a `Description` without `Description_Summary` (a KeyError) is not modelled.
- SfpCatalogue.View: an SFP view with a single relationship is not modelled. `xmltodict` delivers it as a dict, and iterating over it would raise.
- SfpCatalogue.CreateCategoryName: `strip()` is modelled with the six ASCII whitespace characters. The converter reads the catalogue through `xmltodict`, which yields unicode strings, and unicode `strip()` also removes characters such as U+00A0 and U+2028; a category name with such characters at either end of its title is not modelled.
- SfpCatalogue.FindSfpParent, SfpCatalogue.FileWeaknesses, SfpCatalogue.WeaknessFiled, SfpCatalogue.WeaknessesOnly, SfpCatalogue.BuildSfpLibrary, SfpCatalogue.LibraryParents: the weakness pass is modelled with the corrected parent of the Findings row (`SfpCatalogue.SfpParent`). As written, a weakness with a single relationship gets no parent and is dropped (`SfpCatalogue.SfpParentAsWritten`, `SfpCatalogue.SingleRelationshipDropped`); `SfpCatalogue.SfpParentAgrees` shows the two agree on every other weakness.
- Matchers.Search: only the first match is used, as the handlers use `match[0]`. Other entries of the `re.findall` result are not modelled.

## Findings

| source | as written | input that shows it | evidently intended | confidence | as-written member | corrected member |
|---|---|---|---|---|---|---|
| cwe_sfp_to_threatspec.py:134-138 | `for relationship in cwe["Relationships"]["Relationship"]` iterates over the keys of the dictionary when a weakness has a single relationship, so no relationship qualifies and the weakness is dropped from the library | a weakness whose only relationship is `ChildOf` category 888, where `spf_categories` maps 888 to `@faulty_buffer_access` | the weakness is filed under `@faulty_buffer_access`, as it would be if the relationship came in a list (the category pass handles the single case at lines 109-114) | medium, not executed | SfpCatalogue.SfpParentAsWritten, SfpCatalogue.SingleRelationshipDropped | SfpCatalogue.SfpParent, SfpCatalogue.SfpParentFirst |
