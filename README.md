# Cross-reference engine of the Obsidian linker, in Dafny

This project models the cross-reference engine of the linker plugin
(`src/rust/lib.rs`). The engine takes every note of a vault and finds, in the
readable text of each note, mentions of another note's title or aliases. It
reports each mention as a link from the source note to the target note, with
the matched text and its absolute offsets.

The model follows the Rust code:

- `JsLinker` is a class (`Linker.JsLinker`) whose `files` hold one parse
  outcome per note. Its constructor, `GetBadParseFiles` and `GetLinks` are
  methods with loops, like `new`, `get_bad_parse_files` and `get_links`.
- `get_first_capture` is the method `Linker.GetFirstCapture`.
- The parts of `get_links` that build things step by step are helper methods:
  - `FileRegexStr` and `GroupRegexStr` build one note's group text.
  - `BuildGroups` builds the group strings and the group table.
  - `ScanSpan`, `ScanFile`, `ScanOutcome` and `ScanFiles` run the span scan.
- Each method is proved against a specification function:
  - `Corpus` holds the parse outcomes, the failure report and the parsed notes.
  - `Patterns` holds identity lists, group text, the combined pattern and the group table.
  - `Scan` holds capture selection, hits, links, the self-link filter and `GetLinksResult`, the whole result of `get_links`.
- The lemmas about these functions state what the code promises.

Foreign code is passed in as function values. These are `parse_md_file_wrapper`
(`Parser.ParseFn`), `regex::escape` (`Regex.Escape`), `RegexBuilder::build`
(`Regex.Builder`) and `Regex::captures` (`Regex.Regex`). The parser's results
are plain data: `Parser.MDFile` and `Parser.StringPosition`.

The two `expect` calls in `get_links` are modelled as error results, not as
preconditions:

- `expect("Invalid Regex")` becomes `Err(InvalidRegex)`.
- `expect("expected group")` becomes `Err(ExpectedGroup)`.

`Scan.NoMissingGroup` proves that the second one cannot fire when the compiled
regex reports no more groups than there are parsed notes. That count is the
number of groups in the combined pattern.

A `char` in the model stands for one byte of UTF-8 text, because `str::len`
and `Match::start` count bytes.

## Model

| member | source | states |
|---|---|---|
| `Corpus.ParseAll` | src/rust/lib.rs:87-98 | one outcome per zipped (path, content) pair: the length is the shorter input length and outcome i is the parse of content i with path i |
| `Linker.JsLinker.constructor` | src/rust/lib.rs:87-98 | the stored outcomes are exactly `ParseAll` of the two lists, in input order |
| `Linker.JsLinker.GetBadParseFiles` | src/rust/lib.rs:100-114 | the loop returns the paths of the `ParseError` outcomes in corpus order (`BadParseFiles`) |
| `Corpus.BadParseFilesMember` | src/rust/lib.rs:100-114 | a path is reported iff some outcome is a `ParseError` for it; `Ok` outcomes and other error kinds add nothing |
| `Corpus.BadParseFilesAppend` | src/rust/lib.rs:100-114 | the report keeps corpus order: the report of a concatenation is the concatenation of the reports |
| `Corpus.ParsedFilesMember` | src/rust/lib.rs:156-160 | a note is scanned and grouped iff some outcome is `Ok` with it |
| `Corpus.ParsedFilesAppend` | src/rust/lib.rs:156-160 | the parsed notes keep corpus order, and failed outcomes are skipped |
| `Corpus.ParsedFilesSkipFailed` | src/rust/lib.rs:156-159 | inserting a failed outcome anywhere leaves the parsed notes unchanged |
| `Linker.FileRegexStr` | src/rust/lib.rs:160-186 | the group text of a note is the group of its escaped identity list: the title, then the aliases, or the title alone when alias extraction fails |
| `Linker.GroupRegexStr` | src/rust/lib.rs:180-186 | pushing `(?:\b…\b)|` per alternative, popping once and closing the parenthesis gives `(` + the `|`-joined alternatives + `)` |
| `Patterns.TerminatedIsJoinThenBar` | src/rust/lib.rs:182-185 | with at least one alternative, the pushed text is the joined alternatives plus one trailing `|`, so the `pop` removes exactly that `|` |
| `Patterns.TitleIsFirstAlternative` | src/rust/lib.rs:161-172 | the title is always present and is the first alternative of its note's group |
| `Patterns.AliasErrorLeavesTitleOnly` | src/rust/lib.rs:163-172 | an alias-extraction error leaves a group with the title alone |
| `Linker.BuildGroups` | src/rust/lib.rs:153-190 | the loop with the `group_index` counter yields `FileRegexStrs` and `GroupTable` of the corpus |
| `Patterns.GroupTableAligned` | src/rust/lib.rs:153-192 | the table's keys are exactly 1..k for the k groups of the combined pattern; group g's table entry and group g's text come from the same parsed note |
| `Patterns.GroupOfFile` | src/rust/lib.rs:153-190 | the parsed note at corpus position j gets group 1 + (parsed notes before it); both the table entry and the group text for that number are its own |
| `Linker.GetFirstCapture` | src/rust/lib.rs:297-313 | the loop with early return computes `FirstCapture` |
| `Scan.FirstCaptureIsLowest` | src/rust/lib.rs:297-313 | no result iff there is no match or no group among 1..caps_len is present; otherwise the result is the lowest present group with its number, and every lower group is absent |
| `Scan.FirstFromBeyondGroups` | src/rust/lib.rs:118-118 | passing a bound larger than the number of groups a match reports changes nothing, so `files_len`, which counts failed notes too, is harmless |
| `Linker.ScanSpan` | src/rust/lib.rs:204-234 | one span gives no link if its text cannot be read or nothing matched; otherwise one link with the resolved target, or `ExpectedGroup` if the group has no table entry |
| `Linker.ScanFile` | src/rust/lib.rs:201-235 | the span loop of one note yields the links of all its span hits in order, or `ExpectedGroup` |
| `Linker.ScanOutcome` | src/rust/lib.rs:199-238 | a parsed note yields the links of its span hits in order, or `ExpectedGroup` if one is unresolved; a note that failed to parse yields no links |
| `Linker.ScanFiles` | src/rust/lib.rs:198-239 | the note loop yields the links of all hits in note-then-span order, or `ExpectedGroup` if any group is unresolved |
| `Scan.FileHitsAppend` | src/rust/lib.rs:198-239 | the scan keeps order: the hits of a concatenated corpus are the concatenated hits |
| `Scan.SpanHitsAppend` | src/rust/lib.rs:203-235 | within a note, hits keep span order |
| `Scan.AtMostOneHitPerSpan` | src/rust/lib.rs:203-231 | each span gives at most one hit |
| `Scan.UnreadableSpanSkipped` | src/rust/lib.rs:207-234 | a span whose text cannot be read adds nothing, and the note's other spans are still scanned |
| `Scan.FailedFileSkipped` | src/rust/lib.rs:198-238 | a note that failed to parse adds no hits, and the notes around it are unaffected |
| `Scan.FileHitsOrigin` | src/rust/lib.rs:198-219 | every hit names a parsed note as source and a group in 1..files_len; when the regex reports at most k groups, the group is in 1..k |
| `Scan.LinkFields` | src/rust/lib.rs:214-228 | each link has the scanned note as source, `file_groups[group]` as target and the captured text; start = span start + capture start, and end - start = length of the text |
| `Scan.NoMissingGroup` | src/rust/lib.rs:193-218 | if the regex reports at most one group per parsed note, `get_links` fails only when the pattern does not compile |
| `Scan.DropSelfLinksMember` | src/rust/lib.rs:241-243 | a link survives the filter iff it was present and its source differs from its target |
| `Scan.DropSelfLinksAppend` | src/rust/lib.rs:241-243 | the filter keeps the relative order of the survivors |
| `Scan.LinkToSelfOnlyFilters` | src/rust/lib.rs:241-245 | the runs with `link_to_self` true and false fail together; when they succeed, the second result is the first with self-links removed |
| `Scan.EmittedLinks` | src/rust/lib.rs:198-245 | every returned link has a parsed note as source, a group-table path as target and end - start = length of the text, and no self-links unless they are wanted |
| `Scan.FailureIsolation` | src/rust/lib.rs:116-246 | adding a note that fails to parse leaves the result of `get_links` unchanged, given that the regex reports no more groups than the pattern has |
| `Linker.JsLinker.GetLinks` | src/rust/lib.rs:116-246 | the method returns `GetLinksResult`: `InvalidRegex` if the pattern does not compile, `ExpectedGroup` if a group is unresolved, otherwise the links filtered by `link_to_self` |

## Left out

- The `alias_map` loop (src/rust/lib.rs:121-144) builds a map that is never read. It has no observable effect, so it is not modelled.
- The markdown parser (`parse_md_file_wrapper`, `get_title`, `get_aliases`, `get_string_nodes`, `get_inner_string`) is not part of this model. It is a function parameter, and its results are plain data.
- The regex crate is not part of this model. Escaping, the `\b` word-boundary meaning, case-insensitive matching and the choice of the leftmost match are all function parameters. The `case_insensitive` flag only reaches the builder.
- Linker.JsLinker.GetLinks: offsets are unbounded naturals. The `u32` additions at src/rust/lib.rs:225-226 and the `caps_len + 1` at line 300 can wrap around; this is not modelled.
- Scan.LinkFields: the model does not state that the link text equals the raw note text between `start` and `end`. That depends on the parser's spans and the regex's offsets, which are foreign.
- Because of that, the code guarantees only `end = start + len(link_text)`. An empty title or alias can match empty text, and then `start == end`, so `start < end` is not guaranteed.
- `string_pos.end` is read at src/rust/lib.rs:205 but never used, so it has no effect.
- Paths are plain strings. `path.display()` and `to_string_lossy()` are identities in the model.
- The conversions from JavaScript strings (`as_string().unwrap()`) are not modelled.
- The wasm/JS glue is not modelled: `ExampleCommand`, `onload`, the `JsLink` getters and `debug`.
- `src/rust/obsidian.rs` (host type declarations) and `src/typescript/main.ts` (vault access, the confirmation dialog and the link splice) are not part of this model.
