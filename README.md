# Office-action analyzer core, modelled in Dafny

This project models the analysis core of a browser tool that reads a
Japanese patent-office notice of reasons for refusal (拒絶理由通知) and
turns it into two tables. The first table has rows for novelty and
inventive step: claims, reason, statute article, cited references and
the cited paragraphs and figures of each reference. The second has rows
for all other reasons: claims, title and article. The tool also lists the
claims that no reason covers, the open claims. The model has six modules,
one file each:

| file | module | models |
|---|---|---|
| `text.dfy` | `Text` | The JavaScript built-ins the core relies on: `\s`, `trim`, `indexOf`, `slice`, `split`, `join`, `parseInt`, `String(n)`, numeric sort, and the default string sort on figure labels (by code point). |
| `scan.dfy` | `Scan` | Each regular expression of the parser, written as a hand-made scanner over the text. `MatchAt` says how a pattern matches at one position. `FindFrom` is the leftmost match (`match`, `search`, `exec`). `AllFrom` is the sequence of matches a global `exec` loop visits. |
| `utils.dfy` | `Utils` | `normalizeText`, `normReasonTitleKey`, `parseNumberRanges`, `uniq`, `claimsToCompactRanges`, `pad4`, and the maximal-run decomposition shared by the formatters. |
| `paragraph_ref_set.dfy` | `ParagraphRefs` | `ParagraphRefSet` as a class with a `set<nat>` of paragraphs and a `set<string>` of figure labels: `addToken`, `format` (legacy mode), `_formatGrouped`. |
| `rejection_parser.dfy` | `Parser` | `extractCitedReferencesList`, `_scanSummaryReasonHeads`, `parseReasonBlocks`, `getEffectiveTitle`, `extractMiniItemsFromBlock`, `extractParagraphStrings`, `extractFigureTokens`, `extractParagraphRefsByCitation`, `extractOpenClaims`. |
| `rejection_analyzer.dfy` | `Analyzer` | `isOtherReasonTitle`, `classifyBlock`, `compactParaTokens`, `buildParaLabel`, `inferMaxClaim` and `analyze`. |

Text is `seq<char>` and numbers are `nat`. A `null` result becomes `None`.

**Methods and specification functions.** Every source loop is a method with loop invariants. Each such method is proved equal to a specification function:

- `ParseNumberRanges` and `NumberRangesOf`;
- `Uniq` and `UniqOf`;
- `Analyze` and `AnalysisOf`.

The properties the program promises are then proved as lemmas about those functions.

**Loops over the block list.** `analyze` overwrites the block articles in place, and so do these methods:

- `Analyzer.PropagateArticles` works on an `array<Block>`.
- `Analyzer.SanitizeArticles` works on an `array<Block>`.

**Global `exec` loops.** These are methods over the match sequence `All(p, t)`. Their invariant says the matches visited so far, followed by those still to come, are all the matches.

**Two details of the output, as the code has them:**

- The reason cell of a novelty-table row is the Japanese word `新規性` or `進歩性`.
- The article is looked for in the first 1200 characters of a block: `slice(0, 1200)`.

## Model

| member | source | states |
|---|---|---|
| Text.Trim | project/js/rejection_parser.js:153 | `trim()`: the result neither starts nor ends with white space, is no longer than the input, and is `""` for an all-space input |
| Text.TrimSlice | project/js/rejection_parser.js:153 | `trim()` removes only white space, and only at the two ends: the result is a slice of the input with nothing but white space before and after it |
| Text.TrimIdempotent | project/js/rejection_parser.js:153-154 | trimming a trimmed string changes nothing |
| Text.TrimKeeps | project/js/rejection_parser.js:153 | every character of the trimmed string comes from the input |
| Text.ParseIntDigits | project/js/utils.js:58-59 | `parseInt` of a digit string is the number it spells |
| Text.LexMinOf | project/js/paragraph_ref_set.js:72 | the least label of a non-empty set is in it and precedes or equals every other label |
| Text.IndexOfFrom | project/js/rejection_parser.js:16-17 | `indexOf`: the first offset at or after the start where the pattern occurs; none before it; `None` exactly when it never occurs |
| Text.RemoveSpaces | project/js/rejection_parser.js:132 | `replace(/\s+/g, "")` leaves no white space and never lengthens the text |
| Text.SortAsc | project/js/utils.js:72 | numeric ascending sort: sorted, and a permutation of the input (same multiset) |
| Text.SortedElems | project/js/paragraph_ref_set.js:42-50 | the keys turned back into numbers and sorted: strictly increasing, exactly the elements of the set |
| Text.SortedStrings | project/js/paragraph_ref_set.js:71-72 | `figKeys.sort()`: sorted by code point, exactly the labels of the set |
| Text.NatToStringValue | project/js/utils.js:83 | `String(n)` reads back as `n` |
| Text.LexTrichotomy | project/js/paragraph_ref_set.js:72 | the string order is total and asymmetric |
| Text.LexTransitive | project/js/paragraph_ref_set.js:72 | the string order is transitive |
| Scan.FindFrom | project/js/rejection_parser.js:36-41 | `match`/`search`/`exec`: a match at the reported start, and no match at any earlier position from the search start; `None` only when no position matches |
| Scan.Leftmost | project/js/rejection_parser.js:36-41 | no position before the found match (or any position, when nothing is found) is a match |
| Scan.ExecStep | project/js/rejection_parser.js:74-81 | one turn of a global `exec` loop: the match found at `lastIndex` is the next of all matches, and the loop resumes at its end |
| Scan.AllFromOrdered | project/js/rejection_parser.js:74-81 | the matches a global `exec` loop visits are in document order and do not overlap |
| Scan.AllFromComplete | project/js/rejection_parser.js:74-81 | no match is skipped: every position where the pattern matches lies inside some visited match |
| Scan.AllFromMatchAt | project/js/rejection_parser.js:74-81 | every visited match is the pattern's own match at its start |
| Scan.PlainHeadRestOneLine | project/js/rejection_parser.js:90 | the plain-heading body allows only space, tab and U+3000 (no line feed) up to its opening parenthesis |
| Scan.NoteMarkerAtCut | project/js/rejection_parser.js:188-191 | a `・備考` marker found by `match` in the chunk is found again by `replace` at the start of the sliced rest, with the same end |
| Scan.MarkerInSuffix | project/js/rejection_parser.js:177-179 | wherever a later claim line starts, the next-marker `search` on `t.slice(skip)` finds a claim marker there |
| Scan.BracketVisited | project/js/rejection_parser.js:221-224 | every `[digits]` in the text is visited by the `\[(\d+)\]` loop |
| Scan.RangeBrackets | project/js/rejection_parser.js:215-224 | a `[a]-[b]` match is made of two `[digits]` matches carrying the same two numbers |
| Utils.NormalizeText | project/js/utils.js:10-37 | `normalizeText` keeps the length (one character for one) and yields a normalized string |
| Utils.NormalizeIdempotent | project/js/utils.js:10-37 | normalizing twice is normalizing once |
| Utils.NormalizedIsFixedPoint | project/js/utils.js:10-37 | a normalized string is left unchanged |
| Utils.NormalizeCharCases | project/js/utils.js:13-34 | full-width digits and Latin letters drop by 0xFEE0 to ASCII; `［【` become `[`, `］】` become `]`; the eight dashes become `-`; NBSP and U+3000 become a space; `（`, `）`, `ー` and every other character, ASCII included, stay as they are |
| Utils.NormReasonTitleKey | project/js/utils.js:154-161 | the title key has no white space and no dash character |
| Utils.NormReasonTitleKeyAppend | project/js/utils.js:154-161 | the key is computed character by character: the key of `a + b` is the key of `a` followed by the key of `b` |
| Utils.NormReasonTitleKeyChar | project/js/utils.js:156-159 | one character's key: nothing when it normalises to white space, `ー` when it normalises to a dash, else the normalised character; with the previous row this fixes the key of every title |
| Utils.RemoveSpacesAppend | project/js/utils.js:159 | `replace(/\s+/g, "")` of `a + b` is that of `a` followed by that of `b` |
| Utils.RemoveSpacesKeeps | project/js/utils.js:159 | removing white space keeps only characters of the input |
| Utils.ParseRangeTokenShape | project/js/utils.js:55-59 | a piece is accepted exactly when it is `digits` or `digits-digits`, and then gives those numbers |
| Utils.PushRange | project/js/utils.js:63 | the inner loop appends `a`, `a+1`, …, `b` |
| Utils.ParseNumberRanges | project/js/utils.js:42-66 | `parseNumberRanges` returns `NumberRangesOf(s)`: the pieces of the split, each trimmed, malformed pieces skipped, a reversed pair swapped, each range expanded in ascending order |
| Utils.PieceNumbersOfPair | project/js/utils.js:58-63 | `a-b` and `b-a` give the same numbers, the inclusive ascending span |
| Utils.PieceOfRange | project/js/utils.js:52-63 | a piece read as `a..b` contributes the inclusive span between them, whichever is larger |
| Utils.CompactTextIsFixed | project/js/utils.js:43-47 | text made of digits, `-` and `,` passes the normalisation and the `〜`/`，` replacements unchanged |
| Utils.UniqOf | project/js/utils.js:91-101 | the first-occurrence list is never longer than the input, and is non-empty for non-empty input |
| Utils.Uniq | project/js/utils.js:91-101 | the `seen`/`out` loop returns `UniqOf(arr)` |
| Utils.UniqSnoc | project/js/utils.js:94-99 | one more value is appended exactly when it was not seen |
| Utils.UniqProperties | project/js/utils.js:91-101 | `uniq` has no duplicates, has exactly the input's values, and keeps them in order of first occurrence |
| Utils.RunsOf | project/js/utils.js:74-86 | the greedy run walk: runs exist exactly for non-empty input, no more runs than values, the first run starts at the first value and the last ends at the last |
| Utils.RunsOfSnoc | project/js/utils.js:77-85 | one step of the merge loop is `Extend` of the runs so far |
| Utils.RunsContinue | project/js/utils.js:79-81 | a value one past the current run's end extends that run |
| Utils.RunsBreak | project/js/utils.js:82-84 | any other value closes the run and starts a new one |
| Utils.RunsExpandBack | project/js/utils.js:74-86 | the runs, expanded, give the walked list back |
| Utils.AscendingRunsAreMaximal | project/js/paragraph_ref_set.js:99-113 | on strictly increasing input the runs are well formed, separated by gaps, and expand to the input |
| Utils.RunsPartition | project/js/paragraph_ref_set.js:99-113 | a number is in the input exactly when it lies in some run |
| Utils.SeparatedRunsDisjoint | project/js/paragraph_ref_set.js:104-110 | any two runs are disjoint and not adjacent |
| Utils.DescendingRunsMirror | project/js/paragraph_ref_set.js:46-69 | walking the descending list with step 1 gives the ascending runs, last first, each read high to low |
| Utils.SortedUniqueProperties | project/js/utils.js:72 | sort after `uniq`: strictly increasing, and exactly the input's values |
| Utils.ClaimsToCompactRanges | project/js/utils.js:68-89 | `claimsToCompactRanges` returns `CompactOf(claims)`: `""` for no claims, else the run labels of the sorted, de-duplicated claims, comma-joined |
| Utils.ClaimRunLabels | project/js/utils.js:74-86 | the `start`/`prev` loop emits one label per maximal run, in order |
| Utils.ClaimRunStep | project/js/utils.js:77-85 | one pass of that loop keeps the invariant that the labels emitted are those of the closed runs and `start..prev` is the open run |
| Utils.CompactOfIncreasing | project/js/utils.js:68-89 | on a sorted duplicate-free list the compact form is the comma-joined run labels |
| Utils.CompactExample | run_tests.js:386 | `[1,2,3,5,7,8,9]` compacts to `"1-3,5,7-9"` |
| Utils.SplitJoinAt | project/js/utils.js:49 | fields without separators, joined by commas, split back into the same fields |
| Utils.JoinedFieldsParse | project/js/utils.js:46-64 | comma-joined fields made of digits, `-` and `,` parse piece by piece |
| Utils.RenderedRunParses | project/js/utils.js:83 | the label `a` or `a-b` of a run parses back to the run's numbers |
| Utils.RenderedRunsRead | project/js/utils.js:42-88 | comma-joined run labels parse back to the expanded runs |
| Utils.RunsRoundTrip | project/js/utils.js:42-88 | for ascending input, parsing the comma-joined run labels gives the input |
| Utils.CompactRoundTrip | project/js/utils.js:42-89 | `parseNumberRanges(claimsToCompactRanges(xs))` is the sorted, de-duplicated `xs`: strictly increasing, with exactly the values of `xs` |
| Utils.CompactRoundTripSorted | project/js/utils.js:42-89 | for sorted duplicate-free `xs` the codec round trip is the identity |
| Utils.Padded | project/js/utils.js:103-107 | left-padded with zeros to at least four characters, ending with the input |
| Utils.Pad4 | project/js/utils.js:103-107 | the `while` loop returns `Padded(n)` |
| Utils.PaddedValue | project/js/utils.js:103-107 | padding a digit string keeps its value |
| Utils.ZerosValue | project/js/utils.js:105 | leading zeros do not change a digit string's value |
| ParagraphRefs.ParagraphRefSet.constructor | project/js/paragraph_ref_set.js:5-9 | a new set holds no paragraph and no figure |
| ParagraphRefs.ParagraphRefSet.AddToken | project/js/paragraph_ref_set.js:11-30 | `paras` grows by exactly `TokenParas(tok)` and `figs` by exactly `TokenFigs(tok)`: nothing is ever removed |
| ParagraphRefs.ParagraphRefSet.AddParas | project/js/paragraph_ref_set.js:29 | the loop adds `[a..b]` to `paras` and leaves `figs` alone |
| ParagraphRefs.ParagraphRefSet.Format | project/js/paragraph_ref_set.js:32-84 | `format` returns `FormatOf(paras, figs, opts)`: the grouped formatter when `groupOrder` or `rangeDirection` is given, else the legacy one |
| ParagraphRefs.ParagraphRefSet.FormatLegacy | project/js/paragraph_ref_set.js:39-83 | the legacy formatter returns `LegacyText(paras, figs, desc, multiline)` |
| ParagraphRefs.ParagraphRefSet.FormatGrouped | project/js/paragraph_ref_set.js:90-145 | `_formatGrouped` returns `GroupedText`, with only `"desc"` reversing either option |
| ParagraphRefs.RunLabels | project/js/paragraph_ref_set.js:52-69 | the `rs`/`rp` loop emits one label per run of step 1 in the walk direction |
| ParagraphRefs.RunStep | project/js/paragraph_ref_set.js:55-64 | one pass of that loop keeps its invariant |
| ParagraphRefs.GroupRuns | project/js/paragraph_ref_set.js:101-113 | the `gs`/`ge` loop builds the ascending maximal runs |
| ParagraphRefs.GroupLabels | project/js/paragraph_ref_set.js:119-130 | the labelling loop renders each group in order |
| ParagraphRefs.FigureParts | project/js/paragraph_ref_set.js:74-77 | one `FIG:[label]` part per label, in order |
| ParagraphRefs.CollectTokens | project/js/rejection_analyzer.js:49-50 | a fresh set fed every token holds the union of what each token adds |
| ParagraphRefs.TokenAddsToOneSet | project/js/paragraph_ref_set.js:11-30 | a token adds to at most one of the sets; a rejected token adds nothing; a paragraph token adds at least one paragraph; a figure token adds exactly one label |
| ParagraphRefs.FigTokenShape | project/js/paragraph_ref_set.js:15-19 | a token read as a figure is exactly `FIG:[label]`, with a non-empty one-line label |
| ParagraphRefs.ParaTokenShape | project/js/paragraph_ref_set.js:21-22 | a token read as paragraphs is exactly `[d1]` or `[d1]-[d2]` with digit runs, read as those numbers |
| ParagraphRefs.SingleBracketForm | project/js/paragraph_ref_set.js:21-25 | `[digits]` is read as the one-paragraph range |
| ParagraphRefs.PairBracketForm | project/js/paragraph_ref_set.js:21-25 | `[d1]-[d2]` is read as the pair of values |
| ParagraphRefs.FigTokenForm | project/js/paragraph_ref_set.js:15-18 | `FIG:[label]` with a non-empty one-line label is read as that label |
| ParagraphRefs.ParaLabelParses | project/js/paragraph_ref_set.js:60-62 | the printed labels `[pad4(a)]` and `[pad4(a)]-[pad4(b)]` read back as the paragraphs they name |
| ParagraphRefs.Between | project/js/paragraph_ref_set.js:27-29 | the paragraphs from `min(a,b)` to `max(a,b)` |
| ParagraphRefs.PairLabelParas | project/js/paragraph_ref_set.js:24-29 | a printed range label, fed back, adds exactly the paragraphs between its ends |
| ParagraphRefs.SingleLabelParas | project/js/paragraph_ref_set.js:24-29 | a printed single label, fed back, adds exactly its paragraph |
| ParagraphRefs.OverlappingTokensAbsorbed | run_tests.js:86-90 | `[0058]-[0061]`, `[0060]`, `[0061]` together add `58..61` |
| ParagraphRefs.LegacyDescExample | run_tests.js:86-90 | those paragraphs print with `desc` as `"[0061]-[0058]"` |
| ParagraphRefs.GroupedExample | run_tests.js:118-122 | `{11,17..20,23,27}` with ascending groups and descending ranges prints `"[0011] [0020]-[0017] [0023] [0027]"` |
| ParagraphRefs.DescOption | project/js/paragraph_ref_set.js:91-92 | the option used (falling back to `"asc"`) is `"desc"` exactly when `"desc"` was given |
| ParagraphRefs.GroupedDefaultsToAsc | project/js/paragraph_ref_set.js:91-92 | in grouped mode a missing option behaves as `"asc"` |
| ParagraphRefs.LegacyIsGrouped | project/js/paragraph_ref_set.js:46-69 | the legacy paragraph parts equal the grouped parts with group order and range direction both descending under `desc`, both ascending otherwise |
| ParagraphRefs.MirrorRendersReversed | project/js/paragraph_ref_set.js:115-129 | printing mirrored runs is printing the reversed groups high to low |
| ParagraphRefs.LegacyModeIsGroupedMode | project/js/paragraph_ref_set.js:35-83 | `format` without grouping options prints what the grouped formatter prints with both options set to the `desc` choice |
| ParagraphRefs.GroupsPartition | project/js/paragraph_ref_set.js:99-113 | the groups are separated maximal runs, and a number is in the set exactly when it lies in some group |
| ParagraphRefs.DescendingGroupOrder | project/js/paragraph_ref_set.js:115-117 | under `groupOrder=desc` each group lies entirely above, and not adjacent to, every later one |
| ParagraphRefs.ReversedRunsDescend | project/js/paragraph_ref_set.js:116 | reversing separated runs orders them strictly downwards |
| ParagraphRefs.AssembleNewline | project/js/paragraph_ref_set.js:79-83 | the output has a line feed exactly when multiline is on and both part lists are non-empty |
| ParagraphRefs.FormatNewline | project/js/paragraph_ref_set.js:79-83 | when no figure label holds a line break, `format` breaks the line exactly when multiline is on and there are both paragraphs and figures |
| ParagraphRefs.LegacyNewline | project/js/paragraph_ref_set.js:79-83 | the same for the legacy formatter |
| ParagraphRefs.GroupedNewline | project/js/paragraph_ref_set.js:140-144 | the same for the grouped formatter |
| ParagraphRefs.EmptyFormatsEmpty | project/js/paragraph_ref_set.js:83 | an empty set prints `""` under any options |
| Parser.CitedTail | project/js/rejection_parser.js:15-18 | the list is read from the first `引用文献等一覧`, else from the first `引用文献一覧`, else the whole text |
| Parser.ExtractCitedReferencesList | project/js/rejection_parser.js:12-29 | `extractCitedReferencesList` returns `CitedReferencesOf(text)` |
| Parser.CitedLoop | project/js/rejection_parser.js:20-28 | the `exec` loop builds the map of the numbered lines' entries |
| Parser.AddEntry | project/js/rejection_parser.js:24-26 | a line with a non-zero number and a non-blank name sets that key; any other line changes nothing |
| Parser.EntryMapLastWins | project/js/rejection_parser.js:23-27 | a number is a key exactly when some entry carries it, and it maps to the name of the last such entry |
| Parser.CitedReferencesLastWins | project/js/rejection_parser.js:12-29 | the cited-reference map lists a number exactly when some numbered line carries it with a non-blank name, and then the last such line's name |
| Parser.CitedEntryShape | project/js/rejection_parser.js:24-26 | every recorded entry has a non-zero number and a trimmed, non-empty name |
| Parser.CollectHeads | project/js/rejection_parser.js:73-81 | each heading `exec` loop yields one heading per match, in match order |
| Parser.SectionOf | project/js/rejection_parser.js:36-50 | the summary section lies inside the text and exists exactly when a standalone `理由` line does |
| Parser.SectionBounds | project/js/rejection_parser.js:36-50 | the section bounds are computed as `SectionOf` says |
| Parser.ScanSummaryReasonHeads | project/js/rejection_parser.js:34-65 | `_scanSummaryReasonHeads` returns `SummaryHeadsOf(t)` |
| Parser.SummaryHeadsInSection | project/js/rejection_parser.js:34-65 | no summary heading without a `理由` line, and every summary heading lies between the `理由` line and the next `記` line or the text end |
| Parser.PlainHeadOneLine | project/js/rejection_parser.js:87-98 | a plain heading never spans a line feed between its line start and its parenthesis |
| Parser.HeadsOfBelow | project/js/rejection_parser.js:76 | every heading offset lies inside the text |
| Parser.InsertHeadOrdered | project/js/rejection_parser.js:101-105 | inserting one heading into ordered headings keeps them ordered |
| Parser.SortHeads | project/js/rejection_parser.js:101-105 | headings are ordered by offset, bullet before summary before plain at equal offsets, and are a permutation of the input |
| Parser.DedupByKey | project/js/rejection_parser.js:108-116 | the `seen` loop returns `DedupHeads(heads)` |
| Parser.DedupProperties | project/js/rejection_parser.js:108-116 | kept headings have pairwise distinct (offset, number, style) keys, cover every input key, all come from the input, and stay ordered when the input was |
| Parser.ReasonHeadsProperties | project/js/rejection_parser.js:67-116 | the surviving headings are ordered, key-distinct, cover every key any scan found, and start inside the text |
| Parser.ScanHeads | project/js/rejection_parser.js:72-116 | the three scans, the sort and the de-duplication return `ReasonHeads(t)` |
| Parser.FirstNonBlankLine | project/js/rejection_parser.js:124-128 | the header line is the first line that is not blank, trimmed |
| Parser.SliceBlocks | project/js/rejection_parser.js:118-145 | the block loop returns one block per heading |
| Parser.SliceBlock | project/js/rejection_parser.js:120-143 | one block: the chunk to the next heading or the end, its header line, article and trimmed body |
| Parser.ParseReasonBlocks | project/js/rejection_parser.js:67-146 | `parseReasonBlocks` returns `ReasonBlocksOf(rawText)` |
| Parser.ChunksTile | project/js/rejection_parser.js:119-122 | the chunks from block `j` on, put back together, are the text from heading `j` to the end |
| Parser.BlocksCarryHeads | project/js/rejection_parser.js:136-143 | block `j` carries heading `j`'s number, style and title, and its trimmed chunk as body |
| Parser.ReasonBlocksTile | project/js/rejection_parser.js:67-146 | exactly one block per surviving heading, carrying its data, and the chunks tile the text from the first heading to the end |
| Parser.ArticleShape | project/js/rejection_parser.js:130-132 | the article is empty exactly when the first 1200 characters hold no `特許法第N条` citation; otherwise it starts with `特許法` and has no white space |
| Parser.GetEffectiveTitle | project/js/rejection_parser.js:151-159 | no block gives `""`; a non-blank reason title gives that title trimmed; the result is always trimmed |
| Parser.EffectiveTitleFromHeader | project/js/rejection_parser.js:155-158 | with a blank reason title the title is `""` when the header line has no `（…）`, and otherwise, being taken from inside the first one, holds no closing parenthesis |
| Parser.ItemEndWith | project/js/rejection_parser.js:175-179 | an item's extent, which runs to the next claim marker or the end of the text, ends no earlier than its claim line and within the block body |
| Parser.ItemsWith | project/js/rejection_parser.js:171-202 | one item per claim line match, in document order |
| Parser.ExtractMiniItemsFromBlock | project/js/rejection_parser.js:164-205 | `extractMiniItemsFromBlock` returns `MiniItemsOf(blockBody)` |
| Parser.MiniItemLoop | project/js/rejection_parser.js:171-202 | the `exec` loop pushes the items of the claim lines in order |
| Parser.MiniItemAt | project/js/rejection_parser.js:172-201 | one item: the trimmed claim text and its numbers, the refs of the first `・引用文献等` line (none without one), the note after `・備考` trimmed, or the whole extent without one |
| Parser.ChunkRefs | project/js/rejection_parser.js:183-185 | the refs are those of the first `・引用文献等` line, empty without one |
| Parser.ChunkNote | project/js/rejection_parser.js:187-194 | the note as `NoteWith` defines it |
| Parser.ExtractParagraphStrings | project/js/rejection_parser.js:210-227 | `extractParagraphStrings` returns every padded `[a]-[b]` range, then every padded single `[n]` |
| Parser.LabelLoop | project/js/rejection_parser.js:217-224 | each of the two loops appends one label per match, in order |
| Parser.LabelAt | project/js/rejection_parser.js:218-223 | one label, its numbers padded with `pad4` |
| Parser.RangeEndsRepeated | project/js/rejection_parser.js:215-224 | both ends of every range also appear as single labels |
| Parser.RangeLabelParas | project/js/rejection_parser.js:218 | a range label, fed to `addToken`, adds exactly the paragraphs between the two numbers read, and no figure |
| Parser.SingleLabelParas | project/js/rejection_parser.js:223 | a single label, fed to `addToken`, adds exactly its paragraph, and no figure |
| Parser.ExtractFigureTokens | project/js/rejection_parser.js:229-243 | `extractFigureTokens` returns `FigureTokensOf(noteText)` |
| Parser.FigureLoop | project/js/rejection_parser.js:235-241 | the `seen` loop emits `FIG:[key]` for every key at its first occurrence |
| Parser.FigureTokensProperties | project/js/rejection_parser.js:229-243 | the tokens are distinct, and `FIG:[key]` is among them exactly when the text has the key |
| Parser.FigKeyToken | project/js/rejection_parser.js:237-240 | each figure token, fed to `addToken`, adds exactly its key as a label, and no paragraph |
| Parser.ExtractParagraphRefsByCitation | project/js/rejection_parser.js:245-287 | `extractParagraphRefsByCitation` returns `RefsByCitationOf(noteText)` |
| Parser.CollectMarks | project/js/rejection_parser.js:250-255 | one marker per `引用文献N` match, with its offset and number |
| Parser.WholeTextMap | project/js/rejection_parser.js:257-263 | without markers, all tokens under key 0 when there are any, else the empty map |
| Parser.PrologueTokens | project/js/rejection_parser.js:265-270 | the prologue's tokens under key 0 only when it has some |
| Parser.AttributeSegments | project/js/rejection_parser.js:272-284 | the marker loop appends each segment's tokens to its number's list |
| Parser.AttributeSegment | project/js/rejection_parser.js:273-283 | one turn: an absent key is created empty, then extended by the segment's tokens |
| Parser.AttributedPerKey | project/js/rejection_parser.js:272-284 | a number is a key exactly when it was one before or some marker carries it, and holds the tokens of its own segments after its earlier list |
| Parser.RefsWithoutMarkers | project/js/rejection_parser.js:257-263 | with no marker, key 0 is the only possible key, present exactly when the text has tokens, and holds them all |
| Parser.RefsWithMarkers | project/js/rejection_parser.js:265-286 | with markers, every marker's number is a key even with no tokens; key 0 is present otherwise only when the prologue has tokens; each key holds its own segments' tokens, after the prologue's for key 0 |
| Parser.CitationSegmentsTile | project/js/rejection_parser.js:265-275 | the prologue and the segments tile the note text |
| Parser.OpenClaimsIn | project/js/rejection_parser.js:292-302 | `null` exactly without the heading; otherwise the numbers of the first list within 1200 characters from the heading, and `[]` when there is none |
| Parser.OpenClaimsAbsentExample | run_tests.js:227-229 | a text without the heading gives `null` |
| Analyzer.OtherReasonTitleKeywords | project/js/rejection_analyzer.js:14-23 | a title is an other-reason title exactly when its key contains `サポート`, `明確`, `記載要件`, `実施可能` or `拡張` |
| Analyzer.OcrDashTitle | project/js/utils.js:151-158 | `サポ-ト要件`, with an OCR hyphen, is still an other-reason title |
| Analyzer.ClassifyBlockOrder | project/js/rejection_analyzer.js:25-39 | other-reason title first (whatever the article), then `新規性`, then `進歩性` in the title key, then Article 29(1) and 29(2) in the article, else other; a patentability kind is always backed by its title word or its article paragraph |
| Analyzer.TitleDecides | project/js/rejection_analyzer.js:28-32 | when the title decides, changing the article changes nothing |
| Analyzer.CompactParaTokens | project/js/rejection_analyzer.js:45-57 | `compactParaTokens` returns `CompactParaText(tokens, opts)` |
| Analyzer.CompactWithoutOptions | project/js/rejection_analyzer.js:52-56 | with no options the tokens print by the grouped formatter, groups ascending and ranges descending, on one line |
| Analyzer.TokenSetsUnion | project/js/rejection_analyzer.js:49-50 | the accumulated paragraphs and figures are the unions over the tokens |
| Analyzer.CompactTokenSetOnly | project/js/rejection_analyzer.js:45-57 | the compacted text depends only on which tokens occur, not on order or repetition |
| Analyzer.CompactNothing | project/js/rejection_analyzer.js:45-57 | tokens that cite nothing compact to `""` |
| Analyzer.BuildParaLabel | project/js/rejection_analyzer.js:59-65 | `buildParaLabel` returns `ParaLabelOf(refNo, tokens, opts)` |
| Analyzer.ParaLabelShape | project/js/rejection_analyzer.js:59-65 | the label is empty exactly when the compacted text is; reference 0 gives the compacted text alone; any other reference gives a longer label that reads back as its number and ends with the compacted text |
| Analyzer.NumberPrefix | project/js/rejection_analyzer.js:64 | `String(n) + ":" + …` reads back as `n` |
| Analyzer.MaxOf | project/js/rejection_analyzer.js:71-81 | the maximum bounds every element and is one of them when there are any |
| Analyzer.MaxOfSameElements | project/js/rejection_analyzer.js:71-81 | lists with the same values have the same maximum |
| Analyzer.InferMaxClaim | project/js/rejection_analyzer.js:71-81 | `inferMaxClaim` bounds every claim of both lists (absent ones read as empty), is one of them or 0, and equals `MaxOf` |
| Analyzer.RaiseMax | project/js/rejection_analyzer.js:75 | one loop raises the running maximum to every element, to an element or not at all |
| Analyzer.NumberKeyInjective | project/js/rejection_analyzer.js:100 | `String(n) + ":" + k` determines both `n` and `k` |
| Analyzer.ArticleKeyInjective | project/js/rejection_analyzer.js:99-105 | two blocks share a key exactly when they share number and normalized effective title |
| Analyzer.RecordArticles | project/js/rejection_analyzer.js:97-102 | the first loop builds `ArticleTable`, keyed by `ArticleKey` |
| Analyzer.ArticleTableLastWins | project/js/rejection_analyzer.js:98-102 | a key is recorded exactly when a block with a number and an article has it, and then holds the last such block's article |
| Analyzer.LastRecorderUnique | project/js/rejection_analyzer.js:98-102 | the last recorder of a key is unique |
| Analyzer.FillArticle | project/js/rejection_analyzer.js:104-108 | one pass of the second loop is `Propagated` |
| Analyzer.PropagateArticles | project/js/rejection_analyzer.js:96-109 | the two loops overwrite the block array in place with `PropagatedAll` of its old contents |
| Analyzer.PropagationBy | project/js/rejection_analyzer.js:96-109 | only the article may change, and only on a numbered block with an empty article, which takes the last recorder's article for its key or stays empty |
| Analyzer.PropagationEffect | project/js/rejection_analyzer.js:96-109 | the same for `analyze`'s key |
| Analyzer.MapBlocks | project/js/rejection_analyzer.js:112-117 | a block-by-block map keeps the length and maps each block |
| Analyzer.UpdateEach | project/js/rejection_analyzer.js:112-117 | the in-place loop replaces every block by its image |
| Analyzer.SanitizeArticles | project/js/rejection_analyzer.js:111-117 | the sanitisation loop overwrites the block array in place with `SanitizedAll` of its old contents |
| Analyzer.SanitizeEffect | project/js/rejection_analyzer.js:111-117 | an other-reason block whose article contains `特許法第29条` loses its article; every other block is unchanged; afterwards no block qualifies; no block changes its kind |
| Analyzer.NonSummaryNumbers | project/js/rejection_analyzer.js:128-131 | the loop collects `NonSummaryNos` |
| Analyzer.NonSummaryNosMembers | project/js/rejection_analyzer.js:128-131 | a number is collected exactly when a non-summary block carries it |
| Analyzer.SkippedIff | project/js/rejection_analyzer.js:127-137 | a block is skipped exactly when it is of the summary style and a non-summary block has its number |
| Analyzer.BlockEntries | project/js/rejection_analyzer.js:139-140 | one entry per mini-item of the block, in order |
| Analyzer.EntriesMembers | project/js/rejection_analyzer.js:133-140 | an entry comes from a block that is not skipped, and every mini-item of such a block is an entry |
| Analyzer.EntriesStep | project/js/rejection_analyzer.js:133-139 | a skipped block adds no entries; any other adds its own |
| Analyzer.RefLabelNumber | project/js/rejection_analyzer.js:158 | a reference label reads back as its number |
| Analyzer.RefLabels | project/js/rejection_analyzer.js:156-159 | one label per listed reference, in order |
| Analyzer.RefTokens | project/js/rejection_analyzer.js:161-162 | a reference's own tokens when non-empty, else key 0's list when present, else none |
| Analyzer.RefParaLabelsCount | project/js/rejection_analyzer.js:155-164 | at most one paragraph label per reference, exactly one each when key 0 has tokens |
| Analyzer.ReferenceLabels | project/js/rejection_analyzer.js:155-164 | the loop over the refs yields their labels and paragraph labels |
| Analyzer.ReferenceLabel | project/js/rejection_analyzer.js:157-163 | one turn: the reference label, and a paragraph label only when there are tokens to print |
| Analyzer.NoveltyRowAt | project/js/rejection_analyzer.js:149-175 | the row of one patentability item |
| Analyzer.ClaimsCellRoundTrip | project/js/rejection_analyzer.js:170 | the claims cell parses back to the item's claims, sorted and distinct |
| Analyzer.RowCells | project/js/rejection_analyzer.js:169-181 | the article cell is the article or `(unknown)`; the reason cell is `新規性` exactly for novelty and `進歩性` exactly for inventive step; the other table's title cell is the effective title or `(unknown)` |
| Analyzer.ItemRow | project/js/rejection_analyzer.js:141-182 | one item appends its claims and one row to the table its kind selects |
| Analyzer.BlockRows | project/js/rejection_analyzer.js:139-183 | the loop over a block's mini-items folds them in order |
| Analyzer.BlockStep | project/js/rejection_analyzer.js:134-183 | one turn of the block loop: a skipped summary block adds nothing |
| Analyzer.CollectRows | project/js/rejection_analyzer.js:133-184 | the block loop returns `RowsOf(Entries(...))` |
| Analyzer.FoldAppend | project/js/rejection_analyzer.js:133-184 | folding consecutive entry runs is folding their concatenation |
| Analyzer.FoldRouting | project/js/rejection_analyzer.js:148-182 | a routing step gives one row per entry, in the first table exactly for kept entries, and no other rows |
| Analyzer.RowsOfProperties | project/js/rejection_analyzer.js:139-183 | each entry yields exactly one row, a patentability entry in the novelty table and any other in the other table; no row comes from elsewhere; the claims are the entries' claims in order |
| Analyzer.ClaimsSeenMembers | project/js/rejection_analyzer.js:145-146 | a claim is seen exactly when some entry lists it |
| Analyzer.UnassignedProperties | project/js/rejection_analyzer.js:196-198 | a number is unassigned exactly when it lies in `1..maxC` and is not assigned; increasing order |
| Analyzer.UnassignedUpTo | project/js/rejection_analyzer.js:195-198 | the loop collects `Unassigned` |
| Analyzer.ReconcileOpenClaims | project/js/rejection_analyzer.js:189-202 | the open claims are chosen as `OpenClaimsChosen` |
| Analyzer.OpenClaimsRule | project/js/rejection_analyzer.js:186-202 | an explicit list is used as is, even if empty; otherwise a claim is open exactly when it lies in `1..max seen` and no item lists it, in increasing order, and there are none when no claim was seen |
| Analyzer.CleanBlocks | project/js/rejection_analyzer.js:94-117 | one cleaned block per parsed block |
| Analyzer.CleanedBlocks | project/js/rejection_analyzer.js:94-117 | the parsed blocks, copied to an array and updated in place by propagation and sanitisation, are `CleanBlocks(text)` |
| Analyzer.Analyze | project/js/rejection_analyzer.js:87-214 | `analyze` returns `AnalysisOf(rawText)` |
| Analyzer.AnalysisRowsAndClaims | project/js/rejection_analyzer.js:133-202 | the two tables hold exactly as many rows as the kept blocks have items; the assigned claims are those the items list, each once, in increasing order; inferred open claims are never assigned |

## Left out

- Inputs to every operation are strings or sequences, never `null` or `undefined`. The source's `x == null ? "" : x` and `|| ""` fallbacks are the identity on such inputs.
- Text is a sequence of Unicode code points; JavaScript works on UTF-16 code units. The two differ only on characters outside the Basic Multilingual Plane. There, `length`, `slice(0, 1200)` and the 1200-character windows count one character where the source counts two. The default sort of figure labels (`figKeys.sort()`) is modelled as code-point order, whereas JavaScript compares UTF-16 code units; the two orders disagree only when a character outside the Basic Multilingual Plane is compared with one in U+E000–U+FFFF.
- `parseInt` and `isFinite` are modelled on digit strings only. `parseInt` reads the leading run of digits, and numbers are unbounded `nat`. Doubles and precision loss on very long digit runs are not modelled, so the `isFinite` guards are always true.
- JavaScript object key order is not modelled. The sets and maps of the model are unordered; every place where the source orders keys sorts them explicitly.
- The `_debugParaByRef` debug record returned by `analyze` is not part of `Analyzer.Analysis`.
- Analyzer.CompactParaTokens: the source writes the default `groupOrder`/`rangeDirection` into the caller's options object. The model passes the completed options by value, so that side effect on the caller is left out.
- Analyzer.Analyze: `assignedClaims` and `allClaimsSeen` receive the same concatenations, so one `claims` sequence stands for both.
- `assignedClaims.indexOf(c) === -1` is modelled as `c !in assignedNos`.
- `uniq` compares values by their `String(…)` form. On `nat` that is the same as comparing the numbers.
- Parser.GetEffectiveTitle: a block without a `reasonTitle` or `headerLine` field is not modelled. Every `Block` carries both strings, so `String(undefined)` cannot arise; the missing block itself is `None`.
- Analyzer.PropagateArticles and Analyzer.SanitizeArticles update the array in place. Aliasing of the block objects with the parser's output is not modelled, because the parser's result is used only through that array.
- `RejectionParser`, `RejectionAnalyzer` and `Utils` objects hold no state of their own, so they are modules of functions, not classes.
- Browser I/O, the DOM, the clipboard, printing, the ASCII table renderer and the CSV/HTML escaping are not part of this model: `app.js`, `io.js` and `ascii_table.js`. The test harness is also left out; its assertions appear only as example lemmas.
- `padRight`, `charDisplayWidth`, `displayWidth` and `padRightDisplay` in `utils.js` serve only the table renderer and are not part of this model.
- The regular-expression engine is not modelled. Each pattern is a hand-written scanner whose greedy and backtracking choices are resolved for that pattern alone.
