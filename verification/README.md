# effdump core in Dafny

effdump records the "effects" of a program as a sorted list of key-value
pairs. It saves one such dump per version and diffs the current effects
against a saved version. This project models the pure core of that tool
and proves properties of the model.

The model covers these parts:

- **Anchored line diff** (`AnDiff`, `Anchors`). Text is split into lines. Lines that occur exactly once on each side become anchors: the longest increasing chain of them, found with Szymanski's Algorithm A. The gaps between anchors become `Op{Del, Add, Keep}` blocks. The walk grows each common run at both ends, slides pure insertions and deletions up to the least indented position, and splits a block further at common runs. It takes an FNV-1 fingerprint of the changed lines.
- **Unified renderer** (`Unified`). It prints context, `-` and `+` lines. Runs of common lines become `@@ N common lines @@` markers, with 3 lines of context kept. The formatter indents every line of a rendering by a tab.
- **Hunk-header picker** (`HunkHeader`). A small state machine chooses the least indented line as the header of a collapsed hunk.
- **HTML formatter data** (`Html`). It interns every line into a sorted table, writes each diff as indices into that table with its ops as flat triples, and includes the error-latching `safeWriter`.
- **Text archives** (`Archive`, `EdTextar`, `Textar`). The separator is chosen so that no value can contain it. Both formats are modelled, and both parsers read back what the formatters write.
- **effdump0 binary framing** (`Frame`, `Effect`, `Marshal`). This is the header, the little-endian length fields and the record layout. Compression is a parameter.
- **Pure parts of the CLI** (`EdMain`, `EdMainDiff`):
  - the identifier and `-sepch` checks;
  - the glob-to-regexp builder `MakeRE`;
  - the dump `Hash`;
  - the sort, filter and duplicate checks on both sides;
  - the merge walk that classifies keys as deleted, added or changed.

Strings are `seq<char>`. One char stands for one byte of a Go string. The exception is `isIdentifier`, which ranges over runes, so there a char stands for a rune. FNV-1 64 is modelled bit for bit on `bv64` (`Fnv`). The proofs are about the bytes fed to it.

## Model

| member | source | states |
|---|---|---|
| AnDiff.SplitLines | internal/andiff/andiff.go:33-40 | split never returns an empty list and no piece has a newline. Joining the pieces with "\n" gives back the input, less one final newline if it had one |
| AnDiff.SplitLinesJoin | internal/andiff/andiff.go:33-40 | newline-free lines joined and ended by "\n" split back into exactly those lines |
| AnDiff.Filter | internal/andiff/andiff.go:47-55 | the filter keeps the number of lines, changes nothing without a regexp, and never puts a newline into a line |
| AnDiff.Compute | internal/andiff/andiff.go:44-159 | LT/RT are the unfiltered splits. Ops are an edit script between the filtered sides. Ops are exactly `[{0,0,len}]` iff the filtered sides are equal, and then the hash is 0. Otherwise the hash is FNV-1 of the "\n-"/"\n+" records of the ops HashMask picks, given a longest valid anchor list of the filtered sides. HashMask picks every op except a balanced one before the last whose Keep holds no anchor. A balanced op deletes as many lines as it adds, and at least one. Such ops are exactly the sub-split runs. The last op is always hashed. Every anchor but the sentinel lies on the Keep of some op, on that op's diagonal, so the diff keeps each anchor's two lines paired |
| AnDiff.Walk | internal/andiff/andiff.go:61-157 | the walk yields an edit script from x to y. The bytes written to the hash are the records of its hashed ops. The anchors it follows are valid, and no valid anchor list is longer. A balanced op before the last is hashed iff its Keep holds one of those anchors. Only ops with a Keep after equally many deletions and additions go unhashed. When x != y the last op is hashed. Every anchor but the sentinel lies on the Keep of some op, on that op's diagonal |
| AnDiff.CommonTop | internal/andiff/andiff.go:67-73 | the common lines at the top are equal on both sides and form the first op. The first lines after them differ. Every anchor inside them lies on that op's Keep |
| AnDiff.TopKeeps | internal/andiff/andiff.go:67-73 | an anchor above the end of the common top pairs a line with itself, so it lies on the top's Keep |
| AnDiff.KeepFirst | internal/andiff/andiff.go:71-73 | the leading Keep op covers equal prefixes and adds nothing to the hash |
| AnDiff.SkipAnchors | internal/andiff/andiff.go:78-81 | the anchors left are a suffix of the old ones, still valid, and the first is at or after (xi, yi) on both sides |
| AnDiff.Locate | internal/andiff/andiff.go:83-92 | the change ends at nxi/nyi, where backing up over equal lines stops: at (xi, yi) or at differing lines. The common run x[nxi..dxi] equals y[nyi..dyi] and is followed by differing lines or an end. It is non-empty when the change is empty. The next anchor lies on that run's diagonal, inside it unless it is the sentinel |
| AnDiff.PickSlide | internal/andiff/andiff.go:97-116 | a slide is chosen only for a pure deletion or a pure addition, is below maxslide (the previous Keep), and the lines it moves over repeat the block's last lines |
| AnDiff.SlideScan | internal/andiff/andiff.go:101-115 | the scan returns 0 when no shorter indent exists above. Otherwise it returns the first slide reaching the least indent, within maxslide, over lines equal to those at the block's end |
| AnDiff.Slide | internal/andiff/andiff.go:97-120 | the slide fires only for a pure change, over lines that repeat the block's last lines. It moves by less than the previous Keep and takes exactly that many lines off it. The script and the hash records stay intact, and so does which ops go unhashed |
| AnDiff.SlideKeeps | internal/andiff/andiff.go:117-120 | sliding a pure change by s keeps the text equal on both sides above the moved block |
| AnDiff.CoversShrink | internal/andiff/andiff.go:117-119 | taking s lines off the last Keep still gives an edit script of the shorter prefixes |
| AnDiff.RecordsShrink | internal/andiff/andiff.go:117-119 | taking lines off the last Keep does not change the hash records |
| AnDiff.RunWithin | internal/andiff/andiff.go:125-128 | the corrected run scan stays inside the block. It returns a run of equal lines that is maximal within the block |
| AnDiff.SubSplit | internal/andiff/andiff.go:122-132 | the corrected sub-split keeps the old ops and marks as a prefix. Every op it emits is an unhashed run of equal lines inside the block, at equal offsets on both sides. A run that deletes lies past the equal lines the block starts with. The remaining change is well formed and starts on the block's diagonal. Every pair of equal lines on the block's starting diagonal, above the change, lies in the Keep of one of the emitted runs |
| AnDiff.SplitCoverRun | internal/andiff/andiff.go:124-131 | a run the scan emits takes in every equal pair on the diagonal from its start to the differing line after it |
| AnDiff.WriteLines | internal/andiff/andiff.go:134-141 | the hash receives "\n-" or "\n+" followed by each line, in order |
| AnDiff.Emit | internal/andiff/andiff.go:122-143 | after a block the script covers up to (dxi, dyi) and the old ops and marks are a prefix of the new. Every op added before the last is an unhashed sub-split run of the block. The block's final op is hashed and its Keep starts at (nxi, nyi) and is the common run. The hash receives its deletions just above nxi and then its additions just above nyi. Every equal pair on the starting diagonal above the change lies in the Keep of one of the new ops before the last |
| AnDiff.EmitOp | internal/andiff/andiff.go:134-143 | the appended op's records are its deleted lines, then its added lines |
| AnDiff.RecordsPush | internal/andiff/andiff.go:134-142 | a hashed op adds its "\n-" and "\n+" records. An unhashed op adds nothing |
| AnDiff.Block | internal/andiff/andiff.go:75-144 | one iteration of the loop keeps the walk's invariant, including which ops go unhashed and which anchors are behind. It keeps every op but the last (whose Keep a slide may shorten) and every mark. It adds at least one op, ends with a hashed op, and makes progress. Every anchor behind the walk before the block, and every one the block passes, lies on the Keep of some op afterwards |
| AnDiff.Advance | internal/andiff/andiff.go:78-143 | one turn of the loop drops the anchors behind the walk and emits one block. It keeps the walk's invariant and the kept anchors, ends with a hashed op, and makes progress |
| AnDiff.BlockKeeps | internal/andiff/andiff.go:79-143 | across one block, every anchor that ends up behind the walk lies on the Keep of some op, on that op's diagonal |
| AnDiff.KeptLast | internal/andiff/andiff.go:97-120 | an anchor on the Keep that a slide shortens stays on it or, when the block has no change, lies on the block's final run. A slide of a pure deletion or addition moves only lines that hold no anchor |
| AnDiff.KeptFinal | internal/andiff/andiff.go:83-92 | an anchor the block passes at or below its change lies on the block's final common run, since its lines are unique and that run pairs equal lines |
| AnDiff.KeptSplit | internal/andiff/andiff.go:122-132 | an anchor inside the block, on the diagonal where the block starts, lies on one of the sub-split runs |
| AnDiff.BlockPassed | internal/andiff/andiff.go:79-120 | every anchor the walk has passed stays passed across a block and its slide: it is above or left of the new position, or on its diagonal over equal lines |
| AnDiff.BlockSkips | internal/andiff/andiff.go:97-143 | after a block, each balanced op but the last is hashed iff its Keep holds an anchor. If the last op is balanced, it holds the next anchor, or the walk is at the end of both sides |
| AnDiff.BlockTracks | internal/andiff/andiff.go:75-144 | what Locate, Slide and Emit establish keeps the anchor bookkeeping across a block |
| AnDiff.Blocks | internal/andiff/andiff.go:75-144 | the main loop ends at the end of one side. It leaves an edit script whose records are the hash, and the same characterisation of the unhashed ops. Every anchor behind the walk lies on the Keep of some op |
| AnDiff.Close | internal/andiff/andiff.go:146-157 | the final op accounts for all remaining lines of both sides, so the script covers both sides in full. When any lines remain it adds exactly one hashed op and keeps the rest. When none remain no op is added |
| AnDiff.CloseKeeps | internal/andiff/andiff.go:146-157 | once one side is used up, every anchor but the sentinel lies on the Keep of an op of the final script |
| AnDiff.CloseSkips | internal/andiff/andiff.go:146-157 | after the final op every balanced op but the last is hashed iff its Keep holds an anchor |
| AnDiff.MaskAgrees | internal/andiff/andiff.go:71-157 | on every op that deletes or adds a line, the walk's marks are exactly HashMask of the anchors |
| AnDiff.RecordsAgree | internal/andiff/andiff.go:134-155 | an op that neither deletes nor adds contributes nothing to the hash, whatever its mark |
| AnDiff.CoversCounts | internal/andiff/andiff.go:142-156 | Del+Keep sums to the left lines covered and Add+Keep to the right lines covered |
| AnDiff.ScriptCounts | internal/andiff/andiff.go:142-156 | over a whole script, Del+Keep sums to len(LT) and Add+Keep to len(RT) |
| AnDiff.ScriptNoEdits | internal/andiff/andiff.go:56-58 | a script without deletions or additions relates equal sides |
| AnDiff.OneKeep | internal/andiff/andiff.go:56-58 | the single-Keep result is an edit script only between equal sides |
| AnDiff.RunAsWritten | internal/andiff/andiff.go:125-128 | the scan as written, with no bound: a run it returns is of equal lines and stops at differing lines inside both sides. Otherwise it returns none, which stands for the out-of-range panic |
| AnDiff.SubSplitPanics | internal/andiff/andiff.go:124-128 | for p,q,a vs r,q,a,q,s,a the only anchor is the sentinel, the first block is x[0..2]/y[0..5], and the scan as written runs off the end of x |
| AnDiff.OverrunBlock | internal/andiff/andiff.go:83-92 | for p,q,a,b vs r,q,a,q,s,a,b, "b" and the sentinel form a valid anchor list. The change before "b" is x[0..2]/y[0..5] and is followed by the common run x[2..4]/y[5..7] |
| AnDiff.SubSplitOverruns | internal/andiff/andiff.go:124-143 | on that block the code as written emits `Op{1,1,2}` and then `Op{-1,2,2}` |
| AnDiff.OverrunScripts | internal/andiff/andiff.go:124-143 | the ops as written are no edit script between the two sides, while `{1,1,1}`, `{0,3,2}` is one |
| AnDiff.ExampleAnchors | internal/andiff/andiff.go:185-255 | for a,b,c,d,e vs a,X,c,d,Y the lines a, c and d with the sentinel are a valid anchor list, and keep a / change b / keep c d / change e is an edit script |
| AnDiff.ExampleSecond | internal/andiff/andiff.go:185-255 | in that example every valid anchor list of four or more pairs a with a, c with c and d with d |
| AnDiff.ExampleKept | internal/andiff/andiff.go:61-157 | in that example, any ops that keep every anchor of a longest anchor list keep a, c and d on the Keep of some op |
| AnDiff.ExampleHash | internal/andiff/andiff.go:124-156 | in that example, with any longest anchor list, the hash takes in both changes: "\n-b\n+X\n-e\n+Y" |
| AnDiff.ExampleRecords | internal/andiff/andiff.go:134-156 | hashing every op of that example writes "\n-b\n+X" and then "\n-e\n+Y" |
| AnDiff.ExampleSentinelOnly | internal/andiff/andiff.go:124-132 | the sentinel alone is valid too, but it would leave the op before c d unhashed, so the anchors must be a longest list |
| AnDiff.ExampleAbcLongest | internal/andiff/andiff.go:185-255 | for a,b,c vs a,x,c the lines a and c with the sentinel are a valid anchor list |
| AnDiff.ExampleAbcPairs | internal/andiff/andiff.go:185-255 | in that case every valid anchor list of three or more pairs a with a and c with c |
| AnDiff.ExampleKeptAbc | internal/andiff/andiff.go:61-157 | in that case, any ops that keep every anchor of a longest anchor list keep a and c on the Keep of some op, so deleting and re-adding every line is ruled out |
| Anchors.Tgs | internal/andiff/andiff.go:185-255 | the pairs increase strictly on both sides. Each pair names equal lines that are unique on both sides. The list ends with the sentinel (len(x), len(y)). No valid anchor list is longer |
| Anchors.CountLines | internal/andiff/andiff.go:190-200 | each line's occurrences are counted, saturating at "many" |
| Anchors.IndexUniqueY | internal/andiff/andiff.go:208-214 | yi lists, in increasing order, every y line that is unique on both sides, and the map holds each one's rank |
| Anchors.MatchX | internal/andiff/andiff.go:215-220 | xi lists, in increasing order, every x line that is unique on both sides, and inv pairs it with its y rank |
| Anchors.TablesPerm | internal/andiff/andiff.go:207-220 | inv is a permutation of 0..n-1 |
| Anchors.Search | internal/andiff/andiff.go:234-236 | sort.Search returns the first slot of the sorted T whose value is at least v |
| Anchors.Lis | internal/andiff/andiff.go:226-239 | Algorithm A: L[i] is the length of the longest increasing run of inv ending at i |
| Anchors.ChainLength | internal/andiff/andiff.go:226-239 | every increasing chain of inv ending at a is at most L[a] long |
| Anchors.MaxRun | internal/andiff/andiff.go:240-245 | k is the largest run length, and one index attains it |
| Anchors.Backtrack | internal/andiff/andiff.go:246-253 | the backwards pass builds a valid anchor list of k pairs plus the sentinel |
| Anchors.OnlySentinel | internal/andiff/andiff.go:246-247 | with no line unique on both sides, the sentinel is the only anchor |
| Anchors.FirstAnchor | internal/andiff/andiff.go:171-173 | when there is more than the sentinel, the first anchor names a line that occurs once in x and once in y |
| Text.CountIndent | internal/fmtdiff/hunkheader.go:20-29 | blank lines, white space in the sense of unicode.IsSpace including its multi-byte UTF-8 runes, have indent 1<<30. Otherwise the indent is the number of leading spaces and tabs, and a non-indent character follows |
| Text.TrimSpace | internal/fmtdiff/hunkheader.go:21 | the result is the slice of the line that is left after the leading white-space runes and then the trailing ones are dropped. White-space runes are ASCII white space and the UTF-8 encodings of U+0085, U+00A0, U+1680, U+2000-U+200A, U+2028, U+2029, U+202F, U+205F and U+3000. The result is empty iff the line is only such runes. Otherwise it neither starts nor ends with one |
| Text.TrimSpaceIdempotent | internal/fmtdiff/hunkheader.go:32 | trimming an already trimmed line changes nothing |
| Text.NoBreakSpaceTrimmed | internal/fmtdiff/hunkheader.go:20-23 | a trailing U+00A0 is trimmed off "x", and a line holding only U+00A0 is blank with indent 1<<30 |
| Text.RightCut | internal/fmtdiff/hunkheader.go:21 | the backward scan stops where no white-space rune ends, and when it consumes the whole string, the string starts with a white-space rune as well |
| Text.TrimLeft | internal/fmtdiff/hunkheader.go:21 | the result is a suffix of the line that starts with no white-space rune. It is empty iff the line is blank |
| Text.TrimRight | internal/fmtdiff/hunkheader.go:21 | the result is a prefix of the line that ends with no white-space rune. It is empty only when the line is empty or starts with a white-space rune |
| Text.JoinSplit | internal/andiff/andiff.go:34 | joining the pieces of strings.Split gives back the string |
| Text.SplitJoin | internal/andiff/andiff.go:34 | splitting a join of separator-free pieces gives back the pieces |
| Text.Cut | internal/edtextar/textar.go:52-60 | strings.Cut finds the first occurrence: the text before it and after it, or none when there is none |
| Text.ReplaceCharAppend | internal/fmtdiff/unified.go:29 | ReplaceAll distributes over concatenation |
| Text.LessTransitive | internal/edmain/edmain.go:149 | Go's byte-wise string order is transitive |
| Text.LessTotal | internal/edmain/edmain.go:149 | any two strings are equal or ordered one way |
| Unified.Unified | internal/fmtdiff/unified.go:42-81 | "-" and context lines show LT and "+" lines show RT, in order. There are as many "-" lines as the sum of Del and as many "+" lines as the sum of Add. Context plus the markers' N equals the sum of Keep. Every marker hides more than 3 lines. There is a leading marker iff the first op is a pure Keep above 6, and a trailing marker iff the last Keep is above 6. There is one marker per long run. The output is empty iff both sides are |
| Unified.ComputeRenderable | internal/fmtdiff/unified.go:46-47 | every diff Compute returns has a non-empty op list that fits its sides, so Unified can index Ops[0] |
| Unified.Lead | internal/fmtdiff/unified.go:47-50 | a leading pure Keep above 6 prints one marker for Keep-3 lines and leaves 3 lines pending. Otherwise nothing is printed |
| Unified.Collapse | internal/fmtdiff/unified.go:52-58 | a pending run above 9 keeps 3 lines on each side of a marker for the rest. A shorter run is left as is |
| Unified.Change | internal/fmtdiff/unified.go:59-68 | the pending context, then Del "-" lines from LT, then Add "+" lines from RT |
| Unified.Step | internal/fmtdiff/unified.go:51-69 | one op adds its deletions and additions to the tallies, and a marker only for a run above 9 |
| Unified.Walk | internal/fmtdiff/unified.go:51-69 | after the loop, the output describes both sides up to the final Keep, with one marker per collapsed run |
| Unified.Finish | internal/fmtdiff/unified.go:70-79 | the final run keeps its first 3 lines and a marker when it is longer than 6. The totals then match the sums of Del, Add and Keep |
| Unified.FinishLong | internal/fmtdiff/unified.go:71-79 | a final run above 6 prints 3 context lines and then `@@ keep-3 common lines @@` |
| Unified.PrintMarker | internal/fmtdiff/unified.go:56 | a marker accounts for n hidden lines of both sides |
| Unified.RenderEmpty | internal/fmtdiff/unified.go:80 | only the empty output prints as "", since every line ends in a newline |
| Unified.IndentRoundTrip | internal/fmtdiff/unified.go:28-30 | tab-indenting a rendering loses nothing: dropping the tabs gives it back |
| Unified.FormatterAdd | internal/fmtdiff/unified.go:26-32 | Add appends one pair under the name and keeps the earlier ones. Its text is empty iff both sides are empty. Dropping its tabs gives the rendering, which shows LT and RT |
| HunkHeader.Improve | internal/fmtdiff/hunkheader.go:31-46 | a non-candidate only clears inrun. Otherwise the pick stays, or becomes this candidate at its own indent, in its run. Once a line is chosen, some line stays chosen and the indent never grows |
| HunkHeader.CandidateNotEmpty | internal/fmtdiff/hunkheader.go:32-36 | a candidate line is never blank, so "" is never picked |
| HunkHeader.PickStays | internal/fmtdiff/hunkheader.go:37-44 | a non-candidate, a more indented candidate, or an equally indented one that starts no new run leaves the pick where it is |
| HunkHeader.PickMoves | internal/fmtdiff/hunkheader.go:45 | a candidate no more indented than the pick, which starts a new run, becomes the pick |
| HunkHeader.FeedPicks | internal/fmtdiff/hunkheader.go:31-46 | over any stream with a candidate, the pick is the first line of the last run of least-indented candidates |
| HunkHeader.FeedChoice | internal/fmtdiff/hunkheader.go:31-46 | without a candidate nothing is chosen. Otherwise a line of the stream is chosen as FeedPicks describes |
| HunkHeader.Header | internal/fmtdiff/hunkheader.go:49-64 | the header is "" or " " + TrimSpace of the chosen line, and always "" when nothing was chosen |
| HunkHeader.HeaderOpens | internal/fmtdiff/hunkheader.go:53-63 | the header is non-empty iff a line was chosen and the first non-blank line of xs is more indented than it, or equally indented while in its run |
| Html.Add | internal/fmtdiff/html.go:42-50 | every LT and RT line is recorded, nothing is forgotten, and the diff is appended in call order |
| Html.AddInterns | internal/fmtdiff/html.go:42-50 | every line of every recorded diff is in the line table |
| Html.Width | internal/fmtdiff/html.go:71-77 | the width is min(120, max(40, longest line)), and the header gets width+2 |
| Html.Table | internal/fmtdiff/html.go:71-84 | the table is sorted and lists each recorded line exactly once |
| Html.Positions | internal/fmtdiff/html.go:81-84 | the map sends every table line to its position |
| Html.Indices | internal/fmtdiff/html.go:88-96 | every index names a table line equal to the original line |
| Html.Flat | internal/fmtdiff/html.go:97-100 | ops become Del,Add,Keep triples, in order |
| Html.FlatRoundTrip | internal/fmtdiff/html.go:97-100 | the triples read back as the ops |
| Html.Layout | internal/fmtdiff/html.go:67-103 | WriteTo's data: the width, the sorted deduplicated table, and one entry per diff in order. Each entry has the diff's name, indices naming its lines, and its flat ops |
| Html.RunStops | internal/fmtdiff/html.go:58-64 | no write happens after the first failed one. n is the sum of bytes reported up to and including it, and the error is kept |
| Sorting.Sort | internal/fmtdiff/html.go:79 | the distinct lines, in strictly increasing byte order |
| Sorting.IncreasingUnique | internal/fmtdiff/html.go:79-84 | a sorted duplicate-free table is determined by its set of lines |
| Sorting.ChainedIncreasing | internal/edmain/edmain.go:148-152 | checking neighbours is the same as checking every pair |
| Archive.SepLength | internal/edtextar/textar.go:16-31 | the separator run is at least 3 chars |
| Archive.MaxDashCovers | internal/edtextar/textar.go:16-30 | maxdash is at least every run of sepch at the start of a line of any value |
| Archive.SeparatorClear | internal/edtextar/textar.go:16-31 | no value line starts with the separator run, so no value holds "\n" + separator |
| Archive.Loop | internal/edtextar/textar.go:54-63 | the parsing loop only appends: the entries already in dst stay as they are |
| Archive.Read | internal/edtextar/textar.go:51-64 | Parse keeps dst as a prefix and adds nothing to input without a space |
| Archive.ReadWrite | internal/edtextar/textar.go:14-64 | pairs with newline-free keys and clear values, written under any sepch other than ' ' or '\n', parse back after dst |
| EdTextar.EncodeKey | internal/edtextar/textar.go:41 | written keys have no newline, and keys without one are written unchanged |
| EdTextar.Format | internal/edtextar/textar.go:14-46 | the archive of an empty list is "", and only that one is |
| EdTextar.Parse | internal/edtextar/textar.go:51-64 | entries are appended to dst. Text without a space adds nothing |
| EdTextar.FormatParse | internal/edtextar/textar_test.go:11-28 | Parse(dst, Format(kvs, c)) is dst followed by the pairs with escaped keys, for any c other than ' ' or '\n' |
| EdTextar.RoundTrip | internal/edtextar/textar_test.go:11-28 | keys without newlines round-trip exactly |
| EdTextar.EscapeCollides | internal/edtextar/textar.go:41 | "a\nb" and the literal `a\nb` are written alike |
| EdTextar.NewlineKeyEscaped | internal/edtextar/textar.go:41 | so a key with a newline comes back escaped |
| Textar.Format | internal/textar/textar.go:23-55 | the archive of an empty list is "", and only that one is |
| Textar.Parse | internal/textar/textar.go:58-72 | text without a space parses to no effects |
| Textar.RoundTrip | internal/textar/textar_test.go:11-28 | with quoting that unquote undoes and that never yields a newline, every effect round-trips, whatever its key holds |
| Frame.U32LE32 | internal/effect/effect.go:65 | a 4-byte little-endian field reads back as the number written |
| Frame.EncodeEntry | internal/effect/effect.go:68-73 | one record is 6 header bytes plus the key and the value |
| Frame.Stream | internal/effect/effect.go:49-73 | the stream's length is dumplen: 6 per entry plus every key and value |
| Frame.Head | internal/effect/effect.go:105-110 | the corrected entry reader takes a whole record within the stream, or reports the entry too large |
| Frame.UnstreamKeeps | internal/effect/effect.go:104-117 | the split loop only appends, keeps the keys ascending when order is checked, and reports disorder only then |
| Frame.UnstreamStream | internal/effect/effect.go:104-121 | the stream of entries that fit, ascending when order is checked, splits back into exactly those entries |
| Frame.Unpack | internal/effect/effect.go:81-101 | a missing "effdump0" header is reported as such, and only then |
| Frame.UnpackWrap | internal/effect/effect.go:63-101 | unpacking takes off exactly the header, the length and the compression that packing puts on |
| Frame.Decode | internal/effect/effect.go:80-123 | decoded keys ascend from "" when order is checked. Disorder is reported only then, and a bad header always |
| Frame.Check | internal/effect/effect.go:49-59 | nothing is reported iff every key is short and, when ordered, each is above the one before. Otherwise the first failing entry is reported, with every entry before it passing. A too-long key is reported with its first 15 bytes and its length. NotSorted means a short key not above the previous one (the empty key for the first) |
| Frame.Encode | internal/effect/effect.go:48-76 | Marshal succeeds iff keys are short, ascend when order is checked, and the stream is at most 1 GiB. A key error is the first failing entry, as Check reports it. A size error carries dumplen and comes only when all keys pass |
| Frame.EncodeDecode | internal/effect/effect.go:48-123 | whatever Marshal writes decodes back to the same entries |
| Frame.FollowsNeighbours | internal/effect/effect.go:55-58 | the running lastKey check, starting from "", is strict order of neighbours. An empty key is never accepted |
| Frame.UnstreamAsWritten | internal/effect/effect.go:104-121 | when the loop as written parses, it only appends: the entries read before stay as they are |
| Frame.LongValueMisread | internal/effect/effect.go:106 | with a 64 KiB value the loop as written reads the length as 0, so the entry does not come back |
| Frame.LongValueRead | internal/effect/effect.go:104-121 | the corrected loop reads that same stream back whole |
| Frame.ShortEntryPanics | internal/effect/effect.go:105-110 | a 6-byte header announcing one missing value byte passes the guard as written and the slice panics. The corrected guard reports it as too large |
| Effect.Marshal | internal/effect/effect.go:48-76 | Marshal fails iff a key is 1<<15 bytes or more, keys do not strictly ascend from "", or dumplen exceeds 1<<30. A key error names the first failing entry, quoting a long key by its first 15 bytes and its length. A size error carries dumplen |
| Effect.Unmarshal | internal/effect/effect.go:80-123 | decoded effects ascend strictly from "". A missing header is an error |
| Effect.UnmarshalAsWritten | internal/effect/effect.go:80-123 | Unmarshal as written also rejects a missing header |
| Effect.RoundTrip | internal/effect/effect_test.go:32-48 | Unmarshal(Marshal(es)) == es whenever Marshal succeeds |
| Effect.LongValueLost | internal/effect/effect.go:106 | a 64 KiB value is accepted by Marshal and read back by the corrected Unmarshal, but not by Unmarshal as written |
| Effect.TruncatedEntryPanics | internal/effect/effect.go:105-110 | a stream promising a missing value byte panics as written and is rejected as too large when corrected |
| Marshal.MarshalBinary | internal/marshal/marshal.go:41-65 | MarshalBinary fails iff a key is 1<<15 bytes or more or dumplen exceeds 1<<30, and never for order. A key error names the first too-long key, quoted by its first 15 bytes and its length |
| Marshal.UnmarshalBinary | internal/marshal/marshal.go:68-107 | the entries or an error, and never an order error. A missing header is an error |
| Marshal.UnmarshalBinaryAsWritten | internal/marshal/marshal.go:68-107 | UnmarshalBinary as written also rejects a missing header |
| Marshal.RoundTrip | internal/marshal/marshal_test.go:32-50 | whatever MarshalBinary writes, in any key order, UnmarshalBinary reads back |
| Marshal.LongValueLost | internal/marshal/marshal.go:94 | a 64 KiB value is written and read back when corrected, but lost as written |
| Marshal.TruncatedEntryPanics | internal/marshal/marshal.go:93-98 | a missing value byte slices past the end as written and is rejected when corrected |
| EdMain.IsIdentifier | internal/edmain/edmain.go:90-100 | true iff the UTF-8 length is 1..64 and every rune is a letter or digit |
| EdMain.LongNameRefused | internal/edmain/edmain.go:91 | more than 64 runes is always refused |
| EdMain.WideRunesCount | internal/edmain/edmain.go:91 | the bound is in bytes: 33 two-byte letters are refused |
| EdMain.IdentifierIsFileName | internal/edmain/edmain.go:184 | an identifier holds no path separator, dot or space, so the temporary directory name stays one component |
| EdMain.Preflight | internal/edmain/edmain.go:176-196 | Run proceeds iff the name is an identifier, sepch is one byte and the version is an identifier. The first failing check is the one reported |
| EdMain.QuoteMeta | internal/edmain/edmain.go:368 | escaping at most doubles a piece |
| EdMain.MakeRE | internal/edmain/edmain.go:355-374 | no globs give the empty pattern. Otherwise the pattern is anchored by "^(" and ")$" |
| EdMain.MakeREGlobs | internal/edmain/edmain.go:355-374 | the globs can be read back from the pattern, so different glob lists give different patterns |
| EdMain.UnglobAlternatives | internal/edmain/edmain.go:362-371 | the alternatives joined by "|" read back as the globs |
| EdMain.UnglobPieces | internal/edmain/edmain.go:366-370 | quoted pieces joined by ".*" read back as the glob, with its stars |
| EdMain.MakeRELiteral | internal/edmain/edmain.go:360-372 | a glob without stars or special bytes becomes `^(glob)$` |
| EdMain.HashFlat | internal/edmain/edmain.go:376-384 | Hash is FNV-1 of K1 V1 K2 V2 … concatenated |
| EdMain.HashDependsOnFlat | internal/edmain/edmain.go:376-384 | dumps with the same concatenation hash alike |
| EdMain.HashKeyValueBoundary | internal/edmain/edmain.go:379-382 | ("ab","c") and ("a","bc") collide |
| EdMain.HashEntryBoundary | internal/edmain/edmain.go:379-382 | one entry and its split into two entries collide |
| Fnv.FeedAppend | internal/edmain/edmain.go:378-383 | writing to the hash in pieces equals writing the concatenation at once |
| EdMainDiff.SortByKey | internal/edmain/edmain.go:226 | the same entries, sorted by key |
| EdMainDiff.Select | internal/edmain/edmain.go:227 | DeleteFunc keeps exactly the entries whose key matches, and keeps sortedness |
| EdMainDiff.FirstDuplicate | internal/edmain/edmain.go:228-232 | the first index whose key equals its predecessor's, or none iff neighbours all differ |
| EdMainDiff.Current | internal/edmain/edmain.go:226-232 | the current side fails iff two effects share a key the filter matches. It names the least such key, since the check runs on the sorted list. Otherwise its keys strictly increase and it holds exactly the matching effects |
| EdMainDiff.FirstDisorder | internal/edmain/edmain.go:148-152 | the first index whose key is not above its predecessor's, or none iff all are ordered |
| EdMainDiff.Baseline | internal/edmain/edmain.go:148-153 | the baseline fails iff its keys do not strictly increase, and names the first bad index. Otherwise it holds exactly the matching entries, in strictly increasing order |
| EdMainDiff.SelectIncreasing | internal/edmain/edmain.go:153 | filtering strictly increasing keys keeps them strictly increasing |
| EdMainDiff.WalkAsWritten | internal/edmain/edmain.go:157-172 | the walk as written reports nothing once either side is empty |
| EdMainDiff.WalkMember | internal/edmain/edmain.go:157-172 | a key is reported iff it is only in the baseline (deleted), only in the current side (added), or in both with different values (changed) |
| EdMainDiff.WalkExact | internal/edmain/edmain.go:157-172 | the corrected walk reports exactly the expected changes |
| EdMainDiff.WalkIncreasing | internal/edmain/edmain.go:157-172 | on two strictly increasing sides the merge walk reports each key at most once, in strictly increasing order |
| EdMainDiff.WalkEmpty | internal/edmain/edmain.go:133-173 | the count is 0 iff both sides are the same |
| EdMainDiff.WalkAsWrittenPrefix | internal/edmain/edmain.go:157 | the walk as written reports a prefix of what the corrected walk reports |
| EdMainDiff.TrailingAddedLost | internal/edmain/edmain.go:157 | a key added after the last baseline key goes unreported as written |
| EdMainDiff.TrailingDeletedLost | internal/edmain/edmain.go:157 | a baseline key after the last current key goes unreported as written |
| EdMainDiff.LeastDuplicate | internal/edmain/edmain.go:226-231 | the first neighbouring pair with one key in the sorted, filtered list carries the least matching key that two effects share |
| EdMainDiff.Diff | internal/edmain/edmain.go:148-172 | the comparison fails iff two current effects share a key the filter matches, or the saved keys are not strictly increasing. Otherwise it reports exactly the deleted, added and changed keys, each once and in increasing key order, and nothing iff both sides agree |
| EdMainDiff.DiffAsWritten | internal/edmain/edmain.go:148-172 | as written, the comparison fails in the same cases and never reports more than the corrected one |

## Left out

- Compression: DEFLATE in effect.go and marshal.go, and gzip in compress.go, is the `Frame.Codec` parameter. The only assumption is that decompressing what was compressed gives it back. The rest of compress.go is I/O around it.
- Regular expressions: the `rmregexp` filter of `Compute` is a parameter. It is a per-line mask of matched positions; the filtered line keeps the unmatched chars. Compiling and matching the pattern of `MakeRE` is the `matches` parameter of the comparison.
- `fmt` `%q` quoting in internal/textar is the `Textar.Quoting` parameter. Its soundness (unquote undoes quote, and quote yields no newline) is an assumption of the round trip.
- I/O, time and randomness: files, HTTP, the terminal, the environment, `time.Now` and `rand` in `Run`, `cmdSave`, `web`, `PeekHash` and the watch loop. These are not modelled.
- The HTML page text (header, script, `html.EscapeString`, printf formatting) is not modelled. `Html.Layout` models only the data written into it.
- `UnifiedFormatter.WriteTo` is not modelled: it is `textar.Format` plus a newline, and the archive is modelled by `Textar.Format`.
- The `record` callback of `Params.diff` calls `andiff.Compute` on each change. The model records the change and its two texts (`EdMainDiff.Texts`) instead of composing with `AnDiff.Compute`.
- EdMain.IsIdentifier: letters and digits are those below U+0100 (ASCII and Latin-1). Other Unicode letters and digits are not classified.
- EdMainDiff.SortByKey: a stable insertion sort stands for `slices.SortFunc`, which is unstable. Entries with equal keys are either all dropped by the filter or rejected by the unique check, so their relative order never shows.
- Go's integer widths are unbounded here: line counts and Op fields are Dafny `int`. The 16-bit key-length field and the 32-bit value and stream lengths are written out explicitly.
- AnDiff.Compute: the contract names the anchors as a longest valid anchor list. When several lists are longest, it does not say which one `tgs` picks. The model computes it with `Anchors.Tgs`, whose own contract says no more either.
- `FetchVersion` runs git, so `EdMain.Preflight` takes the version it would return as a parameter.
- The sources come from different snapshots. edmain.go:160 calls `Compute` with two arguments, while andiff.go:44 takes three. The model follows the definition at andiff.go:44.

## Findings

| source | as written | input that shows it | evidently intended | confidence | as-written member | corrected member |
|---|---|---|---|---|---|---|
| internal/andiff/andiff.go:126 | the sub-split scan `x[txi+same] == y[tyi+same]` has no bound | left `p,q,a`, right `r,q,a,q,s,a`: the scan reads x[3], past the end of the left side | the scan stops at the end of the block | not executed | AnDiff.SubSplitPanics | AnDiff.RunWithin |
| internal/andiff/andiff.go:126-142 | the unbounded scan runs past the block, and the block's final op then has a negative Del | left `p,q,a,b`, right `r,q,a,q,s,a,b`: ops `{1,1,2}`, `{-1,2,2}`, which are no edit script | every op count is non-negative and the ops are an edit script | not executed | AnDiff.SubSplitOverruns | AnDiff.SubSplit |
| internal/effect/effect.go:106 | the 4-byte value length is read with `Uint16` | one effect with a 65536-byte value: its length reads as 0 | read the value length as 32 bits | not executed | Effect.LongValueLost | Effect.RoundTrip |
| internal/effect/effect.go:107 | the guard `o+keysz+valuesz > len(s)` leaves out the 6 header bytes | stream `00 00 01 00 00 00`: the guard passes and the slice at :110 panics | `o+6+keysz+valuesz > len(s)` | not executed | Effect.TruncatedEntryPanics | Effect.Unmarshal |
| internal/marshal/marshal.go:94 | the 4-byte value length is read with `Uint16` | one entry with a 65536-byte value | read the value length as 32 bits | not executed | Marshal.LongValueLost | Marshal.RoundTrip |
| internal/marshal/marshal.go:95 | the guard leaves out the 6 header bytes | stream `00 00 01 00 00 00`: the slice at :98 panics | `o+6+keysz+valuesz > len(s)` | not executed | Marshal.TruncatedEntryPanics | Marshal.UnmarshalBinary |
| internal/edmain/edmain.go:157 | the merge loop runs while both sides are non-empty, so the `len()==0` cases are unreachable | baseline `[a]`, current `[a, b]`: "b (added)" is never reported and the count is 0 | loop while either side has entries | not executed | EdMainDiff.TrailingAddedLost | EdMainDiff.WalkExact |
