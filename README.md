# otel-tracetest-printer, modelled in Dafny

The printer takes a flat list of OpenTelemetry span stubs and writes them as a nested forest of boxes. Each box holds a span's fields, its attributes and the boxes of its children. This project models the printer's core, `printer.go`, and proves what it does:

- `Spans` (spans.dfy): span and trace identifiers as byte sequences. `IsValid` means "not all zero". `Hex` is the lower-case `String()` form. Attribute values are strings, integers or booleans. A `Span` holds the fields of a span stub that the printer reads.
- `Text` (text.dfy): `strings.Split` and `strings.Join` on `"\n"`. Also `IndentAllLines`, the loop that prefixes every line, proved against its specification `IndentLines`.
- `Forest` (forest.dfy): the forest builder, with one method per loop of `PrintSpanTree`. `BuildChildrenMap` is the append loop. `SortChildLists` sorts every child list, and `CollectRoots` collects the roots. `SortByStart` models `sort.Slice` as an in-place insertion sort on an array. The specification functions `ChildrenOf` and `RootsOf` are the input-order filters those loops compute.
- `Render` (render.dfy): `buildSpanBox`. `SpanBox` is the specification. `BuildSpanBox` is the recursive method that appends to `lines` the way the source does. A box is a structured value (`Box`/`Entry`) rather than a styled string. `BoxText` gives its text, with lipgloss taken as the identity. `JoinVertical` becomes a newline join, and a child box is indented through `IndentLines`.
- `Printer` (printer.dfy): `PrintSpanTree`. Its output is the sequence of boxes passed to `fmt.Fprintln`. `Output` gives the characters written.

The map is keyed the way the source keys it: by the hex string of the parent span ID. `HexInjective` proves that this is the same as keying by the ID itself.

Termination. `buildSpanBox` looks children up by ID string, so a cycle of parent links that a root reaches makes it recurse forever. An example is a root with ID x together with a span whose ID and parent ID are both x: `SelfParentUnderRootLoops` shows that the root's child list holds that span and that the span's own child list holds it again. A cycle that no root reaches is never visited: the input consisting of one self-parented span has no root, and the source writes nothing and stops. The model takes a ghost depth measure `rank`, which must strictly decrease along every parent link of the input (`DepthMeasure`, `Ranked`). `SelfParentHasNoDepthMeasure` shows that this precondition excludes every self-parented span, including the ones the source never reaches.

The comments at printer.go:66 and printer.go:81 sort the child lists and the roots by start time "for stable ordering", but the code calls `sort.Slice`, which is not a stable sort. The model follows the code: it claims only that each list is sorted by start time and is a permutation of what was sorted, and nothing about the order of spans with equal start times.

## Model

| member | source | states |
|---|---|---|
| `Spans.IsValid` | printer.go:61 | SpanID.IsValid: an ID is valid exactly when one of its eight bytes is non-zero, that is, when it is not the all-zero ID |
| `Spans.Hex` | printer.go:101-102 | the string form of an ID has two lower-case hex digits per byte |
| `Spans.HexRoundTrip` | printer.go:61-62 | decoding the hex string form of an ID gives the ID back |
| `Spans.HexInjective` | printer.go:132 | two IDs have the same string form if and only if they are equal, so childrenMap, filled under the parent ID's string (printer.go:61-62) and read under the span ID's string, is keyed by ID |
| `Text.Split` | printer.go:160 | splitting always yields at least one line, and no line contains a newline |
| `Text.Join` | printer.go:163 | strings.Join on "\n", with no contract of its own: no lines give "", and each further line follows a newline; `JoinSplit` and `SplitJoin` prove it the inverse of `Split` |
| `Text.JoinSplit` | printer.go:160-163 | joining the lines of a split gives the original text back |
| `Text.SplitJoin` | printer.go:160-163 | splitting a join of newline-free lines gives the lines back |
| `Text.SplitAround` | printer.go:160 | splitting `a + "\n" + b` gives the lines of `a` followed by the lines of `b` |
| `Text.SplitJoinFlatten` | printer.go:140 | the lines of vertically joined blocks are the lines of each block, in order |
| `Text.IndentLinesSplit` | printer.go:158-164 | indentAllLines keeps the number of lines, and output line i is the indent followed by input line i |
| `Text.IndentLinesEmpty` | printer.go:158-164 | with an empty indent, indentAllLines returns its input unchanged |
| `Text.IndentAllLines` | printer.go:158-164 | the loop over the split lines returns exactly the joined, indented lines |
| `Forest.ChildrenOf` | printer.go:59-64 | the definition, with no contract of its own: the spans whose parent is valid and has the given string form, in input order; `ChildrenOfCount` and `ChildrenOfParent` prove what it holds |
| `Forest.RootsOf` | printer.go:74-79 | the definition, with no contract of its own: the spans whose parent is invalid, in input order; `RootsOfCount` proves what it holds |
| `Forest.ChildrenOfCount` | printer.go:59-64 | a span appears in childrenMap[key] as often as in the input when its parent is valid and has that key, and otherwise not at all |
| `Forest.RootsOfCount` | printer.go:74-79 | a span appears in roots as often as in the input when its parent is invalid, and otherwise not at all |
| `Forest.EachSpanPlacedOnce` | printer.go:59-79 | an input span is a root if and only if its parent is invalid, and is in the child list of a key if and only if its valid parent has that key |
| `Forest.ChildrenOfParent` | printer.go:60-64 | the list under the key of parent ID p holds exactly the input spans whose parent is p |
| `Forest.SortByStart` | printer.go:82-84 | after sort.Slice the array is non-decreasing by start time and holds the same multiset of spans |
| `Forest.SortSlice` | printer.go:68-70 | a sorted slice is ordered by start time and is a permutation of the unsorted one |
| `Forest.BuildChildrenMap` | printer.go:59-64 | after the append loop, a key is present exactly when some span's valid parent has it, and its list is those spans in input order |
| `Forest.SortChildLists` | printer.go:66-71 | the sorting loop keeps the keys, and sorts each list into a permutation of itself |
| `Forest.CollectRoots` | printer.go:74-79 | the loop collects exactly the spans with an invalid parent, in input order |
| `Render.IsErrorAttribute` | printer.go:168-180 | true if and only if the key is one of "error", "error_code" or "rpc.connect_rpc.error_code", or the value is the string "error" or "not_found" |
| `Render.JoinLabelValue` | printer.go:148-150 | the result is the label, two spaces, then the value, and both parts can be read back |
| `Render.BulletText` | printer.go:127 | the Sprintf of a bullet: "• ", the key, " = ", the shown value, and key and value can be read back from it |
| `Render.KidsOf` | printer.go:132 | the child list looked up under the span ID's string form; a missing key reads as the empty list, as a nil slice ranges over nothing |
| `Render.FieldEntries` | printer.go:100-114 | Span Name, TraceID and SpanID first, then ParentSpan only when the parent is valid, and Start Time, End Time and Duration (end minus start) last; 6 fields, or 7 with a valid parent |
| `Render.SpanBox` | printer.go:96-137 | the specification of buildSpanBox's `lines`: one entry per field, the Attributes header, one bullet per attribute and one box per child; `SpanBoxLayout` states every entry |
| `Render.KidIsShallower` | printer.go:132-133 | under a depth measure, every child looked up for a span is strictly shallower than that span |
| `Render.SpanBoxLayout` | printer.go:98-137 | a span's box has the fields Span Name, TraceID and SpanID, then ParentSpan only when the parent is valid, then Start Time, End Time and Duration (end minus start), then the Attributes header, the bullets in attribute order, and the child boxes in child-list order; 7 entries, plus 1 for a valid parent, plus the attribute count, plus the child count |
| `Render.BulletEntryOf` | printer.go:118-129 | the entry after the header at offset i is attribute i's bullet, with emphasis exactly when isErrorAttribute holds |
| `Render.ChildEntryOf` | printer.go:131-137 | the entry after the bullets at offset j holds the box of child j |
| `Render.EntryText` | printer.go:128-136 | the text of one element of `lines`, with styling taken as the identity; a child's text is the child box's lines, each prefixed with the child indent, as indentAllLines makes it |
| `Render.BoxText` | printer.go:139-143 | the definition, with no contract of its own: the entries' texts joined with "\n", as JoinVertical and boxStyle.Render give it when styling is taken as the identity; `EntryLinesInBox` proves its lines are the entries' lines in order |
| `Render.BuildSpanBox` | printer.go:96-144 | the recursive method with its two append loops builds exactly the specified box |
| `Render.ReachedHasReachedParent` | printer.go:132-133 | every span reached from s, other than s, is an input span whose valid parent is the ID of another reached span |
| `Render.EntryLinesInBox` | printer.go:139-140 | the lines of each entry appear contiguously and unchanged among the lines of the box |
| `Render.ChildLinesInBox` | printer.go:133-136 | a child entry's box appears in its parent's lines, indented line by line |
| `Render.EmphasisLeavesTextUnchanged` | printer.go:122-128 | clearing the emphasis of every bullet, in nested boxes too, changes no character of the text; this holds because styling is taken as the identity |
| `Render.ChildBoxNested` | printer.go:131-137 | the lines of each child's box, each prefixed with the child indent, appear contiguously in the parent's box, after its bullets |
| `Render.BulletLineInBox` | printer.go:127-128 | a bullet entry whose key and shown value contain no newline is exactly one line `  • key = value` of the box, at the entry's offset |
| `Render.AttributeLine` | printer.go:118-129 | when the key and the shown value contain no newline, attribute i appears as exactly one line `  • key = value` of its span's box, at its position in attribute order |
| `Printer.SelfParentHasNoDepthMeasure` | printer.go:59-64 | a span whose ID equals its valid parent ID is never a root, it lies in the child list looked up under its own ID, and the input has no depth measure, so the precondition of PrintSpanTree excludes it |
| `Printer.SelfParentUnderRootLoops` | printer.go:132-133 | when a root has ID x and a span has both ID and parent ID x, the root's child list holds the span and so does the span's own, so buildSpanBox on that span calls itself with the same arguments |
| `Printer.SortedChildMember` | printer.go:59-71 | every member of a sorted child list is an input span whose valid parent has the list's key |
| `Printer.SortedChildrenMapRanked` | printer.go:59-71 | the sorted children map inherits the input's depth measure |
| `Printer.PrintSpanTree` | printer.go:47-91 | empty input writes nothing; otherwise exactly one box is written per root, in the order of the roots; the roots are sorted by start time and are a permutation of the invalid-parent spans; every child list is sorted and is a permutation of its key's children; each written box is SpanBox of its root over that map |
| `Printer.Output` | printer.go:86-90 | the written text is empty if and only if no box was written |
| `Printer.RootsAreInvalidParentSpans` | printer.go:74-84 | the sorted roots contain each span as often as the input does when its parent is invalid, and otherwise not at all |
| `Printer.ChildListsAreChildren` | printer.go:59-71 | each sorted child list contains each span as often as the input does when its parent is the key's ID, and otherwise not at all; a key is absent only when no span has that parent |
| `Printer.OrphanNeverRendered` | printer.go:132-133 | a span whose valid parent is the ID of no input span is reached from no root, so its box is never written |

## Left out

- Lipgloss styling is left out: `Render`, borders, colours, padding and the padding that `JoinVertical` adds to equalise widths (printer.go:18-43, 140-143). It is a foreign library. Styling is taken as the identity and `JoinVertical` as a newline join. The emphasis of a bullet is kept as a flag.
- Time and value formatting are not modelled. These are `time.Format` with the printer's layout, `time.Duration.String`, and fmt's `%v` for attribute values. They are library code, so they are the parameters of `Formats`. Times are integers, and the duration is end minus start, with no saturation on overflow.
- Attribute values of kind float64 and slice are not modelled. Integers are unbounded rather than int64.
- The `spanByID` map (printer.go:52-56) is left out. It is built but never read.
- `io.Writer` is modelled only as the sequence of boxes written. A write error is not modelled.
- The order of spans with equal start times is not modelled. `sort.Slice` is not stable, so nothing is claimed about ties, and the determinism of repeated output under ties is not claimed either.
- Printer.SelfParentHasNoDepthMeasure: it proves only that the precondition excludes a self-parented span. That the source then never returns is stated by `SelfParentUnderRootLoops` as a call of buildSpanBox on the same arguments, not as non-termination itself, which a Dafny contract cannot express.
- Printer.PrintSpanTree: it requires a depth measure over every valid parent link of the input. The source terminates also when a cycle of parent links is unreachable from every root, as for the input made of one self-parented span, and the model does not cover that input.
- `printer_test.go` is not modelled. Its fixtures depend on the clock and it checks only substrings of the output.
