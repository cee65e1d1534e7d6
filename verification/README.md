# Outline renderer: inline spans and markdown blocks

This project models the small markdown renderer of the outline view
(`components/OutlineDisplay.tsx`) and proves what it does. The renderer has two stages.

- **`renderMarkdown`** splits the outline text on `'\n'` and walks the lines once. A
  handful of variables hold its state: pending list items, the kind of the open list,
  whether a fenced code block is open, its lines and its language. Each line is tested
  against the markers in source order:
  - a fence `` ``` `` opens or closes a code block;
  - `### ` and `## ` make headings, `> ` makes a blockquote and `---` a rule;
  - `- ` or `* ` adds a bullet item, and `^\d+\.\s` adds a numbered item;
  - a blank line closes an open list;
  - any other line is a paragraph.

  `flushList` turns pending items into one list node. It runs before every other
  node, when the list kind changes, and once after the loop.
- **`parseInlineText`** renders the text of a heading, quote, item or paragraph. It
  splits the text with the capturing pattern `(\*\*.*?\*\*|`.*?`|\[.*?\]\(.*?\))` and
  drops the empty parts. It then classifies each part by its own text as bold, inline
  code, a link or plain text.

The model keeps the same two stages:

- `JsStrings` holds the ECMAScript built-ins the renderer uses: `startsWith`,
  `endsWith`, `slice`, `trim`, `split('\n')`, and the classes `\s`, `\d` and `.`.
- `InlineText` holds the backtracking matcher and `String.prototype.split`.
  - At every position the matcher tries the alternatives in pattern order.
  - Each lazy `.*?` grows one character at a time and never crosses a line terminator.
- `Markdown` holds the lines, each with the kind its tests give it (`Classify`), the
  state record, one loop step (`Step`), the loop (`Run`) and `RenderMarkdown`.
  - It also holds `Reference`, an independent description of the same output as a
    grouping of the lines:
    - a fence line opens a code block that runs to the next fence line;
    - an item opens a list that runs over the following items of the same kind;
    - every other line is one node or, when blank, none.

The proofs show the following:

- The loop computes exactly the reference grouping.
- The output is well formed.
- The inline split is the unique leftmost-first split of the line.
- Matched parts render back to themselves.
- Putting the delimiters back around the spans recovers the line whenever no plain
  part only looks delimited.
- Small outlines exhibit each grouping rule: a change of list kind, a blank line, a
  fenced block and an unclosed fence.

The model keeps these behaviours of the code:
- a part that is just `**` (or a single backtick) passes the bold (code) test and
  renders as an empty span rather than as text;
- the fence test is `startsWith` on the untrimmed line;
- the numbered-item marker accepts any `\s` character after the dot, not only a space.

## Model

| member | source | states |
|---|---|---|
| JsStrings.RelativeIndex | components/OutlineDisplay.tsx:19 | a `slice` argument within the string is kept, a negative one counts back from the end, and one beyond either end is clamped: to the length above it, to 0 below minus the length |
| JsStrings.Slice | components/OutlineDisplay.tsx:19-25 | `slice(start, end)` on both arguments as `RelativeIndex` reads them, empty when they cross; its meaning for the `slice(2, -2)` and `slice(1, -1)` calls is stated by `JsStrings.SliceStripsBothEnds` |
| JsStrings.SliceStripsBothEnds | components/OutlineDisplay.tsx:19 | `slice(n, -n)` is the string with `n` characters cut from each end, and is empty when the string is shorter than `2n` |
| JsStrings.TrimStart | components/OutlineDisplay.tsx:151 | the result is a suffix of the input, everything removed is white space, and it does not start with white space |
| JsStrings.TrimEnd | components/OutlineDisplay.tsx:151 | the result is a prefix of the input, everything removed is white space, and it does not end with white space |
| JsStrings.Trim | components/OutlineDisplay.tsx:151 | `trim()` is empty exactly when the line is all white space; otherwise it starts and ends with a non-white-space character |
| JsStrings.TrimPadding | components/OutlineDisplay.tsx:86 | the input is white space, then the trimmed text, then white space: trimming only removes padding |
| JsStrings.TrimNoPadding | components/OutlineDisplay.tsx:86 | text with no white space at either end is left unchanged by `trim()` |
| JsStrings.SplitLines | components/OutlineDisplay.tsx:47 | `split('\n')` gives at least one line, no line holds a newline, and joining the lines with newlines gives the text back |
| JsStrings.SplitSingleLine | components/OutlineDisplay.tsx:47 | text without a newline splits into exactly itself |
| JsStrings.SplitAfterFirstLine | components/OutlineDisplay.tsx:47 | splitting `first + "\n" + rest` gives `first` and then the lines of `rest` |
| JsStrings.SplitJoinLines | components/OutlineDisplay.tsx:47 | splitting the newline-join of newline-free lines gives those lines back: the inverse of the join |
| InlineText.BoldAt | components/OutlineDisplay.tsx:13 | the alternative `\*\*.*?\*\*` tried at one position; `InlineTextProofs.BoldPartSpan` states that its match is `**`, the lazy content and `**` |
| InlineText.CodeAt | components/OutlineDisplay.tsx:13 | the alternative `` `.*?` `` tried at one position; `InlineTextProofs.CodePartSpan` states that its match is a backtick, content with no backtick, and a backtick |
| InlineText.SplitFrom | components/OutlineDisplay.tsx:14 | `split` on a regex with one capturing group: the text before each match, then the match; `InlineTextProofs.PiecesAreLeftmostSplit` proves that the non-empty parts are the unique leftmost-first split of the line |
| InlineText.SpanOf | components/OutlineDisplay.tsx:18-40 | the classification of one part by its own text, tests in source order; `InlineTextProofs.MatchedPartSpan`, `InlineTextProofs.PlainPartSpan` and `InlineTextProofs.BoldSpanOf` state what each kind of part becomes |
| InlineText.ParseInline | components/OutlineDisplay.tsx:11-42 | `parseInlineText`; `InlineTextProofs.ParseInlineSpans` gives one span per part with the meaning of each, and `InlineTextProofs.InlineRoundTrip` that the spans give the line back |
| InlineText.FindClose | components/OutlineDisplay.tsx:13 | a lazy `.*?d` match, if found, stops inside the string after its start |
| InlineText.FindCloseIsLazy | components/OutlineDisplay.tsx:13 | a lazy `.*?d` stops at the first `d` with no line terminator before it; when it fails, every later `d` lies beyond a line terminator |
| InlineText.LinkTail | components/OutlineDisplay.tsx:13 | a backtracking match of `.*?\]\(.*?\)` has its `](` before its `)`, both inside the string |
| InlineText.LinkAt | components/OutlineDisplay.tsx:13 | a link match starts at a `[` and its `](` and `)` follow in order inside the string |
| InlineText.MatchAt | components/OutlineDisplay.tsx:13 | a match of the alternation is at least two characters long and ends inside the string |
| InlineText.DropEmpty | components/OutlineDisplay.tsx:16 | after `filter(part => part)` no part is empty |
| InlineText.FirstLink | components/OutlineDisplay.tsx:30 | `part.match` finds the leftmost position where the link pattern matches, and finds nothing only when it matches nowhere |
| InlineTextProofs.PiecesAreLeftmostSplit | components/OutlineDisplay.tsx:13-16 | the filtered parts are a leftmost-first split of the line: each match is the one starting where it starts, and plain parts hold no match start. That split is unique and its parts concatenate to the line |
| InlineTextProofs.LeftmostSplitUnique | components/OutlineDisplay.tsx:14 | two leftmost-first splits of the same text are equal |
| InlineTextProofs.LeftmostSplitCovers | components/OutlineDisplay.tsx:14 | the parts of a leftmost-first split concatenate to the text they split |
| InlineTextProofs.LinkTailIsDirect | components/OutlineDisplay.tsx:13 | the backtracking link alternative finds exactly the direct reading: the label stops at the first `](`, the url at the first `)` after it |
| InlineTextProofs.FindCloseStaysNone | components/OutlineDisplay.tsx:13 | once a lazy `.*?d` fails, starting it later over terminator-free text fails too |
| InlineTextProofs.UnclosedUrlStaysUnclosed | components/OutlineDisplay.tsx:13 | when a `](` has no `)` after it, the link pattern cannot match from just after it |
| InlineTextProofs.LinkMatchIsLazy | components/OutlineDisplay.tsx:13 | in a link match both lazy groups stop at the first occurrence of their closing delimiter |
| InlineTextProofs.LinkAtWindow | components/OutlineDisplay.tsx:30 | the link pattern run on a piece of the line matches at a position exactly when the line has a link match there that ends inside the piece, and then with the same label and url |
| InlineTextProofs.LinkPartShape | components/OutlineDisplay.tsx:30-32 | `part.match` on a matched link part finds that same link at offset 0, and the part passes neither the bold nor the code test |
| InlineTextProofs.LinkPartSource | components/OutlineDisplay.tsx:30-32 | a matched link part is `[`, its label, `](`, its url and `)` |
| InlineTextProofs.BoldPartSpan | components/OutlineDisplay.tsx:18-19 | a bold match renders as bold with `slice(2, -2)` of the part; putting the `**` back gives the part, and the content holds no `**` and no line break |
| InlineTextProofs.CodePartSpan | components/OutlineDisplay.tsx:22-28 | a code match renders as code with `slice(1, -1)` of the part; putting the backticks back gives the part, and the content holds no backtick |
| InlineTextProofs.LinkPartSpan | components/OutlineDisplay.tsx:30-37 | a link match renders as a link with the label and url of the match; putting the delimiters back gives the part, and the label holds no `](` and the url no `)` |
| InlineTextProofs.MatchedPartSpan | components/OutlineDisplay.tsx:16-37 | every matched part renders as bold, code or a link, never as text, and its source form is the part itself |
| InlineTextProofs.PlainPartSpan | components/OutlineDisplay.tsx:40 | text in which the pattern matches nowhere renders as itself, unless it starts and ends like a bold or code delimiter |
| InlineTextProofs.SpansOfLeftmostSplit | components/OutlineDisplay.tsx:16-40 | every part of a leftmost-first split renders as its classification promises |
| InlineTextProofs.ParseInlineSpans | components/OutlineDisplay.tsx:16-40 | the spans correspond one to one with the parts. A matched part gives a non-text span whose source form is the part. A plain part gives the same text unless it looks delimited |
| InlineTextProofs.InlineRoundTrip | components/OutlineDisplay.tsx:13-40 | putting the delimiters back around the spans of a line gives the line again, whenever no plain part starts and ends like a delimiter |
| InlineTextProofs.NoPairIsOneText | components/OutlineDisplay.tsx:14-40 | a line in which no delimiter pair completes is a single part, and renders as plain text unless it looks delimited |
| InlineTextProofs.ProseIsText | components/OutlineDisplay.tsx:40 | a line without `*`, backtick or `[` renders as one plain-text span of the whole line |
| InlineTextProofs.StrayMarkerIsText | components/OutlineDisplay.tsx:13-40 | `a ** b` has no closing `**` and renders as one plain-text span |
| InlineTextProofs.WholeLineMatch | components/OutlineDisplay.tsx:13-16 | a line that the pattern matches as a whole, from its first character, is split into that single matched part |
| InlineTextProofs.BoldSpanOf | components/OutlineDisplay.tsx:18-19 | a part made of `**`, any text and `**` is classified as bold of exactly that text, whatever the text holds |
| InlineTextProofs.BoldKeepsBackticks | components/OutlineDisplay.tsx:13-19 | `` **`x`** `` renders as one bold span holding the backticks literally: bold is tried first and its content is not parsed again |
| InlineTextProofs.LoneMarkerIsEmptyBold | components/OutlineDisplay.tsx:18-19 | a line that is only `**` renders as an empty bold span, so the inline round trip fails for it |
| Markdown.Classify | components/OutlineDisplay.tsx:71-153 | the tests of the loop body in source order, each line on its own; the `Markdown.Classify…` lemmas state each outcome in both directions |
| Markdown.Step | components/OutlineDisplay.tsx:68-153 | one iteration of the loop on the state record; `MarkdownProofs.StepKeepsConsistent` states the invariant it keeps |
| Markdown.Run | components/OutlineDisplay.tsx:67-154 | the loop over all lines; `MarkdownProofs.RunFromIdle`, `MarkdownProofs.RunInFence` and `MarkdownProofs.RunInList` state its output from each kind of state |
| Markdown.RenderBlocks | components/OutlineDisplay.tsx:46-159 | the nodes before the inline stage: split, loop, final flush; `MarkdownProofs.RenderIsReference` equates them with `Markdown.Reference` |
| Markdown.RenderMarkdown | components/OutlineDisplay.tsx:46-160 | `renderMarkdown`; `MarkdownProofs.RenderMarkdownIsReference` states its output node for node |
| Markdown.Reference | components/OutlineDisplay.tsx:67-159 | the output described as a grouping of the lines, independent of the state record; `MarkdownProofs.RenderIsReference` proves that the loop computes it |
| Markdown.FenceGroup | components/OutlineDisplay.tsx:71-94 | an open code block takes every line up to the next fence line; `MarkdownProofs.FenceGroupCloses` and `MarkdownProofs.FenceGroupTakes` state its two steps |
| Markdown.ListGroup | components/OutlineDisplay.tsx:126-148 | an open list takes the maximal run of items of its kind; `MarkdownProofs.ListGroupCloses` and `MarkdownProofs.ListGroupTakes` state its two steps |
| Markdown.LeadingDigits | components/OutlineDisplay.tsx:137 | the `\d+` run at the start of a line: all digits, and followed by a non-digit or the end |
| Markdown.OrderedPrefix | components/OutlineDisplay.tsx:137 | a found marker length is a match of `^\d+\.\s` |
| Markdown.ClassifyFence | components/OutlineDisplay.tsx:71-86 | a line is a fence exactly when it starts with three backticks, and its language is the trimmed rest |
| Markdown.ClassifyHeading | components/OutlineDisplay.tsx:97-106 | a line is a level-3 heading of `text` exactly when it is `### ` + `text`, and a level-2 heading exactly when it is `## ` + `text` but not `### …`. No other level occurs |
| Markdown.ClassifyQuote | components/OutlineDisplay.tsx:109-117 | a line is a quote of `text` exactly when it is `> ` + `text` |
| Markdown.ClassifyRule | components/OutlineDisplay.tsx:120-124 | a line is a rule exactly when it starts with `---` |
| Markdown.ClassifyUnordered | components/OutlineDisplay.tsx:127-134 | a line is a bullet item of `text` exactly when it is `- ` + `text` or `* ` + `text` |
| Markdown.ClassifyOrdered | components/OutlineDisplay.tsx:137-145 | a line is a numbered item exactly when `^\d+\.\s` matches, and its text is what follows the match |
| Markdown.ClassifyBlank | components/OutlineDisplay.tsx:147-153 | a line shows nothing exactly when it is all white space |
| Markdown.ClassifyText | components/OutlineDisplay.tsx:150-153 | a paragraph carries its whole untrimmed line, which is not all white space |
| Markdown.ClassifyLines | components/OutlineDisplay.tsx:67-68 | each line is read on its own, in order, one kind per line |
| Markdown.FlushList | components/OutlineDisplay.tsx:55-65 | with items pending, the open list is appended to the output as one list node of its kind holding exactly those items, and the items and list kind are cleared; with no items nothing changes at all; the code-block state is never touched |
| MarkdownProofs.OrderedPrefixIsMarker | components/OutlineDisplay.tsx:137 | the marker length found is the `^\d+\.\s` match length, in both directions |
| MarkdownProofs.StepKeepsConsistent | components/OutlineDisplay.tsx:67-154 | one loop iteration keeps the state consistent: a list kind is set exactly while items are pending, no items are pending inside a fence, and the code buffer is empty outside one |
| MarkdownProofs.RunKeepsConsistent | components/OutlineDisplay.tsx:67-154 | the whole loop keeps that state invariant |
| MarkdownProofs.RunExtendsOutput | components/OutlineDisplay.tsx:67-154 | the loop only ever appends nodes; nodes already emitted are never changed |
| MarkdownProofs.FenceGroupCloses | components/OutlineDisplay.tsx:73-83 | a fence line inside an open block closes it with the lines gathered so far |
| MarkdownProofs.FenceGroupTakes | components/OutlineDisplay.tsx:91-93 | any other line inside an open block is added to it verbatim, whatever marker it holds |
| MarkdownProofs.ListGroupCloses | components/OutlineDisplay.tsx:126-148 | a line that is not an item of the open kind ends the list with the items gathered so far |
| MarkdownProofs.ListGroupTakes | components/OutlineDisplay.tsx:126-145 | an item of the open kind is appended to the open list |
| MarkdownProofs.RunFromIdle | components/OutlineDisplay.tsx:67-159 | from a state with no open list or block, the loop plus the final flush emit exactly the reference grouping of the remaining lines |
| MarkdownProofs.RunInFence | components/OutlineDisplay.tsx:71-94 | inside an open block, the loop plus the final flush emit the block's grouping of the remaining lines |
| MarkdownProofs.RunInList | components/OutlineDisplay.tsx:126-148 | inside an open list, the loop plus the final flush emit the list's grouping of the remaining lines |
| MarkdownProofs.RenderIsReference | components/OutlineDisplay.tsx:46-160 | the renderer's nodes are the reference grouping of the text's classified lines |
| MarkdownProofs.RenderMarkdownIsReference | components/OutlineDisplay.tsx:46-160 | the rendered nodes are, one for one, the reference grouping of the text's lines with the text of every heading, quote, item and paragraph run through the inline stage |
| MarkdownProofs.ClassifyLinesSound | components/OutlineDisplay.tsx:71-106 | every classified line is a fence exactly when it starts with one, and every heading is of level 2 or 3 |
| MarkdownProofs.ReferenceWellFormed | components/OutlineDisplay.tsx:46-160 | the grouping of soundly classified lines has no empty list, only level-2 or -3 headings, and no fence inside a code block |
| MarkdownProofs.FenceGroupWellFormed | components/OutlineDisplay.tsx:71-94 | an open block that holds no fence line still holds none after the remaining lines are grouped |
| MarkdownProofs.ListGroupWellFormed | components/OutlineDisplay.tsx:55-65 | a list is only ever emitted with at least one item |
| MarkdownProofs.RenderWellFormed | components/OutlineDisplay.tsx:46-160 | every node the renderer emits is well formed |
| MarkdownExamples.ClassifyProse | components/OutlineDisplay.tsx:147-153 | a line that starts with no marker character, no digit and no white space is a paragraph of its own text |
| MarkdownExamples.RenderJoined | components/OutlineDisplay.tsx:46-160 | text made of given lines renders as the reference grouping of those lines as classified |
| MarkdownExamples.ClassifyNumbered | components/OutlineDisplay.tsx:137-143 | `1. ` + text is a numbered item of that text |
| MarkdownExamples.KindChangeSplitsList | components/OutlineDisplay.tsx:126-145 | two bullet items and then a numbered item render as a two-item bullet list followed by a one-item numbered list |
| MarkdownExamples.BlankLineSplitsList | components/OutlineDisplay.tsx:147-148 | a blank line between two bullet items gives two lists of one item each |
| MarkdownExamples.ClassifyFenceAs | components/OutlineDisplay.tsx:86 | a fence followed by `language` is a fence of the trimmed language |
| MarkdownExamples.FenceKeepsLines | components/OutlineDisplay.tsx:71-94 | a fence, a code line and a closing fence give one code block with the trimmed language and the code line verbatim |
| MarkdownExamples.UnclosedFenceDropsRest | components/OutlineDisplay.tsx:84-94 | a paragraph, then a fence that is never closed, then a line: only the paragraph is shown |

## Left out

- React elements, `key` props, class names and the `target`/`rel` attributes are not modelled. A node is a `Block` value and a span is a `Span` value.
- The `join('\n')` of a code block's lines (line 78) is not applied: a `CodeBlock` keeps its lines as a sequence, which `join` would turn into one string.
- The `OutlineDisplay` component (lines 162-195) is not part of this model: its loading and error states, the icon, and the wrapper markup. Neither are the other files of the application.
- Strings are sequences of characters, not UTF-16 code units, so a character outside the Basic Multilingual Plane counts as one position rather than two.
- InlineText.FindClose: its contract states only index bounds. What it finds (the lazy stop, or nothing before a line terminator) is stated by InlineText.FindCloseIsLazy.
- InlineText.LinkTail: its contract states only the order of the delimiters. InlineTextProofs.LinkTailIsDirect states that it is the first `](` followed by the first `)`.
- InlineText.LinkAt: its contract states only the opening `[` and the order of the delimiters. InlineTextProofs.LinkMatchIsLazy states the full match.
- InlineText.MatchAt: its contract states only bounds. The meaning of a match is stated by InlineTextProofs.MatchedPartSpan and InlineTextProofs.PiecesAreLeftmostSplit.
- InlineText.DropEmpty: its contract states only that no kept part is empty. That the kept parts are the non-empty ones in order is part of InlineTextProofs.PiecesAreLeftmostSplit.
