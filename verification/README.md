# Copy and paste with indentation, modelled in Dafny

The VS Code extension "better copy paste" replaces the editor's copy and paste commands with
versions that normalise indentation. This project models them as two pure functions.

- `copy` builds the clipboard text from the active editor's selections:
  - an empty selection stands for its whole line;
  - selections are taken in line order;
  - each touched line contributes its selected part, and a whitespace-only line contributes `""`;
  - the smallest leading whitespace among the touched non-blank lines is computed on the full
    lines, and up to that many leading whitespace characters are removed from each part;
  - the parts are joined with the document's end-of-line marker.
- `paste` reads the clipboard text back:
  - it splits the text into lines;
  - it removes their common leading whitespace, blank lines included;
  - for every selection, it prefixes every non-first, non-blank line with the leading whitespace
    of the text before the cursor, and joins the lines with the end-of-line marker.

Modules follow the structure of `src/extension.ts`:

- `Text`: the `\s` character class, leading whitespace, bounded unindent, `join` and `split`.
- `Scanner`: the two minimum-indentation loops.
- `Documents`: selections, editors, edits.
- `Sorting`: the stable sort by start line.
- `CopyCommand` and `PasteCommand`: the two commands.
- `RoundTrip`: copy followed by paste, and the host applying one replacement.
- `Scenario`: the repository's one end-to-end test.

Notes on the model:

- `Text.IsWs` is the character set of ECMAScript `\s`, which is also what `trim` removes: the
  WhiteSpace and LineTerminator code points.
- An editor's document lines never contain `\n` or `\r`; `Documents.ValidEditor` states this
  together with in-bounds selections.
- The clipboard split follows the regular expression `/\n|\r\n|\n\r/` exactly.
  - A lone `\r` is not a line break.
  - The `\n\r` alternative never fires, because `\n` matches first.
- The paste minimum counts every line, including empty ones. So clipboard text from elsewhere
  that has an empty line, or a trailing line break, is not unindented at all
  (`Scanner.PasteMinimumCountsBlankLines`). The copy minimum skips blank lines. The model keeps
  this behaviour as written.

## Model

| member | source | states |
|---|---|---|
| `Text.IsWs` | src/extension.ts:33 | the characters of ECMAScript `\s`, which `trim` also removes: the WhiteSpace and LineTerminator code points |
| `Text.AllWs` | src/extension.ts:33 | `line.trim().length === 0`: every character is whitespace, the empty line included |
| `Text.LeadingWs` | src/extension.ts:39 | the length of the whitespace prefix: the prefix is all whitespace and the next character is not |
| `Text.LeadingWsUnique` | src/extension.ts:93 | that length is the only one with this property, so the greedy `/^(\s*)/` match is determined |
| `Text.AllWsIsLeadingWs` | src/extension.ts:33 | a line is blank (`trim().length === 0`) exactly when its leading whitespace is the whole line |
| `Text.LeadingWsAfterIndent` | src/extension.ts:123 | putting whitespace in front of a line adds exactly its length to the line's leading whitespace |
| `Text.Indentation` | src/extension.ts:116 | the matched whitespace prefix itself: a prefix of the line, all whitespace, maximal, as long as `LeadingWs` |
| `Text.Strip` | src/extension.ts:64 | `/^\s{0,m}/` replaced by "": a suffix remains, at most `m` whitespace characters go, and fewer than `m` only if no whitespace follows |
| `Text.StripCount` | src/extension.ts:105-107 | exactly `min(m, leading whitespace)` characters are removed, and the leading whitespace left is the rest |
| `Text.StripKeepsBlankness` | src/extension.ts:63-64 | unindenting never turns a blank line into a non-blank one or the other way round |
| `Text.StripAll` | src/extension.ts:62-64 | the unindent of a list of lines: one line per line, each a suffix of its own with at most `m` characters gone, blank exactly when it was |
| `Text.Join` | src/extension.ts:65 | `lines.join(sep)`: "" for no lines, the separator only between lines |
| `Text.Split` | src/extension.ts:85 | splitting always gives at least one line and no line holds a line feed |
| `Text.SplitJoin` | src/extension.ts:65 | joining terminator-free lines with "\n" or "\r\n" and splitting the result gives the same lines back |
| `Text.JoinLf` | src/extension.ts:65 | terminator-free lines joined with "\n" contain no carriage return |
| `Text.JoinCrlf` | src/extension.ts:65 | terminator-free lines joined with "\r\n" have every line feed right after a carriage return |
| `Text.JoinSplit` | src/extension.ts:85 | text with no carriage return is the "\n"-join of its own split |
| `Scanner.UpdateMin` | src/extension.ts:42-44 | one step of the running minimum: it becomes defined and equals the smaller of the old minimum and the new indentation |
| `Scanner.NonBlankMin` | src/extension.ts:24-44 | the running minimum stays undefined exactly when every line is blank; otherwise it is a lower bound reached by some non-blank line |
| `Scanner.CopyMinimum` | src/extension.ts:58-60 | the copy minimum is at most the indentation of every non-blank line, equal to one of them, and 0 when all lines are blank |
| `Scanner.CopyMinimumSameNonBlank` | src/extension.ts:33-44 | the copy minimum depends only on the set of non-blank lines, not on their order or repetition |
| `Scanner.CopyMinimumIgnoresBlank` | src/extension.ts:33-36 | inserting a whitespace-only line never changes the copy minimum |
| `Scanner.CopyUnindentNormalises` | src/extension.ts:58-60 | a scanner property: whole lines unindented by their own copy minimum have copy minimum 0 |
| `Scanner.AllLinesMin` | src/extension.ts:91-97 | the paste loop's running minimum is undefined only for no lines, and is otherwise a lower bound reached by some line |
| `Scanner.PasteMinimum` | src/extension.ts:99-102 | the paste minimum is at most every line's indentation (empty lines included) and equal to one of them |
| `Scanner.PasteStripExact` | src/extension.ts:105-107 | under the paste minimum every line loses exactly that many characters, all whitespace |
| `Scanner.PasteStripAllExact` | src/extension.ts:104-107 | the same for all lines at once |
| `Scanner.PasteUnindentIdempotent` | src/extension.ts:91-107 | after the paste unindent the minimum is 0, so unindenting again changes nothing |
| `Scanner.PasteMinimumCountsBlankLines` | src/extension.ts:92-97 | one empty clipboard line forces the paste minimum to 0 |
| `Documents.Eol.Str` | src/extension.ts:9 | the end-of-line marker is "\n" or "\r\n" |
| `Documents.Selection.IsEmpty` | src/extension.ts:15 | `selection.isEmpty`: start and end are the same position |
| `Sorting.Insert` | src/extension.ts:21 | inserting into a sorted list keeps it sorted, adds exactly the new selection, and puts it before the selections of its line already in the list |
| `Sorting.SortByStartLine` | src/extension.ts:21 | the sort result is ordered by start line, is a permutation of the input, and keeps the input order of selections on the same line |
| `Sorting.SortedStableUnique` | src/extension.ts:21 | any two stable sorts by start line of the same selections are equal, so `Array.prototype.sort` gives this very result |
| `CopyCommand.WholeLine` | src/extension.ts:15-20 | the widened selection stays inside the document on the same start line: an empty one spans column 0 to the end of its line, any other is kept |
| `CopyCommand.WholeLines` | src/extension.ts:15-20 | one widened selection per selection, all inside the document |
| `CopyCommand.CopySelections` | src/extension.ts:15-21 | the copy order is sorted by start line, a stable permutation of the widened selections, and a remaining caret sits only on an empty line |
| `CopyCommand.LineFragment` | src/extension.ts:30-53 | blank line gives ""; single-line range gives `line[startChar..endChar]`; first line from `startChar`; last line up to `endChar`; interior lines whole |
| `CopyCommand.RangeLines` | src/extension.ts:27 | a selection touches `endLine - startLine + 1` whole lines |
| `CopyCommand.RangeFragments` | src/extension.ts:27-54 | one fragment per line of a selection |
| `CopyCommand.CopyFragmentsAreSelectedText` | src/extension.ts:47-53 | with no blank line in the range, the joined fragments are exactly the text between the selection's two positions |
| `CopyCommand.TouchedLines` | src/extension.ts:26-30 | every selection touches at least one line, and touched lines have no line breaks |
| `CopyCommand.Fragments` | src/extension.ts:26-55 | exactly one fragment per touched line, "" for every blank one |
| `CopyCommand.CopyLines` | src/extension.ts:62-64 | one unindented clipboard line per touched line |
| `CopyCommand.CopyLineStripped` | src/extension.ts:63-64 | each clipboard line is its fragment minus exactly `min(minimum, its leading whitespace)` leading characters, where the minimum comes from the full touched lines |
| `CopyCommand.CopyBlankLineIsEmpty` | src/extension.ts:33-36 | a whitespace-only touched line becomes an empty clipboard line |
| `CopyCommand.Copy` | src/extension.ts:3-68 | no editor writes nothing; otherwise the clipboard text splits back into exactly the unindented lines, so no line break is added at the end, and its only line breaks are the document's marker (no "\r" for LF; every "\n" after a "\r" for CRLF) |
| `CopyCommand.CopyLinesPlain` | src/extension.ts:62-65 | the clipboard lines of a valid editor contain no line breaks |
| `PasteCommand.Unindent` | src/extension.ts:84-107 | one line per split line, each with exactly the paste minimum of whitespace removed, and no common indentation left |
| `PasteCommand.UnindentFlush` | src/extension.ts:91-107 | a clipboard with an unindented line, an empty one included, is not unindented at all |
| `PasteCommand.PasteIndentation` | src/extension.ts:113-116 | the indentation at a cursor is a whitespace prefix of its line, no longer than the cursor column, and maximal |
| `PasteCommand.IndentLines` | src/extension.ts:118-123 | one line per line: line 0 and blank lines kept, others behind the indentation; a whitespace indentation keeps blankness and adds exactly its length to each re-indented line's leading whitespace |
| `PasteCommand.PasteText` | src/extension.ts:118-124 | the text for one selection; with terminator-free lines and cursor line, it splits back into the re-indented lines |
| `PasteCommand.Paste` | src/extension.ts:71-128 | an empty clipboard or no editor edits nothing; otherwise one replacement per selection, over that selection's range |
| `PasteCommand.PasteTextLines` | src/extension.ts:118-124 | with no lone carriage return on the clipboard, the text pasted at a selection splits back into the re-indented lines |
| `PasteCommand.PasteBlock` | src/extension.ts:118-127 | the pasted block has as many lines as the clipboard; line 0 and blank lines are unchanged, and every other line is the indentation followed by the unindented line |
| `PasteCommand.PasteBlockRebased` | src/extension.ts:104-123 | for every clipboard: the block has one line per clipboard line, and a re-indented line's leading whitespace is the cursor's indentation plus what it had beyond the clipboard minimum |
| `PasteCommand.PasteRebasesIndentation` | src/extension.ts:121-124 | a pasted non-first, non-blank line is indented by the cursor's indentation plus what it had beyond the clipboard minimum |
| `RoundTrip.CopyThenPaste` | src/extension.ts:62-124 | pasting what copy wrote gives, for each selection, the copied lines unindented by their own minimum and re-indented for that selection; an empty payload pastes nothing |
| `RoundTrip.ApplyEdit` | src/extension.ts:127 | the host's replacement of one range: the lines before and after the range are unchanged, and at least one line takes the range's place |
| `RoundTrip.InsertAtBlankLine` | src/extension.ts:127 | text inserted at the start of an empty line takes that line's place in the document |
| `Scenario.UnindentMultilineFunctionCall` | src/test/extension.test.ts:19-43 | copying (1,4)-(3,5) of the test document and pasting at (5,0) gives the expected document |
| `Scenario.TestCopyLines` | src/test/extension.test.ts:29-30 | the copy in that test writes the three touched lines with 4 columns removed |

## Left out

- VS Code plumbing:
  - `activeTextEditor`: it becomes an `Option<Editor>` parameter.
  - `clipboard.writeText` and `clipboard.readText`: the clipboard text is a result or a parameter.
  - `editor.edit` and `editBuilder.replace`: `Paste` returns the list of replacements.
  - Command registration and `activate`/`deactivate`.
- End-of-line detection: the editor's `Eol` is a parameter.
- `RoundTrip.ApplyEdit`: models the host applying one replacement. Applying several replacements
  at once, overlapping ones included, belongs to the host and is not modelled. It re-splits the
  edited line with the clipboard split, so a lone `\r` stays inside a line; the host also breaks
  lines at a lone `\r` and converts inserted line breaks to the document's marker.
- JavaScript `slice` clamping: selections are required to lie inside the document, which the host
  guarantees.
- Strings: characters are Unicode scalar values and columns count them; VS Code counts UTF-16
  code units, so positions after a non-BMP character differ. There is no Unicode normalisation.
- `src/extension.ts` does not implement cut, clipboard history, spread paste, whole-line paste,
  re-prepending unselected first-line indentation, a trailing line break after whole-line copies,
  or format on paste; none of them is modelled.
- The test harness in src/test/extension.test.ts:4-16 drives a real editor; only its expected
  output is modelled.
- `eslint.config.mjs` is lint configuration with no logic and is not part of this model.
- Scanner.CopyUnindentNormalises: is about whole lines only. The copy's own output is not
  normalised when a selection starts after non-whitespace: copying `"a   b"` from column 1 writes
  `"   b"`, because the minimum comes from the full line.
- PasteCommand.PasteTextLines: states the re-split only for clipboards whose lines hold no lone
  `\r`; a block line `"a\r"` joined with `"\n"` splits back as `"a"`. `PasteBlockRebased` states
  the block's lines for every clipboard.
- PasteCommand.PasteBlock: the same restriction, for the same reason; `PasteBlockRebased` covers
  every clipboard at the level of lines.
- PasteCommand.PasteRebasesIndentation: the same restriction, for the same reason;
  `PasteBlockRebased` states the rebased indentation for every clipboard.
