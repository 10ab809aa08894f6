# log-beautify core in Dafny

A model of the core of log-beautify (`main.go`). The tool reads log lines from
standard input and groups them into log entries: an indented line stays with
the entry above it, and an empty line or a second unindented line in a row
starts a new entry. Each entry is then rendered as markdown. An entry that
decodes as a JSON object gets a "JSON Log" block. That block holds a
pretty-printed preview in which long or multi-line fields are replaced by
`--- SEE BELOW ---`, followed by one section per replaced field with its full
unescaped text. Any other entry gets a "Plain Text Log" block.

Files and modules:

- `text.dfy`, module `Text`: the `strings`/`fmt` operations the tool uses.
  These are `ReplaceAll`, the four-step `Unescape` chain, `Split` and `Join`
  on "\n", and `%d` formatting.
- `json.dfy`, module `JsonData`: the decoded JSON value (`Str`, `Num`, `Bool`,
  `Null`, `Arr`, `Obj`) and `Option`.
- `segmenter.dfy`, module `Segmenter`: the grouping rule as a pure
  specification. `Feed` is one iteration of the input loop and `Segment` gives
  the entries of a line sequence. The lemmas state what the grouping
  guarantees.
- `render.dfy`, module `Render`: `processJSONForDisplay` (`DisplayValue`,
  `ProcessJSONForDisplay`) and `collectEscapedValues` (`CollectEscapedValues`,
  `CollectField`, `ScanArray`, `WriteValues`). It also holds their shared
  specification of extracted sections (`Extracted`, a multiset) and
  `processLog` (`ProcessLog`, `WritePreview`, specified by `Renders`).
- `beautify.dfy`, module `Beautify`: the loop of `main` as a method
  (`Beautify`), with its body as `ScanLine` and the body's two branches as
  `ScanBlank` and `ScanNonBlank`. It is proved to produce the
  renderings of `Segment`'s entries, in order.

Go visits map keys in an unspecified order. `CollectEscapedValues` picks the
next key with `:|`, so no order is assumed. Its output is specified as *some*
ordering of the multiset of sections `Extracted(data)`. For the same reason,
the result of `ProcessLog` and of `Beautify` is a relation (`Renders`), not a
function.

Two behaviours of `main.go` to keep in mind:

- Empty input lines are dropped. The entries hold exactly the non-empty lines,
  so they do not reconstruct the input byte for byte.
- On a read error, `main` prints none of what it rendered (main.go:184-187).

## Model

| member | source | states |
|---|---|---|
| `Text.ReplaceAll` | main.go:53-56 | `strings.ReplaceAll`, scanning left to right without overlaps. The result is never longer when the replacement is no longer than the pattern. A string that lacks the pattern's first character comes back unchanged. |
| `Text.Unescape` | main.go:53-56 | The unescape chain never makes a string longer. It is the identity on strings without a backslash. |
| `Text.UnescapeEscapedBackslashN` | main.go:53-54 | Because `\\`→`\` runs first, backslash-backslash-n between backslash-free text becomes one real newline. |
| `Text.UnescapeLineBreak` | main.go:53-56 | A literal backslash-n between backslash-free text (e.g. `line1\nline2`) becomes a real line break. |
| `Text.Join` | main.go:172-175 | Definition: the text the `currentLog` builder holds, the lines separated by "\n" with none before the first. |
| `Text.JoinTerminated` | main.go:29-32 | Definition: each line written followed by "\n", in order. |
| `Text.Split` | main.go:27 | `strings.Split(s, "\n")` gives at least one piece, and no piece contains a newline. |
| `Text.JoinSplit` | main.go:27-32 | Splitting on "\n" and joining with "\n" gives the string back. |
| `Text.SplitRejoin` | main.go:27-32 | Writing each piece of `Split(text)` followed by "\n" reproduces `text` plus one final "\n". |
| `Text.SplitJoin` | main.go:172-175 | Lines without "\n", joined with "\n" and split again, come back unchanged. |
| `Text.DecimalString` | main.go:130 | `%d` of a natural number is a non-empty string of decimal digits with no leading zero. |
| `Text.DecimalRoundTrip` | main.go:130 | The digits `%d` writes denote the number written. |
| `Segmenter.IsIndented` | main.go:163 | Definition: a line is indented when its first character is a space or a tab. |
| `Segmenter.Segment` | main.go:149-182 | Definition: the entries handed to processLog, the lines fed one by one from the initial state, with the open entry flushed at the end of input. |
| `Segmenter.Feed` | main.go:152-176 | An empty line closes any open entry, clears `lastLineWasIndented` and leaves nothing open. An indented line never flushes: it is appended to the open entry, which may be empty. An unindented line flushes exactly when the open entry is non-empty and the last line was unindented, and then starts the next entry. It always clears the flag. A non-empty line is appended, in order, to finished-plus-open lines. |
| `Segmenter.SegmentWellFormed` | main.go:163-176 | Every entry has at least one line and no empty line. Inside an entry, every unindented line other than the first directly follows an indented line. |
| `Segmenter.AdjacentUnindentedSplit` | main.go:165-169 | Two adjacent non-empty unindented input lines never share an entry. The non-empty lines up to the first of them fill exactly the first `k` entries, and at least one more entry follows. |
| `Segmenter.EntryTextsNonEmpty` | main.go:154-181 | No entry text handed to processLog is empty. |
| `Segmenter.SegmentConserves` | main.go:149-182 | Line conservation: the entries, concatenated in order, are exactly the non-empty input lines. Nothing is dropped, duplicated or reordered. |
| `Segmenter.EntryTextsConserve` | main.go:171-176 | Splitting each entry text on "\n" gives that entry's lines. Concatenated, these are exactly the non-empty input lines. |
| `Segmenter.BlankLineSeparates` | main.go:153-159 | An empty line is a hard boundary: `Segment(xs + [""] + ys) == Segment(xs) + Segment(ys)`. |
| `Segmenter.SegmentBlankFree` | main.go:165-169 | Without empty lines, consecutive entries are split only where an unindented line follows an unindented line. |
| `Render.NeedsOwnSection` | main.go:57 | Definition: a string is summarized when its unescaped form has a line break or is longer than 100. |
| `Render.MultiLineArray` | main.go:79 | Definition: an array is summarized when all its elements are strings and one of them has a line break once unescaped. |
| `Render.DisplayValue` | main.go:50-88 | A summarized value (a long or multi-line string, or an all-string array with a multi-line element) becomes the placeholder. Other non-objects are kept. Objects map to objects with the same keys. |
| `Render.ProcessJSONForDisplay` | main.go:47-91 | The preview map has exactly the key set of its input. |
| `Render.DisplayIdempotent` | main.go:47-91 | Building the preview of a preview changes nothing: the placeholder is itself never summarized. |
| `Render.LeafSections` | main.go:97-132 | A string or array field yields a section exactly when it is summarized. A string yields `Field(key, unescaped text)`. An array yields `Values(key, every element unescaped, in order)`. |
| `Render.KeySections` | main.go:96-135 | Definition: the sections one key contributes. A nested object contributes all of its own sections. A string or array contributes its `LeafSections`. |
| `Render.ExtractedOver` | main.go:95-136 | Definition: the multiset union of `KeySections` over a set of keys, taken in any order. |
| `Render.Extracted` | main.go:94-137 | Definition: what collectEscapedValues writes for a map, as a multiset of sections over all its keys. |
| `Render.ExtractedOverChoose` | main.go:95 | The extracted sections do not depend on the order in which map keys are visited. |
| `Render.ExtractorMatchesDisplay` | main.go:47-137 | Key by key, the extractor matches the preview. A non-object field gets a section exactly when the preview changed it, and then the preview holds the placeholder. The section carries the field's key and unescaped text. A nested object's sections are included, and its preview is its recursive preview. |
| `Render.NothingExtractedIffUnchanged` | main.go:47-137 | collectEscapedValues writes nothing exactly when processJSONForDisplay returns its input unchanged, at every depth. |
| `Render.ValuesHeading` | main.go:128 | Definition: the heading of an array field's section, ``\n### Field `key` Values:\n\n``. |
| `Render.ItemText` | main.go:130 | Definition: the block of element `n`, `#### Item n:` followed by the text in a code block. |
| `Render.SectionText` | main.go:103-131 | Definition: a string field's section is its heading and the unescaped text in a code block; an array field's section is its heading followed by the numbered element blocks. |
| `Render.ItemsText` | main.go:129-131 | Definition: the numbered element blocks, `ItemText(i + 1, texts[i])` for each element, in order. |
| `Render.ItemsTextNumbered` | main.go:129-131 | In an array section, element `i` (from 0) is written as `#### Item i+1` with its text, in array order. |
| `Render.ScanArray` | main.go:107-125 | `allStrings` is true exactly when every element is a string. Then the collected texts are all elements unescaped, in order, and `shouldFormat` is true exactly when one of them has a line break. |
| `Render.WriteValues` | main.go:127-132 | The loop writes the "Values" heading and then one numbered block per element. |
| `Render.CollectField` | main.go:96-135 | One loop pass writes exactly the sections the specification assigns to that key. |
| `Render.CollectEscapedValues` | main.go:94-137 | The text written is the multiset `Extracted(data)` of sections, in some order. |
| `Render.WritePreview` | main.go:25-33 | Split-and-rejoin writes the pretty JSON inside a `json` fence, followed by exactly one "\n". |
| `Render.PlainBlock` | main.go:37-42 | Definition: the plain-text block: the "Plain Text Log" heading, the entry inside a code fence, and the rule. |
| `Render.JsonBlock` | main.go:21-42 | Definition: the JSON block: the "JSON Log" heading, the pretty text inside a `json` code fence, the sections, and the rule. |
| `Render.Renders` | main.go:15-44 | Definition: the possible outputs of processLog. An entry that does not decode as an object gives the plain block. An object gives the JSON heading, its preview pretty-printed in a `json` code block, the extracted sections in some order, and the rule. |
| `Render.ProcessLog` | main.go:15-44 | The block is a valid rendering of the entry (`Renders`). A non-object entry gets the plain block. An object entry gets the JSON heading, the preview of `ProcessJSONForDisplay`, the extracted sections and the rule. Every block ends with "\n---\n\n". |
| `Render.RenderFraming` | main.go:21-42 | Every rendering ends with "\n---\n\n". A non-object entry yields exactly "## Plain Text Log\n\n```\n" + log + "\n```\n\n---\n\n". An object entry starts with "## JSON Log\n\n```json\n". |
| `Beautify.Emit` | main.go:155-181 | The append `allOutput.WriteString(processLog(currentLog))`, which `main` makes at lines 155, 167 and 181. Everything written before is kept. The renderings grow by exactly one block, for the finished entry. |
| `Beautify.ScanLine` | main.go:150-176 | One pass of the loop body carries out exactly one `Feed` step. `currentLog` stays the open entry's lines joined with "\n", and `lastLineWasIndented` stays the state's flag. The output so far is kept as a prefix. The output stays the renderings of the finished entries, in order. |
| `Beautify.ScanBlank` | main.go:153-160 | The empty-line branch is the `Feed` step for "": it hands over the open entry if there is one, clears the flag and leaves nothing open. The output is only appended to. |
| `Beautify.ScanNonBlank` | main.go:163-176 | The non-empty-line branch is the `Feed` step for that line. `currentLog` becomes the new open entry's text. The output is only appended to. |
| `Beautify.Beautify` | main.go:144-182 | The total output is the concatenation, in order, of one rendering per entry of `Segment(lines)`. |

## Left out

- Reading standard input (`bufio.Scanner`) is not modelled. The input is a
  given sequence of lines. `Scanner` also drops a trailing "\r" and fails on
  lines over 64 KiB; these are not modelled.
- The read-error path is I/O. On an error `main` prints an error message and
  exits without printing the rendered output. It is not modelled.
- Flag parsing (`-raw`) is not modelled, nor is the final
  `markdown.Render(..., 80, 0)`: that is an external terminal renderer.
  Printing with `fmt.Print` is left out too.
- `json.Unmarshal` into `map[string]interface{}` is the parameter `parse`,
  because it is a library call. `None` stands for an error. Go decodes the
  literal `null` into a nil map without error, so a faithful `parse` returns
  `Some(map[])` for it and that entry takes the JSON branch.
- `json.MarshalIndent(..., "", "  ")` is the parameter `marshal`, because its
  layout is the library's. This includes key sorting and HTML escaping. Its
  error is ignored in the source. A failed marshal gives an empty text, which
  `marshal` may return.
- Numbers are decoded to float64 by Go. The model carries them as `real` and
  never inspects them, so floating point is not modelled.
- Strings are sequences of characters. Go's `len` counts UTF-8 bytes, so the
  threshold of 100 is applied to the sequence length. Strings whose
  characters are all ASCII agree with Go.
- `CollectEscapedValues` writes into a `*strings.Builder` in the source. Here
  it returns the text it appends, and the caller appends that text.
- Map iteration order is unspecified in Go. No property relates the order of
  sections of different keys. The sections are specified as a multiset.
