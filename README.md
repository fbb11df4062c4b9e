# Streaming reformatter of the chat client, in Dafny

This project models the text pipeline that the chat client in `base/ai.py` uses to print a
streamed language-model answer in a terminal. The pipeline has two stages.

- **Whitespace splitter** (`extract_whitespace`, module `WhitespaceSplitter`, file
  `splitter.dfy`). It takes a sequence of optional text fragments. It skips absent fragments
  and re-cuts each present fragment into tokens. A token is a single space, a single newline,
  or a maximal run of other characters inside that fragment. Only `' '` and `'\n'` are
  delimiters: a tab is ordinary content.
- **Reformatter** (`reformat`, module `Reformatter`, file `reformatter.dfy`). It consumes the
  tokens with four loop locals: the mode (paragraph or code), the counted line length, a
  pending-space flag, and an ANSI escape queued for the next newline. In paragraph mode it
  word-wraps greedily to a target width. A ```` ``` ```` token at the start of a counted line
  toggles code mode. Code tokens pass through untouched. Bold red (`ESC[31;1m`) is queued after
  an opening fence and printed after the next newline. A reset (`ESC[0m`) is printed just
  before a closing fence. One newline always ends the output.

Both stages are imperative methods that mirror the source loops. `ExtractWhitespace` has the
nested `for`/`while` loops of the source. `Reformat` has the single `for` loop over the four
locals, and it calls `ExtractWhitespace` just as `reformat` calls `extract_whitespace`. Each
method is proved equal to a specification function:

- `Split` / `SplitFragment` for the splitter;
- `Step` / `Run` / `Render` for the reformatter, where `Step` is one turn of the loop and
  `Render` is the whole output.

The lemmas then state what the source promises about those functions. Module `Text`
(`text.dfy`) holds the shared helpers: `Option`, `Concat` (the printed text of a piece
sequence) and `Column` (characters after the last newline).

The terminal query `shutil.get_terminal_size` is not modelled. It becomes the `columns`
parameter, and `TargetWidth` caps it at 80 as the source does. `mode` is a two-valued
datatype, so the `RuntimeError` branch of the fence test has no counterpart. `RunConsistent`
shows that every reachable state has a line length of 0 in code mode and queues nothing but
the colour start.

A few behaviours of the code are easy to misjudge.

- `["foo", None, "bar"]` yields `"foo"`, `"bar"`. The code never merges tokens across
  fragments (`SplitKeepsFragmentsApart`, `SplitAppend`).
- No "at most the width" bound holds for every prose line, for two reasons.
  - The pending-space flag is not cleared by a newline. So `"x", " ", "\n", "abc"` at width 3
    prints the line `" abc"`, which is 4 columns (`PendingSpaceSurvivesNewline`).
  - A word with no space token before it is never checked against the width
    (`WidthOnlyAfterSpace`). Two adjacent word tokens from different fragments therefore
    share a line unchecked.

  What does hold is proved instead, in three steps.
  - In prose the printed column never exceeds the counted length by more than one
    (`ColumnBoundedByLineLen`).
  - After a word placed behind a space, the line is at most width + 1 columns, or that word
    alone (`SpacedWordFitsLine`).
  - Over the whole output, after every token the current line is at most width + 1 columns
    or one word of the stream alone (`EveryLineWithinWidth`, `StreamLinesWithinWidth`). A
    word longer than the width is moved to a line of its own. This needs two conditions: the
    tokens contain no fence, and no fragment boundary falls between two words. The second
    condition always holds for a single fragment (`SingleFragmentRuns`). When no word is
    longer than the width, every line is at most width + 1 columns (`ShortWordsWithinWidth`).
- An unterminated code block ends with the final newline and no reset escape (`Render`).
- A block closed before its first newline leaves the colour start queued. The next newline,
  now in prose, prints it, and no reset follows (`ColourOutlivesEmptyBlock`).

## Model

| member | source | states |
|---|---|---|
| `WhitespaceSplitter.FindDelimiter` | base/ai.py:26-34 | the search for `[ \n]` returns the index of a space or newline with none before it, and returns nothing exactly when the string has no space or newline |
| `WhitespaceSplitter.SplitFragment` | base/ai.py:32-41 | the tokens of one fragment; specified by `SplitFragmentLossless` (they spell the fragment), `SplitFragmentShape` (well-shaped, maximal runs) and `SplitFragmentUnique` (the only such cut) |
| `WhitespaceSplitter.Split` | base/ai.py:29-41 | the whole token stream; specified by `SplitLossless` (it spells the present fragments), `SplitShape` (every token well-shaped) and `SplitAppend` (no token crosses a fragment boundary) |
| `WhitespaceSplitter.ExtractWhitespace` | base/ai.py:28-41 | the loop yields exactly `Split(chunks)`; the tokens spell the present fragments in order; every token is a lone space, a lone newline or a delimiter-free non-empty run |
| `WhitespaceSplitter.SplitFragmentLossless` | base/ai.py:32-41 | concatenating the tokens of one fragment gives back the fragment |
| `WhitespaceSplitter.SplitFragmentShape` | base/ai.py:32-41 | every token of a fragment is well-shaped, and no two word tokens of one fragment are adjacent (runs are maximal) |
| `WhitespaceSplitter.SplitFragmentUnique` | base/ai.py:32-41 | any well-shaped token sequence with maximal runs that spells a fragment is exactly the splitter's output for it |
| `Text.PresentMembers` | base/ai.py:29-31 | a fragment survives the `None` filter exactly when it is present in the input |
| `WhitespaceSplitter.SplitLossless` | base/ai.py:28-41 | the concatenated tokens equal the concatenated non-`None` fragments, in order |
| `WhitespaceSplitter.SplitShape` | base/ai.py:26-41 | every token of the whole stream is a lone space, a lone newline or a non-empty run with neither |
| `WhitespaceSplitter.SplitAppend` | base/ai.py:29-41 | splitting distributes over the fragment sequence, so no token straddles two fragments |
| `WhitespaceSplitter.SplitPrefix` | base/ai.py:29-41 | processing one more fragment appends that fragment's own tokens, and nothing for `None` |
| `WhitespaceSplitter.SingleFragmentRuns` | base/ai.py:29-41 | the tokens of a one-fragment stream never put two words side by side |
| `WhitespaceSplitter.SplitKeepsFragmentsApart` | base/ai.py:29-41 | `None` and `""` yield no tokens; `["foo", None, "bar"]` yields `"foo"`, `"bar"` |
| `Reformatter.TargetWidth` | base/ai.py:44 | the wrap width is the terminal's column count capped at 80 |
| `Reformatter.Step` | base/ai.py:55-91 | a token changes the mode exactly when it is the fence at the start of a counted line; consistent states stay consistent |
| `Reformatter.StepKeepsContent` | base/ai.py:55-91 | one turn yields the text of its token and no other text, only separators and escapes |
| `Reformatter.Run` | base/ai.py:54-91 | the loop's final state and everything it yields; specified by `RunConsistent`, `RunKeepsContent`, `RunPlacesEscapes`, `ColourFollowsOpeningLine`, `CodePassthrough` and `LinesWithinWidth` |
| `Reformatter.Render` | base/ai.py:54-92 | the output is the loop's output plus one final newline, whatever the final mode |
| `Reformatter.Reformat` | base/ai.py:43-92 | the loop over the four locals yields exactly `Render(Split(chunks), TargetWidth(columns))`; the output ends with a newline; its text is the tokens' text; escapes are placed correctly when the input has none of its own |
| `Reformatter.RunConsistent` | base/ai.py:53-75 | every reachable state has line length 0 in code mode and queues nothing but the colour start |
| `Reformatter.FenceOpensCode` | base/ai.py:55-59 | a fence at the start of a prose line is yielded alone, switches to code mode and queues the colour start, leaving everything else unchanged |
| `Reformatter.QueueKept` | base/ai.py:55-71 | only a newline takes the queued colour start off the queue |
| `Reformatter.QueueHeldUntilNewline` | base/ai.py:55-71 | after an opening fence the colour start stays queued through every token up to the next newline |
| `Reformatter.ColourFollowsOpeningLine` | base/ai.py:55-71 | the first newline after an opening fence yields the newline followed by the colour start |
| `Reformatter.FenceClosesCode` | base/ai.py:55-63 | in a reachable code-mode state any fence token yields the reset then the fence and returns to paragraph mode |
| `Reformatter.NewlineFlushesQueue` | base/ai.py:66-71 | a newline resets the counted line, is yielded, is followed by the queued colour start exactly once, clears the queue and keeps the pending-space flag |
| `Reformatter.WidthOnlyAfterSpace` | base/ai.py:72-91 | the width affects only a paragraph word behind a pending space; a word with no space before it is never wrapped |
| `Reformatter.WrapDecision` | base/ai.py:75-85 | a word behind a pending space is preceded by a newline exactly when the counted length plus the word exceeds the width, and by a space otherwise; afterwards the counted length is within the width or equals the word's length |
| `Reformatter.ContentMembers` | base/ai.py:54-92 | the text-carrying pieces of an output are exactly its pieces other than spaces, newlines and the two escapes |
| `Reformatter.RunKeepsContent` | base/ai.py:54-91 | every text-carrying token is yielded once, unchanged and in order; everything else yielded is a space, a newline or an escape |
| `Reformatter.RenderKeepsContent` | base/ai.py:54-92 | the same for the whole output including the final newline |
| `Reformatter.RunPlacesEscapes` | base/ai.py:55-71 | when no token is itself an escape, the colour start only ever directly follows a newline, and the reset only ever directly precedes a fence |
| `Reformatter.RenderPlacesEscapes` | base/ai.py:55-92 | the same for the whole output, under the same condition on the tokens |
| `Reformatter.CodePassthrough` | base/ai.py:66-91 | inside a code block every token other than a newline or a fence, spaces included, is yielded unchanged and the state does not move |
| `Reformatter.ColumnBoundedByLineLen` | base/ai.py:66-89 | in prose the printed column is at most the counted line length, plus one when no space is pending |
| `Reformatter.SpacedWordFitsLine` | base/ai.py:76-85 | after a word placed behind a space, the current line is at most width + 1 columns, or the word starts the line alone |
| `Reformatter.WrapStepColumn` | base/ai.py:66-89 | one prose token keeps the current line within width + 1 or one word alone, given that an unspaced word starts an empty counted line |
| `Reformatter.BrokenWordFits` | base/ai.py:76-85 | a word that does not fit behind the pending space is printed after a newline and is the whole new line |
| `Reformatter.SpacedWordFits` | base/ai.py:76-85 | a word that fits behind the pending space leaves the line within width + 1 columns |
| `Reformatter.UnspacedWordFits` | base/ai.py:86-88 | a word with no space before it on an empty line is the whole line |
| `Reformatter.LinesWithinWidth` | base/ai.py:54-89 | for prose with maximal runs, the current line is within width + 1 columns or one word alone; a counted length of 0 is an empty line; a non-word token with no pending space ends the counted line |
| `Reformatter.EveryLineWithinWidth` | base/ai.py:54-89 | for prose with maximal runs, after every prefix of the token stream the current line is within width + 1 columns or one word of the stream alone |
| `Reformatter.ShortWordsWithinWidth` | base/ai.py:54-89 | when moreover no word is longer than the width, the current line after every token is at most width + 1 columns |
| `Reformatter.StreamLinesWithinWidth` | base/ai.py:43-89 | for fragments whose boundaries never separate two words and with no fence, after every token the line the loop has printed is within `min(80, columns)` + 1 columns or one word alone |
| `Reformatter.PendingSpaceSurvivesNewline` | base/ai.py:66-85 | `"x", " ", "\n", "abc"` at width 3 yields `"x", "\n", " ", "abc", "\n"`: the space reappears after the newline and the line is one column wider than the width |
| `Reformatter.FencedBlockScenario` | base/ai.py:55-92 | a fenced block yields the fence, the newline, the colour start, the code, the newline, the reset, the closing fence and the two newlines |
| `Reformatter.ColourOutlivesEmptyBlock` | base/ai.py:55-71 | `Fence, " ", Fence, "\n", "x"` yields the colour start after the newline that follows the closed block, with no reset after it |

## Left out

- `mkclient` and `main` (base/ai.py:11-24, 94-131) are not modelled. They build the API client from environment and JSON configuration, call the hosted chat and image services, open a browser through `subprocess`, print and parse `sys.argv`: all of it is I/O and foreign calls.
- `org-mode/agenda-plot.py` is not part of this model. It consists of HTTP requests, file reads, date parsing and chart plotting.
- `shutil.get_terminal_size` (base/ai.py:44) is a terminal query. It is replaced by the `columns` parameter of `Reformat`.
- Generators are modelled as finished sequences. Lazy, pull-based production is not captured: the input is a finite `seq<Option<string>>` and the output the sequence of pieces yielded.
- The `re` search is modelled by `FindDelimiter`, a function with the same result as the regex `[ \n]` on a string.
- The unused locals `current_stream` and `is_first_chunk` (base/ai.py:46-47) are dropped.
- The truthiness test on the queued escape (base/ai.py:69) is modelled as "present and non-empty". The only value ever queued is the non-empty colour start.
- Widths are raw character counts, as in the source. Display width of wide characters and of escape sequences is not modelled.
