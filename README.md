# Chat markdown renderer and code-block buttons

This project models the chat markdown renderer of the Void editor
(`ChatMarkdownRender.tsx`). The model has two parts:

- **Token renderer.** `RenderToken` dispatches on a lexed markdown token's
  `type` tag (space, code, heading, table, hr, blockquote, list, paragraph,
  html, text, escape, def, link, image, strong, em, codespan, br, del). It
  produces a UI node for each tag, and a visible "Unknown type:" fallback
  for any other tag. `ChatMarkdownRender` renders the lexer's token
  sequence in order, one node per token. List items re-enter the renderer
  with `nested = true`. A paragraph is wrapped in `<p>` only outside that
  nested context.
- **Copy/apply buttons over a code block** (`CodeButtonsOnHover`). The copy
  button shows `Copy`, `Copied!` or `Could not copy`. A clipboard write that
  resolves sets `Copied`. One that rejects sets `Error`. Any state other
  than `Copy` schedules a revert to `Copy` after 1000 time units, and such
  reverts are never cancelled. Apply forwards the code text to
  `startApplying` with the feature name `Ctrl+L`.

Files:

- `wrappers.dfy`: `Option`, which stands for JavaScript's `null`, `undefined` and `''`.
- `markdown_render.dfy`: contains the `Token` and `Node` datatypes and the
  functions `Render`, `RenderAll` and `RenderItems`.
- `markdown_render_proofs.dfy`: the renderer's properties. These cover
  paragraph wrapping, table alignment, list layout, literal HTML and the
  fallback. The central result is that flattening the token tree through
  paragraphs and list items commutes with rendering. So no nested token is
  dropped, duplicated or reordered.
- `code_buttons.dfy`: the `CodeButtonsOnHover` class and the
  copy/apply scenarios. Each scenario is driven only through the contracts
  of the class's methods.

The lexer (`marked.lexer`) is an external library and is not modelled.
Its output is the `Token` datatype. Each list item carries, in `lexed`, the
tokens the lexer returns for that item's `text`. This keeps the recursion
structural.

JavaScript truthiness is spelled out. An `align` entry is truthy when it
is present and non-empty. A list `start` is truthy when it is present and
non-zero.

Behaviour of the code worth knowing:

- `RenderToken`'s signature admits a bare string, but the code never lexes
  one. A string has no `type`, so it falls through to the fallback, and its
  undefined `raw` shows nothing (`RenderInput`, `BareStringIsNotLexed`).
- A settled clipboard write sets its state from any state, not only from
  `Copy`. When the state is set to the value it already has, the state
  effect does not run again, so no new revert is scheduled.
- A `blockquote` and a `text` token show their raw `text`/`raw` string.
  Their child tokens are not rendered.

## Model

| member | source | states |
|---|---|---|
| `MarkdownRender.Render` | src/vs/workbench/contrib/void/browser/react/src/markdown/ChatMarkdownRender.tsx:73-227 | every token renders to a node, never failing: the fallback iff the token is unknown, a code block iff it is `code`, a `<p>` iff a paragraph outside the nested context and an unwrapped fragment iff a paragraph inside it (one child per paragraph token), a table iff `table` (as many header cells and body rows as the token), a list iff `list` (same ordered flag, one item per list item), preformatted text iff `html`, the empty node iff `def`; the exact node of every branch is stated by `ParagraphWrapping`, `TableLayout`, `ListLayout`, `HtmlIsLiteral`, `DefRendersNothing`, `FallbackExactlyForUnknown`, `CodeBlockExactlyForCode`, `PlainBranches` and `InlineBranches` |
| `MarkdownRender.RenderInput` | src/vs/workbench/contrib/void/browser/react/src/markdown/ChatMarkdownRender.tsx:73-76 | the fallback appears iff the input is a bare string or an unknown token; a bare string's fallback shows empty raw text, an unknown token's shows its `raw` |
| `MarkdownRender.RenderItem` | src/vs/workbench/contrib/void/browser/react/src/markdown/ChatMarkdownRender.tsx:140-147 | a checkbox iff `item.task`, then with `checked = item.checked`; one content node per token lexed from the item |
| `MarkdownRender.AlignAt` | src/vs/workbench/contrib/void/browser/react/src/markdown/ChatMarkdownRender.tsx:101-113 | the entry `align[i]` when truthy (`AlignTruthy`: present and not `''`), else `"left"`: never empty; either `"left"` or the entry present at position `i`; a truthy entry at `i` always wins |
| `MarkdownRender.RenderCells` | src/vs/workbench/contrib/void/browser/react/src/markdown/ChatMarkdownRender.tsx:100-117 | one cell per table cell, keeping its raw text and taking its column's positional alignment |
| `MarkdownRender.RenderRows` | src/vs/workbench/contrib/void/browser/react/src/markdown/ChatMarkdownRender.tsx:107-119 | one body row per entry of `rows`, each keeping its own cell count |
| `MarkdownRender.RenderAll` | src/vs/workbench/contrib/void/browser/react/src/markdown/ChatMarkdownRender.tsx:229-237 | exactly one node per lexed token, in token order, each rendered with the caller's `nested` flag |
| `MarkdownRender.RenderItems` | src/vs/workbench/contrib/void/browser/react/src/markdown/ChatMarkdownRender.tsx:140-147 | one list-item element per list item, in item order |
| `MarkdownRenderProofs.RenderAllAppend` | src/vs/workbench/contrib/void/browser/react/src/markdown/ChatMarkdownRender.tsx:233-235 | rendering a concatenation of token sequences is the concatenation of their renderings (siblings never interact) |
| `MarkdownRenderProofs.NestedOnlyAffectsParagraphs` | src/vs/workbench/contrib/void/browser/react/src/markdown/ChatMarkdownRender.tsx:152-161 | the `nested` flag changes only a paragraph's result, and there only by the `<p>` wrapper |
| `MarkdownRenderProofs.ParagraphWrapping` | src/vs/workbench/contrib/void/browser/react/src/markdown/ChatMarkdownRender.tsx:152-161 | a paragraph's children are its tokens in order, each rendered with `nested = false`; exactly one `<p>` wrapper when not nested, none when nested |
| `MarkdownRenderProofs.AlignRule` | src/vs/workbench/contrib/void/browser/react/src/markdown/ChatMarkdownRender.tsx:101-113 | a column's alignment is `align[i]` when present and truthy, otherwise `"left"` (also past the end of `align`); never empty |
| `MarkdownRenderProofs.TableLayout` | src/vs/workbench/contrib/void/browser/react/src/markdown/ChatMarkdownRender.tsx:95-123 | header cell count equals `header.length`; one body row per entry of `rows`, each keeping its own cell count; every cell keeps its raw text and takes its column's positional alignment |
| `MarkdownRenderProofs.ColumnsAlignAlike` | src/vs/workbench/contrib/void/browser/react/src/markdown/ChatMarkdownRender.tsx:100-117 | a header cell and a body cell in the same column get the same alignment |
| `MarkdownRenderProofs.ShortAlignDefaultsLeft` | src/vs/workbench/contrib/void/browser/react/src/markdown/ChatMarkdownRender.tsx:101 | three header cells with two alignment entries: the third column is aligned left |
| `MarkdownRenderProofs.ListLayout` | src/vs/workbench/contrib/void/browser/react/src/markdown/ChatMarkdownRender.tsx:133-150 | `ordered` is kept; `start` is emitted iff truthy (`StartTruthy`: present and not `0`, line 137) and then unchanged; one item per list item in order; a checkbox with `checked = item.checked` iff `item.task`; item content is the item's lexed tokens rendered with `nested = true` |
| `MarkdownRenderProofs.ListItemParagraphUnwrapped` | src/vs/workbench/contrib/void/browser/react/src/markdown/ChatMarkdownRender.tsx:145-159 | a paragraph lexed from a list item appears in the item without a `<p>` wrapper |
| `MarkdownRenderProofs.HtmlIsLiteral` | src/vs/workbench/contrib/void/browser/react/src/markdown/ChatMarkdownRender.tsx:163-172 | an `html` token becomes a preformatted node whose parts are `"<html>"`, `raw`, `"</html>"` |
| `MarkdownRenderProofs.PlainBranches` | src/vs/workbench/contrib/void/browser/react/src/markdown/ChatMarkdownRender.tsx:78-213 | in either context: space, text and escape show `raw`; a heading keeps depth and text; a blockquote keeps its text; hr and br carry nothing |
| `MarkdownRenderProofs.InlineBranches` | src/vs/workbench/contrib/void/browser/react/src/markdown/ChatMarkdownRender.tsx:182-218 | in either context: strong, em, codespan and del keep their text; a link keeps href, title and text; an image takes src from href, alt from text, and keeps title |
| `MarkdownRenderProofs.DefRendersNothing` | src/vs/workbench/contrib/void/browser/react/src/markdown/ChatMarkdownRender.tsx:178-180 | a `def` token renders as the empty node |
| `MarkdownRenderProofs.FallbackExactlyForUnknown` | src/vs/workbench/contrib/void/browser/react/src/markdown/ChatMarkdownRender.tsx:220-226 | the fallback node appears iff the token is unknown, and then carries the label "Unknown type:" and the token's raw text |
| `MarkdownRenderProofs.FallbackExactlyForUnknownTags` | src/vs/workbench/contrib/void/browser/react/src/markdown/ChatMarkdownRender.tsx:78-226 | the fallback is chosen iff the token's `type` tag (`TypeOf`) is none of the nineteen tags (`KnownTags`) the dispatch tests |
| `MarkdownRenderProofs.CodeBlockExactlyForCode` | src/vs/workbench/contrib/void/browser/react/src/markdown/ChatMarkdownRender.tsx:82-88 | a code-block node appears iff the token is `code`; the editor and its copy/apply buttons both get the token's text (the language is ignored) |
| `MarkdownRenderProofs.BareStringIsNotLexed` | src/vs/workbench/contrib/void/browser/react/src/markdown/ChatMarkdownRender.tsx:73-76 | a bare string handed to `RenderToken` degrades to the fallback with empty raw text; a token input renders as `Render` |
| `MarkdownRenderProofs.LeavesPreserved` | src/vs/workbench/contrib/void/browser/react/src/markdown/ChatMarkdownRender.tsx:133-237 | the leaves of the rendered tree, through paragraphs, fragments and list items at any depth, are exactly the leaf tokens rendered one by one, in document order |
| `MarkdownRenderProofs.TokenLeavesPreserved` | src/vs/workbench/contrib/void/browser/react/src/markdown/ChatMarkdownRender.tsx:133-161 | the same for one token, in either context |
| `MarkdownRenderProofs.ItemLeavesPreserved` | src/vs/workbench/contrib/void/browser/react/src/markdown/ChatMarkdownRender.tsx:140-147 | the same for a list's items |
| `MarkdownRenderProofs.LeafCorrespondence` | src/vs/workbench/contrib/void/browser/react/src/markdown/ChatMarkdownRender.tsx:82-237 | at every depth, a fallback appears exactly where an unknown token was (with its raw text), and a code block exactly where a code token was (with its text) |
| `MarkdownRenderProofs.NestedBoldRendersBold` | src/vs/workbench/contrib/void/browser/react/src/markdown/ChatMarkdownRender.tsx:140-161 | given the lexer's output for a list item whose text is `**word**` (a paragraph holding one strong token), the item renders a bold node, not literal asterisks |
| `CodeButtons.Caption` | src/vs/workbench/contrib/void/browser/react/src/markdown/ChatMarkdownRender.tsx:12-16 | the copy button's caption is one of "Copy", "Copied!", "Could not copy" |
| `CodeButtons.CaptionsDistinct` | src/vs/workbench/contrib/void/browser/react/src/markdown/ChatMarkdownRender.tsx:12-16 | the three states show three different captions |
| `CodeButtons.CodeButtonsOnHover.constructor` | src/vs/workbench/contrib/void/browser/react/src/markdown/ChatMarkdownRender.tsx:20-23 | the initial state is `Copy`, with nothing scheduled, written or applied |
| `CodeButtons.CodeButtonsOnHover.SetCopyButtonState` | src/vs/workbench/contrib/void/browser/react/src/markdown/ChatMarkdownRender.tsx:26-33 | setting the state schedules one revert at `now + 1000` exactly when the state changes to something other than `Copy`; nothing else changes |
| `CodeButtons.CodeButtonsOnHover.OnCopy` | src/vs/workbench/contrib/void/browser/react/src/markdown/ChatMarkdownRender.tsx:35-36 | a click on Copy writes the current text to the clipboard and leaves the state as it was |
| `CodeButtons.CodeButtonsOnHover.WriteResolved` | src/vs/workbench/contrib/void/browser/react/src/markdown/ChatMarkdownRender.tsx:37 | a resolved write sets `Copied` and schedules a revert if the state changed |
| `CodeButtons.CodeButtonsOnHover.WriteRejected` | src/vs/workbench/contrib/void/browser/react/src/markdown/ChatMarkdownRender.tsx:38 | a rejected write sets `Error` and schedules a revert if the state changed |
| `CodeButtons.CodeButtonsOnHover.Elapse` | src/vs/workbench/contrib/void/browser/react/src/markdown/ChatMarkdownRender.tsx:29-31 | time advances by any amount; the state and the pending reverts are unchanged (a due revert may stay pending) |
| `CodeButtons.CodeButtonsOnHover.TimerFired` | src/vs/workbench/contrib/void/browser/react/src/markdown/ChatMarkdownRender.tsx:29-31 | the earliest revert, once its deadline has passed, sets `Copy` (a revert firing in `Copy` leaves `Copy`) and cancels no other revert |
| `CodeButtons.CodeButtonsOnHover.Rerender` | src/vs/workbench/contrib/void/browser/react/src/markdown/ChatMarkdownRender.tsx:35-46 | a new `text` prop reaches the copy callback (it depends on `text`) but not the memoised apply callback |
| `CodeButtons.CodeButtonsOnHover.OnApplyAsWritten` | src/vs/workbench/contrib/void/browser/react/src/markdown/ChatMarkdownRender.tsx:41-46 | as written: one apply request with `Ctrl+L` and the text captured when the callback was memoised; copy state unchanged |
| `CodeButtons.CodeButtonsOnHover.OnApply` | src/vs/workbench/contrib/void/browser/react/src/markdown/ChatMarkdownRender.tsx:41-45 | exactly one `startApplying` call with `featureName` "Ctrl+L" and `userMessage` the current, unmodified code text; copy state and timers unchanged |
| `CodeButtons.FeedbackIsTransient` | src/vs/workbench/contrib/void/browser/react/src/markdown/ChatMarkdownRender.tsx:26-33 | while the state is not `Copy`, a revert is pending whose deadline is at most 1000 units from now |
| `CodeButtons.CopySucceeds` | src/vs/workbench/contrib/void/browser/react/src/markdown/ChatMarkdownRender.tsx:18-39 | successful copy: `Copy`, then `Copied` at once, still `Copied` at 999, `Copy` at 1000; the clipboard received the text; at 999 exactly one revert is pending, due at 1000, and no write is in flight, so no other transition can come in between |
| `CodeButtons.CopyFails` | src/vs/workbench/contrib/void/browser/react/src/markdown/ChatMarkdownRender.tsx:18-38 | failed copy: `Copy`, `Error`, still `Error` at 999, `Copy` at 1000; at 999 exactly one revert is pending, due at 1000, and no write is in flight, so no other transition can come in between |
| `CodeButtons.RepeatedSuccess` | src/vs/workbench/contrib/void/browser/react/src/markdown/ChatMarkdownRender.tsx:26-37 | a second resolved write while `Copied` is shown keeps `Copied` and schedules no second revert |
| `CodeButtons.OverlappingCopies` | src/vs/workbench/contrib/void/browser/react/src/markdown/ChatMarkdownRender.tsx:26-39 | uncancelled reverts: an earlier revert cuts a later `Error` short, and a later revert firing in `Copy` keeps `Copy` |
| `CodeButtons.StaleApplyAsWritten` | src/vs/workbench/contrib/void/browser/react/src/markdown/ChatMarkdownRender.tsx:41-46 | as written, after the code text changes, Apply forwards the old text |
| `CodeButtons.ApplyForwardsCurrentText` | src/vs/workbench/contrib/void/browser/react/src/markdown/ChatMarkdownRender.tsx:41-46 | corrected Apply forwards the current text under "Ctrl+L" and leaves the `Copied` state shown |

## Findings

| source | as written | input that shows it | evidently intended | confidence | as-written member | corrected member |
|---|---|---|---|---|---|---|
| src/vs/workbench/contrib/void/browser/react/src/markdown/ChatMarkdownRender.tsx:41-46 | `onApply` is memoised with dependencies `[inlineDiffService]` only, so it keeps the `text` of the first render | a code block first rendered with text "let x" and re-rendered with "let x = 1" (as when a reply streams in), with the same button instance kept mounted and the same `inlineDiffService` object on both renders; Apply then forwards "let x" | Apply forwards the code block's current text, as Copy does (its callback lists `text`) | medium, not executed | `CodeButtons.CodeButtonsOnHover.OnApplyAsWritten` (shown by `CodeButtons.StaleApplyAsWritten`) | `CodeButtons.CodeButtonsOnHover.OnApply` (proved by `CodeButtons.ApplyForwardsCurrentText`) |

## Left out

- The markdown lexer (`marked.lexer`, line 230) is an external library. Its output is given as `Token` values, and list items hold their lexed children.
- React mechanics are left out: JSX construction, `key` props, CSS class names, and the single-line padding choice (line 48). The `useState`/`useEffect`/`useCallback` scheduling is reduced to the state setter plus its effect (`SetCopyButtonState`) and to the captured apply text.
- `CodeButtons.CodeButtonsOnHover.SetCopyButtonState` renders each setter call and runs its `[copyButtonState]` effect before the next event, comparing with the last value set; batched updates are not modelled. With batching (React 18 and later, for updates in timer and promise callbacks) the effect runs once per commit and compares with the last committed value. Then a revert at line 30 followed, before the next render, by a resolved write at line 37 commits `Copied` over `Copied`: the effect does not run, and `Copied!` stays with no revert pending. So `CodeButtons.FeedbackIsTransient` and the `Valid` conjunct "a state other than `Copy` has a revert pending" hold only in this unbatched model.
- `BlockCode` is not part of this model. Its node keeps only the initial text and the text given to the buttons. The `useAccessor` service lookup is not modelled.
- The clipboard promise is modelled as explicit events (`OnCopy`, then `WriteResolved` or `WriteRejected`). `setTimeout` is modelled as a list of deadlines with `Elapse`/`TimerFired`; a revert fires at or after its deadline, never before. There is no wall-clock time, and a settled write arriving after unmount is not modelled.
- The navigation in `window.open` (line 184) is a side effect. The link node only records `href`, `title` and `text`.
- `MarkdownRender.TableCell`: a cell's `raw` stands for whatever `cell.raw` yields on the lexer's table cells, which the source reads from untyped values (lines 102 and 115). If the lexer's cells carry no `raw` field, the running program shows them empty (undefined renders nothing). The lexer's cell shape is not part of this model.
- `CodeButtons.CodeButtonsOnHover.OnApplyAsWritten` assumes that `inlineDiffService` keeps the same identity across renders. If it did not, `useCallback` would rebuild the apply callback with the current `text`.
- `MarkdownRender.Render` does not restrict heading `depth` to 1–6. The node carries whatever depth the lexer gave, as the code does.
- A list `start` of `NaN` (falsy in JavaScript) is not representable. `start` is an integer or absent.
- The build scripts (`gulpfile.js`, `build/gulpfile.base.js`) only orchestrate shell commands and are not modelled.
