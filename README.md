# Sentence edit engine of UD Annotatrix

UD Annotatrix is a browser editor for dependency treebanks in CoNLL-U. The user
works on a drawn dependency graph, and every edit is written back into the parsed
sentence. A sentence is a sequence of top-level elements. Each element is either a
token (id, form, lemma, UPOS, XPOS, feats, head, deprel, deps, misc) or a
multiword token (a surface form plus its child tokens). An edit names its target
by an address: a top-level position, or a child position inside the multiword
token at a top-level position.

This project models the edits of `standalone/lib/gui.js` that change the sentence
in place:

- the attribute write `changeConlluAttr` and the write-back its undo entries make;
- the sentence-side scan of `findConlluId`;
- splitting a token (`splitTokens` with `shiftIndices`);
- merging a token with its neighbour (`mergeNodes` with `renumberNodes`), in
  subtoken mode and in supertoken mode;
- dissolving a multiword token (`removeSup`);
- `writeWF`, `setRoot`, `writeDeprel`, `writePOS`, the head write and the
  automatic relation of `writeArc`, and `thereIsSupertoken`.

It also models the table view of `standalone/lib/conllu_table.js`:

- how `updateTable` classifies text lines and normalises cells;
- how `tableEditCell` writes the table back to text;
- the row count of `fitTable`;
- the column-visibility flags.

Layout:

- `wrappers.dfy`: `Option`.
- `strings.dfy` (module `JsStrings`): the JavaScript string operations the code
  relies on (`trim`, `split`, `join`, `includes`, `replace(/<br>/g, '')`), with
  the split/join round trip.
- `conllu.dfy` (module `Conllu`): tokens, elements and addresses; the attribute
  write as a function of the sequence; textual order (`Flatten`) and dense
  sentences.
- `retokenise.dfy` (module `Retokenise`): split, merge and dissolution as
  functions of the old sequence, with the renumbering arithmetic as written, and
  the lemmas about dense sentences.
- `edits.dfy` (module `Edits`): `setRoot` and `writeArc` as functions.
- `editor.dfy` (module `Editor`): class `Sentence`, which holds `sent.tokens`.
  Its methods perform each edit step by step, with the same loops and splices
  as the source. Each method is proved to end in the state the functions above
  describe.
- `table.dfy` (module `ConlluTable`): the table view, with a round trip: writing
  clean rows to text and reading that text back gives the same cells.
- `findings.dfy` (module `Findings`): six places where the code does something
  other than what it evidently means to do (see "## Findings").

A dense sentence is one where every element is a token and its id is its
position plus one. On dense sentences the following hold:

- a split keeps ids dense and every head on the same logical token;
- a right merge keeps ids dense and every head on the same logical token;
- a left merge keeps ids dense, but a head that named the absorbed left
  neighbour ends one token too low (`LeftMergeDropsAbsorbedHead`).

The class `Editor.Sentence` follows the code as written, including the left-merge
arithmetic and the subtoken-split renumbering. The corrected definitions in
`Findings` stand beside it and are not used by the class. `setRoot`,
`writeDeprel` and `writePOS` are the exception: as written they always throw, so
the class models them with the address passed as an address.

Three details of the code that the model keeps as they are:

- A split raises the id of an element by comparing its new array position with
  `outerIndex`, and of a child by comparing its child position with `innerIndex`
  in every multiword token. It raises a head when the head value is above
  `outerIndex + 1`.
- A subtoken merge compares array positions with `nodeId` or `otherId`, not ids,
  and never renumbers the children of a multiword token.
- Every edit changes the parsed sentence in place, which is what the class models.

## Model

| member | source | states |
|---|---|---|
| `Conllu.SetAttr` | standalone/lib/gui.js:551-554 | The named field holds the new value, and the id and every other field of the token are unchanged. |
| `Conllu.WithAttrReadsBack` | standalone/lib/gui.js:548-556 | After a write that resolves, reading the same slot gives the value written. A write to an address that names no slot changes nothing. |
| `Conllu.WithAttrFrame` | standalone/lib/gui.js:549-555 | A write keeps the length, every other top-level element, the form and every other child of the multiword token, and the id and every other attribute of the slot. |
| `Conllu.WriteBackRestores` | standalone/lib/gui.js:486-496 | Writing the returned old value back gives the original sentence, and redoing the write gives the edited sentence again. This is the undo/redo pair of `writeDeprel`, and of `writePOS` at gui.js:518-528. |
| `Conllu.TwoWritesBack` | standalone/lib/gui.js:102-110 | Two writes at one address, each undone with its old value in reverse order, give back the original sentence. The corrected undo of `writeArc` (`Findings.ArcUndoneRestores`) rests on it. |
| `Conllu.Pos2Rel` | standalone/lib/gui.js:28-33 | Among tag names, a relation is implied for PUNCT, DET, CCONJ and SCONJ (punct, det, cc, mark) and for no other tag. Names inherited from `Object.prototype` are listed under "Left out". |
| `Edits.RootedMakesRoot` | standalone/lib/gui.js:455-456 | The addressed token gets head 0 and relation `root`. Its id, its other fields, every other element and, for a subtoken, the form and other children of its multiword token are unchanged. An address that names nothing changes nothing. |
| `Edits.AutoDeprel` | standalone/lib/gui.js:101-110 | A relation is written when the top-level element at `outerIndex` is a token whose UPOS is one of the four mapped tags, and then it is the mapped relation; otherwise none is written. Names inherited from `Object.prototype` are listed under "Left out". |
| `Edits.ArcWrittenEffect` | standalone/lib/gui.js:95-110 | The target's head becomes the source number. Its relation becomes the implied one when there is one and is unchanged otherwise. Its id, its other fields, every other element and, for a subtoken, the form and other children of its multiword token are unchanged. |
| `Editor.Sentence.ChangeAttr` | standalone/lib/gui.js:542-557 | Returns the old value at the addressed slot (the child of the multiword token for a subtoken address), and the new sentence is the write of the new value there. |
| `Editor.Sentence.FindConlluId` | standalone/lib/gui.js:610-618 | Returns the position of the last top-level token with the given id (later matches overwrite), with no inner index. Returns none when no token has that id. |
| `Editor.Sentence.ThereIsSupertoken` | standalone/lib/gui.js:630-640 | True exactly when some top-level element is a multiword token. |
| `Editor.Sentence.SplitTokens` | standalone/lib/gui.js:643-679 | When the address names a token or a child, the sentence becomes the split of it (pieces 0 and 1, insertion after it, renumbering). Otherwise nothing changes. |
| `Editor.Sentence.ShiftAll` | standalone/lib/gui.js:669-677 | The loop applies `shiftIndices` to every token and to every child of every multiword token. The multiword elements themselves are untouched. |
| `Editor.Sentence.ShiftChildrenLoop` | standalone/lib/gui.js:670-673 | Each child of one multiword token is shifted with the id test `i > outerIndex \|\| j > innerIndex`. |
| `Editor.Sentence.MergeNodes` | standalone/lib/gui.js:709-747 | A subtoken address is refused and a missing neighbour is reported. In both cases the sentence is unchanged. Otherwise the sentence becomes the subtoken merge or the supertoken merge. |
| `Editor.Sentence.RenumberNodes` | standalone/lib/gui.js:693-706 | Every top-level token gets the head correction and the id renumbering with the side's thresholds. The model's multiword tokens carry no id and are left as they are (see "## Left out"). |
| `Editor.Sentence.RemoveSup` | standalone/lib/gui.js:341-353 | The element at the position is replaced, in place and in order, by its children. |
| `Editor.Sentence.WriteWF` | standalone/lib/gui.js:559-584 | The trimmed text splits the token when it holds a space. Otherwise it becomes the form at the address. |
| `Editor.Sentence.SetRoot` | standalone/lib/gui.js:448-459 | The sentence becomes `Rooted`: relation `root`, then head 0. |
| `Editor.Sentence.WriteDeprel` | standalone/lib/gui.js:463-499 | Stores the relation and returns the old one, which is what the undo entry writes back. |
| `Editor.Sentence.WritePOS` | standalone/lib/gui.js:502-532 | Stores the UPOS tag and returns the old one, which is what the undo entry writes back. |
| `Editor.Sentence.WriteArc` | standalone/lib/gui.js:86-110 | Returns the old head, and the sentence becomes the head write followed by the implied relation. |
| `Retokenise.NewToken` | standalone/lib/gui.js:657-664 | The inserted token carries the given id and the second piece as its form, and has no head. |
| `Retokenise.SplitPieces` | standalone/lib/gui.js:651-651 | Pieces 0 and 1 of `split(" ")` hold no space, and the text starts with piece 0, a space and piece 1, followed by its end or another space. |
| `Retokenise.InsertedTopAt` | standalone/lib/gui.js:659-666 | After a top-level split the sequence is one longer. The split token has the first piece and a new token with its id follows it. The other elements move right from there. |
| `Retokenise.SplitKeepsDense` | standalone/lib/gui.js:659-690 | Split on a dense sentence: one element more, ids dense, piece 0 in the split token, piece 1 in the new token after it with no head. |
| `Retokenise.SplitKeepsWords` | standalone/lib/gui.js:659-690 | Split on a dense sentence changes no token except in its id and head, apart from the split token's form. |
| `Retokenise.SplitArc` | standalone/lib/gui.js:682-690 | On a dense sentence, one arc through a top-level split joins the same two tokens at their new positions. |
| `Retokenise.SplitKeepsHeads` | standalone/lib/gui.js:682-690 | Split on a dense sentence: every head names the same token as before, and a root stays a root. |
| `Retokenise.SplitResultDense` | standalone/lib/gui.js:643-690 | The split `writeWF` performs with the typed text keeps a dense sentence dense and every head on the same token. |
| `Retokenise.MergedForm` | standalone/lib/gui.js:728-730 | The new form is the left element's form followed by the right element's form, whichever side was chosen. The node's own form is taken from the sentence (see "## Left out"). |
| `Retokenise.SubtokenMergeAt` | standalone/lib/gui.js:731-734 | A subtoken merge is one element shorter, and each position holds the renumbered element spliced there. |
| `Retokenise.RightMergeKeepsDense` | standalone/lib/gui.js:696-703 | Right merge on a dense sentence: one element fewer, ids dense, and the merged token's form is its own form followed by the neighbour's. |
| `Retokenise.RightMergeKeepsWords` | standalone/lib/gui.js:731-734 | Right merge changes no other token except in its id and head. |
| `Retokenise.RightMergeArc` | standalone/lib/gui.js:696-698 | An arc whose dependent is not the absorbed neighbour still comes from the same token after a right merge. An arc from the neighbour now comes from the merged token. |
| `Retokenise.RightMergeRoot` | standalone/lib/gui.js:696-698 | A root other than the absorbed neighbour stays a root through a right merge. |
| `Retokenise.RightMergeKeepsHeads` | standalone/lib/gui.js:693-706 | Right merge on a dense sentence keeps every head on the same logical token. |
| `Retokenise.LeftMergeKeepsDense` | standalone/lib/gui.js:700-703 | Left merge on a dense sentence: one element fewer, ids dense, and the merged token at `nodeId - 1` has the neighbour's form followed by its own. |
| `Retokenise.LeftMergeKeepsWords` | standalone/lib/gui.js:731-734 | Left merge changes no other token except in its id and head. |
| `Retokenise.LeftMergeArc` | standalone/lib/gui.js:696-698 | After a left merge, a head on the absorbed neighbour becomes `nodeId - 1`, and every other head names the same token. |
| `Retokenise.LeftMergeRoot` | standalone/lib/gui.js:696-698 | A root other than the absorbed neighbour stays a root through a left merge. |
| `Retokenise.LeftMergeGoverns` | standalone/lib/gui.js:696-703 | On a dense sentence, an arc through a left merge whose ends are both other than the absorbed neighbour joins the same two tokens. |
| `Retokenise.LeftMergeKeepsHeads` | standalone/lib/gui.js:693-706 | Left merge on a dense sentence keeps every arc on the same pair of tokens when the absorbed neighbour is neither its head nor its dependent. |
| `Retokenise.LeftMergeDropsAbsorbedHead` | standalone/lib/gui.js:697-698 | Left merge on a dense sentence: a head on the absorbed neighbour ends at `nodeId - 1`, one below the merged token. |
| `Retokenise.SupertokenMergeKeepsOrder` | standalone/lib/gui.js:735-741 | Supertoken merge shortens the sequence by one. At `m = min(nodeId, otherId)` it puts a multiword token with the merged form and the two tokens in order, unchanged. The elements before `m` stay, and those after the pair move left by one. Textual order, ids and heads are kept. |
| `Retokenise.DissolvedLayout` | standalone/lib/gui.js:346-351 | Dissolution: length old − 1 + number of children; prefix unchanged; children at the removed slot in order; suffix shifted. |
| `Retokenise.DissolvedFlatten` | standalone/lib/gui.js:346-351 | Dissolution keeps the textual order of tokens, so no id or head changes. |
| `Retokenise.DissolveKeepsOrder` | standalone/lib/gui.js:341-353 | Layout and textual order of `removeSup` together. |
| `JsStrings.TrimEmptyIffBlank` | standalone/lib/conllu_table.js:86-86 | `line.trim() === ''` holds exactly when the line is all white space. |
| `JsStrings.IsBlankIsTrimTest` | standalone/lib/conllu_table.js:103-103 | The blank test the model uses holds exactly when `trim()` gives the empty string. |
| `JsStrings.JoinSplit` | standalone/lib/conllu_table.js:84-84 | Joining the pieces of a split by its separator gives back the text. |
| `JsStrings.SplitJoin` | standalone/lib/conllu_table.js:97-97 | Splitting a join of separator-free pieces gives back the pieces. |
| `JsStrings.SplitCount` | standalone/lib/conllu_table.js:31-31 | A split has one piece more than there are separators. |
| `ConlluTable.Normalised` | standalone/lib/conllu_table.js:103-104 | A cell that is blank after trimming becomes `_`. Any other cell is kept. |
| `ConlluTable.CellOf` | standalone/lib/conllu_table.js:100-111 | Only columns 3 and 7 are validated, only when the cell is not `_`, against the UPOS or the relation set. Every other cell is valid. |
| `ConlluTable.ClassifyLine` | standalone/lib/conllu_table.js:84-111 | A blank line gives no row. A `#` line, or a line that does not split into 10 tab fields, gives a hidden row holding the line verbatim. Any other line gives 10 normalised cells. |
| `ConlluTable.UpdateTable` | standalone/lib/conllu_table.js:79-137 | The rows are the classification of each line of the text, in order. |
| `ConlluTable.LineCells` | standalone/lib/conllu_table.js:99-111 | The `j < 10` loop gives cell `j` as `CellOf` field `j`. |
| `ConlluTable.BreakOnlyCellWritesEmpty` | standalone/lib/conllu_table.js:53-55 | The blank test runs before `<br>` is removed, so a `<br>` cell is written empty and a blank one as `_`. |
| `ConlluTable.TableToText` | standalone/lib/conllu_table.js:49-60 | The text is every row's written-back cells, a tab between cells, each row ending in a newline. This is the intended loop; as written it visits no row (see "## Findings"). |
| `ConlluTable.RowToText` | standalone/lib/conllu_table.js:51-58 | The inner loop gives the row's text: each cell written back (`_` if blank, then `<br>` removed), with a tab before each cell but the first. |
| `ConlluTable.SerialRowIsJoin` | standalone/lib/conllu_table.js:50-58 | A row's text is its written-back cells joined by single tabs, with no leading tab. |
| `ConlluTable.SerialisedIsJoin` | standalone/lib/conllu_table.js:49-60 | The text is the row texts joined by newlines, with a final newline. |
| `ConlluTable.CleanCellUnchanged` | standalone/lib/conllu_table.js:53-55 | A cell that is not blank and has no `<br>` is written back as it is. |
| `ConlluTable.CleanRowText` | standalone/lib/conllu_table.js:50-58 | A clean row's text is its cells joined by tabs, with no newline in it. |
| `ConlluTable.CleanRowReads` | standalone/lib/conllu_table.js:86-104 | The text of a clean row is read back as a row of cells with the same texts. |
| `ConlluTable.SerialisedLines` | standalone/lib/conllu_table.js:49-60 | The text of clean rows splits into one line per row, holding that row's text, plus an empty last line. |
| `ConlluTable.RoundTrip` | standalone/lib/conllu_table.js:49-60 | Writing clean token rows to text and rebuilding the table from that text gives one row of cells per row, in order, with the same texts. |
| `ConlluTable.FitRows` | standalone/lib/conllu_table.js:31-33 | The row count is the line count plus one, capped at the default number of rows, and never exceeds that default. |
| `ConlluTable.ColumnIndex` | standalone/lib/conllu_table.js:3-4 | A header name maps to its own column offset 0..9. Any other name maps to nothing. |
| `ConlluTable.ColumnIndexOfNames` | standalone/lib/conllu_table.js:3-4 | The k-th CoNLL-U column name maps to offset k. |
| `ConlluTable.ToggleFlipsOne` | standalone/lib/conllu_table.js:167-167 | Toggling flips exactly the flag at the column offset. |
| `ConlluTable.ToggleTwice` | standalone/lib/conllu_table.js:167-167 | Toggling the same column twice restores the flags. |
| `ConlluTable.TableView.constructor` | standalone/lib/conllu_table.js:6-7 | Ten visible columns, text view. |
| `ConlluTable.TableView.ToggleTableColumn` | standalone/lib/conllu_table.js:149-167 | The flags become the toggle of the column's flag. |
| `ConlluTable.TableView.ToggleTableView` | standalone/lib/conllu_table.js:68-77 | The table-view flag flips. |
| `Findings.LeftMergeMakesRoot` | standalone/lib/gui.js:696-698 | In "a b c" with c depending on a, merging b into a leaves c with head 0, a root. |
| `Findings.LeftMergeIntendedKeepsHeads` | standalone/lib/gui.js:696-703 | With the head threshold `otherId + 1`, a left merge keeps ids dense and every head on the same token. A head on the absorbed neighbour then names the merged token. |
| `Findings.SubSplitDuplicatesId` | standalone/lib/gui.js:683-685 | Splitting the first child of the second multiword token gives the last child of the first one the id that the split child keeps. |
| `Findings.SubSplitIntendedKeepsNumbering` | standalone/lib/gui.js:683-685 | When only the children after the split one, inside its own multiword token, are renumbered, ids in textual order stay 1, 2, … |
| `Findings.ArrayIndicesThrow` | standalone/lib/gui.js:450-456 | `changeConlluAttr` given `findConlluId`'s array resolves no slot, so `setRoot` always throws. Given the object of `findConlluId2`, the same write stores the value. |
| `Findings.AutoDeprelIntended` | standalone/lib/gui.js:101-110 | The implied relation is read from the addressed token's own UPOS, subtoken or not: there is one exactly when that UPOS is one of the four mapped tags, and it is the mapped relation. |
| `Findings.AutoDeprelAgreesOnTop` | standalone/lib/gui.js:101-110 | For a top-level token the corrected lookup and the written one agree. |
| `Findings.SubtokenGetsNoAutoDeprel` | standalone/lib/gui.js:101-110 | A determiner inside "du" gets no `det` relation as written, and gets it with the corrected lookup. |
| `Findings.ArcUndoThrows` | standalone/lib/gui.js:118-123 | An arc that changes the target's head is never taken back, because the undo entry throws before writing anything. |
| `Findings.ArcUndoneRestores` | standalone/lib/gui.js:100-123 | Writing back the relation `writeArc` replaced, if it replaced one, and then the old head gives the sentence as it was before the arc. |
| `Findings.EditCellEmptiesText` | standalone/lib/conllu_table.js:43-60 | As written, editing a cell of a table of clean rows writes back the empty text, which rebuilds no row. The intended write-back rebuilds one row per row. |

## Findings

| source | as written | input that shows it | evidently intended | confidence | as-written member | corrected member |
|---|---|---|---|---|---|---|
| standalone/lib/gui.js:696-698 | left merge lowers every head `> otherId` | "a b c", c → a, merge b to the left: c becomes a root | lower heads `> otherId + 1`, so a head on the absorbed token stays on the merged token | high, not executed | `Findings.LeftMergeMakesRoot` | `Findings.LeftMergeIntendedKeepsHeads` |
| standalone/lib/gui.js:683 | `j > innerIndex` raises children after the split position in every multiword token | multiword tokens "ab" (1, 2) and "cd" (3, 4), split "c": b and c both have id 3 | raise only the children after the split one in its own multiword token | high, not executed | `Findings.SubSplitDuplicatesId` | `Findings.SubSplitIntendedKeepsNumbering` |
| standalone/lib/gui.js:450-456 | `findConlluId` returns an array and `changeConlluAttr` reads `indices.outerIndex` | any `setRoot` call: `sent.tokens[undefined]` is undefined and the field write throws | pass the object of `findConlluId2` | high, not executed | `Findings.ArrayIndicesThrow` | `Edits.RootedMakesRoot` |
| standalone/lib/gui.js:101-110 | UPOS read from `sent.tokens[outerIndex]`, the multiword token for a subtoken | arc to "le" inside "du" = "de" + "le": no `det` relation | read the UPOS of the addressed token | medium, not executed | `Findings.SubtokenGetsNoAutoDeprel` | `Findings.AutoDeprelIntended` |
| standalone/lib/gui.js:120-121 | the undo's `let sentAndPrev = changeConlluAttr2(…, sentAndPrev.previous)` reads the binding it declares before it is initialised | draw any arc, then undo: ReferenceError, and the arc stays | write back the replaced relation and then the old head | high, not executed | `Findings.ArcUndoThrows` | `Findings.ArcUndoneRestores` |
| standalone/lib/conllu_table.js:43-52 | `table` is the jQuery object `$('#indataTable')`, and the loop walks `table.rows`, which it does not have | edit any cell: `#indata` becomes the empty text (jQuery 3; older versions throw) | walk the rows of the table element | medium, not executed | `Findings.EditCellEmptiesText` | `ConlluTable.RoundTrip` |

## Left out

- The graph, DOM and keyboard layers are not modelled: `findParentId`, the subtoken branch of `findConlluId`, `clickWF`, `selectArc`, `changeNode` and the key handlers. An address is an input.
- Floating-point zoom and geometry are not modelled: `calculateRows` and the edge parameters. The default row count of `fitTable` is a parameter.
- Format I/O is external: `buildSent`, `redrawTree`, the CoNLL-U and CG3 parsers and printers, format detection, local storage and `l10n`. The sentence is the parsed value, and `#indata` is a string parameter.
- The undo manager is an external library, and `setUndos` only wires buttons. The model proves the write-back round trip that each undo entry performs, not the stack.
- `removeArc` and its undo entry are not modelled. They re-read the DOM for every target. The undo entry of `writeArc` is under "## Findings".
- `is_projective_nodes`, `is_upos` and `is_udeprel` are not part of this model. The tag validators are sets passed in, and the projectivity warning of `writeArc` is not modelled.
- `formNewToken` is not part of this model. The new token of a split takes `_` in every field but id and form, and has no head. The model also assumes that `formNewToken` returns a `conllu.Token`, so that the `instanceof` test of the renumbering loop lets `shiftIndices` renumber the new token; `SplitKeepsDense` and `SplitResultDense` rely on this.
- `Conllu.Token`: ids and heads are unbounded integers, and a head is absent (`None`) where the source leaves it undefined. JavaScript's string-to-number coercions of `head` (`+tok.head`) are not modelled.
- `Editor.Sentence.ChangeAttr`: requires the value to have the kind of its field (a number for `head`, text otherwise). JavaScript would store any value.
- `Editor.Sentence.ChangeAttr`: a write to a field other than `form` of a multiword token, and any write to an address that names nothing, leaves the sentence unchanged. In JavaScript the first adds a property, and the second throws a TypeError.
- `Editor.Sentence.SplitTokens`: requires a space in the text. Its only caller, `writeWF`, calls it only then. An address past the end of the sentence, or a subtoken address whose element is not a multiword token or has no such child, is a no-op, where JavaScript throws.
- `Editor.Sentence.SplitTokens`: a top-level address at a multiword token is also a no-op. In JavaScript it overwrites the multiword token's form with piece 0 and splices in a new token carrying the multiword token's `id`, which the model's multiword tokens do not hold.
- `Findings.SubSplitIntendedKeepsNumbering`: corrects the ids only. Heads keep the rule as written, `head > outerIndex + 1`, which for a split inside a multiword token compares a head with the multiword token's position rather than the split token's id, so a head on the split child can move to the new piece.
- `Retokenise.MergedForm`: the source takes the node's own part of the merged form from the graph element (`toMerge.data("form")`) and only the neighbour's part from the sentence. The model takes both from the sentence. This assumes that the graph is redrawn from the sentence after every edit, so that the node's `form` data is the token's form. The form clauses of `RightMergeKeepsDense`, `LeftMergeKeepsDense` and `SupertokenMergeKeepsOrder` rest on that assumption.
- `Editor.Sentence.RenumberNodes`: the loop of `renumberNodes` has no `instanceof` test, so the source also assigns `id - 1` to a multiword token past the threshold. The model's multiword tokens carry no id and are left as they are. What that assignment does depends on the `MultiwordToken` class, which is not part of this model: it may throw under strict mode if `id` is a getter only, or leave a stale own `id`. `Editor.Sentence.MergeNodes` inherits this.
- `Editor.Sentence.MergeNodes`: supertoken mode over a multiword token neighbour is reported as `NotTwoTokens` and changes nothing, because the model's multiword tokens hold tokens only. The source would nest the multiword token.
- `Editor.Sentence.RemoveSup`: the position is given rather than decoded from the graph element id. A position past the end returns `false` and changes nothing, where JavaScript reads `.tokens` of `undefined` and throws a TypeError. A plain token at the position is removed, as with jQuery 3, where `$.each` over its missing children does nothing.
- `Edits.AutoDeprel`: the test `upostag in POS2RELmappings` also succeeds for names the mapping object inherits from `Object.prototype` (`constructor`, `toString`, `valueOf`, `hasOwnProperty` and the like), and the code then stores that inherited function as the relation. The model writes no relation for such a tag.
- `Conllu.Pos2Rel`: maps only the four own keys of `POS2RELmappings`, not the names it inherits from `Object.prototype`.
- `ConlluTable.TableToText`: models the evident write-back loop over the rows of the table. The loop as written visits no row (see "## Findings"), and `cell.children()[0].html()` calls a jQuery method on a DOM node. `updateTable` keeps a cell's text in the span's `data-value`. The model takes a row as its cell texts and leaves the markup out.
- `ConlluTable.TableView.ToggleTableColumn`: the header, button and cell toggling in the DOM is left out, and so is the dead branch on the button text. An unknown column name touches no flag, where JavaScript sets a stray `undefined` property.
- The `<td>`/`<span>` markup of `updateTable` and the hiding of invisible columns are rendering and are not modelled. A row holds its cells' texts and validity.
