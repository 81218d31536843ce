# mawejs editing core in Dafny

This project models the core of mawejs, a manuscript editor built on Slate and React. It also proves properties of that model.

A manuscript buffer is a tree:
- **parts** hold an `hpart` header followed by scenes;
- **scenes** hold an `hscene` header followed by paragraph blocks;
- **blocks** are text blocks of a given style: `p`, `br`, `synopsis`, `comment`, `missing`, `fill`, `tags`, and so on.

The editor object (`getEditor`) is Slate's editor wrapped by a chain of plug-ins. `normalizeNode` runs through these handlers, in this order:
1. the nesting fixer, which wraps, lifts, splits, removes and merges parts, scenes and blocks;
2. the empty-paragraph canonicaliser, which turns `p` into `br` and back;
3. the word-count cache;
4. the id repair, which runs on the root entry only.

The edit operations run through these, in this order:
1. the fold guard, which unfolds the nearest folded element above the selection;
2. the markup rules: typed shortcuts such as `## `, style continuation on Enter, reset of an empty styled line, and unformat on Backspace.

Besides the editor, the model covers:
- the story-to-buffer converter (`deserialize`);
- the RTF exporter's escaping, headings, paragraph formatters and page geometry;
- the organizer's drag-and-drop move;
- the file browser's filters and directory-scan step.

Modules, one per source unit:
- `SlateTree`: the buffer tree, paths, and one general splice primitive. It also defines two views of a buffer that edits must keep: its leaf blocks (`Leaves`) and its texts in document order (`Texts`). `SameOutside(f, r, pp)` says that `r` differs from `f` only inside the container at `pp`: every container on the way down keeps its properties, its number of children and every child off the path. `SpliceFrame` proves it for every splice, and `SameOutsideOffPath` spells it out: a node at any path that leaves `pp` is the same node afterwards.
- `Transforms`: the Slate transforms the plug-ins call (`setNodes`, `wrapNodes`, `liftNodes`, `removeNodes`, `mergeNodes`, `splitNodes`), and unfolding, as functions on the tree.
- `FixNesting`, `Breaks`, `WordCount`, `Ids`: the `normalizeNode` handlers. Each handler is one step: it either passes the entry on, or rewrites the buffer and stops.
- `Selection`: points, ranges, and the search `Editor.above` does for a folded element.
- `Markup`, `Folds`: the edit interceptors, as functions on an editor state. The state is the buffer, the selection, and the log of calls handed on to Slate's own implementation.
- `SlateEditor`: the editor object itself. It is a class whose fields (`children`, `selection`, the call log) the plug-in methods update in place.
- `EditorSlate`: `deserialize`.
- `FormatRtf`: the RTF export helpers. Control words in the output are read back as section "Control words" of the Microsoft Rich Text Format Specification 1.9.1 describes them. Escaped text is read back by the decoder that inverts the exporter's own escapes, which is not the same as what a word processor shows (see "Left out").
- `Organizer`: `onDragEnd` over part and section objects updated in place.
- `SeqFacts`: small facts about sequences that several proofs use.
- `FileBrowser`: `filterFiles`, the `renderTiles` filter and split, the list cap, and the `SearchDir` step as a class.

Where the design description and the code differ, the model follows the code:
- A markup shortcut only sets the block type. It does not issue a new id.
- `deserialize` emits a `title` block, then for each scene a `scenename` block followed by its paragraphs, then a trailing empty `p`. It does not emit `hpart`/`hscene` headers.
- The code never creates a default document for an empty buffer, so neither does the model.

## Model

| member | source | states |
|---|---|---|
| Transforms.SetNode | src/gui/editor/slateEditor.js:705-711 | `setNodes` at a path replaces exactly that node. Every other sibling stays, and nothing outside the parent changes (`SameOutside`). The buffer's leaves and texts stay when the new node has the same ones. |
| Transforms.WrapNode | src/gui/editor/slateEditor.js:879-888 | `wrapNodes` puts the node, unchanged, inside a new element of the given type at the same place. The leaves stay the same. Nothing outside the parent changes (`SameOutside`). |
| Transforms.LiftNode | src/gui/editor/slateEditor.js:844-847 | `liftNodes` moves the node up one level: the parent's earlier and later children stay in copies of the parent around it. The leaves stay the same, and nothing outside the grandparent changes (`SameOutside`). |
| Transforms.RemoveNode | src/gui/editor/slateEditor.js:913-917 | `removeNodes` deletes the node from its parent. The leaves stay the same when the node was an empty group. Nothing outside the parent changes (`SameOutside`). |
| Transforms.MergeNode | src/gui/editor/slateEditor.js:927-933 | `mergeNodes` joins a group into its previous sibling, or drops an empty previous sibling. The leaves stay the same. Nothing outside the parent changes (`SameOutside`). |
| Transforms.Unfold | src/gui/editor/slateEditor.js:928-930 | Unfolding changes only the node's `folded` flag and keeps every text. Nothing outside the parent changes (`SameOutside`). |
| Transforms.SplitNode | src/gui/editor/slateEditor.js:575 | `splitNodes` at the caret leaves the text before the caret in the block and puts the text after it in a copy of the block right after it. Nothing outside the parent changes (`SameOutside`). |
| FixNesting.HeaderFix | src/gui/editor/slateEditor.js:913-937 | `checkBlockHeader` only keeps, removes or merges the node. It removes it exactly when it is an empty group, and it merges only into a previous sibling of the same type. |
| FixNesting.NestingFix | src/gui/editor/slateEditor.js:821-866 | The handler's choice for each node type (wrap, lift, split, remove, merge or keep) can always be applied to the buffer. |
| FixNesting.Perform | src/gui/editor/slateEditor.js:879-937 | Carrying out any fix keeps the buffer's leaf blocks in order. |
| FixNesting.NestingStep | src/gui/editor/slateEditor.js:821-866 | The handler passes the entry on exactly when no fix applies. A rewrite keeps every leaf block and every text in document order. |
| FixNesting.KeepTop | src/gui/editor/slateEditor.js:844-851 | A top-level node is left alone exactly when it is a non-empty part whose first child is an `hpart`, or a headerless part with no earlier part to merge into. |
| FixNesting.KeepInScene | src/gui/editor/slateEditor.js:829-841 | A block inside a scene inside a part is left alone exactly when it is not a header, or is the scene's first child and an `hscene`. |
| FixNesting.KeepInPart | src/gui/editor/slateEditor.js:831-834 | A child of a part that the handler leaves alone is either the part's `hpart` header in first place, or a non-empty scene that opens with `hscene` when it follows a scene. |
| FixNesting.WellNestedSettled | src/gui/editor/slateEditor.js:821-866 | On a well-nested buffer the handler passes every element on. |
| FixNesting.SettledWellNested | src/gui/editor/slateEditor.js:821-866 | A buffer on which the handler passes every element on is well nested. |
| FixNesting.SettledIffWellNested | src/gui/editor/slateEditor.js:821-866 | The handler passes on every element exactly when the buffer is well nested. Well nested means: only non-empty parts at the top, each after the first opening with `hpart`. Inside a part, the `hpart` header comes first and scenes follow, and a scene after a scene opens with `hscene`. Inside a scene there are text blocks only, with `hscene` only first and no `hpart`. |
| Breaks.BreakKind | src/gui/editor/slateEditor.js:700-716 | Styles other than `p`/`br` are untouched. A `p`/`br` block ends up `br` exactly when its text is empty. |
| Breaks.BreaksStep | src/gui/editor/slateEditor.js:697-719 | The handler passes exactly when the style is already canonical. A rewrite changes only that block's type and keeps every text; nothing outside the block's parent changes. |
| Breaks.BreaksSettles | src/gui/editor/slateEditor.js:700-716 | After one rewrite, the handler passes on the same block. |
| Breaks.BreakKindIdempotent | src/gui/editor/slateEditor.js:700-716 | Canonicalising twice is canonicalising once. |
| WordCount.WordCountStep | src/gui/editor/slateEditor.js:673-689 | The handler passes exactly when the cached count equals a fresh count. A rewrite changes only the cache and keeps every text; nothing outside the element's parent changes. |
| WordCount.WordCountSettles | src/gui/editor/slateEditor.js:676-686 | After one rewrite, the handler passes on the same node. |
| Ids.FreshId | src/gui/editor/slateEditor.js:652 | A fresh id is non-empty and differs from every id it must avoid. |
| Ids.RepairIds | src/gui/editor/slateEditor.js:636-659 | After the loop every id is non-empty and all ids are distinct. An id is kept exactly when it is present and no earlier element holds it; only missing or repeated ids are replaced. |
| Ids.RelabelIds | src/gui/editor/slateEditor.js:650-654 | Writing the repaired ids back puts exactly those ids on the elements, in document order. |
| Ids.RelabelKeepsRest | src/gui/editor/slateEditor.js:650-654 | Writing ids back changes nothing but the ids. |
| Ids.RelabelKeepsText | src/gui/editor/slateEditor.js:650-654 | Writing ids back keeps every text. |
| Ids.RelabelOwn | src/gui/editor/slateEditor.js:650-654 | Writing back a buffer's own ids gives the buffer back. |
| Selection.LowestFolded | src/gui/editor/slateEditor.js:734-737 | The search returns the deepest folded element on the path, and it returns nothing exactly when no element on the path is folded. |
| Selection.NearestFolded | src/gui/editor/slateEditor.js:734-737 | `Editor.above` for a folded element gives the deepest folded element among the candidates: the block and its ancestors when both ends are in one block, otherwise the ancestors above the deepest common container. The result is above both ends, no deeper candidate is folded, and it gives nothing exactly when no candidate is folded. |
| Markup.ApplyShortcut | src/gui/editor/slateEditor.js:540-544 | A shortcut changes only the cursor block: it loses the text before the caret and gets the mapped type, and nothing outside its parent changes. The caret lands at the block's start, and nothing is passed to Slate. |
| Markup.ShortcutStyles | src/gui/editor/slateEditor.js:524-545 | When the text before the caret followed by the typed text is a shortcut key, the block gets the mapped type, loses that prefix, and the typed text is not inserted. |
| Markup.OtherTextInserted | src/gui/editor/slateEditor.js:527-548 | Any other typing is handed to Slate unchanged. |
| Markup.NoCaretFallsThrough | src/gui/editor/slateEditor.js:527-528 | Without a collapsed selection in a block, typing, Enter and Backspace all take the default path. |
| Markup.EnterResetsEmpty | src/gui/editor/slateEditor.js:565-569 | Enter on an empty line of a reset-on-empty style only sets the type to `p`. No block is created, nothing outside the block's parent changes, and nothing is passed to Slate. |
| Markup.EnterContinuesStyle | src/gui/editor/slateEditor.js:571-578 | Enter in a style with a follow-up style always splits the block. The new block gets the follow-up style and an id that no element had before, the other siblings stay, and nothing outside the parent changes. |
| Markup.EnterDefault | src/gui/editor/slateEditor.js:555-581 | Enter in every other style is handed to Slate. |
| Markup.DeleteBackward | src/gui/editor/slateEditor.js:589-615 | Backspace is intercepted exactly at the start of a block whose style unformats on Backspace. It then only sets the type to `p`, deletes no text and changes nothing outside the block's parent; otherwise it is handed to Slate. |
| Markup.InsertText | src/gui/editor/slateEditor.js:524-548 | Typing either goes to Slate unchanged or applies a shortcut, and it applies one exactly when there is a caret in a block and the text before it followed by the typed text is a table key. The block then has the mapped type and keeps only the text after the caret. |
| Markup.InsertTextAsWritten | src/gui/editor/slateEditor.js:540 | As written, a shortcut is applied exactly when the key is found by JavaScript's `in`, which also matches names inherited from `Object.prototype`. The text before the caret is then deleted. |
| Markup.ConstructorSwallowed | src/gui/editor/slateEditor.js:540-544 | As written, typing `r` after `constructo` deletes the line's text and does not insert the `r`. |
| Markup.ConstructorTyped | src/gui/editor/slateEditor.js:540-548 | With an own-key lookup, the same keystroke is handed to Slate as typed text. |
| Markup.LookupsAgreeOnOwnKeys | src/gui/editor/slateEditor.js:540 | Both lookups behave the same on every key that is not an inherited name. |
| Folds.FoldAbove | src/gui/editor/slateEditor.js:734-737 | The fold guard finds a folded element of the buffer: with a selection inside the buffer it is the nearest folded element `Editor.above` gives, and without one it is nothing. |
| Folds.Unfolded | src/gui/editor/slateEditor.js:734-742 | `unfoldSelection` clears `folded` on that element only, and nothing outside its parent changes. It keeps every text, the selection and the call log, and changes nothing when no fold is found. |
| Folds.EnterInFoldOnlyUnfolds | src/gui/editor/slateEditor.js:744-746 | Enter inside a folded element only unfolds it and inserts nothing. |
| Folds.EditsSeeUnfolded | src/gui/editor/slateEditor.js:748-761 | Typing, Backspace and Delete inside a folded element act on the buffer with that element unfolded. |
| Folds.NoFoldNoEffect | src/gui/editor/slateEditor.js:744-761 | Without a fold above the selection, the guard adds nothing to the markup rules. |
| SlateEditor.EntryStep | src/gui/editor/slateEditor.js:452-465 | `normalizeNode` on an element runs the nesting, break and word-count handlers in that order and stops at the first rewrite. It passes exactly when all three pass, and a rewrite keeps every text. |
| SlateEditor.Editor.UnfoldSelection | src/gui/editor/slateEditor.js:734-742 | The method reports whether a fold was found and leaves the editor in the unfolded state. |
| SlateEditor.Editor.InsertText | src/gui/editor/slateEditor.js:758-762 | Typing first unfolds, then runs the markup rule. |
| SlateEditor.Editor.InsertBreak | src/gui/editor/slateEditor.js:744-746 | Enter either unfolds or runs the markup rule, never both. |
| SlateEditor.Editor.DeleteBackward | src/gui/editor/slateEditor.js:748-751 | Backspace unfolds, then runs the markup rule. The plug-ins never delete text themselves. |
| SlateEditor.Editor.DeleteForward | src/gui/editor/slateEditor.js:753-756 | Delete unfolds, then hands the deletion to Slate. |
| SlateEditor.Editor.NormalizeNode | src/gui/editor/slateEditor.js:630-662 | On an element, the method runs the handler chain step. On the root, it repairs ids: afterwards ids are distinct and non-empty, the first holder of each id keeps it, and nothing but ids changes. Texts and selection are kept either way. |
| EditorSlate.SceneBlocks | src/gui/editor/editorSlate.js:227-232 | A scene becomes its name block followed by one block per paragraph, in order. |
| EditorSlate.PartBlocks | src/gui/editor/editorSlate.js:223-225 | A part flattens to one block per scene plus one per paragraph. |
| EditorSlate.Deserialize | src/gui/editor/editorSlate.js:206-213 | The conversion fails exactly when the body or the notes have no first part. The notes buffer is the first notes part flattened, with no title and no trailer. |
| EditorSlate.BodyShape | src/gui/editor/editorSlate.js:215-221 | The body buffer is the title block, the first part's blocks, and one empty `p`. Its length is 2 plus the part's size. |
| EditorSlate.OnlyFirstParts | src/gui/editor/editorSlate.js:207-208 | Parts after the first do not affect the result. |
| EditorSlate.SceneAt | src/gui/editor/editorSlate.js:223-232 | Scene k's blocks sit exactly where the earlier scenes' blocks end, so scene order is kept. |
| EditorSlate.PartBlocksSplit | src/gui/editor/editorSlate.js:223-232 | The blocks of a list of scenes are the blocks of its first k scenes followed by the blocks of the rest. |
| EditorSlate.ParagraphAt | src/gui/editor/editorSlate.js:234-240 | Wherever a scene's blocks sit (as SceneAt places them), its i-th paragraph sits 1+i blocks on, with the paragraph's tag as type and its text unchanged. |
| FormatRtf.EscapeUnit | src/gui/export/formatRTF.js:154-165 | Escaping one code unit yields ASCII. The result starts with a backslash exactly for units above 127 and for `\`, `{`, `}` and `"`. |
| FormatRtf.EscapeUnits | src/gui/export/formatRTF.js:152 | Escaped text is ASCII and never shorter than its input. |
| FormatRtf.Escape | src/gui/export/formatRTF.js:149-150 | `undefined` and the empty string come back unchanged. |
| FormatRtf.EscapeAppend | src/gui/export/formatRTF.js:152 | Escaping distributes over concatenation. |
| FormatRtf.UnescapeEscape | src/gui/export/formatRTF.js:149-165 | Escaping can be undone: the decoder that inverts the exporter's escapes gives back exactly the original code units. |
| FormatRtf.EscapeInjective | src/gui/export/formatRTF.js:149-165 | Different texts escape differently. |
| FormatRtf.HeadText | src/gui/export/formatRTF.js:90-97 | There is no heading exactly when neither title nor number is set, where 0 counts as unset. |
| FormatRtf.HeadTextParts | src/gui/export/formatRTF.js:94-96 | The heading is the number and/or the title, in that order, joined with `. `. |
| FormatRtf.Hact | src/gui/export/formatRTF.js:90-100 | The act heading exists exactly when the heading text does, and is ASCII. |
| FormatRtf.Hchapter | src/gui/export/formatRTF.js:102-113 | The chapter heading exists exactly when the heading text does, and is ASCII. |
| FormatRtf.HeadingsCarryText | src/gui/export/formatRTF.js:90-113 | Both headings end with the escaped heading text and `\par}`, and that text decodes to the heading. |
| FormatRtf.ParagraphAsWritten | src/gui/export/formatRTF.js:131 | The `p` formatter as written: `\sb480` with no delimiter before the text. |
| FormatRtf.FirstParagraphDigitsSwallowed | src/gui/export/formatRTF.js:131 | As written, the first paragraph `7 dwarves` reads as spacing 4807 before `dwarves`. |
| FormatRtf.FirstParagraphAsWrittenReads | src/gui/export/formatRTF.js:131 | As written, the first paragraph reads correctly when its text starts with neither a digit nor a space. |
| FormatRtf.ParagraphReads | src/gui/export/formatRTF.js:131 | The corrected formatter reads as `\sb480` or `\fi567` followed by exactly the paragraph text, for every text. |
| FormatRtf.MissingReads | src/gui/export/formatRTF.js:130 | The `missing` formatter reads as spacing or indent, then colour 2, then exactly the text. |
| FormatRtf.SingleA4 | src/gui/export/formatRTF.js:23-34 | Single-sided margins are equal and add up with the text width to the paper width. |
| FormatRtf.DoubleA4 | src/gui/export/formatRTF.js:36-39 | Mirrored margins differ by twice the gutter, keep the same sum, and stay positive. |
| Organizer.RemoveAt | src/gui/organizer/organizer.js:88 | `splice(i, 1)` drops exactly the item at i and keeps the others in order. |
| Organizer.InsertAt | src/gui/organizer/organizer.js:89 | `splice(i, 0, x)` puts x at i, or last for an index past the end, and keeps the others in order. |
| Organizer.Move | src/gui/organizer/organizer.js:87-89 | A move within one list is a permutation with the moved item at the destination index. |
| Organizer.MoveBack | src/gui/organizer/organizer.js:83-91 | Moving the item back from where it landed restores the list. |
| Organizer.RemoveInserted | src/gui/organizer/organizer.js:88-89 | Removing the item just inserted, at the index it landed on, gives the list back. |
| Organizer.InsertRemoved | src/gui/organizer/organizer.js:88-89 | Inserting the removed item back at the index it was removed from gives the list back. |
| Organizer.MoveAcross | src/gui/organizer/organizer.js:83-101 | A move between two lists keeps every item and the total count. |
| Organizer.FirstWith | src/gui/organizer/organizer.js:55-58 | `find` gives the first part with the id, or nothing when no part has it. |
| Organizer.Document.FindPart | src/gui/organizer/organizer.js:54-59 | `findPart` gives the first body part with the id; when the body has none, the first notes part with it; and nothing exactly when no part has the id. |
| Organizer.Document.FindSect | src/gui/organizer/organizer.js:61-66 | `findSect` knows exactly `body` and `notes`. |
| Organizer.Document.OnDragEnd | src/gui/organizer/organizer.js:68-107 | Each case is stated: a drop with no destination, onto the starting place, or of an unknown kind changes nothing. A scene drop moves exactly one scene and leaves every other part alone; with an unknown source part it changes nothing. A part drop moves exactly one part between the section lists and leaves a section that is neither source nor destination alone. An unknown droppable id throws, after the removal when only the destination is unknown. |
| FileBrowser.Filter | src/gui/filebrowser/filebrowser.js:147-150 | `filter` keeps, in order, exactly the items that pass, each as often as in the input. |
| FileBrowser.SplitJoin | src/gui/filebrowser/filebrowser.js:102 | Splitting the query on spaces loses nothing: joining the pieces gives it back. |
| FileBrowser.NoKeywords | src/gui/filebrowser/filebrowser.js:102-103 | A query has no keyword exactly when it is all spaces. |
| FileBrowser.FilterFiles | src/gui/filebrowser/filebrowser.js:101-108 | Without keywords the list comes back unchanged. Otherwise the result is, in order, exactly the files whose name contains some keyword. |
| FileBrowser.RenderTiles | src/gui/filebrowser/filebrowser.js:353-365 | The folder and file lists are each in order and together hold exactly the entries that pass the enabled options and the search text. Every entry is in exactly one of them. |
| FileBrowser.Rendered | src/gui/filebrowser/filebrowser.js:182-190 | The list shows the first thousand entries, or all when there are fewer. |
| FileBrowser.FlattenLength | src/gui/filebrowser/filebrowser.js:144 | `flat()` yields as many entries as the reads returned. |
| FileBrowser.SearchDir.Head | src/gui/filebrowser/filebrowser.js:136-137 | A step reads at most 100 queued directories, taken from the front of the queue. |
| FileBrowser.SearchDir.Step | src/gui/filebrowser/filebrowser.js:136-160 | The state is updated exactly when directories remain or something was found. The new queue is the unread directories followed by the enterable folders found, and the found entries are appended. The queue loses the directories read and gains the folders found, so a step that finds no folder to enter shortens it by the directories it read. |

## Left out

- React and Slate rendering (elements, leaves, toolbars, views, `onKeyDown`) is not modelled: it is user interface only.
- Slate's own implementation of insertText, insertBreak, deleteBackward, deleteForward and normalizeNode is not modelled: the plug-ins hand over to it, and the model only records, in order, that it was called.
- Slate's normalisation scheduling is not modelled: dirty paths, the pass limit and `withoutNormalizing`. Each handler is one step on the entry it is given.
- The selection is not transformed through the structural rewrites. A selection outside the buffer is treated like an absent one.
- A block holds one text node. Marks and inline formatting are not modelled.
- `nanoid` is a deterministic allocator that returns an id longer than every id in the buffer, so it is fresh. Randomness is left out.
- `wcElem` and `wcCompare` are not part of this model. The word counter is a parameter, and a count matches when it is equal.
- `doFold` and `toggleFold` are not part of this model. Unfolding only sets `folded` to false.
- `elemIsBlock` is not part of this model. Every text block is taken to be a block.
- SlateEditor.Editor.NormalizeNode: on the root entry the model skips the word-count handler and runs the id repair. As written, the handler first compares `wcElem(editor)` with `editor.words` through `wcCompare`, which is not part of this model. The model assumes that comparison accepts the editor's count. If it did not, the handler would call `setNodes` at the root and return, and the id repair would not run on that call.
- SlateEditor.Editor.InsertText: it composes the corrected markup rule (`Markup.InsertText`, own-key lookup). The code as written uses JavaScript's `in`; that behaviour is `Markup.InsertTextAsWritten` (see "Findings").
- FormatRtf.UnescapeEscape: the round trip is stated for the decoder that inverts the exporter's escapes, not for what a word processor shows. A cp1252 reader shows `\'94` as a right double quotation mark, not as `"`. RTF readers also skip bare carriage returns and line feeds, which the decoder keeps as text.
- FormatRtf.HeadingsCarryText: the heading text is recovered by the same decoder, with the same two differences from a word processor.
- FormatRtf.ReadParam: a letter right after a numeric parameter ends the parameter. Section "Control words" of the RTF 1.9.1 specification wants a space or a character that is neither a letter nor a digit there, so this reader is more lenient than the specification.
- Markup.InsertBreak: the `node.type in STYLEAFTER` test is modelled as an own-key lookup. As written, it inherits the same `Object.prototype` issue as the shortcut lookup, but block types never take those names.
- FileBrowser.Shown: only ASCII letters are lower-cased. `toLowerCase` follows Unicode case mapping, which is not modelled.
- `sortFiles` and the category sort are not modelled: they use the locale-dependent `localeCompare`.
- `SearchDir` reads directories asynchronously and concurrently (`readdir`, `Promise.all`). The results are a parameter of the step, and the effect's cancellation flag is not modelled.
- FormatRtf.EscapeUnit: it emits the unsigned code unit as the code does. Section "Unicode RTF" of the RTF 1.9.1 specification asks for a signed 16-bit value above 32767, and the model does not correct this.
- The `head`, `footer`, `separator` and character-style formatters of the RTF exporter are not modelled: they are template text around `escape`.
- Organizer.Document.OnDragEnd: the dragged index is required to exist in its list, because the drag library only reports items it displayed.
- `import.js` and `public/electron.js` are not modelled: clipboard, files, .docx extraction, IPC and paths are I/O and foreign calls.
- Flat-to-tree reconstruction is not modelled: no such code exists in the files modelled.

## Findings

| source | as written | input that shows it | evidently intended | confidence | as-written member | corrected member |
|---|---|---|---|---|---|---|
| src/gui/editor/slateEditor.js:540 | `key in SHORTCUTS` also matches names inherited from `Object.prototype`. The text before the caret is deleted, and the typed character is lost. `setNodes` then gets the inherited `Object` function as its properties; it has no own properties, so the type stays as it was | a block with text `constructo`, caret at its end, typing `r` | only the listed shortcut keys trigger a conversion; other typing is inserted | high, not executed | Markup.InsertTextAsWritten (Markup.ConstructorSwallowed) | Markup.InsertText (Markup.ConstructorTyped, Markup.LookupsAgreeOnOwnKeys) |
| src/gui/export/formatRTF.js:131 | the `p` formatter writes `\sb480` directly before the paragraph text, with no delimiter | a first paragraph `7 dwarves`: a reader sees `\sb4807` and the text `dwarves` | `\sb480 ` with a space delimiter, as the indent branch `\fi567 ` already has | high, not executed | FormatRtf.ParagraphAsWritten (FormatRtf.FirstParagraphDigitsSwallowed) | FormatRtf.Paragraph (FormatRtf.ParagraphReads) |
