/** The markup plug-in (`withMarkup`): typed prefixes that set the style of
    a block, the style that follows a style on Enter, the styles an Enter on
    an empty block resets, and the styles Backspace at the start of a block
    removes. Each operation either acts itself or falls through to Slate's
    default, which is recorded in `core` rather than modelled. */
module Markup {
  import opened Wrappers
  import opened SlateTree
  import opened Transforms
  import opened Selection
  import opened Ids

  /** A call the plug-in chain hands on to Slate's own implementation. */
  datatype CoreCall =
    | InsertTextCall(text: string)
    | InsertBreakCall
    | DeleteBackwardCall
    | DeleteForwardCall
    | NormalizeCall(entry: Path)

  /** What the editing operations see and change. */
  datatype State = State(doc: seq<Node>, sel: Option<Range>, core: seq<CoreCall>)

  //---------------------------------------------------------------------------
  // Tables
  //---------------------------------------------------------------------------

  const Shortcuts: map<string, BlockKind> := map[
    "** " := "hpart", "## " := "hscene", ">> " := "synopsis", "// " := "comment",
    "!! " := "missing", "++ " := "fill", "@ " := "tags"]

  const StyleAfter: map<string, BlockKind> := map[
    "hpart" := "p", "hscene" := "p", "synopsis" := "p",
    "missing" := "p", "fill" := "p", "tags" := "p"]

  const ResetEmpty: set<string> := {"synopsis", "comment", "missing", "fill", "tags"}

  const UnformatOnBackspace: set<string> :=
    {"missing", "fill", "comment", "synopsis", "tags", "hpart", "hscene"}

  /** The property names every JavaScript object literal inherits from
      `Object.prototype`, which the `in` operator also finds. */
  const ObjectPrototypeNames: set<string> := {
    "constructor", "toString", "toLocaleString", "valueOf", "hasOwnProperty",
    "isPrototypeOf", "propertyIsEnumerable", "__proto__", "__defineGetter__",
    "__defineSetter__", "__lookupGetter__", "__lookupSetter__"}

  /** `key in SHORTCUTS` as JavaScript evaluates it. */
  predicate InShortcutsAsWritten(key: string) {
    key in Shortcuts || key in ObjectPrototypeNames
  }

  //---------------------------------------------------------------------------
  // The cursor
  //---------------------------------------------------------------------------

  /** A collapsed selection inside a text block: the case the plug-in
      handles; without one every operation falls through. */
  predicate AtCursor(s: State) {
    Usable(s.doc, s.sel) && s.sel.value.Collapsed()
  }

  function CursorPath(s: State): Path
    requires AtCursor(s)
  {
    s.sel.value.anchor.path
  }

  /** The block `Editor.above(editor, {match: isBlock})` finds: the lowest
      block above a collapsed selection is its own text block. */
  function CursorBlock(s: State): (b: Node)
    requires AtCursor(s)
    ensures b.Block?
  {
    At(s.doc, CursorPath(s))
  }

  function Offset(s: State): nat
    requires AtCursor(s)
  {
    s.sel.value.anchor.offset
  }

  /** A collapsed selection at `p`, offset `off`. */
  function Caret(p: Path, off: nat): Option<Range> {
    Some(Range(Point(p, off), Point(p, off)))
  }

  //---------------------------------------------------------------------------
  // Typing
  //---------------------------------------------------------------------------

  /** The effect of a matched shortcut: the typed prefix is selected and
      deleted, the caret lands at the start of the block, and the block gets
      the mapped type if the key has one. */
  function ApplyShortcut(s: State, key: string): (r: State)
    requires AtCursor(s)
    ensures r.core == s.core && r.sel == Caret(CursorPath(s), 0)
    ensures ValidPath(r.doc, CursorPath(s)) && SameOutside(s.doc, r.doc, Parent(CursorPath(s)))
    ensures At(r.doc, CursorPath(s)) == Shortcut(CursorBlock(s), key, Offset(s))
    ensures ChildrenAt(r.doc, Parent(CursorPath(s)))
         == ChildrenAt(s.doc, Parent(CursorPath(s)))[Last(CursorPath(s)) := At(r.doc, CursorPath(s))]
  {
    State(SetNode(s.doc, CursorPath(s), Shortcut(CursorBlock(s), key, Offset(s))), Caret(CursorPath(s), 0), s.core)
  }

  /** The block `b` once the `off` characters before the caret are deleted
      and the properties the table maps `key` to are set. */
  function Shortcut(b: Node, key: string, off: nat): (x: Node)
    requires b.Block? && off <= |b.text|
    ensures x.Block? && x.id == b.id && x.folded == b.folded && x.words == b.words
    ensures x.text == b.text[off..]
    ensures x.kind == if key in Shortcuts then Shortcuts[key] else b.kind
  {
    Block(if key in Shortcuts then Shortcuts[key] else b.kind, b.id, b.folded, b.words, b.text[off..])
  }

  /** The text the key is made of: the block's text before the caret and
      the typed text. */
  function Key(s: State, text: string): string
    requires AtCursor(s)
  {
    CursorBlock(s).text[..Offset(s)] + text
  }

  /** `editor.insertText` of the markup plug-in, as written: the key is
      looked up with JavaScript's `in`. */
  function InsertTextAsWritten(s: State, text: string): (r: State)
    ensures r.core == s.core || r == s.(core := s.core + [InsertTextCall(text)])
    ensures r.core == s.core <==> AtCursor(s) && InShortcutsAsWritten(Key(s, text))
    ensures r.core == s.core ==>
      ValidPath(r.doc, CursorPath(s)) && At(r.doc, CursorPath(s)).Block? && At(r.doc, CursorPath(s)).text == CursorBlock(s).text[Offset(s)..]
  {
    if AtCursor(s) && InShortcutsAsWritten(Key(s, text)) then ApplyShortcut(s, Key(s, text))
    else s.(core := s.core + [InsertTextCall(text)])
  }

  /** `editor.insertText` of the markup plug-in, with the key looked up
      among the table's own entries. */
  function InsertText(s: State, text: string): (r: State)
    ensures r.core == s.core || r == s.(core := s.core + [InsertTextCall(text)])
    ensures r.core == s.core <==> AtCursor(s) && Key(s, text) in Shortcuts
    ensures r.core == s.core ==>
      ValidPath(r.doc, CursorPath(s)) && At(r.doc, CursorPath(s)).Block? && At(r.doc, CursorPath(s)).kind == Shortcuts[Key(s, text)]
      && At(r.doc, CursorPath(s)).text == CursorBlock(s).text[Offset(s)..]
  {
    if AtCursor(s) && Key(s, text) in Shortcuts then ApplyShortcut(s, Key(s, text))
    else s.(core := s.core + [InsertTextCall(text)])
  }

  /** A typed shortcut styles the block and is not itself inserted: the
      prefix before the caret is gone, the rest of the text stays, and
      nothing is handed on to Slate. */
  lemma ShortcutStyles(s: State, text: string)
    requires AtCursor(s) && Key(s, text) in Shortcuts
    ensures var r := InsertText(s, text);
      r.core == s.core
      && At(r.doc, CursorPath(s)).kind == Shortcuts[Key(s, text)]
      && At(r.doc, CursorPath(s)).text == CursorBlock(s).text[Offset(s)..]
      && At(r.doc, CursorPath(s)).id == CursorBlock(s).id
  {
  }

  /** Any other typed text goes to Slate unchanged, with the buffer as it was. */
  lemma OtherTextInserted(s: State, text: string)
    requires !AtCursor(s) || Key(s, text) !in Shortcuts
    ensures InsertText(s, text).doc == s.doc
    ensures InsertText(s, text).core == s.core + [InsertTextCall(text)]
  {
  }

  /** As written, typing the last letter of a word such as `constructor` at
      the start of a paragraph deletes the word and does not insert the
      letter: the key is an inherited property of the table object. */
  lemma ConstructorSwallowed()
    ensures var s := State([Block("p", "a", false, None, "constructo")], Caret([0], 10), []);
      var r := InsertTextAsWritten(s, "r");
      r.core == [] && Texts(r.doc) == [""] && Texts(s.doc) == ["constructo"]
  {
    var s := State([Block("p", "a", false, None, "constructo")], Caret([0], 10), []);
    assert Key(s, "r") == "constructor";
    var r := InsertTextAsWritten(s, "r");
    assert Leaves(s.doc) == [s.doc[0]];
    assert Leaves(r.doc) == [r.doc[0]];
  }

  /** With own-key lookup the same keystroke reaches Slate and the buffer
      is untouched. */
  lemma ConstructorTyped()
    ensures var s := State([Block("p", "a", false, None, "constructo")], Caret([0], 10), []);
      InsertText(s, "r") == s.(core := [InsertTextCall("r")])
  {
    var s := State([Block("p", "a", false, None, "constructo")], Caret([0], 10), []);
    assert Key(s, "r") == "constructor";
  }

  /** The two lookups differ exactly on inherited names. */
  lemma LookupsAgreeOnOwnKeys(s: State, text: string)
    requires AtCursor(s) && Key(s, text) !in ObjectPrototypeNames
    ensures InsertTextAsWritten(s, text) == InsertText(s, text)
  {
  }

  //---------------------------------------------------------------------------
  // Enter
  //---------------------------------------------------------------------------

  /** `editor.insertBreak` of the markup plug-in. */
  function InsertBreak(s: State): State
  {
    if !AtCursor(s) then s.(core := s.core + [InsertBreakCall])
    else
      var p := CursorPath(s);
      var b := CursorBlock(s);
      if b.kind in ResetEmpty && b.text == "" then
        State(SetNode(s.doc, p, b.(kind := "p")), s.sel, s.core)
      else if b.kind in StyleAfter then
        var g := SplitNode(s.doc, p, Offset(s));
        var x := At(g, NextPath(p)).(kind := StyleAfter[b.kind], id := FreshId(IdsOf(s.doc)));
        State(SetNode(g, NextPath(p), x), Caret(NextPath(p), 0), s.core)
      else s.(core := s.core + [InsertBreakCall])
  }

  /** Enter on an empty block of a resettable style only makes it a plain
      paragraph: no block is added and nothing reaches Slate. */
  lemma EnterResetsEmpty(s: State)
    requires AtCursor(s) && CursorBlock(s).kind in ResetEmpty && CursorBlock(s).text == ""
    ensures var r := InsertBreak(s);
      r.core == s.core && r.sel == s.sel
      && SameOutside(s.doc, r.doc, Parent(CursorPath(s)))
      && ChildrenAt(r.doc, Parent(CursorPath(s)))
         == ChildrenAt(s.doc, Parent(CursorPath(s)))[Last(CursorPath(s)) := CursorBlock(s).(kind := "p")]
  {
  }

  /** Enter in a block with a follow-up style splits it at the caret; the
      new block after it carries the rest of the text, the follow-up style
      and an id no element had, and receives the caret. */
  lemma EnterContinuesStyle(s: State)
    requires AtCursor(s) && !(CursorBlock(s).kind in ResetEmpty && CursorBlock(s).text == "")
    requires CursorBlock(s).kind in StyleAfter
    ensures var r := InsertBreak(s);
      var p := CursorPath(s);
      var b := CursorBlock(s);
      var c := ChildrenAt(s.doc, Parent(p));
      r.core == s.core && r.sel == Caret(NextPath(p), 0)
      && SameOutside(s.doc, r.doc, Parent(p))
      && |ChildrenAt(r.doc, Parent(p))| == |c| + 1
      && ChildrenAt(r.doc, Parent(p))[..Last(p)] == c[..Last(p)]
      && ChildrenAt(r.doc, Parent(p))[Last(p)] == b.(text := b.text[..Offset(s)])
      && ChildrenAt(r.doc, Parent(p))[Last(p) + 1].kind == StyleAfter[b.kind]
      && ChildrenAt(r.doc, Parent(p))[Last(p) + 1].text == b.text[Offset(s)..]
      && ChildrenAt(r.doc, Parent(p))[Last(p) + 1].id !in IdsOf(s.doc)
      && ChildrenAt(r.doc, Parent(p))[Last(p) + 2..] == c[Last(p) + 1..]
  {
    var p := CursorPath(s);
    var b := CursorBlock(s);
    var g := SplitNode(s.doc, p, Offset(s));
    var x := At(g, NextPath(p)).(kind := StyleAfter[b.kind], id := FreshId(IdsOf(s.doc)));
    assert InsertBreak(s) == State(SetNode(g, NextPath(p), x), Caret(NextPath(p), 0), s.core);
    SplitRestyle(s.doc, p, Offset(s), StyleAfter[b.kind], FreshId(IdsOf(s.doc)));
  }

  /** Splitting the block at `p` and giving the second half a new type and
      id: the first half stays in place, the restyled second half follows
      it, and the siblings around them are unchanged. */
  lemma SplitRestyle(f: seq<Node>, p: Path, off: nat, k: BlockKind, id: string)
    requires ValidPath(f, p) && At(f, p).Block? && off <= |At(f, p).text|
    ensures var g := SplitNode(f, p, off);
      ValidPath(g, NextPath(p))
      && var d := SetNode(g, NextPath(p), At(g, NextPath(p)).(kind := k, id := id));
      var b := At(f, p);
      var c := ChildrenAt(f, Parent(p));
      Last(p) < |c|
      && SameOutside(f, d, Parent(p))
      && |ChildrenAt(d, Parent(p))| == |c| + 1
      && ChildrenAt(d, Parent(p))[..Last(p)] == c[..Last(p)]
      && ChildrenAt(d, Parent(p))[Last(p)] == b.(text := b.text[..off])
      && ChildrenAt(d, Parent(p))[Last(p) + 1] == b.(text := b.text[off..], kind := k, id := id)
      && ChildrenAt(d, Parent(p))[Last(p) + 2..] == c[Last(p) + 1..]
  {
    PathSplit(f, p);
    var b := At(f, p);
    var g := SplitNode(f, p, off);
    var x := At(g, NextPath(p)).(kind := k, id := id);
    assert Parent(NextPath(p)) == Parent(p) && Last(NextPath(p)) == Last(p) + 1;
    var c := ChildrenAt(f, Parent(p));
    InsertAfter(c, Last(p), b.(text := b.text[..off]), b.(text := b.text[off..]), x);
    SameOutsideTrans(f, g, SetNode(g, NextPath(p), x), Parent(p));
  }

  lemma InsertAfter(c: seq<Node>, i: nat, h1: Node, h2: Node, x: Node)
    requires i < |c|
    ensures var d := (c[..i] + [h1, h2] + c[i + 1..])[i + 1 := x];
      |d| == |c| + 1 && d[..i] == c[..i] && d[i] == h1 && d[i + 1] == x && d[i + 2..] == c[i + 1..]
  {
    var d := (c[..i] + [h1, h2] + c[i + 1..])[i + 1 := x];
    assert d[i + 2..] == c[i + 1..];
  }

  /** Every other Enter is Slate's. */
  lemma EnterDefault(s: State)
    requires AtCursor(s) && !(CursorBlock(s).kind in ResetEmpty && CursorBlock(s).text == "")
    requires CursorBlock(s).kind !in StyleAfter
    ensures InsertBreak(s) == s.(core := s.core + [InsertBreakCall])
  {
  }

  /** Without a collapsed selection inside a block, typing, Enter and
      Backspace all go to Slate with the buffer untouched. */
  lemma NoCaretFallsThrough(s: State, text: string)
    requires !AtCursor(s)
    ensures InsertText(s, text) == s.(core := s.core + [InsertTextCall(text)])
    ensures InsertTextAsWritten(s, text) == s.(core := s.core + [InsertTextCall(text)])
    ensures InsertBreak(s) == s.(core := s.core + [InsertBreakCall])
    ensures DeleteBackward(s) == s.(core := s.core + [DeleteBackwardCall])
  {
  }

  //---------------------------------------------------------------------------
  // Backspace
  //---------------------------------------------------------------------------

  /** `editor.deleteBackward` of the markup plug-in. */
  function DeleteBackward(s: State): (r: State)
    ensures r.sel == s.sel
    ensures r.core == s.core || r == s.(core := s.core + [DeleteBackwardCall])
    ensures r.core == s.core <==>
      AtCursor(s) && Offset(s) == 0 && CursorBlock(s).kind in UnformatOnBackspace
    ensures r.core == s.core ==>
      SameOutside(s.doc, r.doc, Parent(CursorPath(s)))
      && ChildrenAt(r.doc, Parent(CursorPath(s)))
         == ChildrenAt(s.doc, Parent(CursorPath(s)))[Last(CursorPath(s)) := CursorBlock(s).(kind := "p")]
      && Texts(r.doc) == Texts(s.doc)
  {
    if AtCursor(s) && Offset(s) == 0 && CursorBlock(s).kind in UnformatOnBackspace then
      var b := CursorBlock(s);
      LeavesOfGroup(b);
      LeavesOfGroup(b.(kind := "p"));
      State(SetNode(s.doc, CursorPath(s), b.(kind := "p")), s.sel, s.core)
    else s.(core := s.core + [DeleteBackwardCall])
  }
}
