/** The fold guard (`withProtectFolds`): before an edit, the nearest folded
    element above the selection is unfolded, so that hidden text is never
    changed unseen. It wraps the markup plug-in's operations. */
module Folds {
  import opened Wrappers
  import opened SlateTree
  import opened Transforms
  import opened Selection
  import Markup

  type State = Markup.State

  /** The element `unfoldSelection` finds, if any. */
  function FoldAbove(s: State): (q: Option<Path>)
    ensures q.Some? ==> ValidPath(s.doc, q.value) && At(s.doc, q.value).folded
    ensures Usable(s.doc, s.sel) ==> q == NearestFolded(s.doc, s.sel.value)
    ensures !Usable(s.doc, s.sel) ==> q.None?
  {
    if Usable(s.doc, s.sel) then NearestFolded(s.doc, s.sel.value) else None
  }

  /** `unfoldSelection`: `doFold(editor, node, path, false)` on that element.
      Only its flag changes; the text, the selection and what reached Slate
      stay as they were. */
  function Unfolded(s: State): (r: State)
    ensures r.sel == s.sel && r.core == s.core
    ensures Texts(r.doc) == Texts(s.doc)
    ensures FoldAbove(s).None? ==> r == s
    ensures FoldAbove(s).Some? ==>
      var q := FoldAbove(s).value;
      ValidPath(r.doc, q) && At(r.doc, q) == At(s.doc, q).(folded := false)
      && SameOutside(s.doc, r.doc, Parent(q))
      && ChildrenAt(r.doc, Parent(q)) == ChildrenAt(s.doc, Parent(q))[Last(q) := At(r.doc, q)]
  {
    match FoldAbove(s)
    case None => s
    case Some(q) => s.(doc := Unfold(s.doc, q))
  }

  /** `editor.insertText`: unfold, then the markup plug-in. */
  function InsertText(s: State, text: string): State {
    Markup.InsertText(Unfolded(s), text)
  }

  /** `editor.insertBreak`: when there is something to unfold, that is all
      the key does. */
  function InsertBreak(s: State): State {
    if FoldAbove(s).Some? then Unfolded(s) else Markup.InsertBreak(s)
  }

  /** `editor.deleteBackward`: unfold, then the markup plug-in. */
  function DeleteBackward(s: State): State {
    Markup.DeleteBackward(Unfolded(s))
  }

  /** `editor.deleteForward`: unfold, then Slate's default. */
  function DeleteForward(s: State): State {
    var u := Unfolded(s);
    u.(core := u.core + [Markup.DeleteForwardCall])
  }

  /** Enter inside a folded element only unfolds it: no text changes, no
      block is added and nothing is handed on to Slate. */
  lemma EnterInFoldOnlyUnfolds(s: State)
    requires FoldAbove(s).Some?
    ensures var r := InsertBreak(s);
      r.core == s.core && r.sel == s.sel && Texts(r.doc) == Texts(s.doc)
      && !At(r.doc, FoldAbove(s).value).folded
  {
  }

  /** Typing, Backspace and Delete reach the markup plug-in (or Slate) only
      after the nearest folded element above the selection is unfolded. */
  lemma EditsSeeUnfolded(s: State, text: string)
    requires FoldAbove(s).Some?
    ensures var q := FoldAbove(s).value;
      var u := Unfolded(s);
      ValidPath(u.doc, q) && !At(u.doc, q).folded
      && InsertText(s, text) == Markup.InsertText(u, text)
      && DeleteBackward(s) == Markup.DeleteBackward(u)
      && DeleteForward(s) == u.(core := s.core + [Markup.DeleteForwardCall])
  {
  }

  /** Without a folded element above the selection the guard is invisible. */
  lemma NoFoldNoEffect(s: State, text: string)
    requires FoldAbove(s).None?
    ensures InsertText(s, text) == Markup.InsertText(s, text)
    ensures InsertBreak(s) == Markup.InsertBreak(s)
    ensures DeleteBackward(s) == Markup.DeleteBackward(s)
    ensures DeleteForward(s) == s.(core := s.core + [Markup.DeleteForwardCall])
  {
  }
}
