/** The editor object `getEditor` builds: Slate's editor with the plug-ins
    applied in the order `withIDs`, `withWordCount`, `withBreaks`,
    `withFixNesting`, `withMarkup`, `withProtectFolds`. Each plug-in wraps
    the methods of the one applied before it, so a call runs through them in
    the opposite order: `normalizeNode` through nesting, breaks, word count
    and ids, and the edit operations through the fold guard and the markup
    rules, before Slate's own implementation. */
module SlateEditor {
  import opened Wrappers
  import opened SlateTree
  import opened Selection
  import opened Markup
  import Folds
  import FixNesting
  import Breaks
  import WordCount
  import Ids

  /** `normalizeNode` on the element at `p`: the first handler that
      rewrites stops the call; if all pass, the entry goes on to the ids
      handler, which ignores it, and to Slate. */
  function EntryStep(f: seq<Node>, p: Path, wc: Node -> Count): (s: Step)
    requires ValidPath(f, p)
    ensures s.Rewrite? ==> Texts(s.doc) == Texts(f)
    ensures s == Pass <==>
      FixNesting.NestingFix(f, p) == FixNesting.Keep
      && Breaks.BreaksStep(f, p) == Pass
      && WordCount.WordCountStep(f, p, wc) == Pass
  {
    var nesting := FixNesting.NestingStep(f, p);
    if nesting.Rewrite? then nesting
    else
      var breaks := Breaks.BreaksStep(f, p);
      if breaks.Rewrite? then breaks
      else WordCount.WordCountStep(f, p, wc)
  }

  class Editor {
    var children: seq<Node>
    var selection: Option<Range>
    /** The calls handed on to Slate's own implementation, in order. */
    var core: seq<CoreCall>
    /** The word counter the word-count plug-in uses. */
    const wc: Node -> Count

    constructor (doc: seq<Node>, wc: Node -> Count)
      ensures children == doc && selection == None && core == [] && this.wc == wc
    {
      children := doc;
      selection := None;
      core := [];
      this.wc := wc;
    }

    function Snapshot(): State
      reads this
    {
      State(children, selection, core)
    }

    method Load(s: State)
      modifies this
      ensures Snapshot() == s
    {
      children, selection, core := s.doc, s.sel, s.core;
    }

    /** `unfoldSelection` of the fold guard. */
    method UnfoldSelection() returns (unfolded: bool)
      modifies this
      ensures unfolded <==> Folds.FoldAbove(old(Snapshot())).Some?
      ensures Snapshot() == Folds.Unfolded(old(Snapshot()))
    {
      var above := Folds.FoldAbove(Snapshot());
      unfolded := above.Some?;
      if unfolded {
        Load(Folds.Unfolded(Snapshot()));
      }
    }

    method InsertText(text: string)
      modifies this
      ensures Snapshot() == Folds.InsertText(old(Snapshot()), text)
    {
      var _ := UnfoldSelection();
      Load(Markup.InsertText(Snapshot(), text));
    }

    method InsertBreak()
      modifies this
      ensures Snapshot() == Folds.InsertBreak(old(Snapshot()))
    {
      var unfolded := UnfoldSelection();
      if !unfolded {
        Load(Markup.InsertBreak(Snapshot()));
      }
    }

    /** The plug-ins themselves never delete text on Backspace: they only
        reset a style, or leave the deletion to Slate. */
    method DeleteBackward()
      modifies this
      ensures Snapshot() == Folds.DeleteBackward(old(Snapshot()))
      ensures Texts(children) == Texts(old(children))
    {
      var _ := UnfoldSelection();
      Load(Markup.DeleteBackward(Snapshot()));
    }

    method DeleteForward()
      modifies this
      ensures Snapshot() == Folds.DeleteForward(old(Snapshot()))
      ensures Texts(children) == Texts(old(children)) && core == old(core) + [DeleteForwardCall]
    {
      var _ := UnfoldSelection();
      core := core + [DeleteForwardCall];
    }

    /** `normalizeNode` on the entry at `p` (the editor itself when `p` is
        empty). No handler changes the manuscript text or the selection. */
    method NormalizeNode(p: Path)
      requires p == [] || ValidPath(children, p)
      modifies this
      ensures selection == old(selection)
      ensures Texts(children) == Texts(old(children))
      ensures p != [] ==> match EntryStep(old(children), p, wc)
        case Rewrite(d) => children == d && core == old(core)
        case Pass => children == old(children) && core == old(core) + [NormalizeCall(p)]
      ensures p == [] ==>
        var ids := Ids.IdsOf(old(children));
        var out := Ids.IdsOf(children);
        core == old(core) + [NormalizeCall(p)]
        && Ids.Anonymous(children) == Ids.Anonymous(old(children))
        && |out| == |ids| && Ids.Distinct(out)
        && (forall i :: 0 <= i < |out| ==> out[i] != "")
        && (forall i :: 0 <= i < |out| ==> (out[i] == ids[i] <==> Ids.Kept(ids, i)))
    {
      if p == [] {
        var ids := Ids.RepairIds(Ids.IdsOf(children));
        Ids.RelabelIds(children, ids);
        Ids.RelabelKeepsRest(children, ids);
        Ids.RelabelKeepsText(children, ids);
        children := Ids.Relabel(children, ids);
        core := core + [NormalizeCall(p)];
      } else {
        match EntryStep(children, p, wc)
        case Rewrite(d) =>
          children := d;
        case Pass =>
          core := core + [NormalizeCall(p)];
      }
    }
  }
}
