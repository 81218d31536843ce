/** The break normaliser (`withBreaks`): an empty paragraph is a line
    break (`br`), and a line break that receives text is a paragraph again. */
module Breaks {
  import opened SlateTree
  import opened Transforms

  /** The type the handler gives a text block of type `kind` holding `text`. */
  function BreakKind(kind: BlockKind, text: string): (k: BlockKind)
    ensures kind != "p" && kind != "br" ==> k == kind
    ensures (kind == "p" || kind == "br") ==> (k == "p" || k == "br") && (k == "br" <==> text == "")
  {
    if kind == "p" && text == "" then "br"
    else if kind == "br" && text != "" then "p"
    else kind
  }

  /** The handler on the element at `p`: containers and blocks whose type
      already agrees with their text are passed on; otherwise only the type
      of the block changes. */
  function BreaksStep(f: seq<Node>, p: Path): (s: Step)
    requires ValidPath(f, p)
    ensures s == Pass <==> !At(f, p).Block? || BreakKind(At(f, p).kind, At(f, p).text) == At(f, p).kind
    ensures s.Rewrite? ==>
      ValidPath(s.doc, p) && At(s.doc, p) == At(f, p).(kind := BreakKind(At(f, p).kind, At(f, p).text))
      && SameOutside(f, s.doc, Parent(p))
      && ChildrenAt(s.doc, Parent(p)) == ChildrenAt(f, Parent(p))[Last(p) := At(s.doc, p)]
    ensures s.Rewrite? ==> Texts(s.doc) == Texts(f)
  {
    var n := At(f, p);
    if n.Block? && BreakKind(n.kind, n.text) != n.kind then
      LeavesOfGroup(n);
      LeavesOfGroup(n.(kind := BreakKind(n.kind, n.text)));
      Rewrite(SetNode(f, p, n.(kind := BreakKind(n.kind, n.text))))
    else Pass
  }

  /** One repair settles the block: the handler then passes it on. */
  lemma BreaksSettles(f: seq<Node>, p: Path)
    requires ValidPath(f, p) && BreaksStep(f, p).Rewrite?
    ensures BreaksStep(BreaksStep(f, p).doc, p) == Pass
  {
    var n := At(f, p);
    BreakKindIdempotent(n.kind, n.text);
  }

  lemma BreakKindIdempotent(kind: BlockKind, text: string)
    ensures BreakKind(BreakKind(kind, text), text) == BreakKind(kind, text)
  {
  }
}
