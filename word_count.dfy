/** The word-count normaliser (`withWordCount`): every element caches the
    statistics of its content in `words`. The counting function itself is
    not part of this model and is a parameter `wc`; it is applied to the
    element with its own cache cleared, since the cache is not content. */
module WordCount {
  import opened Wrappers
  import opened SlateTree
  import opened Transforms

  /** The element with the cache the handler gives it. */
  function Counted(n: Node, wc: Node -> Count): (m: Node)
    ensures m.words == Some(wc(n.(words := None)))
    ensures m.(words := n.words) == n
  {
    n.(words := Some(wc(n.(words := None))))
  }

  /** The handler on the element at `p`: it rewrites exactly when the
      cache disagrees with a fresh count, and then only the cache. */
  function WordCountStep(f: seq<Node>, p: Path, wc: Node -> Count): (s: Step)
    requires ValidPath(f, p)
    ensures s == Pass <==> At(f, p).words == Some(wc(At(f, p).(words := None)))
    ensures s.Rewrite? ==>
      ValidPath(s.doc, p) && At(s.doc, p) == Counted(At(f, p), wc)
      && SameOutside(f, s.doc, Parent(p))
      && ChildrenAt(s.doc, Parent(p)) == ChildrenAt(f, Parent(p))[Last(p) := Counted(At(f, p), wc)]
    ensures s.Rewrite? && At(f, p).IsGroup() ==> Leaves(s.doc) == Leaves(f)
    ensures s.Rewrite? ==> Texts(s.doc) == Texts(f)
  {
    var n := At(f, p);
    var m := Counted(n, wc);
    if n.words == m.words then Pass
    else
      LeavesOfGroup(n);
      LeavesOfGroup(m);
      Rewrite(SetNode(f, p, m))
  }

  /** After a rewrite the cache is current: the handler passes the element on. */
  lemma {:induction false} WordCountSettles(f: seq<Node>, p: Path, wc: Node -> Count)
    requires ValidPath(f, p) && WordCountStep(f, p, wc).Rewrite?
    ensures WordCountStep(WordCountStep(f, p, wc).doc, p, wc) == Pass
  {
    var n := At(f, p);
    assert Counted(n, wc).(words := None) == n.(words := None);
  }
}
