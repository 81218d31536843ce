/** The Slate transforms the editor plug-ins call, each an instance of
    `Splice`, with what it does to the container it rewrites and to the text
    blocks of the document. */
module Transforms {
  import opened Wrappers
  import opened SlateTree

  /** `Transforms.setNodes(editor, props, {at: p})`: the node at `p` becomes `x`. */
  function SetNode(f: seq<Node>, p: Path, x: Node): (r: seq<Node>)
    requires ValidPath(f, p)
    ensures SameOutside(f, r, Parent(p))
    ensures ChildrenAt(r, Parent(p)) == ChildrenAt(f, Parent(p))[Last(p) := x]
    ensures ValidPath(r, p) && At(r, p) == x
    ensures LeavesOf(x) == LeavesOf(At(f, p)) ==> Leaves(r) == Leaves(f)
    ensures Texts([x]) == Texts([At(f, p)]) ==> Texts(r) == Texts(f)
  {
    PathSplit(f, p);
    var c := ChildrenAt(f, Parent(p));
    var i := Last(p);
    var r := Splice(f, Parent(p), i, i + 1, [x]);
    SpliceChildren(f, Parent(p), i, i + 1, [x]);
    SpliceFrame(f, Parent(p), i, i + 1, [x]);
    assert c[..i] + [x] + c[i + 1..] == c[i := x];
    PathSplit(r, p);
    assert [c[i]] == c[i..i + 1];
    SpliceOneLeaves(f, Parent(p), i, x);
    r
  }

  lemma SpliceOneLeaves(f: seq<Node>, pp: Path, i: nat, x: Node)
    requires ValidParent(f, pp) && i < |ChildrenAt(f, pp)|
    ensures LeavesOf(x) == LeavesOf(ChildrenAt(f, pp)[i]) ==> Leaves(Splice(f, pp, i, i + 1, [x])) == Leaves(f)
    ensures Texts([x]) == Texts([ChildrenAt(f, pp)[i]]) ==> Texts(Splice(f, pp, i, i + 1, [x])) == Texts(f)
  {
    var c := ChildrenAt(f, pp);
    assert [c[i]] == c[i..i + 1];
    if LeavesOf(x) == LeavesOf(c[i]) {
      SpliceLeaves(f, pp, i, i + 1, [x]);
    }
    if Texts([x]) == Texts([c[i]]) {
      SpliceTexts(f, pp, i, i + 1, [x]);
    }
  }

  /** `Transforms.removeNodes(editor, {at: p})`. */
  function RemoveNode(f: seq<Node>, p: Path): (r: seq<Node>)
    requires ValidPath(f, p)
    ensures SameOutside(f, r, Parent(p))
    ensures ChildrenAt(r, Parent(p))
         == ChildrenAt(f, Parent(p))[..Last(p)] + ChildrenAt(f, Parent(p))[Last(p) + 1..]
    ensures At(f, p).IsGroup() && At(f, p).children == [] ==> Leaves(r) == Leaves(f)
  {
    PathSplit(f, p);
    var c := ChildrenAt(f, Parent(p));
    var i := Last(p);
    var r := Splice(f, Parent(p), i, i + 1, []);
    SpliceChildren(f, Parent(p), i, i + 1, []);
    SpliceFrame(f, Parent(p), i, i + 1, []);
    SpliceEmptyLeaves(f, Parent(p), i);
    r
  }

  lemma SpliceEmptyLeaves(f: seq<Node>, pp: Path, i: nat)
    requires ValidParent(f, pp) && i < |ChildrenAt(f, pp)|
    ensures ChildrenAt(f, pp)[i].IsGroup() && ChildrenAt(f, pp)[i].children == []
        ==> Leaves(Splice(f, pp, i, i + 1, [])) == Leaves(f)
  {
    var c := ChildrenAt(f, pp);
    if c[i].IsGroup() && c[i].children == [] {
      assert [c[i]] == c[i..i + 1];
      LeavesOfGroup(c[i]);
      SpliceLeaves(f, pp, i, i + 1, []);
    }
  }

  /** `Transforms.wrapNodes(editor, {type: kind}, {at: p})`: the node at `p`
      becomes the only child of a new element of type `kind`. */
  function WrapNode(f: seq<Node>, p: Path, kind: string): (r: seq<Node>)
    requires ValidPath(f, p) && (kind == "part" || kind == "scene")
    ensures SameOutside(f, r, Parent(p))
    ensures ChildrenAt(r, Parent(p)) == ChildrenAt(f, Parent(p))[Last(p) := Wrapper(kind, At(f, p))]
    ensures ValidPath(r, p) && At(r, p) == Wrapper(kind, At(f, p))
    ensures Leaves(r) == Leaves(f)
  {
    var w := Wrapper(kind, At(f, p));
    LeavesOfGroup(w);
    assert Leaves(w.children) == LeavesOf(At(f, p));
    SetNode(f, p, w)
  }

  /** What replaces the parent when its `i`-th child is lifted: the children
      before it stay in the parent, the children after it go to a copy of the
      parent (Slate's split copies every property, the id included), and a
      parent left with no children disappears. */
  function LiftPieces(parent: Node, i: nat): (r: seq<Node>)
    requires parent.IsGroup() && i < |parent.children|
    ensures Leaves(r) == Leaves(parent.children)
  {
    var c := parent.children;
    var before := if i > 0 then [parent.(children := c[..i])] else [];
    var after := if i < |c| - 1 then [parent.(children := c[i + 1..])] else [];
    LiftPiecesLeaves(parent, i, before, after);
    before + [c[i]] + after
  }

  lemma LiftPiecesLeaves(parent: Node, i: nat, before: seq<Node>, after: seq<Node>)
    requires parent.IsGroup() && i < |parent.children|
    requires before == if i > 0 then [parent.(children := parent.children[..i])] else []
    requires after == if i < |parent.children| - 1 then [parent.(children := parent.children[i + 1..])] else []
    ensures Leaves(before + [parent.children[i]] + after) == Leaves(parent.children)
  {
    var c := parent.children;
    LeavesAppend(before + [c[i]], after);
    LeavesAppend(before, [c[i]]);
    assert c == c[..i] + [c[i]] + c[i + 1..];
    LeavesAppend(c[..i] + [c[i]], c[i + 1..]);
    LeavesAppend(c[..i], [c[i]]);
    if i > 0 { LeavesOfGroup(parent.(children := c[..i])); }
    if i < |c| - 1 { LeavesOfGroup(parent.(children := c[i + 1..])); }
  }

  /** `Transforms.liftNodes(editor, {at: p})`: the node moves up one level,
      splitting its parent around it. */
  function LiftNode(f: seq<Node>, p: Path): (r: seq<Node>)
    requires ValidPath(f, p) && |p| >= 2
    ensures ValidParent(f, Parent(p)) && Last(p) < |ChildrenAt(f, Parent(p))|
    ensures ValidPath(f, Parent(p)) && Last(Parent(p)) < |ChildrenAt(f, Parent(Parent(p)))|
    ensures SameOutside(f, r, Parent(Parent(p)))
    ensures ChildrenAt(r, Parent(Parent(p)))
         == ChildrenAt(f, Parent(Parent(p)))[..Last(Parent(p))]
          + LiftPieces(At(f, Parent(p)), Last(p))
          + ChildrenAt(f, Parent(Parent(p)))[Last(Parent(p)) + 1..]
    ensures Leaves(r) == Leaves(f)
  {
    var pp := Parent(p);
    PathSplit(f, p);
    PathSplit(f, pp);
    var c := ChildrenAt(f, Parent(pp));
    var j := Last(pp);
    var pieces := LiftPieces(At(f, pp), Last(p));
    SpliceChildren(f, Parent(pp), j, j + 1, pieces);
    SpliceFrame(f, Parent(pp), j, j + 1, pieces);
    assert [c[j]] == c[j..j + 1];
    LeavesOfGroup(c[j]);
    SpliceLeaves(f, Parent(pp), j, j + 1, pieces);
    Splice(f, Parent(pp), j, j + 1, pieces)
  }

  /** What replaces a node and its previous sibling when the node is merged
      into it: an empty previous sibling is removed instead (Slate's rule);
      otherwise it receives the node's children (or, for text blocks, its
      text) and keeps its own properties. */
  function MergePieces(prev: Node, n: Node): seq<Node>
    requires prev.Block? == n.Block?
  {
    if prev.IsEmpty() then [n]
    else if n.Block? then [prev.(text := prev.text + n.text)]
    else [prev.(children := prev.children + n.children)]
  }

  lemma MergePiecesLeaves(prev: Node, n: Node)
    requires prev.IsGroup() && n.IsGroup()
    ensures Leaves(MergePieces(prev, n)) == Leaves([prev, n])
  {
    LeavesAppend([prev], [n]);
    LeavesOfGroup(prev);
    LeavesOfGroup(n);
    if !prev.IsEmpty() {
      LeavesOfGroup(prev.(children := prev.children + n.children));
      LeavesAppend(prev.children, n.children);
    }
  }

  /** `Transforms.mergeNodes(editor, {at: p})`: the node at `p` is joined
      with its previous sibling. */
  function MergeNode(f: seq<Node>, p: Path): (r: seq<Node>)
    requires ValidPath(f, p) && Last(p) > 0
    requires ChildrenAt(f, Parent(p))[Last(p) - 1].Block? == At(f, p).Block?
    ensures SameOutside(f, r, Parent(p))
    ensures ChildrenAt(r, Parent(p))
         == ChildrenAt(f, Parent(p))[..Last(p) - 1]
          + MergePieces(ChildrenAt(f, Parent(p))[Last(p) - 1], At(f, p))
          + ChildrenAt(f, Parent(p))[Last(p) + 1..]
    ensures At(f, p).IsGroup() ==> Leaves(r) == Leaves(f)
  {
    var i := Last(p);
    PathSplit(f, p);
    var c := ChildrenAt(f, Parent(p));
    SpliceMerge(f, Parent(p), i);
    Splice(f, Parent(p), i - 1, i + 1, MergePieces(c[i - 1], c[i]))
  }

  /** `MergeNode` on the children of the container at `pp`. */
  lemma SpliceMerge(f: seq<Node>, pp: Path, i: nat)
    requires ValidParent(f, pp) && 0 < i < |ChildrenAt(f, pp)|
    requires ChildrenAt(f, pp)[i - 1].Block? == ChildrenAt(f, pp)[i].Block?
    ensures var c := ChildrenAt(f, pp);
      var r := Splice(f, pp, i - 1, i + 1, MergePieces(c[i - 1], c[i]));
      SameOutside(f, r, pp)
      && ChildrenAt(r, pp) == c[..i - 1] + MergePieces(c[i - 1], c[i]) + c[i + 1..]
      && (c[i].IsGroup() ==> Leaves(r) == Leaves(f))
  {
    var c := ChildrenAt(f, pp);
    SpliceChildren(f, pp, i - 1, i + 1, MergePieces(c[i - 1], c[i]));
    SpliceFrame(f, pp, i - 1, i + 1, MergePieces(c[i - 1], c[i]));
    SpliceMergeLeaves(f, pp, i);
  }

  lemma SpliceMergeLeaves(f: seq<Node>, pp: Path, i: nat)
    requires ValidParent(f, pp) && 0 < i < |ChildrenAt(f, pp)|
    requires ChildrenAt(f, pp)[i - 1].Block? == ChildrenAt(f, pp)[i].Block?
    ensures var c := ChildrenAt(f, pp);
      c[i].IsGroup() ==> Leaves(Splice(f, pp, i - 1, i + 1, MergePieces(c[i - 1], c[i]))) == Leaves(f)
  {
    var c := ChildrenAt(f, pp);
    if c[i].IsGroup() {
      assert c[i - 1..i + 1] == [c[i - 1], c[i]];
      MergePiecesLeaves(c[i - 1], c[i]);
      SpliceLeaves(f, pp, i - 1, i + 1, MergePieces(c[i - 1], c[i]));
    }
  }

  /** `doFold(editor, node, path, false)`, modelled as clearing `folded`. */
  function Unfold(f: seq<Node>, p: Path): (r: seq<Node>)
    requires ValidPath(f, p)
    ensures SameOutside(f, r, Parent(p))
    ensures ChildrenAt(r, Parent(p)) == ChildrenAt(f, Parent(p))[Last(p) := At(f, p).(folded := false)]
    ensures ValidPath(r, p) && At(r, p) == At(f, p).(folded := false)
    ensures At(f, p).IsGroup() ==> Leaves(r) == Leaves(f)
    ensures Texts(r) == Texts(f)
  {
    var n := At(f, p);
    LeavesOfGroup(n);
    LeavesOfGroup(n.(folded := false));
    SetNode(f, p, n.(folded := false))
  }

  /** `doFold(.., false)` on the node at `q` and on its previous sibling. */
  function UnfoldPair(f: seq<Node>, q: Path): (r: seq<Node>)
    requires ValidPath(f, q) && Last(q) > 0
    ensures ValidPath(r, q) && ValidParent(r, Parent(q))
    ensures ChildrenAt(r, Parent(q))
         == ChildrenAt(f, Parent(q))[Last(q) - 1 := ChildrenAt(f, Parent(q))[Last(q) - 1].(folded := false)]
                                    [Last(q) := At(f, q).(folded := false)]
    ensures At(f, q).IsGroup() && ChildrenAt(f, Parent(q))[Last(q) - 1].IsGroup() ==> Leaves(r) == Leaves(f)
  {
    var pp := Parent(q);
    var i := Last(q);
    PathSplit(f, q);
    var c := ChildrenAt(f, pp);
    var g1 := Unfold(f, PrevPath(q));
    UnfoldSibling(f, q, i - 1);
    var c1 := ChildrenAt(g1, pp);
    assert c1 == c[i - 1 := c[i - 1].(folded := false)];
    UnfoldSibling(g1, q, i);
    ParentLast(q);
    var r := Unfold(g1, q);
    assert ChildrenAt(r, pp) == c1[i := c1[i].(folded := false)];
    assert c1[i] == c[i] == At(f, q);
    assert At(f, q).IsGroup() && c[i - 1].IsGroup() ==> Leaves(g1) == Leaves(f) && Leaves(r) == Leaves(g1);
    PathSplit(r, q);
    r
  }

  /** `UnfoldPair` changes nothing outside the node's container. */
  lemma UnfoldPairFrame(f: seq<Node>, q: Path)
    requires ValidPath(f, q) && Last(q) > 0
    ensures SameOutside(f, UnfoldPair(f, q), Parent(q))
  {
    var g1 := Unfold(f, PrevPath(q));
    assert Parent(PrevPath(q)) == Parent(q);
    SameOutsideTrans(f, g1, Unfold(g1, q), Parent(q));
  }

  /** `checkBlockHeader`'s repair: `doFold(.., false)` on the previous
      sibling and on the node, then `mergeNodes` at the node. */
  function UnfoldMerge(f: seq<Node>, q: Path): (r: seq<Node>)
    requires ValidPath(f, q) && Last(q) > 0
    requires ChildrenAt(f, Parent(q))[Last(q) - 1].Block? == At(f, q).Block?
    ensures SameOutside(f, r, Parent(q))
    ensures ChildrenAt(r, Parent(q))
         == ChildrenAt(f, Parent(q))[..Last(q) - 1]
          + MergePieces(ChildrenAt(f, Parent(q))[Last(q) - 1].(folded := false), At(f, q).(folded := false))
          + ChildrenAt(f, Parent(q))[Last(q) + 1..]
    ensures At(f, q).IsGroup() ==> Leaves(r) == Leaves(f)
  {
    var g := UnfoldPair(f, q);
    UnfoldedPair(f, q);
    UnfoldPairFrame(f, q);
    var r := MergeNode(g, q);
    SameOutsideTrans(f, g, r, Parent(q));
    r
  }

  /** `UnfoldPair` leaves the rest of the container as it was. */
  lemma UnfoldedPair(f: seq<Node>, q: Path)
    requires ValidPath(f, q) && Last(q) > 0
    ensures var g := UnfoldPair(f, q);
      ChildrenAt(g, Parent(q))[..Last(q) - 1] == ChildrenAt(f, Parent(q))[..Last(q) - 1]
      && ChildrenAt(g, Parent(q))[Last(q) + 1..] == ChildrenAt(f, Parent(q))[Last(q) + 1..]
  {
    var pp := Parent(q);
    var i := Last(q);
    PathSplit(f, q);
    var c := ChildrenAt(f, pp);
    var c2 := ChildrenAt(UnfoldPair(f, q), pp);
    assert c2[..i - 1] == c[..i - 1] && c2[i + 1..] == c[i + 1..];
  }

  /** Unfolding a sibling of `q` keeps `q`'s container and rewrites only that sibling. */
  lemma UnfoldSibling(f: seq<Node>, q: Path, k: nat)
    requires ValidPath(f, q) && k < |ChildrenAt(f, Parent(q))|
    ensures ValidPath(f, Parent(q) + [k])
    ensures ValidParent(Unfold(f, Parent(q) + [k]), Parent(q))
    ensures ChildrenAt(Unfold(f, Parent(q) + [k]), Parent(q))
         == ChildrenAt(f, Parent(q))[k := ChildrenAt(f, Parent(q))[k].(folded := false)]
    ensures ValidPath(Unfold(f, Parent(q) + [k]), q)
    ensures At(f, q).IsGroup() ==> At(Unfold(f, Parent(q) + [k]), q).IsGroup()
    ensures ChildrenAt(f, Parent(q))[k].IsGroup() ==> Leaves(Unfold(f, Parent(q) + [k])) == Leaves(f)
  {
    var s := Parent(q) + [k];
    ChildPath(f, Parent(q), k);
    assert Parent(s) == Parent(q) && Last(s) == k;
    var g := Unfold(f, s);
    PathSplit(f, q);
    PathSplit(g, q);
  }

  /** `Transforms.splitNodes(editor, {always: true})` at offset `off` of the
      text block at `p`: both halves keep every property of the block. */
  function SplitNode(f: seq<Node>, p: Path, off: nat): (r: seq<Node>)
    requires ValidPath(f, p) && At(f, p).Block? && off <= |At(f, p).text|
    ensures SameOutside(f, r, Parent(p))
    ensures ChildrenAt(r, Parent(p))
         == ChildrenAt(f, Parent(p))[..Last(p)]
          + [At(f, p).(text := At(f, p).text[..off]), At(f, p).(text := At(f, p).text[off..])]
          + ChildrenAt(f, Parent(p))[Last(p) + 1..]
    ensures ValidPath(r, NextPath(p)) && At(r, NextPath(p)) == At(f, p).(text := At(f, p).text[off..])
  {
    PathSplit(f, p);
    var b := At(f, p);
    var i := Last(p);
    var halves := [b.(text := b.text[..off]), b.(text := b.text[off..])];
    SpliceChildren(f, Parent(p), i, i + 1, halves);
    SpliceAt(f, Parent(p), i, i + 1, halves, 1);
    SpliceFrame(f, Parent(p), i, i + 1, halves);
    Splice(f, Parent(p), i, i + 1, halves)
  }
}
