/** The editor buffer of the manuscript editor: a forest of parts, scenes and
    text blocks (the `children` of the Slate editor), paths into it, and the
    one primitive every Slate transform used by the plug-ins is an instance of:
    replacing a run of siblings by other nodes. */
module SlateTree {
  import opened Wrappers

  /** A Slate path: child indices from the editor down to a node. */
  type Path = seq<nat>

  /** The cached statistics the word-count plug-in stores in `words`. */
  datatype Count = Count(words: nat, chars: nat)

  /** Types a text block can carry. No operation of the editor ever gives a
      text block the type of a container, so the type excludes them. */
  type BlockKind = k: string | k != "part" && k != "scene" witness "p"

  /** An element of the buffer. `id` is "" where the element has no id;
      `words` is None where no count has been cached yet. A block's inline
      content is one string (character marks are not modelled). */
  datatype Node =
    | Part(id: string, folded: bool, words: Option<Count>, children: seq<Node>)
    | Scene(id: string, folded: bool, words: Option<Count>, children: seq<Node>)
    | Block(kind: BlockKind, id: string, folded: bool, words: Option<Count>, text: string)
  {
    /** The element's `type` property. */
    function Type(): string {
      match this
      case Part(_, _, _, _) => "part"
      case Scene(_, _, _, _) => "scene"
      case Block(k, _, _, _, _) => k
    }

    predicate IsGroup() { !Block? }

    /** The element without its children: what a rewrite of the children
        leaves alone. */
    function Shell(): Node {
      if Block? then this else this.(children := [])
    }

    /** The element with its `id` property set to `i`. */
    function WithId(i: string): (m: Node)
      ensures m.id == i && m.Type() == Type() && m.IsGroup() == IsGroup()
      ensures IsGroup() ==> m.children == children
    {
      match this
      case Part(_, fo, w, c) => Part(i, fo, w, c)
      case Scene(_, fo, w, c) => Scene(i, fo, w, c)
      case Block(k, _, fo, w, t) => Block(k, i, fo, w, t)
    }

    /** Slate's `Editor.isEmpty`: no children, or only one empty text. */
    predicate IsEmpty() {
      if Block? then text == "" else children == []
    }
  }

  /** The element `wrapNodes(editor, {type})` creates around a node:
      no id, not folded, no cached count. */
  function Wrapper(kind: string, child: Node): (w: Node)
    requires kind == "part" || kind == "scene"
    ensures w.IsGroup() && w.Type() == kind && w.children == [child]
    ensures w.id == "" && !w.folded && w.words == None
  {
    if kind == "part" then Part("", false, None, [child]) else Scene("", false, None, [child])
  }

  /** The outcome of one `normalizeNode` handler on one entry: pass the
      entry on to the next handler, or rewrite the buffer and stop. */
  datatype Step = Pass | Rewrite(doc: seq<Node>)

  //---------------------------------------------------------------------------
  // Paths
  //---------------------------------------------------------------------------

  /** `p` addresses a node of the forest `f`: its parent path addresses the
      editor or a container that has a child at the last index. */
  predicate ValidPath(f: seq<Node>, p: Path)
    decreases |p|, 0
  {
    |p| > 0 &&
    if |p| == 1 then p[0] < |f|
    else ValidPath(f, Parent(p)) && At(f, Parent(p)).IsGroup()
         && Last(p) < |At(f, Parent(p)).children|
  }

  function At(f: seq<Node>, p: Path): Node
    requires ValidPath(f, p)
    decreases |p|, 1
  {
    if |p| == 1 then f[p[0]] else At(f, Parent(p)).children[Last(p)]
  }

  /** `pp` addresses the editor itself (the empty path) or a part or scene. */
  predicate ValidParent(f: seq<Node>, pp: Path) {
    pp == [] || (ValidPath(f, pp) && At(f, pp).IsGroup())
  }

  function ChildrenAt(f: seq<Node>, pp: Path): seq<Node>
    requires ValidParent(f, pp)
  {
    if pp == [] then f else At(f, pp).children
  }

  function Parent(p: Path): Path
    requires |p| > 0
  {
    p[..|p| - 1]
  }

  function Last(p: Path): nat
    requires |p| > 0
  {
    p[|p| - 1]
  }

  lemma ParentLast(p: Path)
    requires |p| > 0
    ensures Parent(p) + [Last(p)] == p
  {
  }

  /** The path of the previous sibling. */
  function PrevPath(p: Path): Path
    requires |p| > 0 && Last(p) > 0
  {
    Parent(p) + [Last(p) - 1]
  }

  /** The path of the next sibling (which may not exist). */
  function NextPath(p: Path): Path
    requires |p| > 0
  {
    Parent(p) + [Last(p) + 1]
  }

  /** A path is valid exactly when its parent path addresses a container
      that has a child at its last index, and then it addresses that child. */
  lemma PathSplit(f: seq<Node>, p: Path)
    requires |p| > 0
    ensures ValidPath(f, p) <==> (ValidParent(f, Parent(p)) && Last(p) < |ChildrenAt(f, Parent(p))|)
    ensures ValidPath(f, p) ==> At(f, p) == ChildrenAt(f, Parent(p))[Last(p)]
  {
  }

  /** The children of a container are addressed by extending its path. */
  lemma ChildPath(f: seq<Node>, pp: Path, k: nat)
    requires ValidParent(f, pp) && k < |ChildrenAt(f, pp)|
    ensures ValidPath(f, pp + [k]) && At(f, pp + [k]) == ChildrenAt(f, pp)[k]
  {
    var p := pp + [k];
    assert Parent(p) == pp && Last(p) == k;
  }

  /** Every prefix of a valid path is valid, and every proper prefix
      addresses a container. */
  lemma {:induction false} Prefixes(f: seq<Node>, p: Path)
    requires ValidPath(f, p)
    ensures forall m :: 1 <= m <= |p| ==> ValidPath(f, p[..m])
    ensures forall m :: 1 <= m < |p| ==> At(f, p[..m]).IsGroup() && p[m] < |At(f, p[..m]).children|
    decreases |p|
  {
    assert p[..|p|] == p;
    if |p| > 1 {
      Prefixes(f, Parent(p));
      forall m | 1 <= m < |p|
        ensures ValidPath(f, p[..m]) && At(f, p[..m]).IsGroup() && p[m] < |At(f, p[..m]).children|
      {
        assert Parent(p)[..m] == p[..m];
        if m == |p| - 1 {
          assert p[..m] == Parent(p);
        } else {
          assert Parent(p)[m] == p[m];
        }
      }
    }
  }

  /** Paths of length one, two and three, spelled out. */
  lemma Path1(f: seq<Node>, i: nat)
    requires i < |f|
    ensures ValidPath(f, [i]) && At(f, [i]) == f[i] && Last([i]) == i && Parent([i]) == []
  {
  }

  lemma Path2(f: seq<Node>, i: nat, k: nat)
    requires i < |f| && f[i].IsGroup() && k < |f[i].children|
    ensures ValidPath(f, [i, k]) && At(f, [i, k]) == f[i].children[k]
    ensures Parent([i, k]) == [i] && Last([i, k]) == k
    ensures ChildrenAt(f, Parent([i, k])) == f[i].children
  {
    assert Parent([i, k]) == [i];
    Path1(f, i);
  }

  lemma Path3(f: seq<Node>, i: nat, k: nat, j: nat)
    requires i < |f| && f[i].IsGroup() && k < |f[i].children|
    requires f[i].children[k].IsGroup() && j < |f[i].children[k].children|
    ensures ValidPath(f, [i, k, j]) && At(f, [i, k, j]) == f[i].children[k].children[j]
    ensures Parent([i, k, j]) == [i, k] && Last([i, k, j]) == j
  {
    assert Parent([i, k, j]) == [i, k];
    Path2(f, i, k);
  }

  /** Every prefix of a valid path is valid. */
  lemma PrefixValid(f: seq<Node>, p: Path, m: nat)
    requires ValidPath(f, p) && 1 <= m <= |p|
    ensures ValidPath(f, p[..m])
  {
    Prefixes(f, p);
  }

  //---------------------------------------------------------------------------
  // The splice primitive
  //---------------------------------------------------------------------------

  /** The container `n` with its children `lo..hi` replaced by `ns`. */
  function Respliced(n: Node, lo: nat, hi: nat, ns: seq<Node>): Node
    requires n.IsGroup() && lo <= hi <= |n.children|
  {
    n.(children := n.children[..lo] + ns + n.children[hi..])
  }

  /** Replace the children `lo..hi` of the container at `pp` by `ns`: the
      container is rebuilt, and the rebuilt container replaces the old one in
      its own parent. */
  function Splice(f: seq<Node>, pp: Path, lo: nat, hi: nat, ns: seq<Node>): seq<Node>
    requires ValidParent(f, pp) && lo <= hi <= |ChildrenAt(f, pp)|
    decreases |pp|
  {
    if pp == [] then f[..lo] + ns + f[hi..]
    else
      PathSplit(f, pp);
      Splice(f, Parent(pp), Last(pp), Last(pp) + 1, [Respliced(At(f, pp), lo, hi, ns)])
  }

  /** After a splice, the container is still there, with the same
      properties, and holds exactly the replaced run of children. */
  lemma {:induction false} SpliceChildren(f: seq<Node>, pp: Path, lo: nat, hi: nat, ns: seq<Node>)
    requires ValidParent(f, pp) && lo <= hi <= |ChildrenAt(f, pp)|
    ensures ValidParent(Splice(f, pp, lo, hi, ns), pp)
    ensures ChildrenAt(Splice(f, pp, lo, hi, ns), pp)
         == ChildrenAt(f, pp)[..lo] + ns + ChildrenAt(f, pp)[hi..]
    ensures |pp| > 0 ==> At(Splice(f, pp, lo, hi, ns), pp).Shell() == At(f, pp).Shell()
    decreases |pp|
  {
    if pp != [] {
      PathSplit(f, pp);
      var j := Last(pp);
      var x := Respliced(At(f, pp), lo, hi, ns);
      SpliceChildren(f, Parent(pp), j, j + 1, [x]);
      var r := Splice(f, pp, lo, hi, ns);
      PathSplit(r, pp);
    }
  }

  /** The node the splice put at position `lo + j` of the container. */
  lemma SpliceAt(f: seq<Node>, pp: Path, lo: nat, hi: nat, ns: seq<Node>, j: nat)
    requires ValidParent(f, pp) && lo <= hi <= |ChildrenAt(f, pp)| && j < |ns|
    ensures ValidPath(Splice(f, pp, lo, hi, ns), pp + [lo + j])
    ensures At(Splice(f, pp, lo, hi, ns), pp + [lo + j]) == ns[j]
  {
    SpliceChildren(f, pp, lo, hi, ns);
    ChildPath(Splice(f, pp, lo, hi, ns), pp, lo + j);
  }

  /** The container at `q` holds as many children in `r` as in `f`; every
      child but the `j`-th is the same node, and the `j`-th keeps its
      properties. */
  predicate SameLevel(f: seq<Node>, r: seq<Node>, q: Path, j: nat) {
    ValidParent(f, q) && ValidParent(r, q)
    && |ChildrenAt(r, q)| == |ChildrenAt(f, q)| && j < |ChildrenAt(f, q)|
    && (forall k :: 0 <= k < |ChildrenAt(f, q)| && k != j ==> ChildrenAt(r, q)[k] == ChildrenAt(f, q)[k])
    && ChildrenAt(r, q)[j].Shell() == ChildrenAt(f, q)[j].Shell()
  }

  /** `r` differs from `f` only inside the container at `pp`: at every depth
      on the way down `pp`, the container there keeps its children except the
      one on the path, and that one keeps its properties. */
  predicate SameOutside(f: seq<Node>, r: seq<Node>, pp: Path) {
    ValidParent(f, pp) && ValidParent(r, pp)
    && forall m {:trigger SameLevel(f, r, pp[..m], pp[m])} :: 0 <= m < |pp| ==> SameLevel(f, r, pp[..m], pp[m])
  }

  /** A splice changes nothing outside the container it rewrites. */
  lemma {:induction false} SpliceFrame(f: seq<Node>, pp: Path, lo: nat, hi: nat, ns: seq<Node>)
    requires ValidParent(f, pp) && lo <= hi <= |ChildrenAt(f, pp)|
    ensures SameOutside(f, Splice(f, pp, lo, hi, ns), pp)
    decreases |pp|
  {
    SpliceChildren(f, pp, lo, hi, ns);
    if pp != [] {
      PathSplit(f, pp);
      var r := Splice(f, pp, lo, hi, ns);
      var q := Parent(pp);
      var c := ChildrenAt(f, q);
      var j := Last(pp);
      var x := Respliced(At(f, pp), lo, hi, ns);
      SpliceFrame(f, q, j, j + 1, [x]);
      SpliceChildren(f, q, j, j + 1, [x]);
      assert c[..j] + [x] + c[j + 1..] == c[j := x];
      forall m | 0 <= m < |pp|
        ensures SameLevel(f, r, pp[..m], pp[m])
      {
        if m < |q| {
          assert q[..m] == pp[..m] && q[m] == pp[m];
        } else {
          assert pp[..m] == q && pp[m] == j;
        }
      }
    }
  }

  /** Two rewrites inside the same container are one rewrite inside it. */
  lemma SameOutsideTrans(f: seq<Node>, g: seq<Node>, r: seq<Node>, pp: Path)
    requires SameOutside(f, g, pp) && SameOutside(g, r, pp)
    ensures SameOutside(f, r, pp)
  {
    forall m | 0 <= m < |pp|
      ensures SameLevel(f, r, pp[..m], pp[m])
    {
      assert SameLevel(f, g, pp[..m], pp[m]) && SameLevel(g, r, pp[..m], pp[m]);
    }
  }

  /** A rewrite inside a container is a rewrite inside each of its ancestors. */
  lemma SameOutsideUp(f: seq<Node>, r: seq<Node>, pp: Path, n: nat)
    requires SameOutside(f, r, pp) && n <= |pp|
    ensures SameOutside(f, r, pp[..n])
  {
    if n < |pp| {
      assert SameLevel(f, r, pp[..n], pp[n]);
    } else {
      assert pp[..n] == pp;
    }
    forall m | 0 <= m < n
      ensures SameLevel(f, r, pp[..n][..m], pp[..n][m])
    {
      assert pp[..n][..m] == pp[..m] && pp[..n][m] == pp[m];
      assert SameLevel(f, r, pp[..m], pp[m]);
    }
  }

  /** What `SameOutside` promises for the path itself: every container on
      the way to `pp` keeps its properties. */
  lemma SameOutsideAncestors(f: seq<Node>, r: seq<Node>, pp: Path)
    requires SameOutside(f, r, pp)
    ensures forall m :: 1 <= m <= |pp| ==> ValidPath(f, pp[..m]) && ValidPath(r, pp[..m]) && At(r, pp[..m]).Shell() == At(f, pp[..m]).Shell()
  {
    forall m | 1 <= m <= |pp|
      ensures ValidPath(f, pp[..m]) && ValidPath(r, pp[..m]) && At(r, pp[..m]).Shell() == At(f, pp[..m]).Shell()
    {
      var q := pp[..m - 1];
      assert SameLevel(f, r, q, pp[m - 1]);
      assert pp[..m] == q + [pp[m - 1]];
      ChildPath(f, q, pp[m - 1]);
      ChildPath(r, q, pp[m - 1]);
    }
  }

  /** What `SameOutside` promises off the path: a node at a path `q` that
      leaves `pp` at depth `d` (neither extends `pp` nor is a prefix of it)
      is unchanged. */
  lemma SameOutsideOffPath(f: seq<Node>, r: seq<Node>, pp: Path, q: Path, d: nat)
    requires SameOutside(f, r, pp) && ValidPath(f, q)
    requires d < |q| && d < |pp| && q[..d] == pp[..d] && q[d] != pp[d]
    ensures ValidPath(r, q) && At(r, q) == At(f, q)
  {
    var a := q[..d + 1];
    assert a == q[..d] + [q[d]];
    PrefixValid(f, q, d + 1);
    assert SameLevel(f, r, pp[..d], pp[d]);
    PathSplit(f, a);
    assert Parent(a) == q[..d] && Last(a) == q[d];
    ChildPath(r, q[..d], q[d]);
    SameBelow(f, r, q, d + 1);
  }

  /** Nodes below a node that is the same in both documents are the same. */
  lemma {:induction false} SameBelow(f: seq<Node>, r: seq<Node>, q: Path, m: nat)
    requires ValidPath(f, q) && 1 <= m <= |q|
    requires ValidPath(f, q[..m]) && ValidPath(r, q[..m]) && At(r, q[..m]) == At(f, q[..m])
    ensures ValidPath(r, q) && At(r, q) == At(f, q)
    decreases |q|
  {
    if m == |q| {
      assert q[..m] == q;
    } else {
      assert Parent(q)[..m] == q[..m];
      SameBelow(f, r, Parent(q), m);
    }
  }

  //---------------------------------------------------------------------------
  // Document order
  //---------------------------------------------------------------------------

  /** The text blocks in document order: what the user sees and edits. */
  function Leaves(f: seq<Node>): seq<Node>
  {
    if f == [] then []
    else (if f[0].Block? then [f[0]] else Leaves(f[0].children)) + Leaves(f[1..])
  }

  function LeavesOf(n: Node): seq<Node> {
    Leaves([n])
  }

  lemma {:induction false} LeavesAppend(a: seq<Node>, b: seq<Node>)
    ensures Leaves(a + b) == Leaves(a) + Leaves(b)
  {
    if a == [] {
      assert a + b == b;
    } else {
      assert (a + b)[0] == a[0];
      assert (a + b)[1..] == a[1..] + b;
      LeavesAppend(a[1..], b);
    }
  }

  lemma LeavesOfGroup(n: Node)
    ensures LeavesOf(n) == if n.Block? then [n] else Leaves(n.children)
  {
    assert [n][1..] == [];
    assert Leaves([n][1..]) == [];
  }

  /** Replacing one node by another with the same leaves keeps the leaves. */
  lemma LeavesUpdate(f: seq<Node>, i: nat, x: Node)
    requires i < |f| && LeavesOf(x) == LeavesOf(f[i])
    ensures Leaves(f[i := x]) == Leaves(f)
  {
    assert f == f[..i] + [f[i]] + f[i + 1..];
    assert f[i := x] == f[..i] + [x] + f[i + 1..];
    LeavesAppend(f[..i] + [f[i]], f[i + 1..]);
    LeavesAppend(f[..i], [f[i]]);
    LeavesAppend(f[..i] + [x], f[i + 1..]);
    LeavesAppend(f[..i], [x]);
  }

  /** A splice whose replacement holds the same leaves as what it replaces
      does not change the text blocks of the document or their order. */
  lemma {:induction false} SpliceLeaves(f: seq<Node>, pp: Path, lo: nat, hi: nat, ns: seq<Node>)
    requires ValidParent(f, pp) && lo <= hi <= |ChildrenAt(f, pp)|
    requires Leaves(ns) == Leaves(ChildrenAt(f, pp)[lo..hi])
    ensures Leaves(Splice(f, pp, lo, hi, ns)) == Leaves(f)
    decreases |pp|, 1
  {
    if pp == [] {
      RunLeaves(f, lo, hi, ns);
    } else {
      SpliceLeavesUp(f, pp, lo, hi, ns);
    }
  }

  /** The step of `SpliceLeaves`: the rebuilt container has the leaves of
      the old one, so splicing it into its parent keeps the leaves. */
  lemma {:induction false} SpliceLeavesUp(f: seq<Node>, pp: Path, lo: nat, hi: nat, ns: seq<Node>)
    requires pp != [] && ValidParent(f, pp) && lo <= hi <= |ChildrenAt(f, pp)|
    requires Leaves(ns) == Leaves(ChildrenAt(f, pp)[lo..hi])
    ensures Leaves(Splice(f, pp, lo, hi, ns)) == Leaves(f)
    decreases |pp|, 0
  {
    PathSplit(f, pp);
    var n := At(f, pp);
    var x := Respliced(n, lo, hi, ns);
    ResplicedLeaves(n, lo, hi, ns);
    var g := ChildrenAt(f, Parent(pp));
    assert g[Last(pp)..Last(pp) + 1] == [n];
    SpliceLeaves(f, Parent(pp), Last(pp), Last(pp) + 1, [x]);
  }

  lemma RunLeaves(c: seq<Node>, lo: nat, hi: nat, ns: seq<Node>)
    requires lo <= hi <= |c| && Leaves(ns) == Leaves(c[lo..hi])
    ensures Leaves(c[..lo] + ns + c[hi..]) == Leaves(c)
  {
    assert c == c[..lo] + c[lo..hi] + c[hi..];
    LeavesAppend(c[..lo] + c[lo..hi], c[hi..]);
    LeavesAppend(c[..lo], c[lo..hi]);
    LeavesAppend(c[..lo] + ns, c[hi..]);
    LeavesAppend(c[..lo], ns);
  }

  lemma ResplicedLeaves(n: Node, lo: nat, hi: nat, ns: seq<Node>)
    requires n.IsGroup() && lo <= hi <= |n.children|
    requires Leaves(ns) == Leaves(n.children[lo..hi])
    ensures LeavesOf(Respliced(n, lo, hi, ns)) == LeavesOf(n)
  {
    RunLeaves(n.children, lo, hi, ns);
    LeavesOfGroup(n);
    LeavesOfGroup(Respliced(n, lo, hi, ns));
  }

  //---------------------------------------------------------------------------
  // The manuscript text
  //---------------------------------------------------------------------------

  /** The texts of a run of blocks. */
  function TextsOf(ls: seq<Node>): (ts: seq<string>)
    ensures |ts| == |ls|
  {
    if ls == [] then [] else [if ls[0].Block? then ls[0].text else ""] + TextsOf(ls[1..])
  }

  /** The manuscript as the writer reads it: the texts of its blocks in
      document order, whatever their types, ids, counts or folds. */
  function Texts(f: seq<Node>): seq<string> {
    TextsOf(Leaves(f))
  }

  lemma {:induction false} TextsOfAppend(a: seq<Node>, b: seq<Node>)
    ensures TextsOf(a + b) == TextsOf(a) + TextsOf(b)
  {
    if a == [] {
      assert a + b == b;
    } else {
      assert (a + b)[1..] == a[1..] + b;
      TextsOfAppend(a[1..], b);
    }
  }

  lemma TextsAppend(a: seq<Node>, b: seq<Node>)
    ensures Texts(a + b) == Texts(a) + Texts(b)
  {
    LeavesAppend(a, b);
    TextsOfAppend(Leaves(a), Leaves(b));
  }

  lemma RunTexts(c: seq<Node>, lo: nat, hi: nat, ns: seq<Node>)
    requires lo <= hi <= |c| && Texts(ns) == Texts(c[lo..hi])
    ensures Texts(c[..lo] + ns + c[hi..]) == Texts(c)
  {
    assert c == c[..lo] + c[lo..hi] + c[hi..];
    TextsAppend(c[..lo] + c[lo..hi], c[hi..]);
    TextsAppend(c[..lo], c[lo..hi]);
    TextsAppend(c[..lo] + ns, c[hi..]);
    TextsAppend(c[..lo], ns);
  }

  lemma TextsOfGroup(n: Node)
    requires n.IsGroup()
    ensures Texts([n]) == Texts(n.children)
  {
    LeavesOfGroup(n);
  }

  /** A splice whose replacement reads as what it replaces does not change
      the manuscript text. */
  lemma {:induction false} SpliceTexts(f: seq<Node>, pp: Path, lo: nat, hi: nat, ns: seq<Node>)
    requires ValidParent(f, pp) && lo <= hi <= |ChildrenAt(f, pp)|
    requires Texts(ns) == Texts(ChildrenAt(f, pp)[lo..hi])
    ensures Texts(Splice(f, pp, lo, hi, ns)) == Texts(f)
    decreases |pp|
  {
    if pp == [] {
      RunTexts(f, lo, hi, ns);
    } else {
      PathSplit(f, pp);
      var n := At(f, pp);
      var x := Respliced(n, lo, hi, ns);
      RunTexts(n.children, lo, hi, ns);
      TextsOfGroup(n);
      TextsOfGroup(x);
      var g := ChildrenAt(f, Parent(pp));
      assert g[Last(pp)..Last(pp) + 1] == [n];
      SpliceTexts(f, Parent(pp), Last(pp), Last(pp) + 1, [x]);
    }
  }
}
