/** The editor's selection and the search `Editor.above` performs from it.
    A point addresses a text block and an offset into its text (the block
    holds a single text node, so the text node's path is the block's path
    followed by 0). */
module Selection {
  import opened Wrappers
  import opened SlateTree

  datatype Point = Point(path: Path, offset: nat)

  datatype Range = Range(anchor: Point, focus: Point) {
    /** Slate's `Range.isCollapsed`. */
    predicate Collapsed() { anchor == focus }
  }

  /** The point lies inside a text block of `f`. */
  predicate PointIn(f: seq<Node>, pt: Point) {
    ValidPath(f, pt.path) && At(f, pt.path).Block? && pt.offset <= |At(f, pt.path).text|
  }

  predicate RangeIn(f: seq<Node>, r: Range) {
    PointIn(f, r.anchor) && PointIn(f, r.focus)
  }

  /** A selection the plug-ins can act on: present and inside the buffer. */
  predicate Usable(f: seq<Node>, sel: Option<Range>) {
    sel.Some? && RangeIn(f, sel.value)
  }

  /** The length of the longest common prefix of two paths. */
  function CommonLength(a: Path, b: Path): (n: nat)
    ensures n <= |a| && n <= |b| && a[..n] == b[..n]
    ensures n < |a| && n < |b| ==> a[n] != b[n]
  {
    if a == [] || b == [] || a[0] != b[0] then 0
    else
      var m := CommonLength(a[1..], b[1..]);
      assert a[..m + 1] == [a[0]] + a[1..][..m];
      assert b[..m + 1] == [b[0]] + b[1..][..m];
      m + 1
  }

  predicate IsPrefix(q: Path, p: Path) {
    |q| <= |p| && p[..|q|] == q
  }

  /** The ancestor-or-self of `p` at depth `m` is folded. */
  predicate FoldedAt(f: seq<Node>, p: Path, m: nat) {
    1 <= m <= |p| && ValidPath(f, p[..m]) && At(f, p[..m]).folded
  }

  /** The lowest folded element among `p[..n]`, `p[..n-1]`, ..., `p[..1]`. */
  function LowestFolded(f: seq<Node>, p: Path, n: nat): (r: Option<Path>)
    requires ValidPath(f, p) && n <= |p|
    ensures r.Some? ==> 1 <= |r.value| <= n && r.value == p[..|r.value|]
    ensures r.Some? ==> ValidPath(f, r.value) && At(f, r.value).folded && FoldedAt(f, p, |r.value|)
    ensures r.Some? ==> forall m :: |r.value| < m <= n ==> !FoldedAt(f, p, m)
    ensures r.None? ==> forall m :: 1 <= m <= n ==> !FoldedAt(f, p, m)
  {
    if n == 0 then None
    else
      PrefixValid(f, p, n);
      if At(f, p[..n]).folded then Some(p[..n])
      else
        assert !FoldedAt(f, p, n);
        LowestFolded(f, p, n - 1)
  }

  /** How far down the anchor's path the search for a folded element
      starts: at the block when both ends are in it, otherwise at the parent
      of the deepest container holding both ends. The paths above that
      depth are common to both ends. */
  function SearchDepth(r: Range): (d: nat)
    ensures d <= |r.anchor.path| && d <= |r.focus.path|
    ensures r.anchor.path[..d] == r.focus.path[..d]
    ensures r.anchor.path == r.focus.path ==> d == |r.anchor.path|
  {
    var a := r.anchor.path;
    if a == r.focus.path then |a|
    else
      var c := CommonLength(a, r.focus.path);
      if c == 0 then 0 else c - 1
  }

  /** `Editor.above(editor, {match: n => Element.isElement(n) && n.folded})`
      from the selection `r`. Slate starts from `Editor.path(r)`, the common
      path of the two text nodes, and skips the node there: when both ends
      are in one block the candidates are that block and its ancestors,
      otherwise the strict ancestors of the deepest common container. The
      editor itself is not an element. The search returns the deepest
      folded candidate. */
  function NearestFolded(f: seq<Node>, r: Range): (q: Option<Path>)
    requires RangeIn(f, r)
    ensures q.Some? ==> ValidPath(f, q.value) && At(f, q.value).folded
    ensures q.Some? ==> IsPrefix(q.value, r.anchor.path) && IsPrefix(q.value, r.focus.path)
    ensures q.Some? ==> 1 <= |q.value| <= SearchDepth(r)
    ensures q.Some? ==> forall m :: |q.value| < m <= SearchDepth(r) ==> !FoldedAt(f, r.anchor.path, m)
    ensures q.None? <==> forall m :: 1 <= m <= SearchDepth(r) ==> !FoldedAt(f, r.anchor.path, m)
  {
    var a := r.anchor.path;
    var d := SearchDepth(r);
    var q := LowestFolded(f, a, d);
    assert q.Some? ==> r.focus.path[..|q.value|] == a[..d][..|q.value|] == q.value;
    q
  }
}
