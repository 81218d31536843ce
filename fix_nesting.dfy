/** The nesting normaliser (`withFixNesting`): the handler that keeps the
    buffer a list of parts, each a list of scenes, each a list of text
    blocks, with the headers (`hpart`, `hscene`) acting as breaks. One call
    of the handler on one entry either passes the entry on to the next
    plug-in or performs one repair and stops. */
module FixNesting {
  import opened SlateTree
  import opened Transforms

  /** What the handler does with one entry. */
  datatype Fix =
    | Keep                           // pass the entry on
    | Wrap(at: Path, kind: string)   // `wrapNodes(editor, {type: kind}, {at})`
    | Lift(at: Path)                 // `liftNodes(editor, {at})`
    | Split(at: Path, kind: string)  // `checkIsFirst`: wrap, then lift the wrapper
    | Remove(at: Path)               // `removeNodes(editor, {at})`
    | Merge(at: Path)                // unfold both, then `mergeNodes(editor, {at})`

  /** Slate's `Editor.parent(editor, p)` has type `t`; the editor itself
      has no type. */
  predicate ParentIs(f: seq<Node>, p: Path, t: string)
    requires ValidPath(f, p)
  {
    |p| > 1 && At(f, Parent(p)).Type() == t
  }

  /** The repair is one the transforms can perform, and it never drops a
      node that still holds text blocks nor joins two text blocks. */
  predicate Applicable(f: seq<Node>, x: Fix) {
    match x
    case Keep => true
    case Wrap(q, k) => ValidPath(f, q) && (k == "part" || k == "scene")
    case Lift(q) => ValidPath(f, q) && |q| >= 2
    case Split(q, k) => ValidPath(f, q) && |q| >= 2 && (k == "part" || k == "scene")
    case Remove(q) => ValidPath(f, q) && At(f, q).IsGroup() && At(f, q).children == []
    case Merge(q) =>
      ValidPath(f, q) && Last(q) > 0 && At(f, q).IsGroup()
      && ChildrenAt(f, Parent(q))[Last(q) - 1].Type() == At(f, q).Type()
  }

  /** `checkBlockHeader(block, q, hdr)`. A text block's first child is a
      text node, which has no type, so a text block never has the header. */
  function HeaderFix(f: seq<Node>, q: Path, hdr: string): (x: Fix)
    requires ValidPath(f, q)
    ensures x == Keep || x == Remove(q) || x == Merge(q)
    ensures x == Remove(q) <==> At(f, q).IsGroup() && At(f, q).children == []
    ensures x == Merge(q) ==>
      Last(q) > 0 && ChildrenAt(f, Parent(q))[Last(q) - 1].Type() == At(f, q).Type()
  {
    PathSplit(f, q);
    var n := At(f, q);
    if n.IsGroup() && n.children == [] then Remove(q)
    else if n.IsGroup() && n.children[0].Type() == hdr then Keep
    else if Last(q) > 0 && ChildrenAt(f, Parent(q))[Last(q) - 1].Type() == n.Type() then Merge(q)
    else Keep
  }

  /** The decision `withFixNesting`'s `normalizeNode` takes for the element
      at `p`. */
  function NestingFix(f: seq<Node>, p: Path): (x: Fix)
    requires ValidPath(f, p)
    ensures Applicable(f, x)
  {
    PathSplit(f, p);
    match At(f, p)
    case Block(kind, _, _, _, _) => BlockFix(f, p, kind)
    case Part(_, _, _, _) =>
      if |p| > 1 then Lift(p) else HeaderFix(f, p, "hpart")
    case Scene(_, _, _, _) =>
      if |p| < 2 then Wrap(p, "part")
      else if |p| > 2 then Lift(p)
      else SceneFix(f, p)
  }

  /** The decision for a text block of type `kind`: a header belongs first
      in its container, any other block inside a scene. */
  function BlockFix(f: seq<Node>, p: Path, kind: string): (x: Fix)
    requires ValidPath(f, p)
    ensures Applicable(f, x)
  {
    if kind == "hpart" then
      if !ParentIs(f, p, "part") then Wrap(p, "part")
      else if Last(p) != 0 then Split(p, "part")
      else Keep
    else if kind == "hscene" then
      if !ParentIs(f, p, "scene") then Wrap(p, "scene")
      else if Last(p) != 0 then Split(p, "scene")
      else Keep
    else if !ParentIs(f, p, "scene") then Wrap(p, "scene")
    else Keep
  }

  /** The decision for a scene directly inside a part: its own header
      check, then the header check of the scene after it. */
  function SceneFix(f: seq<Node>, p: Path): (x: Fix)
    requires ValidPath(f, p) && |p| == 2 && At(f, p).Scene?
    ensures Applicable(f, x)
  {
    PathSplit(f, p);
    var own := HeaderFix(f, p, "hscene");
    if own != Keep then own
    else if Last(p) + 1 < |ChildrenAt(f, Parent(p))| then
      ChildPath(f, Parent(p), Last(p) + 1);
      assert Parent(NextPath(p)) == Parent(p) && Last(NextPath(p)) == Last(p) + 1;
      HeaderFix(f, NextPath(p), "hscene")
    else Keep
  }

  /** Performing a repair. */
  function Perform(f: seq<Node>, x: Fix): (r: seq<Node>)
    requires Applicable(f, x)
    ensures Leaves(r) == Leaves(f)
  {
    match x
    case Keep => f
    case Wrap(q, k) => WrapNode(f, q, k)
    case Lift(q) => LiftNode(f, q)
    case Split(q, k) => LiftNode(WrapNode(f, q, k), q)
    case Remove(q) => RemoveNode(f, q)
    case Merge(q) =>
      PathSplit(f, q);
      UnfoldMerge(f, q)
  }

  /** One call of the handler on the element at `p`. Every repair keeps
      the text blocks of the manuscript, with their contents, in the same
      order: the structure is rebuilt around the text, never the text. */
  function NestingStep(f: seq<Node>, p: Path): (s: Step)
    requires ValidPath(f, p)
    ensures s == Pass <==> NestingFix(f, p) == Keep
    ensures s.Rewrite? ==> Leaves(s.doc) == Leaves(f) && Texts(s.doc) == Texts(f)
  {
    var x := NestingFix(f, p);
    if x == Keep then Pass else Rewrite(Perform(f, x))
  }

  //---------------------------------------------------------------------------
  // The fixed point
  //---------------------------------------------------------------------------

  /** The handler passes every element of the buffer on. */
  ghost predicate Settled(f: seq<Node>) {
    forall p :: ValidPath(f, p) ==> NestingFix(f, p) == Keep
  }

  /** The nesting the editor maintains: a list of parts, every part after
      the first opening with its `hpart` header. */
  predicate WellNested(f: seq<Node>) {
    forall i :: 0 <= i < |f| ==> PartOk(f, i)
  }

  predicate PartOk(f: seq<Node>, i: nat)
    requires i < |f|
  {
    f[i].Part? && f[i].children != []
    && (i > 0 ==> f[i].children[0].Type() == "hpart")
    && forall k :: 0 <= k < |f[i].children| ==> InPartOk(f[i].children, k)
  }

  /** Inside a part: the `hpart` header, first, then scenes; a scene that
      follows a scene opens with its `hscene` header. */
  predicate InPartOk(c: seq<Node>, k: nat)
    requires k < |c|
  {
    (c[k].Block? && c[k].kind == "hpart" && k == 0)
    || (c[k].Scene? && c[k].children != []
        && (k > 0 && c[k - 1].Scene? ==> c[k].children[0].Type() == "hscene")
        && forall j :: 0 <= j < |c[k].children| ==> InSceneOk(c[k].children, j))
  }

  /** Inside a scene: text blocks only, no `hpart`, `hscene` only first. */
  predicate InSceneOk(c: seq<Node>, j: nat)
    requires j < |c|
  {
    c[j].Block? && c[j].kind != "hpart" && (c[j].kind == "hscene" ==> j == 0)
  }

  /** The handler's verdict on a top-level element. */
  lemma KeepTop(f: seq<Node>, i: nat)
    requires i < |f|
    ensures ValidPath(f, [i])
    ensures NestingFix(f, [i]) == Keep <==>
      f[i].Part? && f[i].children != []
      && (i > 0 && f[i - 1].Part? ==> f[i].children[0].Type() == "hpart")
  {
    Path1(f, i);
    var p := [i];
    assert !ParentIs(f, p, "part") && !ParentIs(f, p, "scene");
    if f[i].Part? {
      assert NestingFix(f, p) == HeaderFix(f, p, "hpart");
      if i > 0 {
        assert ChildrenAt(f, Parent(p))[Last(p) - 1] == f[i - 1];
      }
    } else {
      assert NestingFix(f, p).Wrap?;
    }
  }

  /** The handler's verdict on a child of a part. */
  lemma KeepInPart(f: seq<Node>, i: nat, k: nat)
    requires i < |f| && f[i].Part? && k < |f[i].children|
    ensures ValidPath(f, [i, k])
    ensures NestingFix(f, [i, k]) == Keep ==>
      (f[i].children[k].Block? && f[i].children[k].kind == "hpart" && k == 0)
      || (f[i].children[k].Scene? && f[i].children[k].children != []
          && (k > 0 && f[i].children[k - 1].Scene? ==> f[i].children[k].children[0].Type() == "hscene"))
  {
    Path2(f, i, k);
  }

  /** The handler's verdict on a child of a scene inside a part. */
  lemma KeepInScene(f: seq<Node>, i: nat, k: nat, j: nat)
    requires i < |f| && f[i].Part? && k < |f[i].children|
    requires f[i].children[k].Scene? && j < |f[i].children[k].children|
    ensures ValidPath(f, [i, k, j])
    ensures NestingFix(f, [i, k, j]) == Keep <==> InSceneOk(f[i].children[k].children, j)
  {
    Path3(f, i, k, j);
    Path2(f, i, k);
  }

  /** The handler passes a well-nested buffer on at every element. */
  lemma WellNestedSettled(f: seq<Node>, p: Path)
    requires WellNested(f) && ValidPath(f, p)
    ensures NestingFix(f, p) == Keep
  {
    ShortPath(f, p);
    if |p| == 1 {
      assert p == [p[0]];
      SettledTop(f, p[0]);
    } else if |p| == 2 {
      assert p == [p[0], p[1]];
      SettledInPart(f, p[0], p[1]);
    } else {
      assert p == [p[0], p[1], p[2]];
      SettledInScene(f, p[0], p[1], p[2]);
    }
  }

  lemma SettledInScene(f: seq<Node>, i: nat, k: nat, j: nat)
    requires WellNested(f) && i < |f| && f[i].Part? && k < |f[i].children|
    requires f[i].children[k].Scene? && j < |f[i].children[k].children|
    ensures ValidPath(f, [i, k, j]) && NestingFix(f, [i, k, j]) == Keep
  {
    assert PartOk(f, i);
    assert InPartOk(f[i].children, k);
    KeepInScene(f, i, k, j);
  }

  lemma SettledTop(f: seq<Node>, i: nat)
    requires WellNested(f) && i < |f|
    ensures ValidPath(f, [i]) && NestingFix(f, [i]) == Keep
  {
    assert PartOk(f, i);
    KeepTop(f, i);
    if i > 0 { assert PartOk(f, i - 1); }
  }

  lemma SettledInPart(f: seq<Node>, i: nat, k: nat)
    requires WellNested(f) && i < |f| && f[i].Part? && k < |f[i].children|
    ensures ValidPath(f, [i, k]) && NestingFix(f, [i, k]) == Keep
  {
    assert PartOk(f, i);
    var c := f[i].children;
    assert InPartOk(c, k);
    Path2(f, i, k);
    if c[k].Scene? {
      var next := k + 1 < |c| && c[k + 1].Scene?;
      if k + 1 < |c| {
        assert InPartOk(c, k + 1);
      }
      SceneSettled(f, i, k, next);
    }
  }

  /** A scene inside a part that opens with its header (when a scene
      precedes it) and is followed by a scene that opens with its header
      (when one follows) is passed on. */
  lemma SceneSettled(f: seq<Node>, i: nat, k: nat, next: bool)
    requires i < |f| && f[i].Part? && k < |f[i].children|
    requires f[i].children[k].Scene? && f[i].children[k].children != []
    requires k > 0 && f[i].children[k - 1].Scene? ==> f[i].children[k].children[0].Type() == "hscene"
    requires next <==> k + 1 < |f[i].children| && f[i].children[k + 1].Scene?
    requires next ==> f[i].children[k + 1].children != [] && f[i].children[k + 1].children[0].Type() == "hscene"
    requires k + 1 < |f[i].children| ==> !f[i].children[k + 1].Part?
    ensures ValidPath(f, [i, k]) && NestingFix(f, [i, k]) == Keep
  {
    var p := [i, k];
    var c := f[i].children;
    Path2(f, i, k);
    assert NestingFix(f, p) == SceneFix(f, p);
    assert HeaderFix(f, p, "hscene") == Keep;
    if k + 1 < |c| {
      assert NextPath(p) == [i, k + 1];
      Path2(f, i, k + 1);
    }
  }

  /** In a well-nested buffer a path is at most three deep, and it runs
      through a part and then a scene. */
  lemma ShortPath(f: seq<Node>, p: Path)
    requires WellNested(f) && ValidPath(f, p)
    ensures |p| <= 3 && p[0] < |f| && f[p[0]].Part?
    ensures |p| >= 2 ==> p[1] < |f[p[0]].children|
    ensures |p| >= 3 ==> f[p[0]].children[p[1]].Scene? && p[2] < |f[p[0]].children[p[1]].children|
  {
    var n := |p|;
    Prefixes(f, p);
    assert p[..1] == [p[0]];
    Path1(f, p[0]);
    assert PartOk(f, p[0]);
    if n >= 2 {
      assert p[..2] == [p[0], p[1]];
      assert Parent(p[..2]) == p[..1];
      Path2(f, p[0], p[1]);
      assert InPartOk(f[p[0]].children, p[1]);
    }
    if n >= 3 {
      assert p[..3] == [p[0], p[1], p[2]];
      assert Parent(p[..3]) == p[..2];
      Path3(f, p[0], p[1], p[2]);
      assert InSceneOk(f[p[0]].children[p[1]].children, p[2]);
    }
  }

  /** A buffer the handler passes on everywhere is well nested. */
  lemma SettledWellNested(f: seq<Node>)
    requires Settled(f)
    ensures WellNested(f)
  {
    forall i | 0 <= i < |f| ensures PartOk(f, i) {
      KeepTop(f, i);
      if i > 0 { KeepTop(f, i - 1); }
      var c := f[i].children;
      forall k | 0 <= k < |c| ensures InPartOk(c, k) {
        KeepInPart(f, i, k);
        if c[k].Scene? {
          forall j | 0 <= j < |c[k].children| ensures InSceneOk(c[k].children, j) {
            KeepInScene(f, i, k, j);
          }
        }
      }
    }
  }

  /** The nesting normaliser's fixed points are exactly the well-nested
      buffers: it repairs every deviation from the part / scene / block
      shape and leaves that shape alone. */
  lemma SettledIffWellNested(f: seq<Node>)
    ensures Settled(f) <==> WellNested(f)
  {
    if Settled(f) {
      SettledWellNested(f);
    }
    if WellNested(f) {
      forall p | ValidPath(f, p) ensures NestingFix(f, p) == Keep {
        WellNestedSettled(f, p);
      }
    }
  }
}
