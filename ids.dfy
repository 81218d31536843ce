/** The identifier normaliser (`withIDs`): when the whole buffer is
    normalised, every element (part, scene or text block) is visited in
    document order, and an element whose id is missing or already used by
    an earlier element gets a fresh one. */
module Ids {
  import opened SlateTree
  import opened SeqFacts

  //---------------------------------------------------------------------------
  // Fresh identifiers
  //---------------------------------------------------------------------------

  /** The length of the longest string in `ss`. */
  function MaxLen(ss: seq<string>): (m: nat)
    ensures forall s :: s in ss ==> |s| <= m
  {
    if ss == [] then 0
    else var rest := MaxLen(ss[1..]);
    assert forall s :: s in ss[1..] ==> s in ss;
    if |ss[0]| > rest then |ss[0]| else rest
  }

  function Repeat(c: char, n: nat): (s: string)
    ensures |s| == n
  {
    if n == 0 then "" else [c] + Repeat(c, n - 1)
  }

  /** The generator of new ids (`nanoid`), made deterministic: an id longer
      than every id it must avoid. */
  function FreshId(avoid: seq<string>): (id: string)
    ensures id != "" && id !in avoid
  {
    Repeat('x', MaxLen(avoid) + 1)
  }

  //---------------------------------------------------------------------------
  // The ids of a buffer, in document order
  //---------------------------------------------------------------------------

  /** The ids of the elements of `f`, each element before its children. */
  function IdsOf(f: seq<Node>): seq<string>
  {
    if f == [] then []
    else [f[0].id] + (if f[0].IsGroup() then IdsOf(f[0].children) else []) + IdsOf(f[1..])
  }

  /** `f` with its ids replaced, in document order, by `ids`. */
  function Relabel(f: seq<Node>, ids: seq<string>): (r: seq<Node>)
    requires |ids| == |IdsOf(f)|
    ensures |r| == |f|
  {
    if f == [] then []
    else
      var k := if f[0].IsGroup() then 1 + |IdsOf(f[0].children)| else 1;
      var head := f[0].WithId(ids[0]);
      [if head.IsGroup() then head.(children := Relabel(f[0].children, ids[1..k])) else head]
        + Relabel(f[1..], ids[k..])
  }

  /** `f` with every id cleared: what relabelling must leave alone. */
  function Anonymous(f: seq<Node>): seq<Node>
  {
    if f == [] then []
    else
      var head := f[0].WithId("");
      [if head.IsGroup() then head.(children := Anonymous(f[0].children)) else head]
        + Anonymous(f[1..])
  }

  /** Relabelling puts exactly the given ids in place. */
  lemma {:induction false} RelabelIds(f: seq<Node>, ids: seq<string>)
    requires |ids| == |IdsOf(f)|
    ensures IdsOf(Relabel(f, ids)) == ids
  {
    if f != [] {
      var k := if f[0].IsGroup() then 1 + |IdsOf(f[0].children)| else 1;
      var r := Relabel(f, ids);
      assert r[1..] == Relabel(f[1..], ids[k..]);
      RelabelIds(f[1..], ids[k..]);
      var inner := if r[0].IsGroup() then IdsOf(r[0].children) else [];
      if f[0].IsGroup() {
        RelabelIds(f[0].children, ids[1..k]);
      }
      assert inner == ids[1..k];
      assert IdsOf(r) == [ids[0]] + inner + ids[k..];
      ThreeParts(ids, k);
    }
  }

  /** Relabelling changes nothing but the ids. */
  lemma {:induction false} RelabelKeepsRest(f: seq<Node>, ids: seq<string>)
    requires |ids| == |IdsOf(f)|
    ensures Anonymous(Relabel(f, ids)) == Anonymous(f)
  {
    if f != [] {
      var k := if f[0].IsGroup() then 1 + |IdsOf(f[0].children)| else 1;
      var r := Relabel(f, ids);
      assert r[1..] == Relabel(f[1..], ids[k..]);
      RelabelKeepsRest(f[1..], ids[k..]);
      if f[0].IsGroup() {
        RelabelKeepsRest(f[0].children, ids[1..k]);
      }
    }
  }

  /** Relabelling keeps the manuscript text. */
  lemma {:induction false} RelabelKeepsText(f: seq<Node>, ids: seq<string>)
    requires |ids| == |IdsOf(f)|
    ensures Texts(Relabel(f, ids)) == Texts(f)
  {
    if f != [] {
      var k := if f[0].IsGroup() then 1 + |IdsOf(f[0].children)| else 1;
      var r := Relabel(f, ids);
      assert r[1..] == Relabel(f[1..], ids[k..]);
      assert r == [r[0]] + r[1..] && f == [f[0]] + f[1..];
      TextsAppend([r[0]], r[1..]);
      TextsAppend([f[0]], f[1..]);
      RelabelKeepsText(f[1..], ids[k..]);
      LeavesOfGroup(r[0]);
      LeavesOfGroup(f[0]);
      if f[0].IsGroup() {
        RelabelKeepsText(f[0].children, ids[1..k]);
      }
    }
  }

  /** Relabelling with a buffer's own ids gives the buffer back. */
  lemma {:induction false} RelabelOwn(f: seq<Node>)
    ensures Relabel(f, IdsOf(f)) == f
  {
    if f != [] {
      var ids := IdsOf(f);
      var k := if f[0].IsGroup() then 1 + |IdsOf(f[0].children)| else 1;
      assert ids[k..] == IdsOf(f[1..]);
      RelabelOwn(f[1..]);
      if f[0].IsGroup() {
        assert ids[1..k] == IdsOf(f[0].children);
        RelabelOwn(f[0].children);
      }
      assert f == [f[0]] + f[1..];
    }
  }

  //---------------------------------------------------------------------------
  // The repair loop
  //---------------------------------------------------------------------------

  /** The id the loop keeps at position `i`: present and not seen before. */
  predicate Kept(ids: seq<string>, i: nat)
    requires i < |ids|
  {
    ids[i] != "" && ids[i] !in ids[..i]
  }

  /** No id occurs twice. */
  predicate Distinct(ids: seq<string>) {
    forall i, j :: 0 <= i < j < |ids| ==> ids[i] != ids[j]
  }

  /** The loop of `withIDs` over the ids in document order, with the set of
      ids seen so far: a missing or repeated id is replaced by a fresh one. */
  method RepairIds(ids: seq<string>) returns (out: seq<string>)
    ensures |out| == |ids|
    ensures forall i :: 0 <= i < |ids| ==> out[i] != ""
    ensures Distinct(out)
    ensures forall i :: 0 <= i < |ids| ==> (out[i] == ids[i] <==> Kept(ids, i))
  {
    var seen: set<string> := {};
    out := [];
    var i := 0;
    while i < |ids|
      invariant i == |out| && Repaired(ids, out)
      invariant forall x :: x in seen <==> x in out
    {
      var id := ids[i];
      KeptIff(ids, out);
      if id == "" || id in seen {
        id := FreshId(ids + out);
        ReplaceStep(ids, out, id);
      } else {
        KeepStep(ids, out);
      }
      seen := seen + {id};
      out := out + [id];
      i := i + 1;
    }
  }

  /** What the loop has established for the first `|out|` ids: each is
      present, none repeats, an id is kept exactly when `Kept` says so, a
      replacement appears nowhere in the input, and every present input id
      so far is among the output. */
  ghost predicate Repaired(ids: seq<string>, out: seq<string>) {
    |out| <= |ids|
    && (forall j :: 0 <= j < |out| ==> out[j] != "")
    && Distinct(out)
    && (forall j :: 0 <= j < |out| ==> (out[j] == ids[j] <==> Kept(ids, j)))
    && (forall j :: 0 <= j < |out| && out[j] != ids[j] ==> out[j] !in ids)
    && (forall j :: 0 <= j < |out| && ids[j] != "" ==> ids[j] in out)
  }

  /** The next id is kept exactly when it is present and not yet output. */
  lemma KeptIff(ids: seq<string>, out: seq<string>)
    requires Repaired(ids, out) && |out| < |ids|
    ensures Kept(ids, |out|) <==> ids[|out|] != "" && ids[|out|] !in out
  {
    var i := |out|;
    if ids[i] != "" && ids[i] in out {
      var j :| 0 <= j < i && out[j] == ids[i];
      assert ids[j] == ids[i];
    }
    if ids[i] != "" && ids[i] in ids[..i] {
      var j :| 0 <= j < i && ids[..i][j] == ids[i];
      assert ids[j] in out;
    }
  }

  lemma KeepStep(ids: seq<string>, out: seq<string>)
    requires Repaired(ids, out) && |out| < |ids|
    requires ids[|out|] != "" && ids[|out|] !in out
    requires Kept(ids, |out|)
    ensures Repaired(ids, out + [ids[|out|]])
  {
    Extend(ids, out, ids[|out|]);
  }

  lemma ReplaceStep(ids: seq<string>, out: seq<string>, id: string)
    requires Repaired(ids, out) && |out| < |ids|
    requires !Kept(ids, |out|)
    requires id != "" && id !in ids + out
    ensures Repaired(ids, out + [id])
  {
    assert id !in ids && id !in out;
    Extend(ids, out, id);
  }

  /** Appending a present id the output does not hold keeps `Repaired`,
      when it is the input's id exactly if that id is kept, and otherwise
      appears nowhere in the input. */
  lemma Extend(ids: seq<string>, out: seq<string>, id: string)
    requires Repaired(ids, out) && |out| < |ids|
    requires id != "" && id !in out
    requires id == ids[|out|] <==> Kept(ids, |out|)
    requires id != ids[|out|] ==> id !in ids
    requires ids[|out|] != "" ==> ids[|out|] in out + [id]
    ensures Repaired(ids, out + [id])
  {
    var o := out + [id];
    var i := |out|;
    forall j | 0 <= j < i ensures o[j] == out[j] {
    }
    forall j | 0 <= j < |o| ensures o[j] != "" && (o[j] == ids[j] <==> Kept(ids, j)) {
      if j < i {
        assert o[j] == out[j];
      }
    }
    forall j | 0 <= j < |o| && o[j] != ids[j] ensures o[j] !in ids {
      if j < i {
        assert o[j] == out[j];
      }
    }
    forall a, b | 0 <= a < b < |o| ensures o[a] != o[b] {
      if b == i {
        assert o[a] in out;
      }
    }
    forall j | 0 <= j < |o| && ids[j] != "" ensures ids[j] in o {
      if j < i {
        assert ids[j] in out;
      }
    }
  }
}
