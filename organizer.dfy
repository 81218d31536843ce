/** The organizer's drag-and-drop (`onDragEnd`): a scene dragged between
    (or within) parts, or a part dragged between (or within) the body and
    the notes sections. Parts and sections are objects the drop updates in
    place with two `splice` calls: one removing the dragged item from its
    list, one inserting it into the destination list. */
module Organizer {
  import opened Wrappers

  //---------------------------------------------------------------------------
  // The list operations `splice` performs
  //---------------------------------------------------------------------------

  /** `list.splice(i, 1)` on an index inside the list. */
  function RemoveAt<T>(s: seq<T>, i: nat): (r: seq<T>)
    requires i < |s|
    ensures |r| == |s| - 1
    ensures multiset(r) + multiset{s[i]} == multiset(s)
    ensures forall k :: 0 <= k < |r| ==> r[k] == if k < i then s[k] else s[k + 1]
  {
    assert s == s[..i] + [s[i]] + s[i + 1..];
    s[..i] + s[i + 1..]
  }

  /** `list.splice(i, 0, x)`: an index past the end inserts at the end. */
  function InsertAt<T>(s: seq<T>, i: nat, x: T): (r: seq<T>)
    ensures |r| == |s| + 1
    ensures multiset(r) == multiset(s) + multiset{x}
    ensures r[Clamp(i, |s|)] == x
    ensures forall k :: 0 <= k < |s| ==> s[k] == if k < Clamp(i, |s|) then r[k] else r[k + 1]
  {
    var j := Clamp(i, |s|);
    assert s == s[..j] + s[j..];
    s[..j] + [x] + s[j..]
  }

  function Clamp(i: nat, n: nat): (j: nat)
    ensures j <= n && (j == i || (j == n && i > n))
  {
    if i <= n then i else n
  }

  /** The drop within one list: remove, then insert into the same list.
      The result is a permutation that puts the moved item at the
      destination index (or last, for an index past the end). */
  function Move<T>(s: seq<T>, from: nat, to: nat): (r: seq<T>)
    requires from < |s|
    ensures |r| == |s|
    ensures multiset(r) == multiset(s)
    ensures r[Clamp(to, |s| - 1)] == s[from]
  {
    InsertAt(RemoveAt(s, from), to, s[from])
  }

  /** Moving the item back from where it landed restores the list. */
  lemma {:induction false} MoveBack<T>(s: seq<T>, from: nat, to: nat)
    requires from < |s|
    ensures Move(Move(s, from, to), Clamp(to, |s| - 1), from) == s
  {
    var rest := RemoveAt(s, from);
    var m := Move(s, from, to);
    RemoveInserted(rest, to, s[from]);
    assert RemoveAt(m, Clamp(to, |s| - 1)) == rest;
    InsertRemoved(s, from);
  }

  /** Removing what was just inserted gives the list back. */
  lemma RemoveInserted<T>(t: seq<T>, i: nat, x: T)
    ensures Clamp(i, |t|) < |InsertAt(t, i, x)|
    ensures RemoveAt(InsertAt(t, i, x), Clamp(i, |t|)) == t
  {
    var j := Clamp(i, |t|);
    var u := t[..j] + [x] + t[j..];
    assert u[..j] == t[..j];
    assert u[j + 1..] == t[j..];
    assert t == t[..j] + t[j..];
  }

  /** Putting an item back where it was removed gives the list back. */
  lemma InsertRemoved<T>(s: seq<T>, i: nat)
    requires i < |s|
    ensures InsertAt(RemoveAt(s, i), i, s[i]) == s
  {
    var t := s[..i] + s[i + 1..];
    assert t[..i] == s[..i];
    assert t[i..] == s[i + 1..];
    assert s == s[..i] + [s[i]] + s[i + 1..];
  }

  /** A move between two lists keeps every item: the two lists together
      hold the same items, and one more item in the destination than
      before. */
  lemma MoveAcross<T>(a: seq<T>, from: nat, b: seq<T>, to: nat)
    requires from < |a|
    ensures multiset(RemoveAt(a, from)) + multiset(InsertAt(b, to, a[from])) == multiset(a) + multiset(b)
    ensures |RemoveAt(a, from)| + |InsertAt(b, to, a[from])| == |a| + |b|
  {
  }

  //---------------------------------------------------------------------------
  // The document
  //---------------------------------------------------------------------------

  /** A scene, which the organizer moves without looking inside. */
  datatype SceneRef = SceneRef(id: string)

  class Part {
    const id: string
    var children: seq<SceneRef>

    constructor (id: string, children: seq<SceneRef>)
      ensures this.id == id && this.children == children
    {
      this.id := id;
      this.children := children;
    }
  }

  class Section {
    var parts: seq<Part>

    constructor (parts: seq<Part>)
      ensures this.parts == parts
    {
      this.parts := parts;
    }
  }

  /** Where a drag starts or ends: a droppable's id and an index in it. */
  datatype Location = Location(droppableId: string, index: nat)

  /** What the drag library reports at the end of a drag. */
  datatype DropResult = DropResult(kind: string, source: Location, destination: Option<Location>)

  /** The index of the first part with the given id. */
  function FirstWith(parts: seq<Part>, id: string): (r: Option<nat>)
    ensures r.Some? ==> r.value < |parts| && parts[r.value].id == id
    ensures r.Some? ==> forall j :: 0 <= j < r.value ==> parts[j].id != id
    ensures r.None? <==> forall j :: 0 <= j < |parts| ==> parts[j].id != id
  {
    if parts == [] then None
    else if parts[0].id == id then Some(0)
    else match FirstWith(parts[1..], id)
      case None => None
      case Some(k) => Some(k + 1)
  }

  class Document {
    const body: Section
    const notes: Section

    constructor (body: Section, notes: Section)
      ensures this.body == body && this.notes == notes
    {
      this.body := body;
      this.notes := notes;
    }

    /** Every part of the document. */
    function Parts(): set<Part>
      reads this, body, notes
    {
      (set p | p in body.parts) + (set p | p in notes.parts)
    }

    /** `findPart`: the first body part with the id, otherwise the first
        notes part with it. */
    function FindPart(id: string): (r: Option<Part>)
      reads this, body, notes
      ensures r.Some? ==> r.value.id == id && r.value in Parts()
      ensures r.None? <==> forall p :: p in Parts() ==> p.id != id
      ensures FirstWith(body.parts, id).Some? ==> r == Some(body.parts[FirstWith(body.parts, id).value])
      ensures FirstWith(body.parts, id).None? && FirstWith(notes.parts, id).Some? ==>
        r == Some(notes.parts[FirstWith(notes.parts, id).value])
    {
      match FirstWith(body.parts, id)
      case Some(i) => Some(body.parts[i])
      case None =>
        match FirstWith(notes.parts, id)
        case Some(i) => Some(notes.parts[i])
        case None => None
    }

    /** `findSect`. */
    function FindSect(id: string): (r: Option<Section>)
      reads this
      ensures r.Some? <==> id == "body" || id == "notes"
      ensures id == "body" ==> r == Some(body)
      ensures id == "notes" ==> r == Some(notes)
    {
      if id == "body" then Some(body) else if id == "notes" then Some(notes) else None
    }

    /** The scene the drag reports exists: the drag library only reports the
        index of an item it displayed. */
    predicate SourceInRange(r: DropResult)
      reads this, body, notes, Parts()
    {
      (r.kind == "scene" && FindPart(r.source.droppableId).Some? ==>
        r.source.index < |FindPart(r.source.droppableId).value.children|)
      && (r.kind == "part" && FindSect(r.source.droppableId).Some? ==>
        r.source.index < |FindSect(r.source.droppableId).value.parts|)
    }

    /** A drop that changes nothing: no destination, the starting place,
        or an unknown kind of item. */
    predicate Ignored(r: DropResult) {
      r.destination.None?
      || r.destination.value == r.source
      || (r.kind != "scene" && r.kind != "part")
    }

    /** `onDragEnd`. A droppable id that names no part (or no section)
        makes the code throw when it reads the list: `thrown` says so.
        Before the throw, a missing source changes nothing, and a missing
        destination has already had the item removed from its source. */
    method OnDragEnd(r: DropResult) returns (thrown: bool)
      requires SourceInRange(r)
      modifies body, notes, Parts()
      ensures Ignored(r) ==> !thrown && body.parts == old(body.parts) && notes.parts == old(notes.parts)
      ensures Ignored(r) || r.kind == "scene" ==> body.parts == old(body.parts) && notes.parts == old(notes.parts)
      ensures Ignored(r) || r.kind == "part" ==> forall p :: p in old(Parts()) ==> p.children == old(p.children)
      ensures !Ignored(r) && r.kind == "scene" ==>
        var src := old(FindPart(r.source.droppableId));
        var dst := old(FindPart(r.destination.value.droppableId));
        (thrown <==> src.None? || dst.None?)
        && (src.None? ==> forall p :: p in old(Parts()) ==> p.children == old(p.children))
        && (src.Some? ==> forall p :: p in old(Parts()) && p != src.value && (dst.None? || p != dst.value) ==> p.children == old(p.children))
        && (src.Some? && dst.None? ==> src.value.children == RemoveAt(old(src.value.children), r.source.index))
        && (src.Some? && dst.Some? && src.value != dst.value ==>
              src.value.children == RemoveAt(old(src.value.children), r.source.index)
              && dst.value.children == InsertAt(old(dst.value.children), r.destination.value.index, old(src.value.children)[r.source.index]))
        && (src.Some? && dst.Some? && src.value == dst.value ==>
              src.value.children == Move(old(src.value.children), r.source.index, r.destination.value.index))
      ensures !Ignored(r) && r.kind == "part" ==>
        var src := old(FindSect(r.source.droppableId));
        var dst := old(FindSect(r.destination.value.droppableId));
        (thrown <==> src.None? || dst.None?)
        && (src.None? ==> body.parts == old(body.parts) && notes.parts == old(notes.parts))
        && ((src.None? || src.value != body) && (dst.None? || dst.value != body) ==> body.parts == old(body.parts))
        && ((src.None? || src.value != notes) && (dst.None? || dst.value != notes) ==> notes.parts == old(notes.parts))
        && (src.Some? && dst.None? ==> src.value.parts == RemoveAt(old(src.value.parts), r.source.index))
        && (src.Some? && dst.Some? && src.value != dst.value ==>
              src.value.parts == RemoveAt(old(src.value.parts), r.source.index)
              && dst.value.parts == InsertAt(old(dst.value.parts), r.destination.value.index, old(src.value.parts)[r.source.index]))
        && (src.Some? && dst.Some? && src.value == dst.value ==>
              src.value.parts == Move(old(src.value.parts), r.source.index, r.destination.value.index))
    {
      thrown := false;
      if Ignored(r) {
        return;
      }
      var to := r.destination.value;
      if r.kind == "scene" {
        var src := FindPart(r.source.droppableId);
        var dst := FindPart(to.droppableId);
        if src.None? {
          thrown := true;
          return;
        }
        var sourcePart := src.value;
        var scene := sourcePart.children[r.source.index];
        sourcePart.children := RemoveAt(sourcePart.children, r.source.index);
        if dst.None? {
          thrown := true;
          return;
        }
        var destinationPart := dst.value;
        destinationPart.children := InsertAt(destinationPart.children, to.index, scene);
      } else {
        var src := FindSect(r.source.droppableId);
        var dst := FindSect(to.droppableId);
        if src.None? {
          thrown := true;
          return;
        }
        var sourceSect := src.value;
        var part := sourceSect.parts[r.source.index];
        sourceSect.parts := RemoveAt(sourceSect.parts, r.source.index);
        if dst.None? {
          thrown := true;
          return;
        }
        var destinationSect := dst.value;
        destinationSect.parts := InsertAt(destinationSect.parts, to.index, part);
      }
    }
  }
}
