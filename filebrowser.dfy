/** The file browser's list logic: the keyword filter of the search view,
    the option filter and the folder/file split of the directory view, one
    step of the breadth-first directory search, and the cap on the number of
    entries the list shows. */
module FileBrowser {

  /** A directory entry as the file system layer reports it. An entry with
      no type has the empty string as its type. */
  datatype Entry = Entry(fileid: string, name: string, kind: string, hidden: bool, symlink: bool, access: bool)

  //---------------------------------------------------------------------------
  // Sequences
  //---------------------------------------------------------------------------

  /** `a` is `b` with some elements left out, the rest in order. */
  ghost predicate Subsequence<T>(a: seq<T>, b: seq<T>)
    decreases |b|
  {
    a == [] || (b != [] && ((a[0] == b[0] && Subsequence(a[1..], b[1..])) || Subsequence(a, b[1..])))
  }

  /** `Array.prototype.filter`. */
  function Filter<T(==,!new)>(s: seq<T>, p: T -> bool): (r: seq<T>)
    ensures Subsequence(r, s)
    ensures forall x :: multiset(r)[x] == if p(x) then multiset(s)[x] else 0
    ensures forall i :: 0 <= i < |r| ==> p(r[i])
  {
    if s == [] then []
    else
      var rest := Filter(s[1..], p);
      assert s == [s[0]] + s[1..];
      if p(s[0]) then [s[0]] + rest else rest
  }

  /** `Array.prototype.flat()` on a list of lists. */
  function Flatten<T>(ss: seq<seq<T>>): seq<T> {
    if ss == [] then [] else ss[0] + Flatten(ss[1..])
  }

  /** The total length of a list of lists. */
  function TotalLength<T>(ss: seq<seq<T>>): nat {
    if ss == [] then 0 else |ss[0]| + TotalLength(ss[1..])
  }

  lemma {:induction false} FlattenLength<T>(ss: seq<seq<T>>)
    ensures |Flatten(ss)| == TotalLength(ss)
  {
    if ss != [] {
      FlattenLength(ss[1..]);
    }
  }

  //---------------------------------------------------------------------------
  // Strings
  //---------------------------------------------------------------------------

  /** `s.includes(k)`. */
  predicate Includes(s: string, k: string) {
    |k| <= |s| && (s[..|k|] == k || Includes(s[1..], k))
  }

  /** `s.split(" ")`: the pieces between single spaces, empty ones
      included. */
  function SplitSpaces(s: string): (r: seq<string>)
    ensures |r| >= 1
    ensures forall i, j :: 0 <= i < |r| && 0 <= j < |r[i]| ==> r[i][j] != ' '
  {
    if s == [] then [""]
    else
      var rest := SplitSpaces(s[1..]);
      if s[0] == ' ' then [""] + rest
      else [[s[0]] + rest[0]] + rest[1..]
  }

  /** The pieces joined back with single spaces. */
  function JoinSpaces(ss: seq<string>): string
    requires |ss| >= 1
  {
    if |ss| == 1 then ss[0] else ss[0] + " " + JoinSpaces(ss[1..])
  }

  /** Splitting loses nothing: joining the pieces gives the query back. */
  lemma {:induction false} SplitJoin(s: string)
    ensures JoinSpaces(SplitSpaces(s)) == s
  {
    if s != [] {
      SplitJoin(s[1..]);
      var rest := SplitSpaces(s[1..]);
      if s[0] != ' ' {
        var r := SplitSpaces(s);
        assert r[1..] == rest[1..];
        if |rest| == 1 {
          assert JoinSpaces(r) == [s[0]] + rest[0];
        } else {
          assert JoinSpaces(r) == [s[0]] + (rest[0] + " " + JoinSpaces(rest[1..]));
        }
      } else {
        assert SplitSpaces(s)[1..] == rest;
      }
      assert s == [s[0]] + s[1..];
    }
  }

  function NonEmpty(k: string): bool { k != [] }

  /** The keywords of a search query: the non-empty space-separated
      pieces. */
  function Keywords(q: string): seq<string> {
    Filter(SplitSpaces(q), NonEmpty)
  }

  /** A query has no keyword exactly when it is all spaces. */
  lemma {:induction false} NoKeywords(q: string)
    ensures Keywords(q) == [] <==> forall i :: 0 <= i < |q| ==> q[i] == ' '
  {
    if q != [] {
      NoKeywords(q[1..]);
      var rest := SplitSpaces(q[1..]);
      if q[0] == ' ' {
        FilterCons("", rest, NonEmpty);
      } else {
        var first := [q[0]] + rest[0];
        FilterCons(first, rest[1..], NonEmpty);
        assert NonEmpty(first);
      }
      BlankCons(q);
    }
  }

  /** `Filter` on a list with a first element. */
  lemma FilterCons<T(!new)>(x: T, t: seq<T>, p: T -> bool)
    ensures Filter([x] + t, p) == if p(x) then [x] + Filter(t, p) else Filter(t, p)
  {
    assert ([x] + t)[1..] == t;
  }

  /** A string is all spaces exactly when its first character is a space
      and the rest is all spaces. */
  lemma BlankCons(q: string)
    requires q != []
    ensures (forall i :: 0 <= i < |q| ==> q[i] == ' ')
        <==> q[0] == ' ' && forall i :: 0 <= i < |q[1..]| ==> q[1..][i] == ' '
  {
    if q[0] == ' ' && forall i :: 0 <= i < |q[1..]| ==> q[1..][i] == ' ' {
      forall i | 1 <= i < |q| ensures q[i] == ' ' {
        assert q[i] == q[1..][i - 1];
      }
    }
  }

  //---------------------------------------------------------------------------
  // The search view's filter (`filterFiles`)
  //---------------------------------------------------------------------------

  predicate MatchesAny(name: string, keywords: seq<string>) {
    exists k :: k in keywords && Includes(name, k)
  }

  /** `filterFiles`: without keywords the list is returned as it is;
      otherwise the entries whose name contains some keyword, in order. */
  function FilterFiles(files: seq<Entry>, query: string): (r: seq<Entry>)
    ensures Keywords(query) == [] ==> r == files
    ensures Subsequence(r, files)
    ensures Keywords(query) != [] ==>
      forall f :: multiset(r)[f] == if MatchesAny(f.name, Keywords(query)) then multiset(files)[f] else 0
  {
    var keywords := Keywords(query);
    if keywords != [] then Filter(files, (f: Entry) => MatchesAny(f.name, keywords))
    else
      SubsequenceSelf(files);
      files
  }

  lemma {:induction false} SubsequenceSelf<T>(s: seq<T>)
    ensures Subsequence(s, s)
  {
    if s != [] {
      SubsequenceSelf(s[1..]);
    }
  }

  //---------------------------------------------------------------------------
  // The directory view's filter and split (`renderTiles`)
  //---------------------------------------------------------------------------

  /** The view's filter settings. */
  datatype Options = Options(
    onlyFolders: bool, excludeHidden: bool, excludeSymlinks: bool,
    excludeInaccessible: bool, excludeUnknown: bool, searchfor: string)

  /** ASCII lower-casing (`toLowerCase`). */
  function Lower(s: string): (r: string)
    ensures |r| == |s|
  {
    if s == [] then []
    else [if 'A' <= s[0] <= 'Z' then (s[0] as int + 32) as char else s[0]] + Lower(s[1..])
  }

  /** An entry the view shows: it passes every enabled exclusion, and its
      name contains the search text regardless of case when one is set. */
  predicate Shown(o: Options, f: Entry) {
    (!o.onlyFolders || f.kind == "folder")
    && (!o.excludeHidden || !f.hidden)
    && (!o.excludeSymlinks || !f.symlink)
    && (!o.excludeInaccessible || f.access)
    && (!o.excludeUnknown || f.kind != "")
    && (o.searchfor == "" || Includes(Lower(f.name), Lower(o.searchfor)))
  }

  predicate IsFolder(f: Entry) { f.kind == "folder" }

  datatype Tiles = Tiles(folders: seq<Entry>, files: seq<Entry>)

  /** `f => Shown(o, f)`. */
  function ShownBy(o: Options): Entry -> bool {
    f => Shown(o, f)
  }

  /** The negation of a test. */
  function Not<T>(p: T -> bool): T -> bool {
    x => !p(x)
  }

  /** The entries `renderTiles` shows, split into folders and the rest. The
      two lists partition the shown entries, each list in order. */
  function RenderTiles(o: Options, entries: seq<Entry>): (t: Tiles)
    ensures Subsequence(t.folders, entries) && Subsequence(t.files, entries)
    ensures forall f :: multiset(t.folders)[f] + multiset(t.files)[f]
                     == if Shown(o, f) then multiset(entries)[f] else 0
    ensures forall f :: f in t.folders ==> IsFolder(f) && f !in t.files
    ensures forall f :: f in t.files ==> !IsFolder(f) && f !in t.folders
  {
    var shown := Filter(entries, ShownBy(o));
    SplitFiltered(entries, ShownBy(o), IsFolder);
    Tiles(Filter(shown, IsFolder), Filter(shown, Not(IsFolder)))
  }

  /** Filtering by `keep` and then splitting by `p` partitions the kept
      elements into two ordered lists with nothing in common. */
  lemma SplitFiltered<T(!new)>(s: seq<T>, keep: T -> bool, p: T -> bool)
    ensures var a := Filter(Filter(s, keep), p);
      var b := Filter(Filter(s, keep), Not(p));
      Subsequence(a, s) && Subsequence(b, s)
      && (forall x :: multiset(a)[x] + multiset(b)[x] == if keep(x) then multiset(s)[x] else 0)
      && (forall x :: x in a ==> p(x) && x !in b)
      && (forall x :: x in b ==> !p(x) && x !in a)
  {
    var shown := Filter(s, keep);
    var a := Filter(shown, p);
    var b := Filter(shown, Not(p));
    SubsequenceTrans(a, shown, s);
    SubsequenceTrans(b, shown, s);
    Passes(shown, p);
    Passes(shown, Not(p));
    forall x | x in b ensures !p(x) {
      assert Not(p)(x);
    }
    forall x ensures multiset(a)[x] + multiset(b)[x] == multiset(shown)[x] {
      assert Not(p)(x) == !p(x);
    }
  }

  /** Every element a filter keeps passes its test. */
  lemma Passes<T(!new)>(s: seq<T>, p: T -> bool)
    ensures forall x :: x in Filter(s, p) ==> p(x)
  {
    var r := Filter(s, p);
    forall x | x in r ensures p(x) {
      var i :| 0 <= i < |r| && r[i] == x;
    }
  }

  lemma {:induction false} SubsequenceTrans<T>(a: seq<T>, b: seq<T>, c: seq<T>)
    requires Subsequence(a, b) && Subsequence(b, c)
    ensures Subsequence(a, c)
    decreases |c|
  {
    if a != [] {
      if b[0] == c[0] && Subsequence(b[1..], c[1..]) {
        if a[0] == b[0] && Subsequence(a[1..], b[1..]) {
          SubsequenceTrans(a[1..], b[1..], c[1..]);
        } else {
          SubsequenceTrans(a, b[1..], c[1..]);
        }
      } else {
        SubsequenceTrans(a, b, c[1..]);
      }
    }
  }

  //---------------------------------------------------------------------------
  // The search list's cap (`RenderFileList`)
  //---------------------------------------------------------------------------

  const ListCap: nat := 1000

  /** The entries the list renders: the first thousand. */
  function Rendered(files: seq<Entry>): (r: seq<Entry>)
    ensures |r| == if |files| < ListCap then |files| else ListCap
    ensures r <= files
  {
    if |files| <= ListCap then files else files[..ListCap]
  }

  //---------------------------------------------------------------------------
  // The directory search (`SearchDir`)
  //---------------------------------------------------------------------------

  /** The number of queued directories one step reads. */
  const Batch: nat := 100

  /** A directory found by the scan that the scan enters. */
  predicate Enterable(f: Entry) {
    !f.symlink && f.access && f.kind == "folder"
  }

  function FileIds(es: seq<Entry>): (r: seq<string>)
    ensures |r| == |es|
    ensures forall i :: 0 <= i < |es| ==> r[i] == es[i].fileid
  {
    if es == [] then [] else [es[0].fileid] + FileIds(es[1..])
  }

  /** The search state: directories still to read and the entries found so
      far. */
  class SearchDir {
    var scan: seq<string>
    var files: seq<Entry>

    constructor (directory: string)
      ensures scan == [directory] && files == []
    {
      scan := [directory];
      files := [];
    }

    /** The directories the next step reads. */
    function Head(): (h: seq<string>)
      reads this
      ensures |h| <= Batch && h <= scan
      ensures |h| == if |scan| < Batch then |scan| else Batch
    {
      if |scan| <= Batch then scan else scan[..Batch]
    }

    /** One step of the scan, given what reading each directory of `Head()`
        returned. When nothing is left to scan and nothing was found, the
        state stays as it is and the scan stops (`updated` is false).
        Otherwise the unread directories stay queued, the enterable folders
        found are queued after them, and every entry found is added. */
    method Step(results: seq<seq<Entry>>) returns (updated: bool)
      requires |results| == |Head()|
      modifies this
      ensures var found := Flatten(results);
        var tail := old(scan)[|old(Head())|..];
        (updated <==> tail != [] || found != [])
        && (updated ==> scan == tail + FileIds(Filter(found, Enterable)) && files == old(files) + found)
        && (!updated ==> scan == old(scan) && files == old(files))
      ensures updated ==> |scan| + |old(Head())| == |old(scan)| + |Filter(Flatten(results), Enterable)|
      ensures updated && Filter(Flatten(results), Enterable) == [] ==> |scan| == |old(scan)| - |old(Head())|
    {
      var head := Head();
      var tail := scan[|head|..];
      var found := Flatten(results);
      updated := |tail| > 0 || |found| > 0;
      if updated {
        var folders := FileIds(Filter(found, Enterable));
        scan := tail + folders;
        files := files + found;
      }
    }
  }
}
