/** The editor's file tree: `buildTree` grows a trie of nodes along each file's path and then sorts every directory.
    A node's `children` are undefined in the source exactly when it is not a directory; here they are empty. */
module FileTree {
  import opened Sequences
  import opened Sorting
  import RelativePath
  import Text

  datatype File = File(path: string, mimeType: string)

  type Parts = seq<string>

  /** The non-empty components of a path. */
  function PartsOf(path: string): Parts {
    Filter(RelativePath.Split(Text.TrimEnd(path, (c: char) => c == '/')), (c: string) => c != "")
  }

  /** `toLowerCase` and case folding agree on the letters of this word. */
  predicate IsDirEntry(file: File) {
    Text.EqualFold(file.mimeType, "inode/directory")
  }

  /** Three-way comparison of names, `localeCompare(_, "ru")` in the source. */
  type Compare = (string, string) -> int

  // ---------------------------------------------------------------- the trie as a map

  /** What a node at some path holds, with its children's names in order. */
  datatype Info = Info(isDir: bool, file: Option<File>, names: seq<string>)

  type View = map<Parts, Info>

  const Root: View := map[[] := Info(true, None, [])]

  /** A new child at the end of the node at `at`. */
  function Grown(view: View, at: Parts, part: string, below: Parts, info: Info): View
    requires at in view
  {
    view[at := view[at].(names := view[at].names + [part])][below := info]
  }

  /** One turn of the loop over the parts: the cursor is at `parts[..i]`. */
  function AfterPart(view: View, parts: Parts, i: nat, file: File): View
    requires i < |parts| && parts[..i] in view
  {
    var at, part, below := parts[..i], parts[i], parts[..i + 1];
    var grown := if below in view then view else Grown(view, at, part, below, Info(false, None, []));
    var nodeIsDir := i < |parts| - 1 || IsDirEntry(file);
    grown[below := Info(grown[below].isDir || nodeIsDir, if nodeIsDir then grown[below].file else Some(file), grown[below].names)]
  }

  ghost predicate Rooted(view: View) {
    [] in view
  }

  function AfterParts(view: View, parts: Parts, n: nat, file: File): (r: View)
    requires Rooted(view) && n <= |parts|
    ensures Rooted(r) && parts[..n] in r && view.Keys <= r.Keys
  {
    if n == 0 then view else AfterPart(AfterParts(view, parts, n - 1, file), parts, n - 1, file)
  }

  function ViewOf(files: seq<File>): (r: View)
    ensures Rooted(r)
    decreases |files|
  {
    if files == [] then Root
    else
      var file := files[|files| - 1];
      AfterParts(ViewOf(files[..|files| - 1]), PartsOf(file.path), |PartsOf(file.path)|, file)
  }

  /** Every node but the root hangs below its parent, under one name each. */
  ghost predicate Linked(view: View) {
    forall p <- view {:trigger Hangs(view, p)} :: Hangs(view, p)
  }

  ghost predicate Hangs(view: View, p: Parts) {
    && p in view
    && Distinct(view[p].names)
    && (forall x :: x in view[p].names <==> p + [x] in view)
    && (forall i | 0 <= i <= |p| :: p[..i] in view)
  }

  lemma PartKeepsLinked(view: View, parts: Parts, i: nat, file: File)
    requires Linked(view) && i < |parts| && parts[..i] in view
    ensures Linked(AfterPart(view, parts, i, file))
  {
    var at, part, below := parts[..i], parts[i], parts[..i + 1];
    assert below == at + [part] && Hangs(view, at);
    var next := AfterPart(view, parts, i, file);
    forall p <- next
      ensures Hangs(next, p)
    {
      assert p in view ==> Hangs(view, p);
      forall x
        ensures x in next[p].names <==> p + [x] in next
      {
        assert (p + [x])[..|p|] == p && (p + [x])[|p|] == x && below[..|at|] == at && below[|at|] == part;
        assert p + [x] == below ==> |p| == |at|;
        assert p + [x] in view ==> Hangs(view, p + [x]);
      }
      forall j | 0 <= j <= |p|
        ensures p[..j] in next
      {
        assert p == below && j <= |at| ==> p[..j] == at[..j];
        assert j == |p| ==> p[..j] == p;
      }
    }
  }

  lemma {:induction false} PartsKeepLinked(view: View, parts: Parts, n: nat, file: File)
    requires Rooted(view) && Linked(view) && n <= |parts|
    ensures Linked(AfterParts(view, parts, n, file))
  {
    if n > 0 {
      PartsKeepLinked(view, parts, n - 1, file);
      PartKeepsLinked(AfterParts(view, parts, n - 1, file), parts, n - 1, file);
    }
  }

  lemma {:induction false} ViewIsLinked(files: seq<File>)
    ensures Linked(ViewOf(files))
    decreases |files|
  {
    if files != [] {
      var file := files[|files| - 1];
      ViewIsLinked(files[..|files| - 1]);
      PartsKeepLinked(ViewOf(files[..|files| - 1]), PartsOf(file.path), |PartsOf(file.path)|, file);
    }
  }

  // ---------------------------------------------------------------- what the trie means

  predicate Extends(p: Parts, prefix: Parts) {
    prefix <= p
  }

  /** The file makes the node at `p` a directory. */
  predicate MakesDir(file: File, p: Parts) {
    Extends(PartsOf(file.path), p) && (PartsOf(file.path) != p || IsDirEntry(file))
  }

  predicate IsFileAt(file: File, p: Parts) {
    PartsOf(file.path) == p && !IsDirEntry(file)
  }

  /** The last file entry at `p`. */
  function FileAt(files: seq<File>, p: Parts): Option<File>
    decreases |files|
  {
    if files == [] then None
    else if IsFileAt(files[|files| - 1], p) then Some(files[|files| - 1])
    else FileAt(files[..|files| - 1], p)
  }

  /** A view's isDir and file at `p` before and after one more file. */
  ghost predicate MeansMore(view: View, next: View, file: File, n: nat, p: Parts) {
    var parts := PartsOf(file.path);
    var reached := |p| <= n && Extends(parts, p);
    && (p in next <==> p in view || reached)
    && (p in next ==> next[p].isDir == ((p in view && view[p].isDir) || (p != [] && reached && MakesDir(file, p))))
    && (p in next ==> next[p].file == (if p != [] && reached && IsFileAt(file, p) then Some(file) else if p in view then view[p].file else None))
  }

  lemma {:induction false} PartsMean(view: View, file: File, n: nat, p: Parts)
    requires Rooted(view) && n <= |PartsOf(file.path)|
    ensures MeansMore(view, AfterParts(view, PartsOf(file.path), n, file), file, n, p)
  {
    var parts := PartsOf(file.path);
    if n > 0 {
      PartsMean(view, file, n - 1, p);
      assert parts[..n] == p <==> |p| == n && Extends(parts, p);
    }
  }

  /** The tree is the prefix closure of the entries: a node for every prefix of an entry's parts, a directory exactly
      where an entry goes on or says so, and at each node the last file entry with that path. */
  lemma {:induction false} ViewMeaning(files: seq<File>, p: Parts)
    requires p != []
    ensures p in ViewOf(files) <==> exists f <- files :: Extends(PartsOf(f.path), p)
    ensures p in ViewOf(files) ==> (ViewOf(files)[p].isDir <==> exists f <- files :: MakesDir(f, p))
    ensures p in ViewOf(files) ==> ViewOf(files)[p].file == FileAt(files, p)
    decreases |files|
  {
    if files != [] {
      var before, file := files[..|files| - 1], files[|files| - 1];
      assert files == before + [file];
      ViewMeaning(before, p);
      PartsMean(ViewOf(before), file, |PartsOf(file.path)|, p);
      if p !in ViewOf(before) {
        NoFileYet(before, p);
      }
    }
  }

  lemma {:induction false} NoFileYet(files: seq<File>, p: Parts)
    requires forall f <- files :: !Extends(PartsOf(f.path), p)
    ensures FileAt(files, p) == None && forall f <- files :: !MakesDir(f, p)
    decreases |files|
  {
    if files != [] {
      assert files[|files| - 1] in files;
      NoFileYet(files[..|files| - 1], p);
    }
  }

  lemma {:induction false} RootMeaning(files: seq<File>)
    ensures ViewOf(files)[[]].isDir && ViewOf(files)[[]].file == None
    decreases |files|
  {
    if files != [] {
      var file := files[|files| - 1];
      RootMeaning(files[..|files| - 1]);
      PartsMean(ViewOf(files[..|files| - 1]), file, |PartsOf(file.path)|, []);
    }
  }

  // ---------------------------------------------------------------- sorting

  type Order = (string, string) -> bool

  predicate DirAt(view: View, p: Parts) {
    p in view && view[p].isDir
  }

  /** Directories first, then by name. */
  function SiblingOrder(view: View, p: Parts, compare: Compare): Order {
    (x: string, y: string) => if DirAt(view, p + [x]) != DirAt(view, p + [y]) then DirAt(view, p + [x]) else compare(x, y) <= 0
  }

  function SortedNames(view: View, p: Parts, compare: Compare): seq<string>
    requires p in view
  {
    StableSort(view[p].names, SiblingOrder(view, p, compare))
  }

  function SortView(view: View, compare: Compare): View {
    map p <- view :: view[p].(names := SortedNames(view, p, compare))
  }

  /** Different names are not ordered both ways. */
  ghost predicate Untied(s: seq<string>, le: Order) {
    forall i, j :: 0 <= i < |s| && 0 <= j < |s| && s[i] != s[j] ==> !(le(s[i], s[j]) && le(s[j], s[i]))
  }

  lemma {:induction false} OneOrdering(s: seq<string>, t: seq<string>, le: Order)
    requires Distinct(s) && Distinct(t) && Ordered(s, le) && Ordered(t, le) && Untied(s, le)
    requires forall x :: x in s <==> x in t
    ensures s == t
    decreases |s|
  {
    HasMember(s);
    HasMember(t);
    if s != [] {
      SameLast(s, t, le);
      InFront(s, le);
      InFront(t, le);
      OneOrdering(s[..|s| - 1], t[..|t| - 1], le);
    }
  }

  lemma HasMember(s: seq<string>)
    ensures s == [] || s[0] in s
  {
  }

  /** All but the last name. */
  lemma InFront(s: seq<string>, le: Order)
    requires s != [] && Distinct(s) && Ordered(s, le)
    ensures var front, x := s[..|s| - 1], s[|s| - 1];
      && s == front + [x] && Distinct(front) && Ordered(front, le) && (Untied(s, le) ==> Untied(front, le))
      && forall y :: y in front <==> y in s && y != x
  {
  }

  lemma SameLast(s: seq<string>, t: seq<string>, le: Order)
    requires s != [] && t != [] && Ordered(s, le) && Ordered(t, le) && Untied(s, le)
    requires forall x :: x in s <==> x in t
    ensures s[|s| - 1] == t[|t| - 1]
  {
    var x, y := s[|s| - 1], t[|t| - 1];
    assert x in t && y in s;
    var i :| 0 <= i < |t| && t[i] == x;
    var j :| 0 <= j < |s| && s[j] == y;
    assert i < |t| - 1 ==> le(x, y);
    assert j < |s| - 1 ==> le(y, x);
  }

  // ---------------------------------------------------------------- the order of the entries

  ghost predicate Consistent(compare: Compare) {
    && (forall x, y :: compare(x, y) <= 0 <==> compare(y, x) >= 0)
    && (forall x, y, z :: compare(x, y) <= 0 && compare(y, z) <= 0 ==> compare(x, z) <= 0)
  }

  /** A string that can be one part of a path. */
  predicate IsPart(x: string) {
    x != "" && '/' !in x
  }

  ghost predicate NoTies(compare: Compare) {
    forall x, y :: IsPart(x) && IsPart(y) && x != y ==> compare(x, y) != 0
  }

  /** The entries have pairwise different normalised paths. */
  ghost predicate DistinctPaths(files: seq<File>) {
    DistinctBy(files, (f: File) => PartsOf(f.path))
  }

  ghost predicate OrderIndependent(compare: Compare) {
    forall a: seq<File>, b: seq<File> :: multiset(a) == multiset(b) && DistinctPaths(a) && DistinctPaths(b) ==>
      SortView(ViewOf(a), compare) == SortView(ViewOf(b), compare)
  }

  lemma {:induction false} FileAtMeans(files: seq<File>, p: Parts)
    ensures FileAt(files, p).Some? ==> FileAt(files, p).value in files && IsFileAt(FileAt(files, p).value, p)
    ensures FileAt(files, p).None? ==> forall f <- files :: !IsFileAt(f, p)
    decreases |files|
  {
    if files != [] {
      FileAtMeans(files[..|files| - 1], p);
      assert files == files[..|files| - 1] + [files[|files| - 1]];
    }
  }

  /** With distinct paths every file entry is at its own node. */
  lemma OwnNode(files: seq<File>, f: File)
    requires DistinctPaths(files) && f in files && PartsOf(f.path) != [] && !IsDirEntry(f)
    ensures PartsOf(f.path) in ViewOf(files) && ViewOf(files)[PartsOf(f.path)].file == Some(f)
  {
    var p := PartsOf(f.path);
    ViewMeaning(files, p);
    FileAtMeans(files, p);
    assert IsFileAt(f, p);
    SamePathSameFile(files, f, FileAt(files, p).value);
  }

  lemma SamePathSameFile(files: seq<File>, f: File, g: File)
    requires DistinctPaths(files) && f in files && g in files && PartsOf(f.path) == PartsOf(g.path)
    ensures f == g
  {
    var i :| 0 <= i < |files| && files[i] == f;
    var j :| 0 <= j < |files| && files[j] == g;
    var key := (f: File) => PartsOf(f.path);
    assert key(files[i]) == key(files[j]);
  }

  lemma SameNode(a: seq<File>, b: seq<File>, p: Parts)
    requires (forall f :: f in a <==> f in b) && DistinctPaths(a)
    ensures p in ViewOf(a) <==> p in ViewOf(b)
    ensures p in ViewOf(a) ==> ViewOf(a)[p].isDir == ViewOf(b)[p].isDir && ViewOf(a)[p].file == ViewOf(b)[p].file
  {
    if p == [] {
      RootMeaning(a);
      RootMeaning(b);
    } else {
      ViewMeaning(a, p);
      ViewMeaning(b, p);
      FileAtMeans(a, p);
      FileAtMeans(b, p);
      if FileAt(a, p).Some? && FileAt(b, p).Some? {
        SamePathSameFile(a, FileAt(a, p).value, FileAt(b, p).value);
      }
    }
  }

  lemma PartsAreParts(path: string)
    ensures forall x <- PartsOf(path) :: IsPart(x)
  {
    var s := Text.TrimEnd(path, (c: char) => c == '/');
    forall x <- PartsOf(path)
      ensures IsPart(x)
    {
      InFilter(RelativePath.Split(s), (c: string) => c != "", x);
      RelativePath.SplitHasNoSlash(s);
    }
  }

  lemma NamesAreParts(files: seq<File>, p: Parts, x: string)
    requires p in ViewOf(files) && x in ViewOf(files)[p].names
    ensures IsPart(x)
  {
    ViewIsLinked(files);
    assert Hangs(ViewOf(files), p);
    ViewMeaning(files, p + [x]);
    var f :| f in files && Extends(PartsOf(f.path), p + [x]);
    PartsAreParts(f.path);
    assert PartsOf(f.path)[|p|] == (p + [x])[|p|] == x;
  }

  lemma SiblingOrderTotal(view: View, p: Parts, compare: Compare)
    requires Consistent(compare)
    ensures TotalOrder(SiblingOrder(view, p, compare))
  {
  }

  lemma NamesAgree(a: seq<File>, b: seq<File>, p: Parts, x: string)
    requires (forall f :: f in a <==> f in b) && DistinctPaths(a) && p in ViewOf(a) && p in ViewOf(b)
    ensures x in ViewOf(a)[p].names <==> x in ViewOf(b)[p].names
    ensures DirAt(ViewOf(a), p + [x]) == DirAt(ViewOf(b), p + [x])
  {
    ViewIsLinked(a);
    ViewIsLinked(b);
    assert Hangs(ViewOf(a), p) && Hangs(ViewOf(b), p);
    SameNode(a, b, p + [x]);
  }

  lemma NotTied(view: View, p: Parts, compare: Compare, x: string, y: string)
    requires Consistent(compare) && compare(x, y) != 0
    ensures !(SiblingOrder(view, p, compare)(x, y) && SiblingOrder(view, p, compare)(y, x))
  {
  }

  lemma SameOrder(a: View, b: View, p: Parts, compare: Compare)
    requires forall x :: DirAt(a, p + [x]) == DirAt(b, p + [x])
    ensures forall x, y :: SiblingOrder(a, p, compare)(x, y) == SiblingOrder(b, p, compare)(x, y)
  {
  }

  lemma SameNames(a: seq<File>, b: seq<File>, p: Parts, compare: Compare)
    requires (forall f :: f in a <==> f in b) && DistinctPaths(a)
    requires Consistent(compare) && NoTies(compare) && p in ViewOf(a) && p in ViewOf(b)
    ensures SortedNames(ViewOf(a), p, compare) == SortedNames(ViewOf(b), p, compare)
  {
    var na, nb := ViewOf(a)[p].names, ViewOf(b)[p].names;
    var la, lb := SiblingOrder(ViewOf(a), p, compare), SiblingOrder(ViewOf(b), p, compare);
    DistinctNames(a, p);
    DistinctNames(b, p);
    SiblingOrderTotal(ViewOf(a), p, compare);
    SiblingOrderTotal(ViewOf(b), p, compare);
    forall x
      ensures x in na <==> x in nb
      ensures DirAt(ViewOf(a), p + [x]) == DirAt(ViewOf(b), p + [x])
    {
      NamesAgree(a, b, p, x);
    }
    SameOrder(ViewOf(a), ViewOf(b), p, compare);
    forall x <- na, y <- na | x != y
      ensures !(la(x, y) && la(y, x))
    {
      NamesAreParts(a, p, x);
      NamesAreParts(a, p, y);
      NotTied(ViewOf(a), p, compare, x, y);
    }
    SameSort(na, nb, la, lb);
  }

  lemma DistinctNames(files: seq<File>, p: Parts)
    requires p in ViewOf(files)
    ensures Distinct(ViewOf(files)[p].names)
  {
    ViewIsLinked(files);
    assert Hangs(ViewOf(files), p);
  }

  lemma SameSort(a: seq<string>, b: seq<string>, la: Order, lb: Order)
    requires Distinct(a) && Distinct(b) && TotalOrder(la) && TotalOrder(lb)
    requires forall x :: x in a <==> x in b
    requires forall x, y :: la(x, y) == lb(x, y)
    requires forall x <- a, y <- a :: x != y ==> !(la(x, y) && la(y, x))
    ensures StableSort(a, la) == StableSort(b, lb)
  {
    var s, t := StableSort(a, la), StableSort(b, lb);
    InSort(a, la);
    InSort(b, lb);
    SortOrdered(a, la);
    SortOrdered(b, lb);
    assert Ordered(t, la) by {
      forall i, j | 0 <= i < j < |t|
        ensures la(t[i], t[j])
      {
        assert lb(t[i], t[j]);
      }
    }
    OneOrdering(s, t, la);
  }

  lemma SameTree(a: seq<File>, b: seq<File>, compare: Compare)
    requires multiset(a) == multiset(b) && DistinctPaths(a) && Consistent(compare) && NoTies(compare)
    ensures SortView(ViewOf(a), compare) == SortView(ViewOf(b), compare)
  {
    forall f
      ensures f in a <==> f in b
    {
      assert (f in a <==> f in multiset(a)) && (f in b <==> f in multiset(b));
    }
    var ta, tb := SortView(ViewOf(a), compare), SortView(ViewOf(b), compare);
    forall p
      ensures p in ta <==> p in tb
      ensures p in ta ==> ta[p] == tb[p]
    {
      SameNode(a, b, p);
      if p in ViewOf(a) {
        SameNames(a, b, p, compare);
      }
    }
  }

  lemma PartOfItself(x: string)
    requires IsPart(x)
    ensures PartsOf(x) == [x]
  {
    var slash := (c: char) => c == '/';
    assert Text.TrimEnd(x, slash) == x by {
      assert x[|x| - 1] in x;
    }
    RelativePath.SplitName(x);
    assert RelativePath.Split(x)[..0] == [];
  }

  lemma OneMore(files: seq<File>, f: File, x: string)
    requires PartsOf(f.path) == [x]
    ensures ViewOf(files + [f]) == AfterPart(ViewOf(files), [x], 0, f)
  {
    assert (files + [f])[..|files|] == files;
    var view := ViewOf(files);
    assert AfterParts(view, [x], 0, f) == view;
    assert AfterParts(view, [x], 1, f) == AfterPart(view, [x], 0, f);
  }

  lemma SortOfTwo(x: string, y: string, le: Order)
    requires le(x, y)
    ensures StableSort([x, y], le) == [x, y]
  {
    assert [x, y][..1] == [x] && [x][..0] == [];
    assert StableSort([x], le) == [x];
    assert Insert([x], y, le) == [x, y];
  }

  /** An entry for a new name at the top. */
  lemma TopNode(view: View, x: string, f: File)
    requires Rooted(view) && [x] !in view && !IsDirEntry(f)
    ensures var next := AfterPart(view, [x], 0, f);
      && next.Keys == view.Keys + {[x]}
      && next[[]].names == view[[]].names + [x]
      && !next[[x]].isDir
      && forall p <- view :: next[p].isDir == view[p].isDir
  {
    assert [x][..0] == [] && [x][..1] == [x];
  }

  lemma TwoTopNodes(x: string, y: string, f: File, g: File)
    requires x != y && !IsDirEntry(f) && !IsDirEntry(g)
    ensures var view := AfterPart(AfterPart(Root, [x], 0, f), [y], 0, g);
      view[[]].names == [x, y] && !DirAt(view, [] + [x]) && !DirAt(view, [] + [y])
  {
    assert [x][0] != [y][0] && [] + [x] == [x] && [] + [y] == [y];
    TopNode(Root, x, f);
    TopNode(AfterPart(Root, [x], 0, f), y, g);
  }

  lemma TwoTopEntries(f: File, g: File, x: string, y: string)
    requires PartsOf(f.path) == [x] && PartsOf(g.path) == [y]
    ensures ViewOf([f, g]) == AfterPart(AfterPart(Root, [x], 0, f), [y], 0, g)
  {
    FirstEntry(f, x);
    OneMore([f], g, y);
    assert [f] + [g] == [f, g];
  }

  lemma FirstEntry(f: File, x: string)
    requires PartsOf(f.path) == [x]
    ensures ViewOf([f]) == AfterPart(Root, [x], 0, f)
  {
    OneMore([], f, x);
    assert [] + [f] == [f];
  }

  lemma ViewOfTwo(x: string, y: string)
    requires IsPart(x) && IsPart(y) && x != y
    ensures var view := ViewOf([File(x, ""), File(y, "")]);
      view[[]].names == [x, y] && !DirAt(view, [] + [x]) && !DirAt(view, [] + [y])
  {
    PartOfItself(x);
    PartOfItself(y);
    TwoTopEntries(File(x, ""), File(y, ""), x, y);
    TwoTopNodes(x, y, File(x, ""), File(y, ""));
  }

  lemma TwoFiles(x: string, y: string, compare: Compare)
    requires IsPart(x) && IsPart(y) && x != y && compare(x, y) == 0
    ensures SortView(ViewOf([File(x, ""), File(y, "")]), compare)[[]].names == [x, y]
    ensures DistinctPaths([File(x, ""), File(y, "")])
  {
    PartOfItself(x);
    PartOfItself(y);
    ViewOfTwo(x, y);
    SortOfTwo(x, y, SiblingOrder(ViewOf([File(x, ""), File(y, "")]), [], compare));
  }

  /** The sorted tree does not depend on the order of entries with distinct paths exactly when the comparison never
      ties two different names. */
  lemma OrderIndependentExactly(compare: Compare)
    requires Consistent(compare)
    ensures OrderIndependent(compare) <==> NoTies(compare)
  {
    if NoTies(compare) {
      forall a: seq<File>, b: seq<File> | multiset(a) == multiset(b) && DistinctPaths(a) && DistinctPaths(b)
        ensures SortView(ViewOf(a), compare) == SortView(ViewOf(b), compare)
      {
        SameTree(a, b, compare);
      }
    } else {
      var x, y :| IsPart(x) && IsPart(y) && x != y && compare(x, y) == 0;
      var a, b := TiedFiles(x, y, compare);
      Distinguishes(a, b, compare);
    }
  }

  /** Two entries whose names tie, in either order. */
  lemma TiedFiles(x: string, y: string, compare: Compare) returns (a: seq<File>, b: seq<File>)
    requires Consistent(compare) && IsPart(x) && IsPart(y) && x != y && compare(x, y) == 0
    ensures multiset(a) == multiset(b) && DistinctPaths(a) && DistinctPaths(b)
    ensures SortView(ViewOf(a), compare)[[]].names != SortView(ViewOf(b), compare)[[]].names
  {
    a, b := [File(x, ""), File(y, "")], [File(y, ""), File(x, "")];
    TwoFiles(x, y, compare);
    TwoFiles(y, x, compare);
    Swapped(File(x, ""), File(y, ""));
    assert [x, y][0] != [y, x][0];
  }

  lemma Swapped<T>(x: T, y: T)
    ensures multiset([x, y]) == multiset([y, x])
  {
  }

  lemma Distinguishes(a: seq<File>, b: seq<File>, compare: Compare)
    requires multiset(a) == multiset(b) && DistinctPaths(a) && DistinctPaths(b)
    ensures OrderIndependent(compare) ==> SortView(ViewOf(a), compare)[[]].names == SortView(ViewOf(b), compare)[[]].names
  {
  }

  // ---------------------------------------------------------------- the nodes

  class EditorFileNode {
    var name: string
    var path: string
    var isDir: bool
    var children: seq<EditorFileNode>
    var file: Option<File>

    constructor (name: string, path: string, isDir: bool, file: Option<File>)
      ensures this.name == name && this.path == path && this.isDir == isDir && this.file == file && children == []
    {
      this.name, this.path, this.isDir, this.file, children := name, path, isDir, file, [];
    }
  }

  type Nodes = map<Parts, EditorFileNode>

  /** The children of the node at `p` are the nodes with these names below it, in this order. */
  ghost predicate ChildrenAre(nodes: Nodes, p: Parts, names: seq<string>)
    requires p in nodes
    reads nodes.Values
  {
    && |nodes[p].children| == |names|
    && forall k :: 0 <= k < |names| ==> p + [names[k]] in nodes && nodes[p].children[k] == nodes[p + [names[k]]]
  }

  ghost predicate NodeIs(nodes: Nodes, p: Parts, info: Info)
    requires p in nodes
    reads nodes.Values
  {
    && nodes[p].name == (if p == [] then "" else p[|p| - 1])
    && nodes[p].path == RelativePath.Join(p)
    && nodes[p].isDir == info.isDir && nodes[p].file == info.file
  }

  ghost predicate Separate(nodes: Nodes) {
    forall p <- nodes, q <- nodes :: p != q ==> nodes[p] != nodes[q]
  }

  /** The objects `nodes`, one per path, are the tree that `view` describes. */
  ghost predicate Shows(nodes: Nodes, view: View)
    reads nodes.Values
  {
    && nodes.Keys == view.Keys && Separate(nodes)
    && (forall p <- view {:trigger NodeIs(nodes, p, view[p])} :: NodeIs(nodes, p, view[p]))
    && (forall p <- view {:trigger ChildrenAre(nodes, p, view[p].names)} :: ChildrenAre(nodes, p, view[p].names))
  }

  method FindChild(node: EditorFileNode, part: string) returns (child: EditorFileNode?)
    ensures child != null ==> child in node.children && child.name == part
    ensures child == null ==> forall c <- node.children :: c.name != part
  {
    for k := 0 to |node.children|
      invariant forall j :: 0 <= j < k ==> node.children[j].name != part
    {
      if node.children[k].name == part {
        return node.children[k];
      }
    }
    return null;
  }

  /** Hangs a new node below `cursor`, the node at `at`. */
  method AddChild(cursor: EditorFileNode, child: EditorFileNode, ghost at: Parts, ghost below: Parts, ghost nodes: Nodes, ghost view: View)
    requires at in nodes && nodes[at] == cursor && below == at + [child.name] && below !in view
    requires Shows(nodes, view) && child !in nodes.Values
    modifies cursor`children
    ensures forall p <- view :: p != at ==> ChildrenAre(nodes[below := child], p, view[p].names)
    ensures ChildrenAre(nodes[below := child], at, view[at].names + [child.name])
    ensures forall p <- view :: NodeIs(nodes, p, view[p])
  {
    assert ChildrenAre(nodes, at, view[at].names);
    assert Separate(nodes);
    cursor.children := cursor.children + [child];
    forall p <- view
      ensures NodeIs(nodes, p, view[p])
    {
      assert old(NodeIs(nodes, p, view[p]));
    }
    forall p <- view | p != at
      ensures ChildrenAre(nodes[below := child], p, view[p].names)
    {
      assert nodes[p] != cursor;
      assert old(ChildrenAre(nodes, p, view[p].names));
    }
  }

  lemma GrownShows(nodes: Nodes, child: EditorFileNode, at: Parts, below: Parts, view: View, info: Info)
    requires at in view && below == at + [child.name] && below !in view && child !in nodes.Values
    requires nodes.Keys == view.Keys && Separate(nodes)
    requires forall p <- view :: NodeIs(nodes, p, view[p])
    requires forall p <- view :: p != at ==> ChildrenAre(nodes[below := child], p, view[p].names)
    requires ChildrenAre(nodes[below := child], at, view[at].names + [child.name])
    requires child.path == RelativePath.Join(below) && child.isDir == info.isDir && child.file == info.file
    requires child.children == [] && info.names == []
    ensures Shows(nodes[below := child], Grown(view, at, child.name, below, info))
  {
    var grown, next := nodes[below := child], Grown(view, at, child.name, below, info);
    forall p <- next
      ensures NodeIs(grown, p, next[p])
    {
      if p != below {
        assert NodeIs(nodes, p, view[p]);
      }
    }
    forall p <- next
      ensures ChildrenAre(grown, p, next[p].names)
    {
      assert p != below && p != at ==> ChildrenAre(grown, p, view[p].names);
    }
    SeparateGrown(nodes, child, below);
  }

  lemma SeparateGrown(nodes: Nodes, child: EditorFileNode, below: Parts)
    requires Separate(nodes) && below !in nodes && child !in nodes.Values
    ensures Separate(nodes[below := child])
  {
    assert forall p <- nodes :: nodes[p] in nodes.Values;
  }

  lemma ChildFound(nodes: Nodes, view: View, at: Parts, part: string)
    requires Shows(nodes, view) && at in view
    ensures forall c <- nodes[at].children :: c.name in view[at].names && at + [c.name] in nodes && c == nodes[at + [c.name]]
    ensures part in view[at].names ==> exists c <- nodes[at].children :: c.name == part
  {
    var names := view[at].names;
    assert ChildrenAre(nodes, at, names);
    forall k | 0 <= k < |names|
      ensures nodes[at].children[k].name == names[k]
    {
      assert NodeIs(nodes, at + [names[k]], view[at + [names[k]]]);
    }
    if part in names {
      var k :| 0 <= k < |names| && names[k] == part;
      assert nodes[at].children[k] in nodes[at].children;
    }
  }

  /** No node is replaced. */
  ghost predicate Keeps(nodes: Nodes, grown: Nodes) {
    forall p <- nodes :: p in grown && grown[p] == nodes[p]
  }

  method FindOrCreate(cursor: EditorFileNode, part: string, path: string, isDir: bool, file: Option<File>, ghost at: Parts, ghost below: Parts, ghost nodes: Nodes, ghost view: View)
    returns (child: EditorFileNode, ghost grown: Nodes)
    requires at in nodes && nodes[at] == cursor && below == at + [part] && path == RelativePath.Join(below)
    requires Shows(nodes, view) && (part in view[at].names <==> below in view)
    modifies cursor`children
    ensures below in grown && grown[below] == child && fresh(grown.Values - nodes.Values) && Keeps(nodes, grown)
    ensures Shows(grown, if below in view then view else Grown(view, at, part, below, Info(isDir, file, [])))
  {
    ChildFound(nodes, view, at, part);
    var found := FindChild(cursor, part);
    if found != null {
      return found, nodes;
    }
    child := new EditorFileNode(part, path, isDir, file);
    AddChild(cursor, child, at, below, nodes, view);
    GrownShows(nodes, child, at, below, view, Info(isDir, file, []));
    grown := nodes[below := child];
  }

  method Mark(child: EditorFileNode, isLast: bool, nodeIsDir: bool, file: File, ghost below: Parts, ghost nodes: Nodes, ghost view: View)
    requires below in nodes && nodes[below] == child && Shows(nodes, view)
    modifies child`isDir, child`file
    ensures Shows(nodes, Marked(view, below, isLast, nodeIsDir, file))
  {
    if nodeIsDir {
      child.isDir := true;
    }
    if isLast && !nodeIsDir {
      child.file := Some(file);
    }
    forall p <- view
      ensures ChildrenAre(nodes, p, view[p].names)
      ensures p != below ==> NodeIs(nodes, p, view[p])
    {
      assert old(ChildrenAre(nodes, p, view[p].names)) && old(NodeIs(nodes, p, view[p]));
      assert p != below ==> nodes[p] != child;
    }
    assert old(NodeIs(nodes, below, view[below]));
    MarkedShows(nodes, view, below, isLast, nodeIsDir, file);
  }

  lemma MarkedShows(nodes: Nodes, view: View, below: Parts, isLast: bool, nodeIsDir: bool, file: File)
    requires nodes.Keys == view.Keys && Separate(nodes) && below in view
    requires forall p <- view :: ChildrenAre(nodes, p, view[p].names)
    requires forall p <- view :: p != below ==> NodeIs(nodes, p, view[p])
    requires NodeIs(nodes, below, Marked(view, below, isLast, nodeIsDir, file)[below])
    ensures Shows(nodes, Marked(view, below, isLast, nodeIsDir, file))
  {
  }

  function Marked(view: View, below: Parts, isLast: bool, nodeIsDir: bool, file: File): View
    requires below in view
  {
    view[below := Info(view[below].isDir || nodeIsDir, if isLast && !nodeIsDir then Some(file) else view[below].file, view[below].names)]
  }

  /** Creating the child with its final values first makes no difference. */
  lemma PartInSteps(view: View, parts: Parts, i: nat, file: File, own: Option<File>, nodeIsDir: bool)
    requires i < |parts| && parts[..i] in view
    requires nodeIsDir == (i < |parts| - 1 || IsDirEntry(file))
    requires own == if i == |parts| - 1 && !nodeIsDir then Some(file) else None
    ensures var below := parts[..i + 1];
      AfterPart(view, parts, i, file) ==
        Marked(if below in view then view else Grown(view, parts[..i], parts[i], below, Info(nodeIsDir, own, [])), below, i == |parts| - 1, nodeIsDir, file)
  {
  }

  /** One turn of the loop over the parts of a file. */
  method Descend(cursor: EditorFileNode, parts: Parts, i: nat, file: File, ghost nodes: Nodes, ghost view: View)
    returns (child: EditorFileNode, ghost grown: Nodes)
    requires i < |parts| && parts[..i] in nodes && nodes[parts[..i]] == cursor
    requires Shows(nodes, view) && (parts[i] in view[parts[..i]].names <==> parts[..i + 1] in view)
    modifies nodes.Values
    ensures parts[..i + 1] in grown && grown[parts[..i + 1]] == child
    ensures Shows(grown, AfterPart(view, parts, i, file))
    ensures fresh(grown.Values - nodes.Values) && Keeps(nodes, grown)
  {
    ghost var at, below := parts[..i], parts[..i + 1];
    var part := parts[i];
    assert below == at + [part];
    var isLast := i == |parts| - 1;
    var fullPath := RelativePath.Join(parts[..i + 1]);
    var nodeIsDir := !isLast || IsDirEntry(file);
    var own := if isLast && !nodeIsDir then Some(file) else None;
    child, grown := FindOrCreate(cursor, part, fullPath, nodeIsDir, own, at, below, nodes, view);
    PartInSteps(view, parts, i, file, own, nodeIsDir);
    ghost var next := if below in view then view else Grown(view, at, part, below, Info(nodeIsDir, own, []));
    Mark(child, isLast, nodeIsDir, file, below, grown, next);
  }

  /** The view after `i` parts of one more file. */
  function Partway(files: seq<File>, file: File, i: nat): View
    requires i <= |PartsOf(file.path)|
  {
    AfterParts(ViewOf(files), PartsOf(file.path), i, file)
  }

  /** `next` is `view` after one turn of the loop. */
  ghost predicate Turn(view: View, next: View, parts: Parts, i: nat, file: File) {
    && i < |parts| && parts[..i] in view && (parts[i] in view[parts[..i]].names <==> parts[..i + 1] in view)
    && next == AfterPart(view, parts, i, file)
  }

  ghost predicate TurnAt(views: seq<View>, parts: Parts, i: nat, file: File) {
    i + 1 < |views| && Turn(views[i], views[i + 1], parts, i, file)
  }

  lemma TurnFrom(files: seq<File>, file: File, i: nat)
    requires i < |PartsOf(file.path)|
    ensures Turn(Partway(files, file, i), Partway(files, file, i + 1), PartsOf(file.path), i, file)
  {
    ViewIsLinked(files);
    PartsKeepLinked(ViewOf(files), PartsOf(file.path), i, file);
    LinkedAt(Partway(files, file, i), PartsOf(file.path), i);
  }

  lemma LinkedAt(view: View, parts: Parts, i: nat)
    requires Linked(view) && i < |parts| && parts[..i] in view
    ensures parts[i] in view[parts[..i]].names <==> parts[..i + 1] in view
  {
    assert Hangs(view, parts[..i]) && parts[..i + 1] == parts[..i] + [parts[i]];
  }

  lemma AllParts(files: seq<File>, file: File) returns (views: seq<View>)
    ensures |views| == |PartsOf(file.path)| + 1
    ensures forall i {:trigger TurnAt(views, PartsOf(file.path), i, file)} ::
              0 <= i < |PartsOf(file.path)| ==> TurnAt(views, PartsOf(file.path), i, file)
    ensures views[0] == ViewOf(files) && views[|views| - 1] == ViewOf(files + [file])
  {
    var n := |PartsOf(file.path)|;
    views := seq(n + 1, i requires 0 <= i <= n => Partway(files, file, i));
    forall i | 0 <= i < n
      ensures TurnAt(views, PartsOf(file.path), i, file)
    {
      TurnFrom(files, file, i);
    }
    assert (files + [file])[..|files|] == files;
  }

  /** The turn from one view to the next. */
  method TakeTurn(cursor: EditorFileNode, parts: Parts, i: nat, file: File, ghost views: seq<View>, ghost nodes: Nodes)
    returns (child: EditorFileNode, ghost grown: Nodes)
    requires TurnAt(views, parts, i, file) && i < |parts|
    requires Shows(nodes, views[i]) && parts[..i] in nodes && nodes[parts[..i]] == cursor
    modifies nodes.Values
    ensures parts[..i + 1] in grown && grown[parts[..i + 1]] == child
    ensures Shows(grown, views[i + 1])
    ensures fresh(grown.Values - nodes.Values) && Keeps(nodes, grown)
  {
    child, grown := Descend(cursor, parts, i, file, nodes, views[i]);
  }

  lemma KeepsOn(nodes: Nodes, grown: Nodes, next: Nodes)
    requires Keeps(nodes, grown) && Keeps(grown, next)
    ensures Keeps(nodes, next)
  {
  }

  /** All parts of one file, from the root down. */
  method AddParts(root: EditorFileNode, parts: Parts, file: File, ghost views: seq<View>, ghost nodes: Nodes) returns (ghost grown: Nodes)
    requires |views| == |parts| + 1 && forall i {:trigger TurnAt(views, parts, i, file)} :: 0 <= i < |parts| ==> TurnAt(views, parts, i, file)
    requires Shows(nodes, views[0]) && [] in nodes && nodes[[]] == root
    modifies nodes.Values
    ensures Shows(grown, views[|parts|])
    ensures fresh(grown.Values - nodes.Values) && Keeps(nodes, grown)
  {
    var cursor := root;
    grown := nodes;
    for i := 0 to |parts|
      invariant Shows(grown, views[i])
      invariant parts[..i] in grown && grown[parts[..i]] == cursor
      invariant fresh(grown.Values - nodes.Values) && Keeps(nodes, grown)
    {
      ghost var before := grown;
      cursor, grown := TakeTurn(cursor, parts, i, file, views, grown);
      KeepsOn(nodes, before, grown);
    }
  }

  // ---------------------------------------------------------------- sorting the nodes

  predicate Before(a: EditorFileNode, b: EditorFileNode, compare: Compare)
    reads a, b
  {
    if a.isDir != b.isDir then a.isDir else compare(a.name, b.name) <= 0
  }

  /** These nodes hang below `p` under these names. */
  ghost predicate Are(nodes: Nodes, p: Parts, children: seq<EditorFileNode>, names: seq<string>) {
    && |children| == |names|
    && forall k :: 0 <= k < |names| ==> p + [names[k]] in nodes && children[k] == nodes[p + [names[k]]]
  }

  /** The order on names is the order on the nodes. */
  ghost predicate Agrees(nodes: Nodes, p: Parts, compare: Compare, le: Order)
    reads nodes.Values
  {
    forall x, y :: p + [x] in nodes && p + [y] in nodes ==> le(x, y) == Before(nodes[p + [x]], nodes[p + [y]], compare)
  }

  method InsertNode(sorted: seq<EditorFileNode>, node: EditorFileNode, compare: Compare,
                    ghost nodes: Nodes, ghost p: Parts, ghost names: seq<string>, ghost x: string, ghost le: Order)
    returns (r: seq<EditorFileNode>)
    requires Are(nodes, p, sorted, names) && p + [x] in nodes && nodes[p + [x]] == node && Agrees(nodes, p, compare, le)
    ensures Are(nodes, p, r, Insert(names, x, le))
    decreases |sorted|
  {
    var n := |sorted| - 1;
    if sorted == [] || Before(sorted[n], node, compare) {
      r := sorted + [node];
    } else {
      r := InsertNode(sorted[..n], node, compare, nodes, p, names[..n], x, le);
      r := r + [sorted[n]];
    }
  }

  /** The library's stable sort of the children of one node. */
  method SortChildren(children: seq<EditorFileNode>, compare: Compare, ghost nodes: Nodes, ghost p: Parts, ghost names: seq<string>, ghost le: Order)
    returns (r: seq<EditorFileNode>)
    requires Are(nodes, p, children, names) && Agrees(nodes, p, compare, le)
    ensures Are(nodes, p, r, StableSort(names, le))
  {
    r := [];
    for k := 0 to |children|
      invariant Are(nodes, p, r, StableSort(names[..k], le))
    {
      r := InsertNode(r, children[k], compare, nodes, p, StableSort(names[..k], le), names[k], le);
      assert names[..k + 1][..k] == names[..k];
    }
    assert names[..|children|] == names;
  }

  /** `nodes` carries the names and kinds of `view`. */
  ghost predicate Named(nodes: Nodes, view: View)
    reads nodes.Values
  {
    nodes.Keys == view.Keys && Separate(nodes) && forall p <- view {:trigger NodeIs(nodes, p, view[p])} :: NodeIs(nodes, p, view[p])
  }

  lemma OrderAgrees(nodes: Nodes, view: View, p: Parts, compare: Compare)
    requires Named(nodes, view)
    ensures Agrees(nodes, p, compare, SiblingOrder(view, p, compare))
  {
    forall x, y | p + [x] in nodes && p + [y] in nodes
      ensures SiblingOrder(view, p, compare)(x, y) == Before(nodes[p + [x]], nodes[p + [y]], compare)
    {
      PairAgrees(nodes, view, p, compare, x, y);
    }
  }

  lemma PairAgrees(nodes: Nodes, view: View, p: Parts, compare: Compare, x: string, y: string)
    requires Named(nodes, view) && p + [x] in nodes && p + [y] in nodes
    ensures SiblingOrder(view, p, compare)(x, y) == Before(nodes[p + [x]], nodes[p + [y]], compare)
  {
    var px, py := p + [x], p + [y];
    assert px[|p|] == x && py[|p|] == y;
    assert NodeIs(nodes, px, view[px]) && NodeIs(nodes, py, view[py]);
    assert nodes[px].isDir == DirAt(view, px) && nodes[py].isDir == DirAt(view, py);
  }

  /** The names below `q` once the first `k` of the names below `p` have been sorted all the way down. */
  predicate Handled(q: Parts, p: Parts, names: seq<string>, k: nat)
    requires k <= |names|
  {
    q == p || exists j :: 0 <= j < k && Extends(q, p + [names[j]])
  }

  function NamesNow(view: View, compare: Compare, q: Parts, sorted: bool): seq<string>
    requires q in view
  {
    if sorted then SortedNames(view, q, compare) else view[q].names
  }

  /** Everything from `p` down is as in `view`, except that what has been handled is sorted. */
  ghost predicate SortedSoFar(nodes: Nodes, view: View, compare: Compare, p: Parts, names: seq<string>, k: nat)
    requires nodes.Keys == view.Keys && k <= |names|
    reads nodes.Values
  {
    forall q <- view {:trigger Extends(q, p)} :: Extends(q, p) ==> ChildrenAre(nodes, q, NamesNow(view, compare, q, Handled(q, p, names, k)))
  }

  /** Everything from `p` down, all sorted or all unsorted. */
  ghost predicate AllBelow(nodes: Nodes, view: View, compare: Compare, p: Parts, sorted: bool)
    requires nodes.Keys == view.Keys
    reads nodes.Values
  {
    forall q <- view {:trigger Extends(q, p)} :: Extends(q, p) ==> ChildrenAre(nodes, q, NamesNow(view, compare, q, sorted))
  }

  /** Below a node, but not it: below one of its children. */
  lemma BelowChild(view: View, p: Parts, q: Parts)
    requires Linked(view) && p in view && q in view && Extends(q, p)
    ensures q == p || exists x <- view[p].names :: Extends(q, p + [x])
  {
    if q != p {
      assert q[..|p| + 1] == p + [q[|p|]];
      assert Hangs(view, p) && Hangs(view, q) && q[..|p| + 1] in view;
      assert q[|p|] in view[p].names && Extends(q, p + [q[|p|]]);
    }
  }

  lemma AllHandled(view: View, compare: Compare, p: Parts, q: Parts)
    requires Linked(view) && p in view && q in view && Extends(q, p)
    ensures Handled(q, p, SortedNames(view, p, compare), |SortedNames(view, p, compare)|)
  {
    BelowChild(view, p, q);
    InSort(view[p].names, SiblingOrder(view, p, compare));
    var names := SortedNames(view, p, compare);
    if q != p {
      var x :| x in view[p].names && Extends(q, p + [x]);
      var j :| 0 <= j < |names| && names[j] == x;
    }
  }

  lemma Nested(q: Parts, p: Parts, x: string)
    ensures Extends(q, p + [x]) ==> Extends(q, p)
  {
    if Extends(q, p + [x]) {
      assert q[..|p|] == p;
    }
  }

  lemma OneChild(q: Parts, p: Parts, x: string, y: string)
    ensures Extends(q, p + [x]) && Extends(q, p + [y]) ==> x == y
  {
    assert (p + [x])[|p|] == x && (p + [y])[|p|] == y;
  }

  lemma HandledNext(q: Parts, p: Parts, names: seq<string>, k: nat)
    requires k < |names| && Distinct(names)
    ensures Handled(q, p, names, k + 1) <==> Handled(q, p, names, k) || Extends(q, p + [names[k]])
    ensures Extends(q, p + [names[k]]) ==> !Handled(q, p, names, k)
  {
    forall j | 0 <= j < k
      ensures !(Extends(q, p + [names[j]]) && Extends(q, p + [names[k]]))
    {
      OneChild(q, p, names[j], names[k]);
    }
  }

  /** `nodes` with this node's own children sorted. */
  method SortOwn(node: EditorFileNode, compare: Compare, ghost nodes: Nodes, ghost view: View, ghost p: Parts)
    requires Named(nodes, view) && p in view && nodes[p] == node && AllBelow(nodes, view, compare, p, false)
    modifies node`children
    ensures Named(nodes, view) && SortedSoFar(nodes, view, compare, p, SortedNames(view, p, compare), 0)
  {
    OrderAgrees(nodes, view, p, compare);
    assert ChildrenAre(nodes, p, NamesNow(view, compare, p, false)) by {
      assert Extends(p, p);
    }
    node.children := SortChildren(node.children, compare, nodes, p, view[p].names, SiblingOrder(view, p, compare));
    forall q <- view
      ensures NodeIs(nodes, q, view[q])
    {
      assert old(NodeIs(nodes, q, view[q]));
    }
    forall q <- view | Extends(q, p)
      ensures ChildrenAre(nodes, q, NamesNow(view, compare, q, Handled(q, p, SortedNames(view, p, compare), 0)))
    {
      if q != p {
        assert nodes[q] != node;
        assert old(ChildrenAre(nodes, q, NamesNow(view, compare, q, false)));
      }
    }
  }

  lemma ChildUnsorted(nodes: Nodes, view: View, compare: Compare, p: Parts, names: seq<string>, k: nat)
    requires nodes.Keys == view.Keys && k < |names| && Distinct(names)
    requires SortedSoFar(nodes, view, compare, p, names, k)
    ensures AllBelow(nodes, view, compare, p + [names[k]], false)
  {
    forall q <- view | Extends(q, p + [names[k]])
      ensures ChildrenAre(nodes, q, NamesNow(view, compare, q, false))
    {
      HandledNext(q, p, names, k);
      Nested(q, p, names[k]);
    }
  }

  lemma LeafSorted(nodes: Nodes, view: View, compare: Compare, c: Parts)
    requires Named(nodes, view) && Linked(view) && c in view && nodes[c].children == []
    requires AllBelow(nodes, view, compare, c, false)
    ensures AllBelow(nodes, view, compare, c, true)
  {
    assert Extends(c, c) && ChildrenAre(nodes, c, NamesNow(view, compare, c, false));
    forall q <- view | Extends(q, c)
      ensures ChildrenAre(nodes, q, NamesNow(view, compare, q, true))
    {
      BelowChild(view, c, q);
    }
  }

  /** `was` are the children before the child at `k` was handled. */
  lemma OneMoreChild(nodes: Nodes, view: View, compare: Compare, p: Parts, names: seq<string>, k: nat, was: map<Parts, seq<EditorFileNode>>)
    requires nodes.Keys == view.Keys == was.Keys && k < |names| && Distinct(names)
    requires forall q <- view :: Extends(q, p) ==> Are(nodes, q, was[q], NamesNow(view, compare, q, Handled(q, p, names, k)))
    requires AllBelow(nodes, view, compare, p + [names[k]], true)
    requires forall q <- view :: !Extends(q, p + [names[k]]) ==> nodes[q].children == was[q]
    ensures SortedSoFar(nodes, view, compare, p, names, k + 1)
  {
    forall q <- view | Extends(q, p)
      ensures ChildrenAre(nodes, q, NamesNow(view, compare, q, Handled(q, p, names, k + 1)))
    {
      HandledNext(q, p, names, k);
      if !Extends(q, p + [names[k]]) {
        assert Are(nodes, q, was[q], NamesNow(view, compare, q, Handled(q, p, names, k)));
      }
    }
  }

  method SortChild(child: EditorFileNode, compare: Compare, ghost nodes: Nodes, ghost view: View, ghost p: Parts, ghost names: seq<string>, ghost k: nat, ghost depth: nat)
    requires Named(nodes, view) && Linked(view) && Distinct(names)
    requires k < |names| && p + [names[k]] in view && nodes[p + [names[k]]] == child
    requires SortedSoFar(nodes, view, compare, p, names, k)
    requires forall q <- view :: |q| <= depth
    modifies nodes.Values`children
    ensures Named(nodes, view) && SortedSoFar(nodes, view, compare, p, names, k + 1)
    ensures forall q <- view {:trigger Extends(q, p)} :: !Extends(q, p) ==> nodes[q].children == old(nodes[q].children)
    decreases depth - |p|, 0
  {
    ghost var c := p + [names[k]];
    ghost var was := map q <- view :: nodes[q].children;
    assert forall q <- view :: Extends(q, p) ==> Are(nodes, q, was[q], NamesNow(view, compare, q, Handled(q, p, names, k)));
    ChildUnsorted(nodes, view, compare, p, names, k);
    if |child.children| > 0 {
      SortNodes(child, compare, nodes, view, c, depth);
    } else {
      LeafSorted(nodes, view, compare, c);
    }
    OneMoreChild(nodes, view, compare, p, names, k, was);
    forall q <- view
      ensures Extends(q, c) ==> Extends(q, p)
    {
      Nested(q, p, names[k]);
    }
  }

  /** Sorts the children of the node at `p` and, where a child has children of its own, goes on below it. */
  method SortNodes(node: EditorFileNode, compare: Compare, ghost nodes: Nodes, ghost view: View, ghost p: Parts, ghost depth: nat)
    requires Named(nodes, view) && Linked(view) && p in view && nodes[p] == node
    requires AllBelow(nodes, view, compare, p, false)
    requires forall q <- view :: |q| <= depth
    modifies nodes.Values`children
    ensures Named(nodes, view) && AllBelow(nodes, view, compare, p, true)
    ensures forall q <- view {:trigger Extends(q, p)} :: !Extends(q, p) ==> nodes[q].children == old(nodes[q].children)
    decreases depth - |p|, 1
  {
    ghost var names := SortedNames(view, p, compare);
    SortOwn(node, compare, nodes, view, p);
    OwnSorted(nodes, view, compare, p);
    var children := node.children;
    for k := 0 to |children|
      invariant Named(nodes, view)
      invariant SortedSoFar(nodes, view, compare, p, names, k)
      invariant forall q <- view {:trigger Extends(q, p)} :: !Extends(q, p) ==> nodes[q].children == old(nodes[q].children)
    {
      SortChild(children[k], compare, nodes, view, p, names, k, depth);
    }
    SortedThroughout(nodes, view, compare, p);
  }

  lemma OwnSorted(nodes: Nodes, view: View, compare: Compare, p: Parts)
    requires nodes.Keys == view.Keys && Linked(view) && p in view
    requires SortedSoFar(nodes, view, compare, p, SortedNames(view, p, compare), 0)
    ensures Are(nodes, p, nodes[p].children, SortedNames(view, p, compare)) && Distinct(SortedNames(view, p, compare))
  {
    assert Extends(p, p) && Hangs(view, p);
    assert ChildrenAre(nodes, p, NamesNow(view, compare, p, true));
    InSort(view[p].names, SiblingOrder(view, p, compare));
  }

  lemma SortedThroughout(nodes: Nodes, view: View, compare: Compare, p: Parts)
    requires nodes.Keys == view.Keys && Linked(view) && p in view
    requires SortedSoFar(nodes, view, compare, p, SortedNames(view, p, compare), |SortedNames(view, p, compare)|)
    ensures AllBelow(nodes, view, compare, p, true)
  {
    forall q <- view | Extends(q, p)
      ensures ChildrenAre(nodes, q, NamesNow(view, compare, q, true))
    {
      AllHandled(view, compare, p, q);
    }
  }

  // ---------------------------------------------------------------- buildTree

  /** `views` are the views after each of the files. */
  ghost predicate Step(files: seq<File>, views: seq<View>, i: nat) {
    |views| == |files| + 1 && i < |files| && views[i] == ViewOf(files[..i]) && views[i + 1] == ViewOf(files[..i] + [files[i]])
  }

  /** The view after each number of files. */
  function ViewsOf(files: seq<File>): seq<View> {
    seq(|files| + 1, i requires 0 <= i <= |files| => ViewOf(files[..i]))
  }

  lemma StepOfViews(files: seq<File>, i: nat)
    requires i < |files|
    ensures Step(files, ViewsOf(files), i)
  {
    assert files[..i] + [files[i]] == files[..i + 1];
  }

  lemma Views(files: seq<File>) returns (views: seq<View>)
    ensures |views| == |files| + 1 && views[0] == Root && views[|files|] == ViewOf(files)
    ensures forall i {:trigger Step(files, views, i)} :: 0 <= i < |files| ==> Step(files, views, i)
    ensures Linked(views[|files|]) && Rooted(views[|files|])
  {
    views := ViewsOf(files);
    assert files[..|files|] == files;
    ViewIsLinked(files);
    forall i | 0 <= i < |files|
      ensures Step(files, views, i)
    {
      StepOfViews(files, i);
    }
  }

  /** One file more. */
  method AddFile(root: EditorFileNode, files: seq<File>, i: nat, ghost views: seq<View>, ghost nodes: Nodes) returns (ghost grown: Nodes)
    requires Step(files, views, i)
    requires Shows(nodes, views[i]) && [] in nodes && nodes[[]] == root
    modifies nodes.Values
    ensures Shows(grown, views[i + 1])
    ensures fresh(grown.Values - nodes.Values) && Keeps(nodes, grown)
  {
    ghost var between := AllParts(files[..i], files[i]);
    grown := AddParts(root, PartsOf(files[i].path), files[i], between, nodes);
  }

  method AddAll(root: EditorFileNode, files: seq<File>, ghost views: seq<View>, ghost start: Nodes) returns (ghost nodes: Nodes)
    requires |views| == |files| + 1
    requires forall i {:trigger Step(files, views, i)} :: 0 <= i < |files| ==> Step(files, views, i)
    requires Shows(start, views[0]) && [] in start && start[[]] == root
    modifies start.Values
    ensures Shows(nodes, views[|files|]) && [] in nodes && nodes[[]] == root && fresh(nodes.Values - start.Values)
  {
    nodes := start;
    for i := 0 to |files|
      invariant Shows(nodes, views[i]) && [] in nodes && nodes[[]] == root && fresh(nodes.Values - start.Values)
    {
      nodes := AddFile(root, files, i, views, nodes);
    }
  }

  method NewRoot() returns (root: EditorFileNode, ghost nodes: Nodes)
    ensures [] in nodes && nodes[[]] == root && fresh(nodes.Values) && Shows(nodes, Root)
  {
    root := new EditorFileNode("", "", true, None);
    nodes := map[[] := root];
  }

  /** The whole of `buildTree`. The node at every path is a new object, and together they are the sorted view of the
      entries; the source returns the root's children. `nodes` gives the objects their paths. */
  method BuildTree(files: seq<File>, compare: Compare) returns (root: EditorFileNode, ghost nodes: Nodes)
    ensures [] in nodes && nodes[[]] == root && fresh(nodes.Values)
    ensures Shows(nodes, SortView(ViewOf(files), compare))
  {
    ghost var views := Views(files);
    root, nodes := NewRoot();
    nodes := AddAll(root, files, views, nodes);
    SortTree(root, compare, nodes, views[|files|]);
  }

  method SortTree(root: EditorFileNode, compare: Compare, ghost nodes: Nodes, ghost view: View)
    requires Shows(nodes, view) && Linked(view) && Rooted(view) && nodes[[]] == root
    modifies nodes.Values`children
    ensures Shows(nodes, SortView(view, compare))
  {
    ghost var depth := Deepest(view.Keys);
    forall q <- view
      ensures ChildrenAre(nodes, q, NamesNow(view, compare, q, false))
    {
      assert ChildrenAre(nodes, q, view[q].names);
    }
    SortNodes(root, compare, nodes, view, [], depth);
    SortedShows(nodes, view, compare);
  }

  lemma SortedShows(nodes: Nodes, view: View, compare: Compare)
    requires Named(nodes, view) && AllBelow(nodes, view, compare, [], true)
    ensures Shows(nodes, SortView(view, compare))
  {
    var sorted := SortView(view, compare);
    forall p <- sorted
      ensures NodeIs(nodes, p, sorted[p]) && ChildrenAre(nodes, p, sorted[p].names)
    {
      assert Extends(p, []) && NodeIs(nodes, p, view[p]);
      assert ChildrenAre(nodes, p, NamesNow(view, compare, p, true));
    }
  }

  lemma Deepest(paths: set<Parts>) returns (depth: nat)
    ensures forall p <- paths :: |p| <= depth
    decreases |paths|
  {
    if paths == {} {
      depth := 0;
    } else {
      var p :| p in paths;
      depth := Deepest(paths - {p});
      depth := if |p| > depth then |p| else depth;
    }
  }
}