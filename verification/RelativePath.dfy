/** Paths of the site editor: normalising a relative path, resolving it below the published root, and getting
    the relative path back (`normalizeRelativePath`, `resolveTargetAndPath`, `relativeToRoot`). */
module RelativePath {
  import Text

  datatype Result<+T> = Ok(value: T) | Err(error: Error)

  datatype Error = Absolute | EscapesBase | RootRequired | RootIsSlash | EscapesRoot

  // ---------------------------------------------------------------- Go's path.Clean, component by component

  function Split(s: string): (r: seq<string>)
    ensures r != []
  {
    if s == "" then [""]
    else
      var r := Split(s[1..]);
      if s[0] == '/' then [""] + r else [[s[0]] + r[0]] + r[1..]
  }

  function Join(cs: seq<string>): string {
    if cs == [] then "" else if |cs| == 1 then cs[0] else cs[0] + "/" + Join(cs[1..])
  }

  /** One component of a path, given those kept so far. */
  function Push(stack: seq<string>, c: string, rooted: bool): seq<string> {
    if c == "" || c == "." then stack
    else if c != ".." then stack + [c]
    else if stack != [] && stack[|stack| - 1] != ".." then stack[..|stack| - 1]
    else if rooted then stack
    else stack + [c]
  }

  function Stack(stack: seq<string>, cs: seq<string>, rooted: bool): seq<string>
    decreases |cs|
  {
    if cs == [] then stack else Stack(Push(stack, cs[0], rooted), cs[1..], rooted)
  }

  predicate Rooted(s: string) {
    s != "" && s[0] == '/'
  }

  /** The components that `Clean` keeps. */
  function Kept(s: string): seq<string> {
    Stack([], Split(s), Rooted(s))
  }

  function Clean(s: string): string {
    if Rooted(s) then "/" + Join(Kept(s)) else if Kept(s) == [] then "." else Join(Kept(s))
  }

  /** A component that names something. */
  predicate IsName(c: string) {
    c != "" && c != "." && c != ".." && '/' !in c
  }

  predicate Names(cs: seq<string>) {
    forall c <- cs :: IsName(c)
  }

  // ---------------------------------------------------------------- the code

  /** `strings.TrimPrefix(s, "/")` */
  function WithoutSlash(s: string): string {
    if Rooted(s) then s[1..] else s
  }

  predicate HasPrefix(s: string, prefix: string) {
    prefix <= s
  }

  function NormalizeRelativePath(relPath: string): Result<string> {
    var trimmed := Text.TrimSpace(relPath);
    if trimmed == "" then Ok("") else
    var rel := Text.ReplaceAll(trimmed, '\\', "/");
    if HasPrefix(rel, "/") then Err(Absolute) else
    var clean := WithoutSlash(Clean("/" + rel));
    if clean == "." then Ok("")
    else if clean == "" || HasPrefix(clean, "..") then Err(EscapesBase)
    else Ok(clean)
  }

  function ResolveRoot(publishedPath: string): Result<string> {
    var trimmed := Text.TrimSpace(publishedPath);
    if trimmed == "" then Err(RootRequired) else
    var clean := Clean(trimmed);
    var root := if HasPrefix(clean, "/") then clean else "/" + clean;
    if root == "/" then Err(RootIsSlash) else Ok(root)
  }

  predicate WithinRoot(full: string, root: string) {
    full == root || HasPrefix(full, if root != "" && root[|root| - 1] == '/' then root else root + "/")
  }

  /** The path part of `resolveTargetAndPath`. */
  function ResolvePath(root: string, relPath: string): Result<string> {
    var rel := NormalizeRelativePath(relPath);
    if rel.Err? then rel
    else if rel.value == "" then Ok(root)
    else
      var full := Clean(Clean(root + "/" + rel.value));
      if WithinRoot(full, root) then Ok(full) else Err(EscapesRoot)
  }

  function RelativeToRoot(fullPath: string, rootPath: string): Result<string> {
    var full, root := Clean(fullPath), Clean(rootPath);
    if !WithinRoot(full, root) then Err(EscapesRoot)
    else if full == root then Ok(".")
    else
      var rel := WithoutSlash(if HasPrefix(full, root) then full[|root|..] else full);
      Ok(if rel == "" then "." else rel)
  }

  // ---------------------------------------------------------------- components

  lemma {:induction false} SplitAppend(a: string, b: string)
    ensures Split(a + "/" + b) == Split(a) + Split(b)
  {
    if a == "" {
      assert (a + "/" + b)[1..] == b;
    } else {
      assert (a + "/" + b)[1..] == a[1..] + "/" + b;
      SplitAppend(a[1..], b);
    }
  }

  lemma {:induction false} SplitName(c: string)
    requires '/' !in c
    ensures Split(c) == [c]
  {
    if c != "" {
      assert c[0] in c && forall x <- c[1..] :: x in c;
      SplitName(c[1..]);
      assert [c[0]] + c[1..] == c;
    }
  }

  lemma {:induction false} SplitJoin(cs: seq<string>)
    requires cs != [] && forall c <- cs :: '/' !in c
    ensures Split(Join(cs)) == cs
  {
    assert cs[0] in cs;
    SplitName(cs[0]);
    if |cs| > 1 {
      SplitAppend(cs[0], Join(cs[1..]));
      SplitJoin(cs[1..]);
    }
  }

  lemma {:induction false} SplitHasNoSlash(s: string)
    ensures forall c <- Split(s) :: '/' !in c
  {
    if s != "" {
      SplitHasNoSlash(s[1..]);
      var r := Split(s[1..]);
      assert r[0] in r && forall c <- r[1..] :: c in r;
      assert Split(s)[1..] == if s[0] == '/' then r else r[1..];
      forall c <- Split(s)
        ensures '/' !in c
      {
        assert c == Split(s)[0] || c in Split(s)[1..];
      }
    }
  }

  lemma {:induction false} StackAppend(stack: seq<string>, a: seq<string>, b: seq<string>, rooted: bool)
    ensures Stack(stack, a + b, rooted) == Stack(Stack(stack, a, rooted), b, rooted)
    decreases |a|
  {
    if a == [] {
      assert a + b == b;
    } else {
      assert (a + b)[1..] == a[1..] + b;
      StackAppend(Push(stack, a[0], rooted), a[1..], b, rooted);
    }
  }

  lemma {:induction false} StackNames(stack: seq<string>, cs: seq<string>, rooted: bool)
    requires Names(cs)
    ensures Stack(stack, cs, rooted) == stack + cs
    decreases |cs|
  {
    if cs == [] {
      assert stack + cs == stack;
    } else {
      assert IsName(cs[0]) && forall c <- cs[1..] :: c in cs;
      StackNames(stack + [cs[0]], cs[1..], rooted);
      assert stack + [cs[0]] + cs[1..] == stack + cs;
    }
  }

  /** A rooted path keeps names only. */
  lemma {:induction false} RootedKeepsNames(stack: seq<string>, cs: seq<string>)
    requires Names(stack) && forall c <- cs :: '/' !in c
    ensures Names(Stack(stack, cs, true))
    decreases |cs|
  {
    if cs != [] {
      assert cs[0] in cs && forall c <- cs[1..] :: c in cs;
      RootedKeepsNames(Push(stack, cs[0], true), cs[1..]);
    }
  }

  /** The cleaned form of a path below a rooted one, when both consist of names. */
  lemma CleanOfNames(cs: seq<string>)
    requires Names(cs)
    ensures Kept("/" + Join(cs)) == cs && Clean("/" + Join(cs)) == "/" + Join(cs)
  {
    assert "" + "/" + Join(cs) == "/" + Join(cs);
    SplitAppend("", Join(cs));
    if cs == [] {
      assert Split("/" + Join(cs)) == ["", ""];
      assert Stack([], ["", ""], true) == Stack([], [""], true) by { assert ["", ""][1..] == [""]; }
    } else {
      assert forall c <- cs :: IsName(c);
      SplitJoin(cs);
      assert ([""] + cs)[1..] == cs;
      StackNames([], cs, true);
    }
  }

  lemma KeptUnderRoot(rs: seq<string>, cs: seq<string>)
    requires Names(rs) && Names(cs) && cs != []
    ensures Kept("/" + Join(rs) + "/" + Join(cs)) == rs + cs
  {
    var root := "/" + Join(rs);
    SplitAppend(root, Join(cs));
    assert forall c <- cs :: IsName(c);
    SplitJoin(cs);
    CleanOfNames(rs);
    StackAppend([], Split(root), cs, true);
    StackNames(rs, cs, true);
  }

  // ---------------------------------------------------------------- normalising

  /** The components that a non-empty trimmed relative path comes down to. */
  function Parts(relPath: string): seq<string> {
    Kept("/" + Text.ReplaceAll(Text.TrimSpace(relPath), '\\', "/"))
  }

  lemma PartsAreNames(relPath: string)
    ensures Names(Parts(relPath))
  {
    var s := "/" + Text.ReplaceAll(Text.TrimSpace(relPath), '\\', "/");
    SplitHasNoSlash(s);
    RootedKeepsNames([], Split(s));
  }

  lemma JoinFirst(cs: seq<string>)
    requires cs != [] && Names(cs)
    ensures Join(cs) != "" && Join(cs)[0] != '/' && cs[0] <= Join(cs) && Join(cs) != "."
    ensures HasPrefix(Join(cs), "..") <==> HasPrefix(cs[0], "..")
  {
    assert IsName(cs[0]);
    assert cs[0][0] in cs[0];
    if |cs| > 1 {
      assert Join(cs) == cs[0] + "/" + Join(cs[1..]);
      if |cs[0]| == 1 {
        assert Join(cs)[1] == '/';
      }
    }
  }

  /** What is accepted and what it becomes: blank text is the root; a leading slash or backslash is refused;
      so is a path that comes down to nothing or whose first component begins with two dots; every other path
      becomes its names, with any climb above the root cut off. */
  lemma NormalizeMeaning(relPath: string)
    ensures var t, cs := Text.TrimSpace(relPath), Parts(relPath);
      NormalizeRelativePath(relPath) ==
        if t == "" then Ok("")
        else if t[0] == '/' || t[0] == '\\' then Err(Absolute)
        else if cs == [] || HasPrefix(cs[0], "..") then Err(EscapesBase)
        else Ok(Join(cs))
  {
    var t, cs := Text.TrimSpace(relPath), Parts(relPath);
    PartsAreNames(relPath);
    if t != "" {
      var rel := Text.ReplaceAll(t, '\\', "/");
      assert rel == (if t[0] == '\\' then "/" else [t[0]]) + Text.ReplaceAll(t[1..], '\\', "/");
      assert HasPrefix(rel, "/") <==> t[0] == '/' || t[0] == '\\';
      assert Clean("/" + rel) == "/" + Join(cs);
      assert WithoutSlash("/" + Join(cs)) == Join(cs);
      if cs != [] {
        JoinFirst(cs);
      }
    }
  }

  /** An accepted path is the root or a sequence of names. */
  lemma AcceptedIsNames(relPath: string) returns (cs: seq<string>)
    requires NormalizeRelativePath(relPath).Ok?
    ensures Names(cs) && NormalizeRelativePath(relPath).value == Join(cs)
    ensures cs != [] ==> Join(cs) != "" && !HasPrefix(cs[0], "..")
  {
    NormalizeMeaning(relPath);
    PartsAreNames(relPath);
    if Text.TrimSpace(relPath) == "" {
      cs := [];
    } else {
      cs := Parts(relPath);
      JoinFirst(cs);
    }
  }

  lemma {:induction false} NoBackslashKept(s: string)
    ensures '\\' !in Text.ReplaceAll(s, '\\', "/")
    ensures '\\' !in s ==> Text.ReplaceAll(s, '\\', "/") == s
  {
    if s != "" {
      NoBackslashKept(s[1..]);
      assert s == [s[0]] + s[1..];
    }
  }

  predicate Free(cs: seq<string>, x: char) {
    forall c <- cs :: x !in c
  }

  lemma {:induction false} SplitFree(s: string, x: char)
    requires x !in s
    ensures Free(Split(s), x)
  {
    if s != "" {
      assert s[0] in s && forall c <- s[1..] :: c in s;
      SplitFree(s[1..], x);
      var r := Split(s[1..]);
      assert r[0] in r && forall c <- r[1..] :: c in r;
      forall c <- Split(s)
        ensures x !in c
      {
        assert c == Split(s)[0] || c in Split(s)[1..];
      }
    }
  }

  lemma {:induction false} StackFree(stack: seq<string>, cs: seq<string>, x: char)
    requires Free(stack, x) && Free(cs, x)
    ensures Free(Stack(stack, cs, true), x)
    decreases |cs|
  {
    if cs != [] {
      assert cs[0] in cs && forall c <- cs[1..] :: c in cs;
      StackFree(Push(stack, cs[0], true), cs[1..], x);
    }
  }

  lemma {:induction false} JoinFree(cs: seq<string>, x: char)
    requires Free(cs, x) && x != '/'
    ensures x !in Join(cs)
  {
    if cs != [] {
      assert cs[0] in cs && forall c <- cs[1..] :: c in cs;
      JoinFree(cs[1..], x);
    }
  }

  /** The length of components with one separator each. */
  function Width(cs: seq<string>): nat {
    if cs == [] then 0 else Width(cs[..|cs| - 1]) + |cs[|cs| - 1]| + 1
  }

  lemma {:induction false} WidthAppend(a: seq<string>, b: seq<string>)
    ensures Width(a + b) == Width(a) + Width(b)
  {
    if b == [] {
      assert a + b == a;
    } else {
      var n := |b| - 1;
      assert (a + b)[..|a| + n] == a + b[..n];
      WidthAppend(a, b[..n]);
    }
  }

  lemma {:induction false} SplitWidth(s: string)
    ensures Width(Split(s)) == |s| + 1
  {
    if s != "" {
      SplitWidth(s[1..]);
      var r := Split(s[1..]);
      if s[0] == '/' {
        WidthAppend([""], r);
      } else {
        assert r == [r[0]] + r[1..];
        WidthAppend([r[0]], r[1..]);
        WidthAppend([[s[0]] + r[0]], r[1..]);
      }
    }
  }

  lemma {:induction false} StackWidth(stack: seq<string>, cs: seq<string>)
    ensures Width(Stack(stack, cs, true)) <= Width(stack) + Width(cs)
    decreases |cs|
  {
    if cs != [] {
      assert cs == [cs[0]] + cs[1..];
      WidthAppend([cs[0]], cs[1..]);
      WidthAppend(stack, [cs[0]]);
      StackWidth(Push(stack, cs[0], true), cs[1..]);
    }
  }

  lemma {:induction false} JoinWidth(cs: seq<string>)
    requires cs != []
    ensures |Join(cs)| + 1 == Width(cs)
  {
    assert cs == [cs[0]] + cs[1..];
    WidthAppend([cs[0]], cs[1..]);
    if |cs| > 1 {
      JoinWidth(cs[1..]);
    }
  }

  lemma {:induction false} ReplaceKeepsLength(s: string)
    ensures |Text.ReplaceAll(s, '\\', "/")| == |s|
  {
    if s != "" {
      ReplaceKeepsLength(s[1..]);
    }
  }

  lemma KeptWidth(rel: string)
    ensures Width(Kept("/" + rel)) <= |rel| + 1
  {
    assert "" + "/" + rel == "/" + rel;
    SplitAppend("", rel);
    assert ([""] + Split(rel))[1..] == Split(rel);
    SplitWidth(rel);
    StackWidth([], Split(rel));
  }

  lemma NormalizingNeverLengthens(relPath: string)
    requires NormalizeRelativePath(relPath).Ok?
    ensures |NormalizeRelativePath(relPath).value| <= |Text.TrimSpace(relPath)|
  {
    NormalizeMeaning(relPath);
    var t := Text.TrimSpace(relPath);
    if t != "" {
      ReplaceKeepsLength(t);
      KeptWidth(Text.ReplaceAll(t, '\\', "/"));
      JoinWidth(Parts(relPath));
    }
  }

  /** Normalising twice gives the same path exactly when the first result neither begins nor ends with white
      space. (It may: in "./ a" the space is inside the path until the dot is gone.) */
  lemma NormalizeTwice(relPath: string)
    requires NormalizeRelativePath(relPath).Ok? && NormalizeRelativePath(relPath).value != ""
    ensures var r := NormalizeRelativePath(relPath);
      NormalizeRelativePath(r.value) == r <==> Text.TrimSpace(r.value) == r.value
  {
    var r := NormalizeRelativePath(relPath).value;
    var cs := Parts(relPath);
    NormalizeMeaning(relPath);
    PartsAreNames(relPath);
    JoinFirst(cs);
    NormalizeMeaning(r);
    if Text.TrimSpace(r) == r {
      var s := "/" + Text.ReplaceAll(Text.TrimSpace(relPath), '\\', "/");
      NoBackslashKept(Text.TrimSpace(relPath));
      SplitFree(s, '\\');
      StackFree([], Split(s), '\\');
      JoinFree(cs, '\\');
      NoBackslashKept(r);
      CleanOfNames(cs);
    } else if NormalizeRelativePath(r).Ok? {
      NormalizingNeverLengthens(r);
      TrimShortens(r);
    }
  }

  lemma TrimShortens(s: string)
    ensures |Text.TrimSpace(s)| <= |s| && (|Text.TrimSpace(s)| == |s| ==> Text.TrimSpace(s) == s)
  {
  }

  // ---------------------------------------------------------------- resolving below the root

  /** A root as it should be: a slash and at least one name. */
  ghost predicate GoodRoot(root: string) {
    exists rs :: rs != [] && Names(rs) && root == "/" + Join(rs)
  }

  lemma {:induction false} JoinAppend(a: seq<string>, b: seq<string>)
    requires a != [] && b != []
    ensures Join(a + b) == Join(a) + "/" + Join(b)
  {
    if |a| == 1 {
      assert a + b == [a[0]] + b && (a + b)[1..] == b;
    } else {
      assert (a + b)[1..] == a[1..] + b;
      JoinAppend(a[1..], b);
    }
  }

  lemma {:induction false} JoinLast(cs: seq<string>)
    requires cs != [] && Names(cs)
    ensures Join(cs) != "" && Join(cs)[|Join(cs)| - 1] != '/'
  {
    assert IsName(cs[0]);
    if |cs| == 1 {
      assert cs[0][|cs[0]| - 1] in cs[0];
    } else {
      assert forall c <- cs[1..] :: c in cs;
      JoinFirst(cs[1..]);
      JoinLast(cs[1..]);
    }
  }

  lemma GoodRootFacts(rs: seq<string>)
    requires rs != [] && Names(rs)
    ensures var root := "/" + Join(rs); |root| > 1 && root[|root| - 1] != '/' && Clean(root) == root
  {
    CleanOfNames(rs);
    JoinLast(rs);
  }

  lemma FullPath(rs: seq<string>, cs: seq<string>)
    requires rs != [] && Names(rs) && cs != [] && Names(cs)
    ensures var full := "/" + Join(rs) + "/" + Join(cs); Clean(full) == full
  {
    KeptUnderRoot(rs, cs);
    JoinAppend(rs, cs);
    assert "/" + Join(rs + cs) == "/" + Join(rs) + "/" + Join(cs);
  }

  /** Below a good root every accepted path resolves: to the root itself, or to the root followed by the
      path's names; it is never refused for escaping, and the relative path of the result is the normalised
      path again, "." standing for the root. */
  lemma ResolveThenRelative(root: string, relPath: string)
    requires GoodRoot(root) && NormalizeRelativePath(relPath).Ok?
    ensures var rel := NormalizeRelativePath(relPath).value;
      && ResolvePath(root, relPath) == Ok(if rel == "" then root else root + "/" + rel)
      && RelativeToRoot(ResolvePath(root, relPath).value, root) == Ok(if rel == "" then "." else rel)
  {
    var rs :| rs != [] && Names(rs) && root == "/" + Join(rs);
    var cs := AcceptedIsNames(relPath);
    GoodRootFacts(rs);
    if cs != [] {
      FullPath(rs, cs);
    }
  }

  /** The root that comes out of a published path is good exactly when the path is absolute or does not begin
      by going nowhere or up. */
  lemma RootIsGood(publishedPath: string)
    requires ResolveRoot(publishedPath).Ok?
    ensures var t := Text.TrimSpace(publishedPath);
      GoodRoot(ResolveRoot(publishedPath).value) <==> Rooted(t) || (Kept(t) != [] && Kept(t)[0] != "..")
  {
    var t := Text.TrimSpace(publishedPath);
    var root := ResolveRoot(publishedPath).value;
    SplitHasNoSlash(t);
    if Rooted(t) {
      RootedKeepsNames([], Split(t));
      assert root == "/" + Join(Kept(t));
      assert Kept(t) != [];
    } else {
      RelativeKeeps([], Split(t));
      RelativeRoot(t);
    }
  }

  /** A relative path keeps dots only in front. */
  ghost predicate DotsInFront(cs: seq<string>) {
    forall i :: 0 <= i < |cs| ==> IsName(cs[i]) || (cs[i] == ".." && forall k :: 0 <= k < i ==> cs[k] == "..")
  }

  lemma {:induction false} RelativeKeeps(stack: seq<string>, cs: seq<string>)
    requires DotsInFront(stack) && forall c <- cs :: '/' !in c
    ensures DotsInFront(Stack(stack, cs, false))
    decreases |cs|
  {
    if cs != [] {
      assert cs[0] in cs && forall c <- cs[1..] :: c in cs;
      var next := Push(stack, cs[0], false);
      if cs[0] == ".." && next == stack + [".."] && stack != [] {
        assert forall k :: 0 <= k < |stack| ==> stack[k] == "..";
      }
      RelativeKeeps(next, cs[1..]);
    }
  }

  lemma RelativeRoot(t: string)
    requires t != "" && !Rooted(t) && DotsInFront(Kept(t))
    ensures !Rooted(Clean(t))
    ensures GoodRoot("/" + Clean(t)) <==> Kept(t) != [] && Kept(t)[0] != ".."
    ensures !GoodRoot("/" + Clean(t)) ==> Split("/" + Clean(t))[1..] != [] && Split("/" + Clean(t))[1] in {".", ".."}
  {
    var ks, root := Kept(t), "/" + Clean(t);
    assert "" + "/" + Clean(t) == root;
    SplitAppend("", Clean(t));
    if ks == [] {
      SplitName(".");
      forall rs | rs != [] && Names(rs)
        ensures root != "/" + Join(rs)
      {
        JoinFirst(rs);
        assert ("/" + Join(rs))[1..] == Join(rs) && root[1..] == ".";
      }
    } else {
      assert forall c <- ks :: '/' !in c && c != "";
      SplitJoin(ks);
      assert ks[0][0] in ks[0] && Join(ks)[0] == ks[0][0];
      if ks[0] != ".." {
        assert Names(ks);
      } else {
        forall rs | rs != [] && Names(rs)
          ensures root != "/" + Join(rs)
        {
          assert IsName(rs[0]) && forall c <- rs :: IsName(c);
          SplitJoin(rs);
          assert ("/" + Join(rs))[1..] == Join(rs) && root[1..] == Join(ks);
        }
      }
    }
  }

  /** Below any other root every accepted path but the root itself is refused. */
  lemma BadRootRefuses(publishedPath: string, relPath: string)
    requires ResolveRoot(publishedPath).Ok? && !GoodRoot(ResolveRoot(publishedPath).value)
    requires NormalizeRelativePath(relPath).Ok? && NormalizeRelativePath(relPath).value != ""
    ensures ResolvePath(ResolveRoot(publishedPath).value, relPath) == Err(EscapesRoot)
  {
    var t, root := Text.TrimSpace(publishedPath), ResolveRoot(publishedPath).value;
    RootIsGood(publishedPath);
    SplitHasNoSlash(t);
    RelativeKeeps([], Split(t));
    RelativeRoot(t);
    var cs := AcceptedIsNames(relPath);
    var s := root + "/" + Join(cs);
    SplitHasNoSlash(s);
    RootedKeepsNames([], Split(s));
    var ks := Kept(s);
    CleanOfNames(ks);
    NotWithin("/" + Join(ks), ks, root);
  }

  lemma NotWithin(full: string, ks: seq<string>, root: string)
    requires Names(ks) && full == "/" + Join(ks)
    requires |Split(root)| > 1 && Split(root)[1] in {".", ".."}
    ensures !WithinRoot(full, root)
  {
    assert "" + "/" + Join(ks) == full;
    SplitAppend("", Join(ks));
    if ks != [] {
      assert IsName(ks[0]) && forall c <- ks :: IsName(c);
      SplitJoin(ks);
    }
    assert Split(full)[1] == "" || IsName(Split(full)[1]);
    RootEnd(root);
    var front := if root[|root| - 1] == '/' then root[..|root| - 1] else root;
    PrefixSplits(full, front);
  }

  lemma PrefixSplits(full: string, front: string)
    ensures HasPrefix(full, front + "/") ==> Split(front) <= Split(full)
  {
    if HasPrefix(full, front + "/") {
      SplitAppend(front, full[|front| + 1..]);
      assert full == front + "/" + full[|front| + 1..];
    }
  }

  lemma RootEnd(root: string)
    requires |Split(root)| > 1
    ensures root != "" && (root[|root| - 1] == '/' ==>
              root == root[..|root| - 1] + "/" && Split(root) == Split(root[..|root| - 1]) + [""])
  {
    if root[|root| - 1] == '/' {
      SplitAppend(root[..|root| - 1], "");
      assert root == root[..|root| - 1] + "/" + "";
    }
  }

  /** Every path that normalisation accepts also resolves, exactly when the published path is absolute or does
      not begin by going nowhere or up. */
  lemma ResolvesExactlyBelowGoodRoots(publishedPath: string)
    requires ResolveRoot(publishedPath).Ok?
    ensures var t, root := Text.TrimSpace(publishedPath), ResolveRoot(publishedPath).value;
      (forall relPath :: NormalizeRelativePath(relPath).Ok? ==> ResolvePath(root, relPath).Ok?)
      <==> Rooted(t) || (Kept(t) != [] && Kept(t)[0] != "..")
  {
    var root := ResolveRoot(publishedPath).value;
    RootIsGood(publishedPath);
    if GoodRoot(root) {
      forall relPath | NormalizeRelativePath(relPath).Ok?
        ensures ResolvePath(root, relPath).Ok?
      {
        ResolveThenRelative(root, relPath);
      }
    } else {
      AcceptsA();
      BadRootRefuses(publishedPath, "a");
    }
  }

  lemma AcceptsA()
    ensures NormalizeRelativePath("a") == Ok("a")
  {
    Text.TrimSpaceFixpoint("a");
    assert IsName("a");
    CleanOfNames(["a"]);
    assert Text.ReplaceAll("a", '\\', "/") == "a" by { NoBackslashKept("a"); }
    NormalizeMeaning("a");
  }

  /** What `relativeToRoot` answers for the root itself is not accepted as a path. */
  lemma DotIsRefused()
    ensures NormalizeRelativePath(".") == Err(EscapesBase) && NormalizeRelativePath("") == Ok("")
  {
    Text.TrimSpaceFixpoint(".");
    NoBackslashKept(".");
    assert "" + "/" + "." == "/.";
    SplitAppend("", ".");
    SplitName(".");
    assert ["", "."][1..] == ["."] && ["."][1..] == [];
    assert Split("/.") == ["", "."];
    assert Kept("/.") == [];
    NormalizeMeaning(".");
  }
}
