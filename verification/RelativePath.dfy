/** Lexical relative paths for bin links (src/materializer.rs, `relative_path`). */
module RelativePath {
  import opened Options
  import opened PathText
  import opened PathComponents

  predicate AgreeUpTo(a: seq<string>, b: seq<string>, n: int)
  {
    0 <= n <= |a| && n <= |b| && forall i :: 0 <= i < n ==> a[i] == b[i]
  }

  lemma AgreeTail(a: seq<string>, b: seq<string>, n: nat)
    requires a != [] && b != []
    ensures AgreeUpTo(a, b, n + 1) ==> AgreeUpTo(a[1..], b[1..], n)
  {
  }

  lemma AgreeLess(a: seq<string>, b: seq<string>, n: int, k: int)
    requires 0 <= k <= n
    ensures AgreeUpTo(a, b, n) ==> AgreeUpTo(a, b, k)
  {
  }

  /** The length of the longest common prefix. */
  function Common(a: seq<string>, b: seq<string>): (n: nat)
    ensures AgreeUpTo(a, b, n) && !AgreeUpTo(a, b, n + 1)
  {
    if a == [] || b == [] || a[0] != b[0] then 0
    else
      var n := Common(a[1..], b[1..]);
      assert forall i :: 0 < i <= n ==> a[i] == a[1..][i - 1] == b[1..][i - 1] == b[i];
      AgreeTail(a, b, n + 1);
      n + 1
  }

  lemma CommonIs(a: seq<string>, b: seq<string>, n: int)
    requires AgreeUpTo(a, b, n) && !AgreeUpTo(a, b, n + 1)
    ensures n == Common(a, b)
  {
    var m := Common(a, b);
    if m < n {
      AgreeLess(a, b, n, m + 1);
    }
    if n < m {
      AgreeLess(a, b, m, n + 1);
    }
  }

  function Ups(n: nat): (r: seq<string>)
    ensures |r| == n && forall i :: 0 <= i < n ==> r[i] == ".."
  {
    seq(n, i => "..")
  }

  /** Up to the common prefix, then down: the pieces of the relative path. */
  function RelativeParts(source: seq<string>, target: seq<string>): seq<string>
  {
    var n := Common(source, target);
    Ups(|source| - n) + target[n..]
  }

  function Relative(source: string, target: string): Option<string>
  {
    var (a, b) := (Names(Components(source)), Names(Components(target)));
    if a.None? || b.None? then None
    else
      var parts := RelativeParts(a.value, b.value);
      Some(if parts == [] then "." else Join(parts))
  }

  method CleanComponents(path: string) returns (r: Option<seq<string>>)
    ensures r == Names(Components(path))
  {
    hide Components;
    var components := Components(path);
    var out: seq<string> := [];
    assert components[..0] == [];
    for i := 0 to |components|
      invariant Names(components[..i]) == Some(out)
    {
      NamesAppend(components[..i], components[i..]);
      assert components[..i] + components[i..] == components;
      NamesStep(components[..i], components[i]);
      assert components[..i + 1] == components[..i] + [components[i]];
      match components[i] {
        case Normal(name) => out := out + [name];
        case CurDir =>
        case _ => return None;
      }
    }
    assert components[..|components|] == components;
    return Some(out);
  }

  method CountCommon(a: seq<string>, b: seq<string>) returns (common: nat)
    ensures common == Common(a, b)
  {
    common := 0;
    while common < |a| && common < |b| && a[common] == b[common]
      invariant AgreeUpTo(a, b, common)
    {
      common := common + 1;
    }
    CommonIs(a, b, common);
  }

  method BuildParts(source: seq<string>, target: seq<string>) returns (parts: seq<string>)
    ensures parts == RelativeParts(source, target)
  {
    var common := CountCommon(source, target);
    var ups := if |source| > common then |source| - common else 0;
    parts := Ups(ups);
    var down := target[common..];
    for i := 0 to |down|
      invariant parts == Ups(ups) + down[..i]
    {
      parts := parts + [down[i]];
    }
    assert down[..|down|] == down;
  }

  method RelativePath(source: string, target: string) returns (r: Option<string>)
    ensures r == Relative(source, target)
  {
    hide Names, Components, Join, RelativeParts;
    var a := CleanComponents(source);
    if a.None? {
      return None;
    }
    var b := CleanComponents(target);
    if b.None? {
      return None;
    }
    var parts := BuildParts(a.value, b.value);
    if parts == [] {
      return Some(".");
    }
    return Some(Join(parts));
  }

  // ---------------------------------------------------------------- it leads there

  lemma ParentStep(pieces: seq<string>, stack: seq<string>)
    requires pieces != [] && pieces[0] == ".." && stack != []
    ensures Resolve(FromPieces(pieces, false), stack) == Resolve(FromPieces(pieces[1..], false), stack[..|stack| - 1])
  {
    var rest := FromPieces(pieces[1..], false);
    assert ([ParentDir] + rest)[1..] == rest;
  }

  lemma NameStep(pieces: seq<string>, stack: seq<string>)
    requires pieces != [] && ProperName(pieces[0])
    ensures Resolve(FromPieces(pieces, false), stack) == Resolve(FromPieces(pieces[1..], false), stack + [pieces[0]])
  {
    var rest := FromPieces(pieces[1..], false);
    assert ([Normal(pieces[0])] + rest)[1..] == rest;
  }

  lemma {:induction false} UpsPop(pieces: seq<string>, n: nat, stack: seq<string>)
    requires n <= |stack| && n <= |pieces| && forall i :: 0 <= i < n ==> pieces[i] == ".."
    ensures Resolve(FromPieces(pieces, false), stack) == Resolve(FromPieces(pieces[n..], false), stack[..|stack| - n])
    decreases n
  {
    hide Resolve, FromPieces;
    if n == 0 {
      assert pieces[0..] == pieces && stack[..|stack|] == stack;
    } else {
      ParentStep(pieces, stack);
      UpsPop(pieces[1..], n - 1, stack[..|stack| - 1]);
      assert pieces[1..][n - 1..] == pieces[n..];
      assert stack[..|stack| - 1][..|stack| - n] == stack[..|stack| - n];
    }
  }

  lemma {:induction false} NamesPush(pieces: seq<string>, stack: seq<string>)
    requires ProperNames(pieces)
    ensures Resolve(FromPieces(pieces, false), stack) == Some(stack + pieces)
  {
    if pieces == [] {
      assert stack + [] == stack;
    } else {
      NameStep(pieces, stack);
      NamesPush(pieces[1..], stack + [pieces[0]]);
      assert stack + [pieces[0]] + pieces[1..] == stack + pieces;
    }
  }

  lemma PartsLead(source: seq<string>, target: seq<string>)
    requires ProperNames(target)
    ensures Resolve(FromPieces(RelativeParts(source, target), false), source) == Some(target)
  {
    hide Resolve, FromPieces, Common, ProperName;
    var n := Common(source, target);
    var ups := |source| - n;
    var parts := RelativeParts(source, target);
    assert parts[ups..] == target[n..];
    UpsPop(parts, ups, source);
    NamesPush(target[n..], source[..n]);
    AgreeingFronts(source, target, n);
  }

  lemma AgreeingFronts(a: seq<string>, b: seq<string>, n: int)
    requires AgreeUpTo(a, b, n)
    ensures a[..n] + b[n..] == b
  {
    assert a[..n] == b[..n];
  }

  /** The text of the relative path splits back into its parts; `.` stands for none. */
  lemma RelativeText(source: seq<string>, target: seq<string>)
    requires ProperNames(target)
    ensures var parts := RelativeParts(source, target);
            var text := if parts == [] then "." else Join(parts);
            !Absolute(text) && FromPieces(Split(text), false) == FromPieces(parts, false)
  {
    var parts := RelativeParts(source, target);
    if parts == [] {
      SplitPiece(".");
    } else {
      assert forall i :: 0 <= i < |parts| ==> parts[i] != "" && SlashFree(parts[i]);
      SplitJoin(parts);
      assert Join(parts) != "" && Join(parts)[0] == parts[0][0];
      assert parts[0][0] in parts[0];
    }
  }

  /**
   For paths made of names, joining the source with the relative path and resolving the dots
   gives exactly the target; for any other path there is no relative path.
   */
  lemma RelativePathLeads(source: string, target: string)
    ensures Relative(source, target).Some? <==>
              !Absolute(source) && ".." !in Split(source) && !Absolute(target) && ".." !in Split(target)
    ensures Relative(source, target).Some? ==>
              Resolve(Components(JoinPath(source, Relative(source, target).value)), []) == Names(Components(target))
  {
    hide Components, Split, FromPieces, RelativeParts;
    NamesIff(source);
    NamesIff(target);
    if Relative(source, target).Some? {
      var (a, b) := (Names(Components(source)).value, Names(Components(target)).value);
      var text := Relative(source, target).value;
      ComponentNamesAreProper(target);
      RelativeText(a, b);
      PartsLead(a, b);
      ResolveJoined(source, text);
      NamesResolve(Components(source), []);
      assert [] + a == a;
      LeadingDotIsFree(Split(text), a);
      RelativeComponents(text);
    }
  }

  // ---------------------------------------------------------------- and nothing is shorter

  function Distance(a: seq<string>, b: seq<string>): nat
  {
    |a| + |b| - 2 * Common(a, b)
  }

  lemma {:induction false} CommonPush(a: seq<string>, x: string, b: seq<string>)
    ensures Common(a, b) <= Common(a + [x], b) <= Common(a, b) + 1
  {
    if a != [] && b != [] && a[0] == b[0] {
      assert (a + [x])[1..] == a[1..] + [x];
      CommonPush(a[1..], x, b[1..]);
    }
  }

  lemma {:induction false} NoShorterRoute(components: seq<Component>, stack: seq<string>, target: seq<string>)
    requires Resolve(components, stack) == Some(target)
    ensures |components| >= Distance(stack, target)
  {
    if components == [] {
      CommonIs(stack, target, |stack|);
    } else {
      match components[0]
      case Normal(name) =>
        CommonPush(stack, name, target);
        NoShorterRoute(components[1..], stack + [name], target);
      case CurDir => NoShorterRoute(components[1..], stack, target);
      case ParentDir =>
        var shorter := stack[..|stack| - 1];
        assert stack == shorter + [stack[|stack| - 1]];
        CommonPush(shorter, stack[|stack| - 1], target);
        NoShorterRoute(components[1..], shorter, target);
    }
  }

  /** The relative path has as few steps as any sequence of components leading there. */
  lemma RelativeIsShortest(source: seq<string>, target: seq<string>, components: seq<Component>)
    requires Resolve(components, source) == Some(target)
    ensures |RelativeParts(source, target)| <= |components|
  {
    NoShorterRoute(components, source, target);
  }

  // ---------------------------------------------------------------- bin links

  /** Drop one leading `./`. */
  function StripDotSlash(s: string): string
  {
    if "./" <= s then s[2..] else s
  }

  /** One leading `./` is dropped, and only one; a text without it stays. */
  lemma StripsOneDotSlash(s: string)
    ensures StripDotSlash("./" + s) == s && StripDotSlash("././" + s) == "./" + s
    ensures (|s| < 2 || s[0] != '.' || s[1] != '/') ==> StripDotSlash(s) == s
  {
    assert "././" + s == "./" + ("./" + s);
  }

  const BIN_DIR := "node_modules/.bin"

  /** The text written into `node_modules/.bin/<name>`. */
  method RelativeBinTarget(packagePath: string, relpath: string) returns (text: string)
    ensures var target := JoinPath(packagePath, StripDotSlash(relpath));
            text == if Relative(BIN_DIR, target).Some? then Relative(BIN_DIR, target).value else target
  {
    var target := JoinPath(packagePath, StripDotSlash(relpath));
    var relative := RelativePath(BIN_DIR, target);
    return if relative.Some? then relative.value else target;
  }

  /** Read from the bin directory, the link text leads to the package's file. */
  lemma BinLinkLeads(packagePath: string, relpath: string)
    requires var target := JoinPath(packagePath, StripDotSlash(relpath)); !Absolute(target) && ".." !in Split(target)
    ensures var target := JoinPath(packagePath, StripDotSlash(relpath));
            && Relative(BIN_DIR, target).Some?
            && Resolve(Components(JoinPath(BIN_DIR, Relative(BIN_DIR, target).value)), []) == Names(Components(target))
  {
    hide Components, Split, Resolve, Names, JoinPath, Relative;
    BinDirIsClean();
    RelativePathLeads(BIN_DIR, JoinPath(packagePath, StripDotSlash(relpath)));
  }

  lemma BinDirIsClean()
    ensures !Absolute(BIN_DIR) && ".." !in Split(BIN_DIR)
  {
    hide Split;
    assert BIN_DIR == "node_modules" + "/" + ".bin";
    SplitAppend("node_modules", ".bin");
    SplitPiece("node_modules");
    SplitPiece(".bin");
  }
}
