/**
 Placement paths as strings. `node_modules/a/node_modules/b` is the copy of `b` below the root
 copy of `a`; its parent is found by cutting at the last `/node_modules/`.
 */
module NodePaths {
  import opened Options

  const SEPARATOR := "/node_modules/"
  const ROOT_PREFIX := "node_modules/"

  predicate Occurs(s: string, pattern: string, at: int)
  {
    0 <= at && at + |pattern| <= |s| && s[at..at + |pattern|] == pattern
  }

  /** `str::rfind`, searching down from position `at`. */
  function RFindFrom(s: string, pattern: string, at: nat): (r: Option<nat>)
    ensures r.Some? ==> r.value <= at && Occurs(s, pattern, r.value) && forall j :: r.value < j <= at ==> !Occurs(s, pattern, j)
    ensures r.None? ==> forall j :: 0 <= j <= at ==> !Occurs(s, pattern, j)
  {
    if Occurs(s, pattern, at) then Some(at)
    else if at == 0 then None
    else RFindFrom(s, pattern, at - 1)
  }

  function RFind(s: string, pattern: string): (r: Option<nat>)
    ensures r.Some? ==> Occurs(s, pattern, r.value) && forall j :: r.value < j ==> !Occurs(s, pattern, j)
    ensures r.None? ==> forall j :: !Occurs(s, pattern, j)
  {
    RFindFrom(s, pattern, |s|)
  }

  /** `path.rsplit_once("/node_modules/")`: the parent's path and the package's own name. */
  function SplitLast(path: string): (r: Option<(string, string)>)
    ensures r.Some? ==> path == r.value.0 + SEPARATOR + r.value.1
  {
    match RFind(path, SEPARATOR)
    case None => None
    case Some(at) => Some((path[..at], path[at + |SEPARATOR|..]))
  }

  /** A package name no part of which reads as a `node_modules` directory. */
  predicate CleanName(name: string)
  {
    forall j :: 0 <= j <= |name| + 1 ==> !Occurs("/" + name, SEPARATOR, j)
  }

  /** Cutting a child's path at the last separator gives back the parent and the name. */
  lemma SplitChild(parent: string, name: string)
    requires CleanName(name)
    ensures SplitLast(parent + SEPARATOR + name) == Some((parent, name))
  {
    var s := parent + SEPARATOR + name;
    assert s[|parent|..|parent| + |SEPARATOR|] == SEPARATOR;
    assert Occurs(s, SEPARATOR, |parent|);
    forall j | j > |parent| && Occurs(s, SEPARATOR, j)
      ensures false
    {
      var k := j - |parent|;
      assert s[j] == s[j..j + |SEPARATOR|][0] == '/';
      if k >= |SEPARATOR| - 1 {
        var o := k - (|SEPARATOR| - 1);
        assert s[|parent| + |SEPARATOR| - 1..] == "/" + name;
        assert ("/" + name)[o..o + |SEPARATOR|] == s[j..j + |SEPARATOR|];
        assert Occurs("/" + name, SEPARATOR, o);
      }
    }
    assert s[..|parent|] == parent && s[|parent| + |SEPARATOR|..] == name;
  }

  lemma SuffixOccurs(prefix: string, s: string, pattern: string)
    ensures forall j :: Occurs(s, pattern, j) ==> Occurs(prefix + s, pattern, |prefix| + j)
  {
    forall j | Occurs(s, pattern, j)
      ensures Occurs(prefix + s, pattern, |prefix| + j)
    {
      assert (prefix + s)[|prefix| + j..|prefix| + j + |pattern|] == s[j..j + |pattern|];
    }
  }

  lemma SplitRoot(name: string)
    requires CleanName(name)
    ensures SplitLast(ROOT_PREFIX + name) == None
  {
    hide SplitLast, RFind, RFindFrom, Occurs, CleanName;
    SplitChild("", name);
    var s := ROOT_PREFIX + name;
    assert "/" + s == "" + SEPARATOR + name;
    OnlyAtFront(s, name);
  }

  lemma OnlyAtFront(s: string, name: string)
    requires SplitLast("/" + s) == Some(("", name))
    ensures SplitLast(s) == None
  {
    hide RFindFrom, RFind;
    SuffixOccurs("/", s, SEPARATOR);
  }

  /** The string form of a list of package names from the root; the root itself is empty. */
  function Render(names: seq<string>): string
  {
    if |names| == 0 then ""
    else if |names| == 1 then ROOT_PREFIX + names[0]
    else Render(names[..|names| - 1]) + SEPARATOR + names[|names| - 1]
  }

  predicate CleanNames(names: seq<string>)
  {
    forall i :: 0 <= i < |names| ==> CleanName(names[i])
  }

  /** `resolver::parent_path` on strings is dropping the last name of the list. */
  lemma RenderParent(names: seq<string>)
    requires CleanNames(names) && names != []
    ensures var cut := SplitLast(Render(names));
            (if cut.Some? then cut.value.0 else "") == Render(names[..|names| - 1])
  {
    if |names| == 1 {
      SplitRoot(names[0]);
    } else {
      SplitChild(Render(names[..|names| - 1]), names[|names| - 1]);
    }
  }

  /** Different name lists are different paths, so maps keyed by either form agree. */
  lemma {:induction false} RenderInjective(a: seq<string>, b: seq<string>)
    requires CleanNames(a) && CleanNames(b) && Render(a) == Render(b)
    ensures a == b
    decreases |a|
  {
    if a == [] || b == [] {
      assert |Render(a)| == 0;
      assert a == [] && b == [];
    } else {
      var i, j := |a| - 1, |b| - 1;
      if |a| > 1 {
        SplitChild(Render(a[..i]), a[i]);
      } else {
        SplitRoot(a[0]);
      }
      if |b| > 1 {
        SplitChild(Render(b[..j]), b[j]);
      } else {
        SplitRoot(b[0]);
      }
      if |a| > 1 {
        RenderInjective(a[..i], b[..j]);
        assert a == a[..i] + [a[i]] && b == b[..j] + [b[j]];
      } else {
        assert (ROOT_PREFIX + a[0])[|ROOT_PREFIX|..] == a[0];
        assert (ROOT_PREFIX + b[0])[|ROOT_PREFIX|..] == b[0];
      }
    }
  }
}
