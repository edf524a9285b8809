/** Strict layout validation of a lock (src/materializer.rs, `validate_strict_layout`). */
module StrictLayout {
  import opened Options
  import opened NodePaths
  import opened LockTypes
  import opened LockNormal

  datatype LayoutFault =
    | InvalidRootPlacement
    | HoistedWithoutRootDependency
    | MissingParent
    | NotDeclaredByParent
    | TargetsElsewhere
    | InvalidTarget

  /** The recorded dependency `name` of the package at `parent`. */
  function Recorded(l: Lock, parent: string, name: string): Option<LockDependency>
  {
    if parent in l.resolution.packages && name in l.resolution.packages[parent].dependencies
    then Some(l.resolution.packages[parent].dependencies[name]) else None
  }

  predicate RootPlaced(l: Lock, package: PackageEntry)
  {
    package.path == ROOT_PREFIX + package.name && package.name in l.root.dependencies
  }

  predicate NestedPlaced(l: Lock, package: PackageEntry, parent: string, name: string)
  {
    var entry := FindEntry(l.packages, parent);
    && entry.Some? && entry.value.name != ""
    && Recorded(l, parent, name).Some? && Recorded(l, parent, name).value.target == package.path
    && package.path in PathsOf(l.packages)
  }

  predicate WellPlaced(l: Lock, package: PackageEntry)
  {
    match SplitLast(package.path)
    case None => RootPlaced(l, package)
    case Some((parent, name)) => NestedPlaced(l, package, parent, name)
  }

  predicate StrictlyLaidOut(l: Lock)
  {
    forall i :: 0 <= i < |l.packages| ==> WellPlaced(l, l.packages[i])
  }

  method CheckPlacement(l: Lock, package: PackageEntry, paths: set<string>) returns (fault: Option<LayoutFault>)
    requires paths == PathsOf(l.packages)
    ensures fault.None? <==> WellPlaced(l, package)
    ensures SplitLast(package.path).None? && fault.Some? ==>
              fault.value == if package.path != ROOT_PREFIX + package.name then InvalidRootPlacement else HoistedWithoutRootDependency
    ensures SplitLast(package.path).Some? ==>
              var (parent, name) := SplitLast(package.path).value;
              var recorded := Recorded(l, parent, name);
              && (fault == Some(MissingParent) <==> parent !in paths)
              && (fault == Some(NotDeclaredByParent) <==> parent in paths && recorded.None?)
              && (fault == Some(TargetsElsewhere) <==> parent in paths && recorded.Some? && recorded.value.target != package.path)
              && (fault == Some(InvalidTarget) <==>
                    parent in paths && recorded.Some? && recorded.value.target == package.path
                    && (package.path !in paths || FindEntry(l.packages, parent).value.name == ""))
  {
    var cut := SplitLast(package.path);
    if cut.None? {
      if package.path != ROOT_PREFIX + package.name {
        return Some(InvalidRootPlacement);
      }
      if package.name !in l.root.dependencies {
        return Some(HoistedWithoutRootDependency);
      }
      return None;
    }
    var (parent, name) := cut.value;
    var entry := FindEntry(l.packages, parent);
    if entry.None? {
      return Some(MissingParent);
    }
    var dependency := Recorded(l, parent, name);
    if dependency.None? {
      return Some(NotDeclaredByParent);
    }
    if dependency.value.target != package.path {
      return Some(TargetsElsewhere);
    }
    if dependency.value.target !in paths || entry.value.name == "" {
      return Some(InvalidTarget);
    }
    return None;
  }

  /** `validate_strict_layout`: the first misplaced package, if there is one. */
  method ValidateStrictLayout(l: Lock) returns (fault: Option<(nat, LayoutFault)>)
    ensures fault.None? <==> StrictlyLaidOut(l)
    ensures fault.Some? ==> fault.value.0 < |l.packages| && !WellPlaced(l, l.packages[fault.value.0])
                            && forall j :: 0 <= j < fault.value.0 ==> WellPlaced(l, l.packages[j])
  {
    hide WellPlaced;
    var paths := PathsOf(l.packages);
    for i := 0 to |l.packages|
      invariant forall j :: 0 <= j < i ==> WellPlaced(l, l.packages[j])
    {
      var found := CheckPlacement(l, l.packages[i], paths);
      if found.Some? {
        return Some((i, found.value));
      }
    }
    return None;
  }

  // ---------------------------------------------------------------- reachability

  /** The package at `a` records a dependency whose target is `b`. */
  ghost predicate Follows(l: Lock, a: string, b: string)
  {
    exists name :: Recorded(l, a, name).Some? && Recorded(l, a, name).value.target == b
  }

  /** From a declared root dependency, one recorded target after the other, through locked packages. */
  ghost predicate Route(l: Lock, route: seq<string>)
  {
    && route != []
    && (exists name :: name in l.root.dependencies && route[0] == ROOT_PREFIX + name)
    && (forall i :: 0 <= i < |route| ==> route[i] in PathsOf(l.packages))
    && (forall i :: 0 < i < |route| ==> Follows(l, route[i - 1], route[i]))
  }

  ghost predicate ReachableFromRoot(l: Lock, path: string)
  {
    exists route :: Route(l, route) && route[|route| - 1] == path
  }

  lemma ExtendRoute(l: Lock, a: string, b: string)
    requires ReachableFromRoot(l, a) && Follows(l, a, b) && b in PathsOf(l.packages)
    ensures ReachableFromRoot(l, b)
  {
    var route :| Route(l, route) && route[|route| - 1] == a;
    var longer := route + [b];
    assert longer[0] == route[0];
    assert Route(l, longer);
  }

  /** An accepted lock holds no package that the declared root dependencies do not lead to. */
  lemma {:induction false} AcceptedIsReachable(l: Lock, i: nat)
    requires StrictlyLaidOut(l) && i < |l.packages|
    ensures ReachableFromRoot(l, l.packages[i].path)
    decreases |l.packages[i].path|
  {
    hide SplitLast, RFind;
    var package := l.packages[i];
    assert WellPlaced(l, package);
    assert package.path in PathsOf(l.packages);
    match SplitLast(package.path) {
      case None =>
        assert package.name in l.root.dependencies;
        assert Route(l, [package.path]);
        assert [package.path][|[package.path]| - 1] == package.path;
      case Some((parent, name)) =>
        var k :| 0 <= k < |l.packages| && l.packages[k].path == parent;
        AcceptedIsReachable(l, k);
        assert Recorded(l, parent, name).value.target == package.path;
        ExtendRoute(l, parent, package.path);
    }
  }

  /**
   What acceptance says of a package named by a list of clean names: either it sits directly in
   `node_modules` and the root declares it, or the package one name up is locked and
   records it under exactly its last name.
   */
  lemma AcceptedByNames(l: Lock, i: nat, names: seq<string>)
    requires i < |l.packages| && names != [] && CleanNames(names) && l.packages[i].path == Render(names)
    ensures WellPlaced(l, l.packages[i]) <==>
              if |names| == 1 then l.packages[i].name == names[0] && names[0] in l.root.dependencies
              else NestedPlaced(l, l.packages[i], Render(names[..|names| - 1]), names[|names| - 1])
  {
    hide RFind;
    var package := l.packages[i];
    if |names| == 1 {
      SplitRoot(names[0]);
      assert (ROOT_PREFIX + names[0])[|ROOT_PREFIX|..] == names[0];
      assert (ROOT_PREFIX + package.name)[|ROOT_PREFIX|..] == package.name;
    } else {
      SplitChild(Render(names[..|names| - 1]), names[|names| - 1]);
    }
  }
}
