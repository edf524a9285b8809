/**
 The lexical check that a symlink stays inside its image (src/archive.rs).

 The check counts a depth in an `i32`; following the link walks a stack of names. The two agree
 as long as the depth cannot leave the `i32` range.
 */
module SymlinkDepth {
  import opened Options
  import opened PathText
  import opened PathComponents

  const I32_LIMIT := 0x8000_0000

  /** An `i32` result of adding or subtracting one, wrapping around. */
  function Wrap(n: int): int
  {
    (n + I32_LIMIT) % (2 * I32_LIMIT) - I32_LIMIT
  }

  datatype PathError = Traversal | AbsolutePath

  datatype Validated = Clean(names: seq<string>) | Refused(error: PathError)

  /** The refusal is for the first component that is not a name or `.`. */
  function Validate(components: seq<Component>): Validated
  {
    if components == [] then Clean([])
    else
      match components[0]
      case Normal(name) =>
        (match Validate(components[1..])
         case Clean(names) => Clean([name] + names)
         case Refused(error) => Refused(error))
      case CurDir => Validate(components[1..])
      case ParentDir => Refused(Traversal)
      case RootDir => Refused(AbsolutePath)
  }

  lemma {:induction false} ValidateIsNames(components: seq<Component>)
    ensures Validate(components).Clean? <==> Names(components).Some?
    ensures Validate(components).Clean? ==> Validate(components).names == Names(components).value
  {
    if components != [] {
      ValidateIsNames(components[1..]);
    }
  }

  lemma {:induction false} ValidateAppend(a: seq<Component>, b: seq<Component>)
    requires Validate(a).Clean?
    ensures Validate(a + b) == match Validate(b)
                               case Clean(names) => Clean(Validate(a).names + names)
                               case Refused(error) => Refused(error)
  {
    if a == [] {
      assert a + b == b;
      assert Validate(b).Clean? ==> [] + Validate(b).names == Validate(b).names;
    } else {
      assert (a + b)[1..] == a[1..] + b;
      ValidateAppend(a[1..], b);
      if a[0].Normal? && Validate(b).Clean? {
        assert [a[0].name] + Validate(a[1..]).names + Validate(b).names == [a[0].name] + (Validate(a[1..]).names + Validate(b).names);
      }
    }
  }

  lemma ValidateStep(front: seq<Component>, c: Component)
    requires Validate(front).Clean?
    ensures c.Normal? ==> Validate(front + [c]) == Clean(Validate(front).names + [c.name])
    ensures c.CurDir? ==> Validate(front + [c]) == Validate(front)
  {
    ValidateAppend(front, [c]);
    assert [c][1..] == [];
    assert Validate([]) == Clean([]);
    if c.CurDir? {
      assert Validate(front).names + [] == Validate(front).names;
    } else if c.Normal? {
      assert [c.name] + [] == [c.name];
    }
  }

  lemma ValidateFault(components: seq<Component>, i: nat)
    requires i < |components| && Validate(components[..i]).Clean? && (components[i].ParentDir? || components[i].RootDir?)
    ensures Validate(components) == Refused(if components[i].ParentDir? then Traversal else AbsolutePath)
  {
    assert components == components[..i] + components[i..];
    ValidateAppend(components[..i], components[i..]);
  }

  lemma NothingIsClean()
    ensures Components("") == [] && Validate([]) == Clean([])
  {
  }

  /** `validate_returned_relative`; a `PathBuf` grown by `push` is its list of names. */
  method ValidateReturnedRelative(path: string) returns (r: Validated)
    ensures r == Validate(Components(path))
  {
    hide Validate, Components;
    NothingIsClean();
    if path == "" {
      return Clean([]);
    }
    var components := Components(path);
    var out: seq<string> := [];
    assert components[..0] == [];
    for i := 0 to |components|
      invariant Validate(components[..i]) == Clean(out)
    {
      assert components[..i + 1] == components[..i] + [components[i]];
      ValidateStep(components[..i], components[i]);
      match components[i] {
        case Normal(name) =>
          out := out + [name];
        case CurDir =>
        case ParentDir =>
          ValidateFault(components, i);
          return Refused(Traversal);
        case RootDir =>
          ValidateFault(components, i);
          return Refused(AbsolutePath);
      }
    }
    assert components[..|components|] == components;
    return Clean(out);
  }

  /** `Path::parent`, with the empty path where there is none. */
  function Parent(components: seq<Component>): seq<Component>
  {
    if components == [] || components[|components| - 1].RootDir? then []
    else components[..|components| - 1]
  }

  /** The depth loop over the link's directory; `None` when it gives up. */
  function DepthOf(components: seq<Component>, depth: int): Option<int>
  {
    if components == [] then Some(depth)
    else
      match components[0]
      case Normal(_) => DepthOf(components[1..], Wrap(depth + 1))
      case CurDir => DepthOf(components[1..], depth)
      case _ => None
  }

  /** The depth loop over the target. */
  function DepthAlong(components: seq<Component>, depth: int): Option<int>
  {
    if components == [] then Some(depth)
    else
      match components[0]
      case Normal(_) => DepthAlong(components[1..], Wrap(depth + 1))
      case CurDir => DepthAlong(components[1..], depth)
      case ParentDir => if Wrap(depth - 1) < 0 then None else DepthAlong(components[1..], Wrap(depth - 1))
      case RootDir => None
  }

  /** What the check computes, the final comparison included. */
  predicate Within(link: seq<Component>, target: seq<Component>)
  {
    var start := DepthOf(Parent(link), 0);
    start.Some? && DepthAlong(target, start.value).Some? && DepthAlong(target, start.value).value >= 0
  }

  method SymlinkWithinRoot(link: string, target: string) returns (ok: bool)
    ensures ok <==> Within(Components(link), Components(target))
  {
    hide Components;
    if Absolute(target) {
      AbsoluteIsOutside(Components(link), target);
      return false;
    }
    var depth := 0;
    var directory := Parent(Components(link));
    for i := 0 to |directory|
      invariant DepthOf(directory, 0) == DepthOf(directory[i..], depth)
    {
      assert directory[i..][1..] == directory[i + 1..];
      match directory[i] {
        case Normal(_) => depth := Wrap(depth + 1);
        case CurDir =>
        case _ => return false;
      }
    }
    var components := Components(target);
    ghost var start := depth;
    assert directory[|directory|..] == [];
    for i := 0 to |components|
      invariant DepthAlong(components, start) == DepthAlong(components[i..], depth)
    {
      assert components[i..][1..] == components[i + 1..];
      match components[i] {
        case Normal(_) => depth := Wrap(depth + 1);
        case CurDir =>
        case ParentDir =>
          depth := Wrap(depth - 1);
          if depth < 0 {
            return false;
          }
        case RootDir => return false;
      }
    }
    assert components[|components|..] == [];
    return depth >= 0;
  }

  lemma AbsoluteIsOutside(link: seq<Component>, target: string)
    requires Absolute(target)
    ensures !Within(link, Components(target))
  {
    assert Components(target)[0] == RootDir;
  }

  /** `resolve_relative`: follow the target on a path that grows and shrinks. */
  method ResolveRelative(parent: seq<string>, target: string) returns (r: Option<seq<string>>)
    ensures r == Resolve(Components(target), parent)
  {
    hide Components;
    var parts := parent;
    var components := Components(target);
    for i := 0 to |components|
      invariant Resolve(components, parent) == Resolve(components[i..], parts)
    {
      assert components[i..][1..] == components[i + 1..];
      match components[i] {
        case Normal(name) => parts := parts + [name];
        case CurDir =>
        case ParentDir =>
          if parts == [] {
            return None;
          }
          parts := parts[..|parts| - 1];
        case RootDir => return None;
      }
    }
    assert components[|components|..] == [];
    return Some(parts);
  }

  // ---------------------------------------------------------------- counting is following

  lemma WrapInside(n: int)
    requires -I32_LIMIT <= n < I32_LIMIT
    ensures Wrap(n) == n
  {
  }

  lemma WrapAdd(a: int, b: int)
    ensures Wrap(Wrap(a) + b) == Wrap(a + b)
  {
    var m := 2 * I32_LIMIT;
    var k := (a + I32_LIMIT) / m;
    assert Wrap(a) == a - m * k;
    assert (a + b + I32_LIMIT - m * k) % m == (a + b + I32_LIMIT) % m;
  }

  lemma {:induction false} DirectoryDepth(components: seq<Component>, depth: int)
    ensures DepthOf(components, Wrap(depth)) ==
            if Names(components).None? then None else Some(Wrap(depth + |Names(components).value|))
  {
    hide Wrap;
    if components != [] {
      match components[0]
      case Normal(_) =>
        WrapAdd(depth, 1);
        DirectoryDepth(components[1..], depth + 1);
      case CurDir => DirectoryDepth(components[1..], depth);
      case _ =>
    }
  }

  /** Counting never outlives the stack: where following fails, counting gave up by then. */
  lemma {:induction false} CountingIsSafe(components: seq<Component>, stack: seq<string>)
    ensures var counted := DepthAlong(components, Wrap(|stack|));
            counted.Some? ==> Resolve(components, stack).Some? && counted.value == Wrap(|Resolve(components, stack).value|)
  {
    hide Wrap;
    if components != [] {
      match components[0]
      case Normal(name) =>
        WrapAdd(|stack|, 1);
        CountingIsSafe(components[1..], stack + [name]);
      case CurDir => CountingIsSafe(components[1..], stack);
      case ParentDir =>
        WrapAdd(|stack|, -1);
        if stack == [] {
          WrapInside(-1);
        } else {
          CountingIsSafe(components[1..], stack[..|stack| - 1]);
        }
      case RootDir =>
    }
  }

  /** Inside the `i32` range the depth is the height of the stack, and both give up together. */
  lemma {:induction false} DepthIsStackHeight(components: seq<Component>, stack: seq<string>)
    requires |stack| + |components| < I32_LIMIT
    ensures DepthAlong(components, |stack|) ==
            (var end := Resolve(components, stack); if end.None? then None else Some(|end.value|))
  {
    if components != [] {
      match components[0]
      case Normal(name) =>
        WrapInside(|stack| + 1);
        DepthIsStackHeight(components[1..], stack + [name]);
      case CurDir => DepthIsStackHeight(components[1..], stack);
      case ParentDir =>
        WrapInside(|stack| - 1);
        if stack != [] {
          DepthIsStackHeight(components[1..], stack[..|stack| - 1]);
        }
      case RootDir =>
    }
  }

  /** The cleaned text of an accepted path reads back as the same names. */
  lemma CleanedReadsBack(path: string)
    requires Validate(Components(path)).Clean?
    ensures var names := Validate(Components(path)).names;
            ProperNames(names) && Components(Join(names)) == Normals(names)
            && Validate(Components(Join(names))) == Clean(names)
  {
    hide Components, Normals;
    var names := Validate(Components(path)).names;
    ValidateIsNames(Components(path));
    ComponentNamesAreProper(path);
    TextOfNames(names);
    NamesOfNormals(names);
    ValidateIsNames(Normals(names));
  }

  function DirectoryOf(names: seq<string>): seq<string>
  {
    if names == [] then [] else names[..|names| - 1]
  }

  lemma DirectoryStart(names: seq<string>)
    ensures Names(Parent(Normals(names))) == Some(DirectoryOf(names))
    ensures DepthOf(Parent(Normals(names)), 0) == Some(Wrap(|DirectoryOf(names)|))
  {
    assert Parent(Normals(names)) == Normals(DirectoryOf(names));
    NamesOfNormals(DirectoryOf(names));
    WrapInside(0);
    DirectoryDepth(Parent(Normals(names)), 0);
  }

  /**
   For a cleaned link path: an accepted target never leaves the image, whatever its length; and
   while the component count stays below the `i32` limit, acceptance is exactly that, with the
   final depth the height of the stack that following ends on.
   */
  lemma DepthCheckIff(path: string, target: string)
    requires Validate(Components(path)).Clean?
    ensures var names := Validate(Components(path)).names;
            var end := Resolve(Components(target), DirectoryOf(names));
            && (Within(Components(Join(names)), Components(target)) ==> end.Some?)
            && (|DirectoryOf(names)| + |Components(target)| < I32_LIMIT ==>
                  (Within(Components(Join(names)), Components(target)) <==> end.Some?)
                  && (end.Some? ==> DepthAlong(Components(target), |DirectoryOf(names)|) == Some(|end.value|)))
  {
    hide Components, Normals, Wrap, Parent;
    var names := Validate(Components(path)).names;
    CleanedReadsBack(path);
    DirectoryStart(names);
    CountingIsSafe(Components(target), DirectoryOf(names));
    if |DirectoryOf(names)| + |Components(target)| < I32_LIMIT {
      WrapInside(|DirectoryOf(names)|);
      DepthIsStackHeight(Components(target), DirectoryOf(names));
    }
  }

  // ---------------------------------------------------------------- past the i32 range

  lemma {:induction false} NormalsCount(names: seq<string>, depth: int)
    ensures DepthAlong(Normals(names), Wrap(depth)) == Some(Wrap(depth + |names|))
  {
    hide Wrap;
    if names != [] {
      assert Normals(names)[1..] == Normals(names[1..]);
      WrapAdd(depth, 1);
      NormalsCount(names[1..], depth + 1);
    }
  }

  /** The limit is needed: a target of 2^31 names goes nowhere but down, and is refused. */
  lemma DeepTargetRefused(link: string, names: seq<string>)
    requires ProperNames(names) && |names| == I32_LIMIT && ProperName(link)
    ensures !Within(Components(link), Components(Join(names)))
    ensures Resolve(Components(Join(names)), []) == Some(names)
  {
    hide Components;
    assert Join([link]) == link;
    TextOfNames([link]);
    TextOfNames(names);
    assert DirectoryOf([link]) == [];
    DirectoryStart([link]);
    NormalsCount(names, 0);
    NamesOfNormals(names);
    NamesResolve(Normals(names), []);
    assert [] + names == names;
  }
}
