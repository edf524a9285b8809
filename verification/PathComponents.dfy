/**
 `Path::components` on Unix: empty pieces and inner `.` pieces vanish, a leading `/` is the root,
 a leading `.` is kept. Resolving walks the components over a stack of names.
 */
module PathComponents {
  import opened Options
  import opened PathText

  datatype Component = RootDir | CurDir | ParentDir | Normal(name: string)

  function PieceComponent(piece: string, first: bool): seq<Component>
  {
    if piece == "" then []
    else if piece == "." then (if first then [CurDir] else [])
    else if piece == ".." then [ParentDir]
    else [Normal(piece)]
  }

  function FromPieces(pieces: seq<string>, first: bool): seq<Component>
  {
    if pieces == [] then [] else PieceComponent(pieces[0], first) + FromPieces(pieces[1..], false)
  }

  predicate Absolute(s: string)
  {
    s != "" && s[0] == '/'
  }

  function Components(s: string): seq<Component>
  {
    (if Absolute(s) then [RootDir] else []) + FromPieces(Split(s), true)
  }

  /** `Path::join` */
  function JoinPath(base: string, s: string): string
  {
    if Absolute(s) || base == "" then s
    else if base[|base| - 1] == '/' then base + s
    else base + "/" + s
  }

  /** Names only: `CurDir` is dropped, anything but a name gives up. */
  function Names(components: seq<Component>): (r: Option<seq<string>>)
  {
    if components == [] then Some([])
    else
      var rest := Names(components[1..]);
      match components[0]
      case Normal(name) => if rest.None? then None else Some([name] + rest.value)
      case CurDir => rest
      case _ => None
  }

  /** Walk the components from a stack of names; popping the empty stack, or a root, fails. */
  function Resolve(components: seq<Component>, stack: seq<string>): (r: Option<seq<string>>)
  {
    if components == [] then Some(stack)
    else
      match components[0]
      case Normal(name) => Resolve(components[1..], stack + [name])
      case CurDir => Resolve(components[1..], stack)
      case ParentDir => if stack == [] then None else Resolve(components[1..], stack[..|stack| - 1])
      case RootDir => None
  }

  lemma {:induction false} ResolveAppend(a: seq<Component>, b: seq<Component>, stack: seq<string>)
    ensures Resolve(a + b, stack) == (var mid := Resolve(a, stack); if mid.None? then None else Resolve(b, mid.value))
  {
    if a == [] {
      assert a + b == b;
    } else {
      assert (a + b)[1..] == a[1..] + b;
      match a[0] {
        case Normal(name) => ResolveAppend(a[1..], b, stack + [name]);
        case CurDir => ResolveAppend(a[1..], b, stack);
        case ParentDir => if stack != [] { ResolveAppend(a[1..], b, stack[..|stack| - 1]); }
        case RootDir =>
      }
    }
  }

  lemma {:induction false} NamesResolve(components: seq<Component>, stack: seq<string>)
    requires Names(components).Some?
    ensures Resolve(components, stack) == Some(stack + Names(components).value)
  {
    if components == [] {
      assert stack + [] == stack;
    } else {
      match components[0]
      case Normal(name) =>
        NamesResolve(components[1..], stack + [name]);
        assert stack + [name] + Names(components[1..]).value == stack + ([name] + Names(components[1..]).value);
      case CurDir => NamesResolve(components[1..], stack);
    }
  }

  lemma {:induction false} NamesAppend(a: seq<Component>, b: seq<Component>)
    ensures Names(a + b) == if Names(a).None? || Names(b).None? then None else Some(Names(a).value + Names(b).value)
  {
    if a == [] {
      assert a + b == b && (Names(b).Some? ==> [] + Names(b).value == Names(b).value);
    } else {
      assert (a + b)[1..] == a[1..] + b && (a + b)[0] == a[0];
      NamesAppend(a[1..], b);
      if a[0].Normal? && Names(a).Some? && Names(b).Some? {
        assert [a[0].name] + Names(a[1..]).value + Names(b).value == [a[0].name] + (Names(a[1..]).value + Names(b).value);
      }
    }
  }

  lemma NamesStep(front: seq<Component>, last: Component)
    requires Names(front).Some?
    ensures last.Normal? ==> Names(front + [last]) == Some(Names(front).value + [last.name])
    ensures last.CurDir? ==> Names(front + [last]) == Names(front)
  {
    NamesAppend(front, [last]);
    assert [last][1..] == [];
    if last.Normal? {
      assert [last.name] + [] == [last.name];
      assert Names([last]) == Some([last.name]);
    } else if last.CurDir? {
      assert Names([last]) == Some([]);
      assert Names(front).value + [] == Names(front).value;
    }
  }

  lemma {:induction false} FromPiecesAppend(a: seq<string>, b: seq<string>, first: bool)
    requires a != []
    ensures FromPieces(a + b, first) == FromPieces(a, first) + FromPieces(b, false)
  {
    assert (a + b)[1..] == a[1..] + b;
    if |a| == 1 {
      assert a[1..] + b == b;
    } else {
      FromPiecesAppend(a[1..], b, false);
    }
  }

  /** Keeping a leading `.` makes no difference to where a path leads. */
  lemma LeadingDotIsFree(pieces: seq<string>, stack: seq<string>)
    ensures Resolve(FromPieces(pieces, true), stack) == Resolve(FromPieces(pieces, false), stack)
  {
    if pieces != [] && pieces[0] == "." {
      var rest := FromPieces(pieces[1..], false);
      assert ([CurDir] + rest)[1..] == rest && [] + rest == rest;
    }
  }

  lemma SplitAppend(a: string, b: string)
    ensures Split(a + "/" + b) == Split(a) + Split(b)
  {
    JoinSplit(a);
    JoinSplit(b);
    JoinExtends(Split(a), Split(b));
    SplitJoin(Split(a) + Split(b));
  }

  /** Resolving a joined path is resolving the base, then the rest. */
  lemma ResolveJoined(base: string, s: string)
    requires !Absolute(base) && !Absolute(s)
    ensures Resolve(Components(JoinPath(base, s)), [])
            == (var mid := Resolve(Components(base), []); if mid.None? then None else Resolve(Components(s), mid.value))
  {
    var (b, t) := (FromPieces(Split(base), true), FromPieces(Split(s), false));
    assert Components(base) == b && Components(s) == FromPieces(Split(s), true);
    if base == "" {
      assert Components(base) == [];
    } else {
      assert Components(JoinPath(base, s)) == b + t by { JoinedComponents(base, s); }
      ResolveAppend(b, t, []);
      if Resolve(b, []).Some? {
        LeadingDotIsFree(Split(s), Resolve(b, []).value);
      }
    }
  }

  lemma RelativeComponents(s: string)
    requires !Absolute(s)
    ensures Components(s) == FromPieces(Split(s), true)
  {
  }

  lemma JoinedComponents(base: string, s: string)
    requires base != "" && !Absolute(base) && !Absolute(s)
    ensures Components(JoinPath(base, s)) == FromPieces(Split(base), true) + FromPieces(Split(s), false)
  {
    hide Split, FromPieces, Components;
    var n := |base| - 1;
    RelativeComponents(JoinPath(base, s));
    if base[n] == '/' {
      SlashEnded(base[..n], s);
      assert base == base[..n] + "/" && base + s == base[..n] + "/" + s;
    } else {
      SplitAppend(base, s);
      FromPiecesAppend(Split(base), Split(s), true);
    }
  }

  lemma EmptyTextHasNoPieces()
    ensures FromPieces(Split(""), false) == []
  {
  }

  /** A slash at the end of the base adds nothing. */
  lemma EndSlash(front: string)
    ensures FromPieces(Split(front + "/"), true) == FromPieces(Split(front), true)
  {
    hide Split, FromPieces;
    SplitAppend(front, "");
    assert front + "/" + "" == front + "/";
    FromPiecesAppend(Split(front), Split(""), true);
    EmptyTextHasNoPieces();
  }

  lemma SlashEnded(front: string, s: string)
    ensures FromPieces(Split(front + "/" + s), true) == FromPieces(Split(front + "/"), true) + FromPieces(Split(s), false)
  {
    hide Split, FromPieces;
    EndSlash(front);
    SplitAppend(front, s);
    FromPiecesAppend(Split(front), Split(s), true);
  }

  /** A component that is a name holds no slash and is neither empty nor a dot piece. */
  predicate ProperName(name: string)
  {
    SlashFree(name) && name !in {"", ".", ".."}
  }

  predicate ProperNames(names: seq<string>)
  {
    forall i :: 0 <= i < |names| ==> ProperName(names[i])
  }

  lemma {:induction false} NamesAreProper(pieces: seq<string>, first: bool)
    requires AllSlashFree(pieces)
    ensures Names(FromPieces(pieces, first)).Some? ==> ProperNames(Names(FromPieces(pieces, first)).value)
  {
    if pieces != [] {
      NamesAreProper(pieces[1..], false);
      var rest := FromPieces(pieces[1..], false);
      assert PieceComponent(pieces[0], first) + rest == rest || (PieceComponent(pieces[0], first) + rest)[1..] == rest;
    }
  }

  lemma ComponentNamesAreProper(s: string)
    requires Names(Components(s)).Some?
    ensures ProperNames(Names(Components(s)).value)
  {
    JoinSplit(s);
    NamesAreProper(Split(s), true);
    assert !Absolute(s);
    assert Components(s) == FromPieces(Split(s), true);
  }

  /** A path is names only if and only if it is relative and no piece is `..`. */
  lemma NamesIff(s: string)
    ensures Names(Components(s)).Some? <==> !Absolute(s) && ".." !in Split(s)
  {
    PiecesNamesIff(Split(s), true);
    if !Absolute(s) {
      assert Components(s) == FromPieces(Split(s), true);
    }
  }

  lemma {:induction false} PiecesNamesIff(pieces: seq<string>, first: bool)
    ensures Names(FromPieces(pieces, first)).Some? <==> ".." !in pieces
  {
    if pieces != [] {
      PiecesNamesIff(pieces[1..], false);
      var rest := FromPieces(pieces[1..], false);
      assert PieceComponent(pieces[0], first) + rest == rest || (PieceComponent(pieces[0], first) + rest)[1..] == rest;
      assert pieces == [pieces[0]] + pieces[1..];
    }
  }

  function Normals(names: seq<string>): seq<Component>
  {
    seq(|names|, i requires 0 <= i < |names| => Normal(names[i]))
  }

  lemma {:induction false} PiecesOfNames(names: seq<string>, first: bool)
    requires ProperNames(names)
    ensures FromPieces(names, first) == Normals(names)
  {
    if names != [] {
      assert ProperName(names[0]);
      PiecesOfNames(names[1..], false);
      assert Normals(names) == [Normal(names[0])] + Normals(names[1..]);
    }
  }

  /** The text of a list of names has exactly those names as its components. */
  lemma TextOfNames(names: seq<string>)
    requires ProperNames(names)
    ensures Components(Join(names)) == Normals(names)
  {
    if names == [] {
      assert Components("") == [];
    } else {
      assert ProperName(names[0]);
      assert forall i :: 0 <= i < |names| ==> ProperName(names[i]) && SlashFree(names[i]);
      SplitJoin(names);
      PiecesOfNames(names, true);
      assert Join(names)[0] == names[0][0] && names[0][0] in names[0];
    }
  }

  lemma {:induction false} NamesOfNormals(names: seq<string>)
    ensures Names(Normals(names)) == Some(names)
  {
    if names != [] {
      NamesOfNormals(names[1..]);
      assert Normals(names) == [Normal(names[0])] + Normals(names[1..]);
      assert Normals(names)[1..] == Normals(names[1..]);
      assert [names[0]] + names[1..] == names;
    }
  }
}
