/**
 What a lock must have to be accepted (src/lockfile.rs, `validate_v2`), field by field: a table of what each kind of
 source demands, and the paths a lock may name.
 */
module LockDemands {
  import opened LockNormal
  import opened LockTypes
  import opened Options
  import opened Ordering
  import opened PathComponents
  import opened PathSafety
  import opened PathText

  // ---------------------------------------------------------------- legal paths

  /** A legal path is the text of one or more names, with no backslash and no drive letter. */
  lemma LegalPathIff(path: string)
    ensures LegalRelativePath(path) <==>
              && (exists names :: names != [] && ProperNames(names) && path == Join(names))
              && '\\' !in path && !(|path| > 1 && path[1] == ':')
  {
    hide Split, Join;
    JoinSplit(path);
    if LegalRelativePath(path) {
      var names := Split(path);
      assert forall i :: 0 <= i < |names| ==> PlainComponent(names[i]) && SlashFree(names[i]);
      assert names != [] && ProperNames(names) && path == Join(names);
    }
    if exists names :: names != [] && ProperNames(names) && path == Join(names) {
      var names :| names != [] && ProperNames(names) && path == Join(names);
      assert forall i :: 0 <= i < |names| ==> ProperName(names[i]) && SlashFree(names[i]);
      SplitJoin(names);
      StartsWithName(names);
    }
  }

  lemma StartsWithName(names: seq<string>)
    requires names != [] && ProperName(names[0])
    ensures Join(names) != "" && Join(names)[0] != '/'
  {
    assert Join(names)[0] == names[0][0] && names[0][0] in names[0];
  }

  /** From wherever it is followed, a legal path leads below: down by its own pieces. */
  lemma LegalPathLeadsBelow(path: string, base: seq<string>)
    requires LegalRelativePath(path)
    ensures Resolve(Components(path), base) == Some(base + Split(path))
  {
    hide Split, Join;
    JoinSplit(path);
    var names := Split(path);
    assert forall i :: 0 <= i < |names| ==> PlainComponent(names[i]) && SlashFree(names[i]);
    TextOfNames(names);
    NormalsLeadBelow(names, base);
  }

  lemma {:induction false} NormalsLeadBelow(names: seq<string>, base: seq<string>)
    ensures Resolve(Normals(names), base) == Some(base + names)
  {
    if names == [] {
      assert base + names == base;
    } else {
      assert Normals(names)[1..] == Normals(names[1..]);
      NormalsLeadBelow(names[1..], base + [names[0]]);
      assert base + [names[0]] + names[1..] == base + names;
    }
  }

  /** A package path is a legal path in which some `node_modules` directory has a name after it. */
  lemma ValidPackagePathIff(path: string)
    ensures ValidPackagePath(path) <==>
              && LegalRelativePath(path)
              && exists front, name, back :: ProperName(name) && Split(path) == front + ["node_modules", name] + back
  {
    hide Split;
    var parts := Split(path);
    JoinSplit(path);
    if ValidPackagePath(path) {
      var i :| 0 <= i < |parts| - 1 && parts[i] == "node_modules" && PlainComponent(parts[i + 1]);
      assert SlashFree(parts[i + 1]) && parts == parts[..i] + ["node_modules", parts[i + 1]] + parts[i + 2..];
    }
    if exists front, name, back :: ProperName(name) && parts == front + ["node_modules", name] + back {
      var front, name, back :| ProperName(name) && parts == front + ["node_modules", name] + back;
      assert parts[|front|] == "node_modules" && parts[|front| + 1] == name;
    }
  }

  // ---------------------------------------------------------------- what each kind of source demands

  datatype Demand = SourceLocation | ResolvedUrl | Integrity | FullCommit | Linked | RecordedTarget | LegalTarget

  function Demands(source: LockSource): set<Demand>
  {
    match source
    case Registry(_) => {SourceLocation, ResolvedUrl, Integrity}
    case Workspace(_) => {Linked, RecordedTarget, LegalTarget}
    case LocalFile(_) => {Linked, RecordedTarget}
    case Tarball(_) => {SourceLocation, ResolvedUrl}
    case Git(_, _, _) => {SourceLocation, ResolvedUrl, FullCommit}
    case Patch(_, _) => {SourceLocation, ResolvedUrl, Integrity}
  }

  /** The registry, URL, patch file or directory the source names. */
  function Location(source: LockSource): string
  {
    match source
    case Registry(registry) => registry
    case Workspace(relativePath) => relativePath
    case LocalFile(path) => path
    case Tarball(url) => url
    case Git(url, _, _) => url
    case Patch(_, patch) => patch
  }

  const HEX_DIGITS := "0123456789abcdefABCDEF"

  predicate Meets(package: PackageEntry, metadata: PackageResolution, demand: Demand)
  {
    match demand
    case SourceLocation => |Location(metadata.source)| > 0
    case ResolvedUrl => |package.resolved| > 0
    case Integrity => package.integrity.Some? && |package.integrity.value| > 0
    case FullCommit =>
      && metadata.source.Git? && |metadata.source.resolvedCommit| == 40
      && forall i :: 0 <= i < 40 ==> metadata.source.resolvedCommit[i] in HEX_DIGITS
    case Linked => package.link
    case RecordedTarget => metadata.workspaceTarget.Some? && metadata.workspaceTarget.value == Location(metadata.source)
    case LegalTarget => LegalRelativePath(Location(metadata.source))
  }

  lemma HexDigit(c: char)
    ensures c in HEX_DIGITS <==> '0' <= c <= '9' || 'a' <= c <= 'f' || 'A' <= c <= 'F'
  {
    if '0' <= c <= '9' {
      assert HEX_DIGITS[c as int - '0' as int] == c;
    } else if 'a' <= c <= 'f' {
      assert HEX_DIGITS[10 + c as int - 'a' as int] == c;
    } else if 'A' <= c <= 'F' {
      assert HEX_DIGITS[16 + c as int - 'A' as int] == c;
    }
  }

  /** The check of the source is the table. */
  lemma SourceFitsIff(package: PackageEntry, metadata: PackageResolution)
    ensures SourceFits(package, metadata) <==> forall d :: d in Demands(metadata.source) ==> Meets(package, metadata, d)
  {
    hide LegalRelativePath;
    forall c
      ensures c in HEX_DIGITS <==> '0' <= c <= '9' || 'a' <= c <= 'f' || 'A' <= c <= 'F'
    {
      HexDigit(c);
    }
    var fits := d => Meets(package, metadata, d);
    match metadata.source
    case Registry(_) => assert SourceFits(package, metadata) <==> fits(SourceLocation) && fits(ResolvedUrl) && fits(Integrity);
    case Workspace(_) => assert SourceFits(package, metadata) <==> fits(Linked) && fits(RecordedTarget) && fits(LegalTarget);
    case LocalFile(_) => assert SourceFits(package, metadata) <==> fits(Linked) && fits(RecordedTarget);
    case Tarball(_) => assert SourceFits(package, metadata) <==> fits(SourceLocation) && fits(ResolvedUrl);
    case Git(_, _, _) => assert SourceFits(package, metadata) <==> fits(SourceLocation) && fits(ResolvedUrl) && fits(FullCommit);
    case Patch(_, _) => assert SourceFits(package, metadata) <==> fits(SourceLocation) && fits(ResolvedUrl) && fits(Integrity);
  }

  // ---------------------------------------------------------------- accepted locks

  predicate IsPackage(l: Lock, path: string, i: int)
  {
    0 <= i < |l.packages| && l.packages[i].path == path
  }

  /** Each target the metadata records, of whatever group, is the path of a package. */
  ghost predicate TargetsArePackages(l: Lock, metadata: PackageResolution)
  {
    && (forall n :: n in metadata.dependencies ==> exists i :: IsPackage(l, metadata.dependencies[n].target, i))
    && (forall n :: n in metadata.optionalDependencies ==> exists i :: IsPackage(l, metadata.optionalDependencies[n].target, i))
    && (forall n :: n in metadata.peerDependencies ==> exists i :: IsPackage(l, metadata.peerDependencies[n].target, i))
    && (forall n :: n in metadata.peerContext ==> exists i :: IsPackage(l, metadata.peerContext[n].path, i))
  }

  /**
   A lock is accepted if and only if its package paths are legal and strictly increase; every registry name is a readable
   name, not empty and not the placement name, for a package that is there; and every record of metadata is for a package
   that meets all its source demands, with all targets and providers being packages.
   */
  lemma AcceptedIff(l: Lock, readable: NameRule)
    ensures WellFormed(l, readable) <==>
              && (forall i :: 0 <= i < |l.packages| ==> LegalRelativePath(l.packages[i].path))
              && (forall i, j :: 0 <= i < j < |l.packages| ==> Less(l.packages[i].path, l.packages[j].path))
              && (forall p :: p in l.resolution.registryNames ==>
                    exists i :: IsPackage(l, p, i) && l.resolution.registryNames[p] != ""
                                && l.resolution.registryNames[p] != l.packages[i].name && readable(l.resolution.registryNames[p]))
              && (forall p :: p in l.resolution.packages ==>
                    && TargetsArePackages(l, l.resolution.packages[p])
                    && exists i :: IsPackage(l, p, i) && forall d :: d in Demands(l.resolution.packages[p].source) ==>
                                 Meets(l.packages[i], l.resolution.packages[p], d))
  {
    hide LegalRelativePath, SourceFits, Meets, Less;
    if StrictlyAscending(l.packages) {
      forall i, j | 0 <= i < j < |l.packages|
        ensures Less(l.packages[i].path, l.packages[j].path)
      {
        AscendsFar(l.packages, i, j);
      }
    }
    if forall i, j :: 0 <= i < j < |l.packages| ==> Less(l.packages[i].path, l.packages[j].path) {
      OnlyOneAtPath(l);
      forall p
        ensures FindEntry(l.packages, p).Some? ==> exists i :: IsPackage(l, p, i) && FindEntry(l.packages, p).value == l.packages[i]
      {
        FoundIsThere(l.packages, p);
      }
      NamesIffFound(l, readable);
      MetadataIffFound(l);
    }
  }

  lemma {:induction false} FoundIsThere(packages: seq<PackageEntry>, path: string)
    ensures FindEntry(packages, path).Some? ==>
              exists i :: 0 <= i < |packages| && packages[i].path == path && packages[i] == FindEntry(packages, path).value
  {
    if packages != [] && packages[0].path != path {
      FoundIsThere(packages[1..], path);
      if FindEntry(packages, path).Some? {
        var i :| 0 <= i < |packages| - 1 && packages[1..][i].path == path && packages[1..][i] == FindEntry(packages, path).value;
        assert packages[i + 1] == packages[1..][i];
      }
    }
  }

  lemma OnlyOneAtPath(l: Lock)
    requires forall i, j :: 0 <= i < j < |l.packages| ==> Less(l.packages[i].path, l.packages[j].path)
    ensures forall p, i, j :: IsPackage(l, p, i) && IsPackage(l, p, j) ==> i == j
  {
    hide Less;
    forall p, i, j | IsPackage(l, p, i) && IsPackage(l, p, j)
      ensures i == j
    {
      LessIrreflexive(p);
    }
  }

  lemma NamesIffFound(l: Lock, readable: NameRule)
    requires forall p, i, j :: IsPackage(l, p, i) && IsPackage(l, p, j) ==> i == j
    requires forall p :: FindEntry(l.packages, p).Some? ==> exists i :: IsPackage(l, p, i) && FindEntry(l.packages, p).value == l.packages[i]
    ensures AllNamesFit(l, readable) <==>
              forall p :: p in l.resolution.registryNames ==>
                exists i :: IsPackage(l, p, i) && l.resolution.registryNames[p] != ""
                            && l.resolution.registryNames[p] != l.packages[i].name && readable(l.resolution.registryNames[p])
  {
    hide FindEntry;
  }

  lemma MetadataIffFound(l: Lock)
    requires forall p, i, j :: IsPackage(l, p, i) && IsPackage(l, p, j) ==> i == j
    requires forall p :: FindEntry(l.packages, p).Some? ==> exists i :: IsPackage(l, p, i) && FindEntry(l.packages, p).value == l.packages[i]
    ensures AllMetadataFit(l) <==>
              forall p :: p in l.resolution.packages ==>
                && TargetsArePackages(l, l.resolution.packages[p])
                && exists i :: IsPackage(l, p, i) && forall d :: d in Demands(l.resolution.packages[p].source) ==>
                             Meets(l.packages[i], l.resolution.packages[p], d)
  {
    hide FindEntry, SourceFits, Meets, Demands;
    forall p | p in l.resolution.packages
      ensures MetadataFits(l.packages, p, l.resolution.packages[p]) <==>
                && TargetsArePackages(l, l.resolution.packages[p])
                && exists i :: IsPackage(l, p, i) && forall d :: d in Demands(l.resolution.packages[p].source) ==>
                             Meets(l.packages[i], l.resolution.packages[p], d)
    {
      OneMetadata(l, p, l.resolution.packages[p]);
    }
  }

  lemma OneMetadata(l: Lock, p: string, m: PackageResolution)
    requires forall i, j :: IsPackage(l, p, i) && IsPackage(l, p, j) ==> i == j
    requires FindEntry(l.packages, p).Some? ==> exists i :: IsPackage(l, p, i) && FindEntry(l.packages, p).value == l.packages[i]
    ensures MetadataFits(l.packages, p, m) <==>
              && TargetsArePackages(l, m)
              && exists i :: IsPackage(l, p, i) && forall d :: d in Demands(m.source) ==> Meets(l.packages[i], m, d)
  {
    hide FindEntry, SourceFits, Meets, Demands;
    TargetsIff(l, m);
    if FindEntry(l.packages, p).Some? {
      SourceFitsIff(FindEntry(l.packages, p).value, m);
    }
  }

  lemma TargetsIff(l: Lock, m: PackageResolution)
    ensures TargetsArePackages(l, m) <==>
              && TargetsExist(m.dependencies, PathsOf(l.packages)) && TargetsExist(m.optionalDependencies, PathsOf(l.packages))
              && TargetsExist(m.peerDependencies, PathsOf(l.packages)) && ProvidersExist(m.peerContext, PathsOf(l.packages))
  {
    forall p
      ensures p in PathsOf(l.packages) <==> exists i :: IsPackage(l, p, i)
    {
      if p in PathsOf(l.packages) {
        var i :| 0 <= i < |l.packages| && l.packages[i].path == p;
        assert IsPackage(l, p, i);
      }
    }
  }

  /** One demand of one package's source left unmet is enough for a lock to be rejected. */
  lemma UnmetDemandRejects(l: Lock, readable: NameRule, path: string, i: nat, demand: Demand)
    requires path in l.resolution.packages && IsPackage(l, path, i)
    requires demand in Demands(l.resolution.packages[path].source) && !Meets(l.packages[i], l.resolution.packages[path], demand)
    ensures !WellFormed(l, readable)
  {
    hide Meets, Demands, WellFormed, Less, LegalRelativePath;
    AcceptedIff(l, readable);
    if WellFormed(l, readable) {
      OnlyOneAtPath(l);
    }
  }
}
