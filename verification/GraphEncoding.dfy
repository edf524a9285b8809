/**
 The preimage of a graph id (src/graph.rs): a length-prefixed encoding of everything about a
 lockfile that may change the installed tree, with two optional trailers. A decoder shows that
 no two different graphs share a preimage.

 A `char` is one byte. BLAKE3 is a free constructor, so equal ids are equal preimages.
 */
module GraphEncoding {
  import opened Hashes
  import opened LockTypes
  import opened Options
  import opened Ordering

  const U64: nat := 0x1_0000_0000_0000_0000

  type PreparedMap = map<string, Key>

  datatype InstallProfile = InstallProfile(omitDev: bool, lifecycleProduction: bool)
  {
    predicate IsDefault() { !omitDev && !lifecycleProduction }
  }

  // ---------------------------------------------------------------- what a graph id identifies

  datatype PackageView = PackageView(
    path: string, name: string, version: string, resolved: string, integrity: string,
    link: bool, dev: bool, optional: bool, os: seq<string>, cpu: seq<string>, libc: seq<string>,
    bin: map<string, string>, dependencies: map<string, string>)

  datatype TargetView = NoTarget | TargetView(os: string, cpu: string, libc: string)

  datatype GraphView = GraphView(
    platform: string, rootDependencies: map<string, string>, overrides: map<string, string>, target: TargetView,
    packages: seq<PackageView>, registryNames: map<string, string>, prepared: map<string, string>, profile: InstallProfile)

  function OrEmpty(value: Option<string>): string
  {
    if value.Some? then value.value else ""
  }

  function LibcOf(lock: Lock, path: string): seq<string>
  {
    if path in lock.resolution.packages then lock.resolution.packages[path].libc else []
  }

  function ViewPackage(lock: Lock, p: PackageEntry): PackageView
  {
    PackageView(p.path, p.name, p.version, p.resolved, OrEmpty(p.integrity), p.link, p.dev, p.optional,
                p.os, p.cpu, LibcOf(lock, p.path), p.bin, p.dependencies)
  }

  function ViewPackages(lock: Lock, packages: seq<PackageEntry>): (r: seq<PackageView>)
    ensures |r| == |packages|
  {
    if packages == [] then [] else [ViewPackage(lock, packages[0])] + ViewPackages(lock, packages[1..])
  }

  function ViewTarget(target: Option<LockTarget>): TargetView
  {
    if target.None? then NoTarget
    else TargetView(target.value.os, target.value.cpu, OrEmpty(target.value.libc))
  }

  /** The graph as the id sees it: an absent libc or integrity is the same as an empty one. */
  function View(platform: string, lock: Lock, prepared: PreparedMap, profile: InstallProfile): GraphView
  {
    GraphView(platform, lock.root.dependencies, lock.resolution.root.overrides, ViewTarget(lock.resolution.root.target),
              ViewPackages(lock, lock.packages), lock.resolution.registryNames, prepared, profile)
  }

  // ---------------------------------------------------------------- the encoding
  // Each `Put` writes its value in front of `rest`.

  function LittleEndian(n: nat, k: nat): (r: string)
    ensures |r| == k
  {
    if k == 0 then "" else [(n % 256) as char] + LittleEndian(n / 256, k - 1)
  }

  function PutU64(n: nat, rest: string): string
  {
    LittleEndian(n, 8) + rest
  }

  function PutField(s: string, rest: string): string
  {
    PutU64(|s|, s + rest)
  }

  function PutBool(b: bool, rest: string): string
  {
    [(if b then 1 else 0) as char] + rest
  }

  function PutFields(xs: seq<string>, rest: string): string
  {
    if xs == [] then rest else PutField(xs[0], PutFields(xs[1..], rest))
  }

  function PutList(xs: seq<string>, rest: string): string
  {
    PutU64(|xs|, PutFields(xs, rest))
  }

  function PutPairs(pairs: seq<(string, string)>, rest: string): string
  {
    if pairs == [] then rest else PutField(pairs[0].0, PutField(pairs[0].1, PutPairs(pairs[1..], rest)))
  }

  /** A map's entries in iteration order, whatever order they were inserted in. */
  function Entries(m: map<string, string>): seq<(string, string)>
  {
    EntriesOf(Sorted(m.Keys), m)
  }

  function EntriesOf(keys: seq<string>, m: map<string, string>): (r: seq<(string, string)>)
    requires forall k :: k in keys ==> k in m
    ensures |r| == |keys| && forall i :: 0 <= i < |r| ==> r[i] == (keys[i], m[keys[i]])
  {
    seq(|keys|, i requires 0 <= i < |keys| => (keys[i], m[keys[i]]))
  }

  function PutMap(m: map<string, string>, rest: string): string
  {
    PutU64(|m|, PutPairs(Entries(m), rest))
  }

  function PutTarget(target: TargetView, rest: string): string
  {
    match target
    case NoTarget => PutBool(false, rest)
    case TargetView(os, cpu, libc) => PutBool(true, PutField(os, PutField(cpu, PutField(libc, rest))))
  }

  function PutPackage(p: PackageView, rest: string): string
  {
    PutField(p.path, PutField(p.name, PutField(p.version, PutField(p.resolved, PutField(p.integrity,
      PutBool(p.link, PutBool(p.dev, PutBool(p.optional, PutPackageLists(p, rest)))))))))
  }

  function PutPackageLists(p: PackageView, rest: string): string
  {
    PutList(p.os, PutList(p.cpu, PutList(p.libc, PutMap(p.bin, PutMap(p.dependencies, rest)))))
  }

  function PutPackages(ps: seq<PackageView>, rest: string): string
  {
    if ps == [] then rest else PutPackage(ps[0], PutPackages(ps[1..], rest))
  }

  const HEADER := "bpm-graph-v2\n"
  const ROOT_TAG := "root\n"
  const PACKAGES_TAG := "packages\n"
  const NAMES_TAG := "registry-names\n"
  const PREPARED_TAG := "prepared-images\n"
  const PROFILE_TAG := "install-profile-v2\n"

  function PutNames(m: map<string, string>, rest: string): string
  {
    if m == map[] then rest else NAMES_TAG + PutMap(m, rest)
  }

  /** Image keys are exactly 32 bytes and carry no length. */
  function PutImages(pairs: seq<(string, string)>, rest: string): string
  {
    if pairs == [] then rest else PutField(pairs[0].0, pairs[0].1 + PutImages(pairs[1..], rest))
  }

  function PutPrepared(m: map<string, string>, rest: string): string
  {
    if m == map[] then rest else PREPARED_TAG + PutU64(|m|, PutImages(Entries(m), rest))
  }

  function PutProfile(profile: InstallProfile): string
  {
    if profile.IsDefault() then ""
    else PROFILE_TAG + PutBool(profile.omitDev, PutBool(profile.lifecycleProduction, ""))
  }

  function Trailers(v: GraphView): string
  {
    PutPrepared(v.prepared, PutProfile(v.profile))
  }

  function PutGraph(v: GraphView, rest: string): string
  {
    HEADER + PutField(v.platform, ROOT_TAG + PutMap(v.rootDependencies, PutMap(v.overrides,
      PutTarget(v.target, PACKAGES_TAG + PutU64(|v.packages|, PutPackages(v.packages, PutNames(v.registryNames, rest)))))))
  }

  function Encode(v: GraphView): string
  {
    PutGraph(v, Trailers(v))
  }

  // ---------------------------------------------------------------- the decoder

  datatype Parsed<+T> = Malformed | Done(value: T, rest: string)
  {
    predicate IsFailure() { Malformed? }
    function PropagateFailure<U>(): Parsed<U> requires Malformed? { Malformed }
    function Extract(): (T, string) requires Done? { (value, rest) }
  }

  function GetLittleEndian(s: string, k: nat): Parsed<nat>
  {
    if k == 0 then Done(0, s)
    else if s == "" then Malformed
    else
      var (high, rest) :- GetLittleEndian(s[1..], k - 1);
      Done(s[0] as int + 256 * high, rest)
  }

  function GetU64(s: string): Parsed<nat>
  {
    GetLittleEndian(s, 8)
  }

  function Take(n: nat, s: string): Parsed<string>
  {
    if n <= |s| then Done(s[..n], s[n..]) else Malformed
  }

  function GetField(s: string): Parsed<string>
  {
    var (n, s) :- GetU64(s);
    Take(n, s)
  }

  function GetBool(s: string): Parsed<bool>
  {
    if s == "" then Malformed else Done(s[0] != 0 as char, s[1..])
  }

  function GetTag(tag: string, s: string): Parsed<()>
  {
    if tag <= s then Done((), s[|tag|..]) else Malformed
  }

  function GetFields(n: nat, s: string): Parsed<seq<string>>
  {
    if n == 0 then Done([], s)
    else
      var (first, s) :- GetField(s);
      var (others, s) :- GetFields(n - 1, s);
      Done([first] + others, s)
  }

  function GetList(s: string): Parsed<seq<string>>
  {
    var (n, s) :- GetU64(s);
    GetFields(n, s)
  }

  function GetPairs(n: nat, s: string): Parsed<seq<(string, string)>>
  {
    if n == 0 then Done([], s)
    else
      var (k, s) :- GetField(s);
      var (v, s) :- GetField(s);
      var (others, s) :- GetPairs(n - 1, s);
      Done([(k, v)] + others, s)
  }

  function MapOf(pairs: seq<(string, string)>): map<string, string>
  {
    if pairs == [] then map[]
    else
      var last := |pairs| - 1;
      MapOf(pairs[..last])[pairs[last].0 := pairs[last].1]
  }

  function GetMap(s: string): Parsed<map<string, string>>
  {
    var (n, s) :- GetU64(s);
    var (pairs, s) :- GetPairs(n, s);
    Done(MapOf(pairs), s)
  }

  function GetTarget(s: string): Parsed<TargetView>
  {
    var (present, s) :- GetBool(s);
    if !present then Done(NoTarget, s)
    else
      var (os, s) :- GetField(s);
      var (cpu, s) :- GetField(s);
      var (libc, s) :- GetField(s);
      Done(TargetView(os, cpu, libc), s)
  }

  datatype PackageLists = PackageLists(
    os: seq<string>, cpu: seq<string>, libc: seq<string>, bin: map<string, string>, dependencies: map<string, string>)

  function GetPackageLists(s: string): Parsed<PackageLists>
  {
    var (os, s) :- GetList(s);
    var (cpu, s) :- GetList(s);
    var (libc, s) :- GetList(s);
    var (bin, s) :- GetMap(s);
    var (dependencies, s) :- GetMap(s);
    Done(PackageLists(os, cpu, libc, bin, dependencies), s)
  }

  function GetPackage(s: string): Parsed<PackageView>
  {
    var (path, s) :- GetField(s);
    var (name, s) :- GetField(s);
    var (version, s) :- GetField(s);
    var (resolved, s) :- GetField(s);
    var (integrity, s) :- GetField(s);
    var (link, s) :- GetBool(s);
    var (dev, s) :- GetBool(s);
    var (optional, s) :- GetBool(s);
    var (lists, s) :- GetPackageLists(s);
    Done(PackageView(path, name, version, resolved, integrity, link, dev, optional,
                     lists.os, lists.cpu, lists.libc, lists.bin, lists.dependencies), s)
  }

  function GetPackages(n: nat, s: string): Parsed<seq<PackageView>>
  {
    if n == 0 then Done([], s)
    else
      var (first, s) :- GetPackage(s);
      var (others, s) :- GetPackages(n - 1, s);
      Done([first] + others, s)
  }

  function GetNames(s: string): Parsed<map<string, string>>
  {
    if NAMES_TAG <= s then GetMap(s[|NAMES_TAG|..]) else Done(map[], s)
  }

  function GetImages(n: nat, s: string): Parsed<seq<(string, string)>>
  {
    if n == 0 then Done([], s)
    else
      var (path, s) :- GetField(s);
      var (key, s) :- Take(32, s);
      var (others, s) :- GetImages(n - 1, s);
      Done([(path, key)] + others, s)
  }

  function GetPrepared(s: string): Parsed<map<string, string>>
  {
    if PREPARED_TAG <= s then
      var (n, s) :- GetU64(s[|PREPARED_TAG|..]);
      var (pairs, s) :- GetImages(n, s);
      Done(MapOf(pairs), s)
    else Done(map[], s)
  }

  function GetProfile(s: string): Parsed<InstallProfile>
  {
    if PROFILE_TAG <= s then
      var (omitDev, s) :- GetBool(s[|PROFILE_TAG|..]);
      var (production, s) :- GetBool(s);
      Done(InstallProfile(omitDev, production), s)
    else Done(InstallProfile(false, false), s)
  }

  function GetGraph(s: string): Parsed<GraphView>
  {
    var (_, s) :- GetTag(HEADER, s);
    var (platform, s) :- GetField(s);
    var (_, s) :- GetTag(ROOT_TAG, s);
    var (rootDependencies, s) :- GetMap(s);
    var (overrides, s) :- GetMap(s);
    var (target, s) :- GetTarget(s);
    var (_, s) :- GetTag(PACKAGES_TAG, s);
    var (n, s) :- GetU64(s);
    var (packages, s) :- GetPackages(n, s);
    var (names, s) :- GetNames(s);
    var (prepared, s) :- GetPrepared(s);
    var (profile, s) :- GetProfile(s);
    Done(GraphView(platform, rootDependencies, overrides, target, packages, names, prepared, profile), s)
  }

  /** The graph a preimage spells, if the bytes are one preimage and nothing else. */
  function Decode(bytes: string): Option<GraphView>
  {
    match GetGraph(bytes)
    case Malformed => None
    case Done(v, rest) => if rest == "" then Some(v) else None
  }

  // ---------------------------------------------------------------- decoding what was encoded

  function Power256(k: nat): nat
  {
    if k == 0 then 1 else 256 * Power256(k - 1)
  }

  lemma LowDigit(n: nat, p: nat)
    requires n < 256 * p
    ensures n / 256 < p && ((n % 256) as char) as int + 256 * (n / 256) == n
  {
  }

  lemma {:induction false} GetPutLittleEndian(n: nat, k: nat, rest: string)
    requires n < Power256(k)
    ensures GetLittleEndian(LittleEndian(n, k) + rest, k) == Done(n, rest)
  {
    var s := LittleEndian(n, k) + rest;
    if k > 0 {
      LowDigit(n, Power256(k - 1));
      var high := n / 256;
      GetPutLittleEndian(high, k - 1, rest);
      assert s[1..] == LittleEndian(high, k - 1) + rest;
      assert GetLittleEndian(s[1..], k - 1) == Done(high, rest);
    }
  }

  lemma GetPutU64(n: nat, rest: string)
    requires n < U64
    ensures GetU64(PutU64(n, rest)) == Done(n, rest)
  {
    assert Power256(4) == 0x1_0000_0000;
    assert Power256(8) == U64;
    GetPutLittleEndian(n, 8, rest);
  }

  lemma TakePut(s: string, rest: string)
    ensures Take(|s|, s + rest) == Done(s, rest)
  {
    assert (s + rest)[..|s|] == s && (s + rest)[|s|..] == rest;
  }

  lemma GetPutField(s: string, rest: string)
    requires |s| < U64
    ensures GetField(PutField(s, rest)) == Done(s, rest)
  {
    hide GetU64, PutU64, Take;
    GetPutU64(|s|, s + rest);
    TakePut(s, rest);
  }

  lemma GetPutBool(b: bool, rest: string)
    ensures GetBool(PutBool(b, rest)) == Done(b, rest)
  {
  }

  lemma GetPutTag(tag: string, rest: string)
    ensures GetTag(tag, tag + rest) == Done((), rest)
  {
  }

  ghost predicate Short(xs: seq<string>)
  {
    forall i :: 0 <= i < |xs| ==> |xs[i]| < U64
  }

  lemma {:induction false} GetPutFields(xs: seq<string>, rest: string)
    requires Short(xs)
    ensures GetFields(|xs|, PutFields(xs, rest)) == Done(xs, rest)
    decreases |xs|
  {
    hide GetField, PutField;
    if xs != [] {
      GetPutField(xs[0], PutFields(xs[1..], rest));
      GetPutFields(xs[1..], rest);
      assert [xs[0]] + xs[1..] == xs;
    }
  }

  lemma GetPutList(xs: seq<string>, rest: string)
    requires Short(xs) && |xs| < U64
    ensures GetList(PutList(xs, rest)) == Done(xs, rest)
  {
    hide GetU64, PutU64, GetFields, PutFields;
    GetPutU64(|xs|, PutFields(xs, rest));
    GetPutFields(xs, rest);
  }

  ghost predicate ShortPairs(pairs: seq<(string, string)>)
  {
    forall i :: 0 <= i < |pairs| ==> |pairs[i].0| < U64 && |pairs[i].1| < U64
  }

  lemma {:induction false} GetPutPairs(pairs: seq<(string, string)>, rest: string)
    requires ShortPairs(pairs)
    ensures GetPairs(|pairs|, PutPairs(pairs, rest)) == Done(pairs, rest)
    decreases |pairs|
  {
    hide GetField, PutField;
    if pairs != [] {
      var after := PutPairs(pairs[1..], rest);
      GetPutField(pairs[0].0, PutField(pairs[0].1, after));
      GetPutField(pairs[0].1, after);
      GetPutPairs(pairs[1..], rest);
      assert [pairs[0]] + pairs[1..] == pairs;
    }
  }

  ghost predicate ShortMap(m: map<string, string>)
  {
    |m| < U64 && forall k :: k in m ==> |k| < U64 && |m[k]| < U64
  }

  lemma {:induction false} MapOfEntriesOf(keys: seq<string>, m: map<string, string>)
    requires forall k :: k in keys ==> k in m
    ensures MapOf(EntriesOf(keys, m)) == map k | k in keys :: m[k]
    decreases |keys|
  {
    if keys != [] {
      var last := |keys| - 1;
      MapOfEntriesOf(keys[..last], m);
      assert EntriesOf(keys, m)[..last] == EntriesOf(keys[..last], m);
      assert keys == keys[..last] + [keys[last]];
    }
  }

  /** Entries in sorted order rebuild the map. */
  lemma MapOfEntries(m: map<string, string>)
    ensures MapOf(Entries(m)) == m && |Entries(m)| == |m|
  {
    hide Sorted;
    MapOfEntriesOf(Sorted(m.Keys), m);
    assert (map k | k in Sorted(m.Keys) :: m[k]) == m;
    assert |m.Keys| == |m|;
  }

  lemma EntriesShort(m: map<string, string>)
    requires ShortMap(m)
    ensures ShortPairs(Entries(m))
  {
    hide Sorted;
  }

  lemma GetPutMap(m: map<string, string>, rest: string)
    requires ShortMap(m)
    ensures GetMap(PutMap(m, rest)) == Done(m, rest)
  {
    hide GetU64, PutU64, GetPairs, PutPairs, Entries, MapOf;
    MapOfEntries(m);
    EntriesShort(m);
    GetPutU64(|m|, PutPairs(Entries(m), rest));
    GetPutPairs(Entries(m), rest);
  }

  lemma GetPutTarget(target: TargetView, rest: string)
    requires target.TargetView? ==> |target.os| < U64 && |target.cpu| < U64 && |target.libc| < U64
    ensures GetTarget(PutTarget(target, rest)) == Done(target, rest)
  {
    hide GetField, PutField, GetBool, PutBool;
    match target
    case NoTarget =>
      GetPutBool(false, rest);
    case TargetView(os, cpu, libc) =>
      GetPutBool(true, PutField(os, PutField(cpu, PutField(libc, rest))));
      GetPutField(os, PutField(cpu, PutField(libc, rest)));
      GetPutField(cpu, PutField(libc, rest));
      GetPutField(libc, rest);
  }

  ghost predicate FitsPackage(p: PackageView)
  {
    && |p.path| < U64 && |p.name| < U64 && |p.version| < U64 && |p.resolved| < U64 && |p.integrity| < U64
    && Short(p.os) && |p.os| < U64 && Short(p.cpu) && |p.cpu| < U64 && Short(p.libc) && |p.libc| < U64
    && ShortMap(p.bin) && ShortMap(p.dependencies)
  }

  lemma GetPutPackageLists(p: PackageView, rest: string)
    requires FitsPackage(p)
    ensures GetPackageLists(PutPackageLists(p, rest)) == Done(PackageLists(p.os, p.cpu, p.libc, p.bin, p.dependencies), rest)
  {
    hide GetList, PutList, GetMap, PutMap;
    var s4 := PutMap(p.dependencies, rest);
    var s3 := PutMap(p.bin, s4);
    var s2 := PutList(p.libc, s3);
    var s1 := PutList(p.cpu, s2);
    GetPutList(p.os, s1);
    GetPutList(p.cpu, s2);
    GetPutList(p.libc, s3);
    GetPutMap(p.bin, s4);
    GetPutMap(p.dependencies, rest);
  }

  lemma GetPutPackage(p: PackageView, rest: string)
    requires FitsPackage(p)
    ensures GetPackage(PutPackage(p, rest)) == Done(p, rest)
  {
    hide GetField, PutField, GetBool, PutBool, GetPackageLists, PutPackageLists;
    var s8 := PutPackageLists(p, rest);
    var s7 := PutBool(p.optional, s8);
    var s6 := PutBool(p.dev, s7);
    var s5 := PutBool(p.link, s6);
    var s4 := PutField(p.integrity, s5);
    var s3 := PutField(p.resolved, s4);
    var s2 := PutField(p.version, s3);
    var s1 := PutField(p.name, s2);
    GetPutField(p.path, s1);
    GetPutField(p.name, s2);
    GetPutField(p.version, s3);
    GetPutField(p.resolved, s4);
    GetPutField(p.integrity, s5);
    GetPutBool(p.link, s6);
    GetPutBool(p.dev, s7);
    GetPutBool(p.optional, s8);
    GetPutPackageLists(p, rest);
  }

  lemma {:induction false} GetPutPackages(ps: seq<PackageView>, rest: string)
    requires forall i :: 0 <= i < |ps| ==> FitsPackage(ps[i])
    ensures GetPackages(|ps|, PutPackages(ps, rest)) == Done(ps, rest)
    decreases |ps|
  {
    hide GetPackage, PutPackage, FitsPackage;
    if ps != [] {
      GetPutPackage(ps[0], PutPackages(ps[1..], rest));
      GetPutPackages(ps[1..], rest);
      assert [ps[0]] + ps[1..] == ps;
    }
  }

  /** What follows the packages never looks like an optional section that is not there. */
  lemma GetPutNames(m: map<string, string>, rest: string)
    requires ShortMap(m) && !(NAMES_TAG <= rest)
    ensures GetNames(PutNames(m, rest)) == Done(m, rest)
  {
    hide GetMap, PutMap;
    if m != map[] {
      GetPutMap(m, rest);
      assert (NAMES_TAG + PutMap(m, rest))[|NAMES_TAG|..] == PutMap(m, rest);
    }
  }

  lemma {:induction false} GetPutImages(pairs: seq<(string, string)>, rest: string)
    requires forall i :: 0 <= i < |pairs| ==> |pairs[i].0| < U64 && |pairs[i].1| == 32
    ensures GetImages(|pairs|, PutImages(pairs, rest)) == Done(pairs, rest)
    decreases |pairs|
  {
    hide GetField, PutField, Take;
    if pairs != [] {
      var after := PutImages(pairs[1..], rest);
      GetPutField(pairs[0].0, pairs[0].1 + after);
      TakePut(pairs[0].1, after);
      GetPutImages(pairs[1..], rest);
      assert [pairs[0]] + pairs[1..] == pairs;
    }
  }

  ghost predicate FitsPrepared(m: map<string, string>)
  {
    |m| < U64 && forall k :: k in m ==> |k| < U64 && |m[k]| == 32
  }

  lemma ImageEntries(m: map<string, string>)
    requires FitsPrepared(m)
    ensures forall i :: 0 <= i < |Entries(m)| ==> |Entries(m)[i].0| < U64 && |Entries(m)[i].1| == 32
  {
    hide Sorted;
  }

  lemma GetPutPrepared(m: map<string, string>, rest: string)
    requires FitsPrepared(m) && !(PREPARED_TAG <= rest)
    ensures GetPrepared(PutPrepared(m, rest)) == Done(m, rest)
  {
    hide GetU64, PutU64, GetImages, PutImages, Entries, MapOf;
    if m != map[] {
      MapOfEntries(m);
      ImageEntries(m);
      var body := PutU64(|m|, PutImages(Entries(m), rest));
      GetPutU64(|m|, PutImages(Entries(m), rest));
      GetPutImages(Entries(m), rest);
      assert (PREPARED_TAG + body)[|PREPARED_TAG|..] == body;
    }
  }

  lemma GetPutProfile(profile: InstallProfile)
    ensures GetProfile(PutProfile(profile)) == Done(profile, "")
  {
    hide GetBool, PutBool;
    if !profile.IsDefault() {
      var body := PutBool(profile.omitDev, PutBool(profile.lifecycleProduction, ""));
      GetPutBool(profile.omitDev, PutBool(profile.lifecycleProduction, ""));
      GetPutBool(profile.lifecycleProduction, "");
      assert (PROFILE_TAG + body)[|PROFILE_TAG|..] == body;
    }
  }

  ghost predicate Fits(v: GraphView)
  {
    && |v.platform| < U64 && ShortMap(v.rootDependencies) && ShortMap(v.overrides)
    && (v.target.TargetView? ==> |v.target.os| < U64 && |v.target.cpu| < U64 && |v.target.libc| < U64)
    && |v.packages| < U64 && (forall i :: 0 <= i < |v.packages| ==> FitsPackage(v.packages[i]))
    && ShortMap(v.registryNames) && FitsPrepared(v.prepared)
  }

  lemma TrailersStart(v: GraphView)
    ensures !(NAMES_TAG <= Trailers(v)) && !(PREPARED_TAG <= PutProfile(v.profile))
  {
    var t, p := Trailers(v), PutProfile(v.profile);
    assert p != "" ==> p[0] == PROFILE_TAG[0] == 'i';
    assert t != "" && v.prepared != map[] ==> t[0] == PREPARED_TAG[0] == 'p';
    assert NAMES_TAG[0] == 'r' && PREPARED_TAG[0] == 'p';
  }

  lemma GetPutGraph(v: GraphView)
    requires Fits(v)
    ensures GetGraph(Encode(v)) == Done(v, "")
  {
    hide GetField, PutField, GetMap, PutMap, GetTarget, PutTarget, GetU64, PutU64, GetPackages, PutPackages;
    hide GetNames, PutNames, GetPrepared, PutPrepared, GetProfile, PutProfile, GetTag, FitsPackage;
    TrailersStart(v);
    var s9 := PutProfile(v.profile);
    var s8 := PutPrepared(v.prepared, s9);
    var s7 := PutNames(v.registryNames, s8);
    var s6 := PutPackages(v.packages, s7);
    var s5 := PutU64(|v.packages|, s6);
    var s4 := PutTarget(v.target, PACKAGES_TAG + s5);
    var s3 := PutMap(v.overrides, s4);
    var s2 := PutMap(v.rootDependencies, s3);
    var s1 := PutField(v.platform, ROOT_TAG + s2);
    GetPutTag(HEADER, s1);
    GetPutField(v.platform, ROOT_TAG + s2);
    GetPutTag(ROOT_TAG, s2);
    GetPutMap(v.rootDependencies, s3);
    GetPutMap(v.overrides, s4);
    GetPutTarget(v.target, PACKAGES_TAG + s5);
    GetPutTag(PACKAGES_TAG, s5);
    GetPutU64(|v.packages|, s6);
    GetPutPackages(v.packages, s7);
    GetPutNames(v.registryNames, s8);
    GetPutPrepared(v.prepared, s9);
    GetPutProfile(v.profile);
  }

  /** The decoder is a left inverse of the encoder. */
  lemma DecodeEncode(v: GraphView)
    requires Fits(v)
    ensures Decode(Encode(v)) == Some(v)
  {
    hide GetGraph, Encode;
    GetPutGraph(v);
  }

  // ---------------------------------------------------------------- locks as they are in memory

  /** A package whose strings and containers Rust can hold: `len() as u64` never truncates. */
  ghost predicate InMemory(p: PackageEntry)
  {
    && |p.path| < U64 && |p.name| < U64 && |p.version| < U64 && |p.resolved| < U64 && |OrEmpty(p.integrity)| < U64
    && Short(p.os) && |p.os| < U64 && Short(p.cpu) && |p.cpu| < U64 && ShortMap(p.bin) && ShortMap(p.dependencies)
  }

  ghost predicate LockInMemory(lock: Lock)
  {
    && ShortMap(lock.root.dependencies) && ShortMap(lock.resolution.root.overrides) && ShortMap(lock.resolution.registryNames)
    && (var target := lock.resolution.root.target;
        target.Some? ==> |target.value.os| < U64 && |target.value.cpu| < U64 && |OrEmpty(target.value.libc)| < U64)
    && |lock.packages| < U64 && (forall i :: 0 <= i < |lock.packages| ==> InMemory(lock.packages[i]))
    && forall p :: p in lock.resolution.packages ==>
         |lock.resolution.packages[p].libc| < U64 && Short(lock.resolution.packages[p].libc)
  }

  const EMPTY_LOCK := Lock(2, "", RootEntry(None, None, map[]), [], EmptyResolution())

  type Text = s: string | |s| < U64
  type StoredLock = lock: Lock | LockInMemory(lock) witness EMPTY_LOCK
  type StoredImages = m: PreparedMap | FitsPrepared(m) witness map[]

  lemma {:induction false} ViewPackagesFit(lock: StoredLock, packages: seq<PackageEntry>)
    requires forall i :: 0 <= i < |packages| ==> InMemory(packages[i])
    ensures forall i :: 0 <= i < |packages| ==> FitsPackage(ViewPackages(lock, packages)[i])
    decreases |packages|
  {
    if packages != [] {
      ViewPackagesFit(lock, packages[1..]);
      var p := ViewPackage(lock, packages[0]);
      assert FitsPackage(p);
    }
  }

  lemma ViewFits(platform: Text, lock: StoredLock, prepared: StoredImages, profile: InstallProfile)
    ensures Fits(View(platform, lock, prepared, profile))
  {
    hide FitsPackage, InMemory;
    ViewPackagesFit(lock, lock.packages);
  }

  // ---------------------------------------------------------------- graph ids

  datatype GraphId = Blake3(preimage: string)

  function GraphIdOf(platform: string, lock: Lock, prepared: PreparedMap, profile: InstallProfile): GraphId
  {
    Blake3(Encode(View(platform, lock, prepared, profile)))
  }

  /** Two installs share a graph id exactly when their graphs look the same. */
  lemma SameIdIffSameView(
    p1: Text, lock1: StoredLock, prepared1: StoredImages, profile1: InstallProfile,
    p2: Text, lock2: StoredLock, prepared2: StoredImages, profile2: InstallProfile)
    ensures GraphIdOf(p1, lock1, prepared1, profile1) == GraphIdOf(p2, lock2, prepared2, profile2) <==>
            View(p1, lock1, prepared1, profile1) == View(p2, lock2, prepared2, profile2)
  {
    hide Encode, Decode, View;
    var (v1, v2) := (View(p1, lock1, prepared1, profile1), View(p2, lock2, prepared2, profile2));
    ViewFits(p1, lock1, prepared1, profile1);
    ViewFits(p2, lock2, prepared2, profile2);
    DecodeEncode(v1);
    DecodeEncode(v2);
  }

  // ---------------------------------------------------------------- the program's encoder

  /**
   The `Vec<u8>` the program appends to. Every writer is specified against an arbitrary
   continuation `rest`: what is written now, followed by `rest`, is the value put before `rest`.
   */
  class ByteBuffer {
    var bytes: string

    constructor ()
      ensures bytes == ""
    {
      bytes := "";
    }

    method Extend(slice: string, ghost rest: string)
      modifies this
      ensures bytes + rest == old(bytes) + (slice + rest)
    {
      bytes := bytes + slice;
    }

    method WriteU64(n: nat, ghost rest: string)
      modifies this
      ensures bytes + rest == old(bytes) + PutU64(n, rest)
    {
      Extend(LittleEndian(n, 8), rest);
    }

    method WriteField(s: string, ghost rest: string)
      modifies this
      ensures bytes + rest == old(bytes) + PutField(s, rest)
    {
      WriteU64(|s|, s + rest);
      Extend(s, rest);
    }

    method WriteBool(b: bool, ghost rest: string)
      modifies this
      ensures bytes + rest == old(bytes) + PutBool(b, rest)
    {
      Extend([(if b then 1 else 0) as char], rest);
    }

    method WriteList(xs: seq<string>, ghost rest: string)
      modifies this
      ensures bytes + rest == old(bytes) + PutList(xs, rest)
    {
      hide PutField;
      WriteU64(|xs|, PutFields(xs, rest));
      assert xs[0..] == xs;
      for i := 0 to |xs|
        invariant bytes + PutFields(xs[i..], rest) == old(bytes) + PutList(xs, rest)
      {
        assert xs[i..][1..] == xs[i + 1..];
        WriteField(xs[i], PutFields(xs[i + 1..], rest));
      }
    }

    method WriteMap(m: map<string, string>, ghost rest: string)
      modifies this
      ensures bytes + rest == old(bytes) + PutMap(m, rest)
    {
      hide PutField, Sorted;
      var keys := Sorted(m.Keys);
      ghost var pairs := Entries(m);
      WriteU64(|m|, PutPairs(pairs, rest));
      assert pairs[0..] == pairs;
      for i := 0 to |keys|
        invariant bytes + PutPairs(pairs[i..], rest) == old(bytes) + PutMap(m, rest)
      {
        assert pairs[i..][1..] == pairs[i + 1..];
        var key := keys[i];
        WriteField(key, PutField(m[key], PutPairs(pairs[i + 1..], rest)));
        WriteField(m[key], PutPairs(pairs[i + 1..], rest));
      }
    }

    method WriteTarget(target: Option<LockTarget>, ghost rest: string)
      modifies this
      ensures bytes + rest == old(bytes) + PutTarget(ViewTarget(target), rest)
    {
      hide PutField, PutBool;
      if target.Some? {
        var t := target.value;
        ghost var r2 := PutField(OrEmpty(t.libc), rest);
        ghost var r1 := PutField(t.cpu, r2);
        WriteBool(true, PutField(t.os, r1));
        WriteField(t.os, r1);
        WriteField(t.cpu, r2);
        WriteField(OrEmpty(t.libc), rest);
      } else {
        WriteBool(false, rest);
      }
    }

    method WritePackage(lock: Lock, p: PackageEntry, ghost rest: string)
      modifies this
      ensures bytes + rest == old(bytes) + PutPackage(ViewPackage(lock, p), rest)
    {
      hide PutField, PutBool, PutList, PutMap, LibcOf;
      ghost var r12 := PutMap(p.dependencies, rest);
      ghost var r11 := PutMap(p.bin, r12);
      ghost var r10 := PutList(LibcOf(lock, p.path), r11);
      ghost var r9 := PutList(p.cpu, r10);
      ghost var r8 := PutList(p.os, r9);
      ghost var r7 := PutBool(p.optional, r8);
      ghost var r6 := PutBool(p.dev, r7);
      ghost var r5 := PutBool(p.link, r6);
      ghost var r4 := PutField(OrEmpty(p.integrity), r5);
      ghost var r3 := PutField(p.resolved, r4);
      ghost var r2 := PutField(p.version, r3);
      ghost var r1 := PutField(p.name, r2);
      WriteField(p.path, r1);
      WriteField(p.name, r2);
      WriteField(p.version, r3);
      WriteField(p.resolved, r4);
      WriteField(OrEmpty(p.integrity), r5);
      WriteBool(p.link, r6);
      WriteBool(p.dev, r7);
      WriteBool(p.optional, r8);
      WriteList(p.os, r9);
      WriteList(p.cpu, r10);
      WriteList(LibcOf(lock, p.path), r11);
      WriteMap(p.bin, r12);
      WriteMap(p.dependencies, rest);
    }

    method WritePackages(lock: Lock, ghost rest: string)
      modifies this
      ensures bytes + rest == old(bytes) + PutU64(|lock.packages|, PutPackages(ViewPackages(lock, lock.packages), rest))
    {
      hide PutPackage, PutU64, ViewPackage;
      ghost var all := PutPackages(ViewPackages(lock, lock.packages), rest);
      WriteU64(|lock.packages|, all);
      assert lock.packages[0..] == lock.packages;
      for i := 0 to |lock.packages|
        invariant bytes + PutPackages(ViewPackages(lock, lock.packages[i..]), rest) == old(bytes) + PutU64(|lock.packages|, all)
      {
        assert lock.packages[i..][1..] == lock.packages[i + 1..];
        ghost var views := ViewPackages(lock, lock.packages[i..]);
        assert views[1..] == ViewPackages(lock, lock.packages[i + 1..]);
        WritePackage(lock, lock.packages[i], PutPackages(ViewPackages(lock, lock.packages[i + 1..]), rest));
      }
    }

    method WriteImages(m: PreparedMap, ghost rest: string)
      modifies this
      ensures bytes + rest == old(bytes) + PutU64(|m|, PutImages(Entries(m), rest))
    {
      hide PutField, Sorted, PutU64;
      var keys := Sorted(m.Keys);
      ghost var pairs := Entries(m);
      WriteU64(|m|, PutImages(pairs, rest));
      assert pairs[0..] == pairs;
      for i := 0 to |keys|
        invariant bytes + PutImages(pairs[i..], rest) == old(bytes) + PutU64(|m|, PutImages(pairs, rest))
      {
        assert pairs[i..][1..] == pairs[i + 1..];
        var key := keys[i];
        ghost var after := PutImages(pairs[i + 1..], rest);
        WriteField(key, m[key] + after);
        Extend(m[key], after);
      }
    }
  }

  method CanonicalGraphBytes(
    platform: string, lock: Lock, ghost prepared: PreparedMap, ghost profile: InstallProfile, ghost rest: string)
    returns (buffer: ByteBuffer)
    ensures fresh(buffer) && buffer.bytes + rest == PutGraph(View(platform, lock, prepared, profile), rest)
  {
    ghost var v := View(platform, lock, prepared, profile);
    hide PutField, PutMap, PutTarget, PutU64, PutPackages, ViewPackages, ViewTarget;
    ghost var r7 := PutNames(v.registryNames, rest);
    ghost var r6 := PutU64(|v.packages|, PutPackages(v.packages, r7));
    ghost var r5 := PutTarget(v.target, PACKAGES_TAG + r6);
    ghost var r4 := PutMap(v.overrides, r5);
    ghost var r3 := PutMap(v.rootDependencies, r4);
    ghost var r2 := PutField(v.platform, ROOT_TAG + r3);
    buffer := new ByteBuffer();
    buffer.Extend(HEADER, r2);
    buffer.WriteField(platform, ROOT_TAG + r3);
    buffer.Extend(ROOT_TAG, r3);
    buffer.WriteMap(lock.root.dependencies, r4);
    buffer.WriteMap(lock.resolution.root.overrides, r5);
    buffer.WriteTarget(lock.resolution.root.target, PACKAGES_TAG + r6);
    buffer.Extend(PACKAGES_TAG, r6);
    buffer.WritePackages(lock, r7);
    if lock.resolution.registryNames != map[] {
      buffer.Extend(NAMES_TAG, PutMap(v.registryNames, rest));
      buffer.WriteMap(lock.resolution.registryNames, rest);
    }
  }

  method AppendPreparedImages(buffer: ByteBuffer, prepared: PreparedMap, ghost rest: string)
    requires prepared != map[]
    modifies buffer
    ensures buffer.bytes + rest == old(buffer.bytes) + PutPrepared(prepared, rest)
  {
    buffer.Extend(PREPARED_TAG, PutU64(|prepared|, PutImages(Entries(prepared), rest)));
    buffer.WriteImages(prepared, rest);
  }

  method AppendInstallProfile(buffer: ByteBuffer, profile: InstallProfile)
    requires !profile.IsDefault()
    modifies buffer
    ensures buffer.bytes == old(buffer.bytes) + PutProfile(profile)
  {
    ghost var tail := PutBool(profile.lifecycleProduction, "");
    buffer.Extend(PROFILE_TAG, PutBool(profile.omitDev, tail));
    buffer.WriteBool(profile.omitDev, tail);
    buffer.WriteBool(profile.lifecycleProduction, "");
    assert buffer.bytes + "" == buffer.bytes;
  }

  method GraphIdPlain(platform: string, lock: Lock) returns (id: GraphId)
    ensures id == GraphIdOf(platform, lock, map[], InstallProfile(false, false))
  {
    hide PutGraph;
    var buffer := CanonicalGraphBytes(platform, lock, map[], InstallProfile(false, false), "");
    assert buffer.bytes + "" == buffer.bytes;
    id := Blake3(buffer.bytes);
  }

  method GraphIdWithPrepared(platform: string, lock: Lock, prepared: PreparedMap) returns (id: GraphId)
    ensures id == GraphIdOf(platform, lock, prepared, InstallProfile(false, false))
  {
    hide PutGraph, PutPrepared;
    if prepared == map[] {
      id := GraphIdPlain(platform, lock);
      return;
    }
    var buffer := CanonicalGraphBytes(platform, lock, prepared, InstallProfile(false, false), PutPrepared(prepared, ""));
    AppendPreparedImages(buffer, prepared, "");
    assert buffer.bytes + "" == buffer.bytes;
    id := Blake3(buffer.bytes);
  }

  /** The default profile adds nothing; any other one appends its own trailer. */
  method GraphIdWithPreparedAndProfile(platform: string, lock: Lock, prepared: PreparedMap, profile: InstallProfile)
    returns (id: GraphId)
    ensures id == GraphIdOf(platform, lock, prepared, profile)
  {
    hide PutGraph, PutProfile;
    if profile.IsDefault() {
      id := GraphIdWithPrepared(platform, lock, prepared);
      return;
    }
    ghost var trailers := Trailers(View(platform, lock, prepared, profile));
    var buffer := CanonicalGraphBytes(platform, lock, prepared, profile, trailers);
    if prepared != map[] {
      AppendPreparedImages(buffer, prepared, PutProfile(profile));
    }
    AppendInstallProfile(buffer, profile);
    id := Blake3(buffer.bytes);
  }
}
