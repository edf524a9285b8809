/**
 The bytes that are hashed (src/graph.rs), laid out flat: the fields in the order they are appended, each number in eight
 bytes from the lowest, each text after its length, each tag as it is spelt.
 */
module ByteLayout {
  import opened ClosureBytes
  import opened ClosureDigest
  import opened GraphEncoding
  import opened Hashes
  import opened Ordering

  function Flat(parts: seq<string>): string
  {
    if parts == [] then "" else parts[0] + Flat(parts[1..])
  }

  /** `n` divided by 256, `i` times over. */
  function Shifted(n: nat, i: nat): nat
  {
    if i == 0 then n else Shifted(n / 256, i - 1)
  }

  /** Byte `i` of a number is its `i`-th digit to the base 256, from the lowest. */
  lemma {:induction false} NumberByte(n: nat, k: nat, i: nat)
    requires i < k
    ensures LittleEndian(n, k)[i] as int == Shifted(n, i) % 256
    decreases k
  {
    if i > 0 {
      NumberByte(n / 256, k - 1, i - 1);
    }
  }

  function Number(n: nat): string
  {
    LittleEndian(n, 8)
  }

  function Text(s: string): string
  {
    Number(|s|) + s
  }

  function Flag(b: bool): string
  {
    if b then "\U{1}" else "\0"
  }

  function Texts(xs: seq<string>): string
  {
    if xs == [] then "" else Text(xs[0]) + Texts(xs[1..])
  }

  function List(xs: seq<string>): string
  {
    Number(|xs|) + Texts(xs)
  }

  function Pairs(keys: seq<string>, m: map<string, string>): string
    requires forall k :: k in keys ==> k in m
  {
    if keys == [] then "" else Text(keys[0]) + Text(m[keys[0]]) + Pairs(keys[1..], m)
  }

  /** A map: its size, then its entries in the order of the keys. */
  function Dictionary(m: map<string, string>): string
  {
    Number(|m|) + Pairs(Sorted(m.Keys), m)
  }

  lemma {:induction false} TextsPut(xs: seq<string>, rest: string)
    ensures PutFields(xs, rest) == Texts(xs) + rest
  {
    if xs != [] {
      TextsPut(xs[1..], rest);
      TextPut(xs[0], PutFields(xs[1..], rest));
      assert Text(xs[0]) + (Texts(xs[1..]) + rest) == (Text(xs[0]) + Texts(xs[1..])) + rest;
    }
  }

  lemma TextPut(s: string, rest: string)
    ensures PutField(s, rest) == Text(s) + rest
  {
    assert Number(|s|) + (s + rest) == (Number(|s|) + s) + rest;
  }

  lemma FlagPut(b: bool, rest: string)
    ensures PutBool(b, rest) == Flag(b) + rest
  {
  }

  lemma ListPut(xs: seq<string>, rest: string)
    ensures PutList(xs, rest) == List(xs) + rest
  {
    TextsPut(xs, rest);
    Join(Number(|xs|), Texts(xs), rest);
  }

  lemma {:induction false} PairsPut(keys: seq<string>, m: map<string, string>, rest: string)
    requires forall k :: k in keys ==> k in m
    ensures PutPairs(EntriesOf(keys, m), rest) == Pairs(keys, m) + rest
    decreases |keys|
  {
    if keys != [] {
      var (k, v) := (keys[0], m[keys[0]]);
      assert EntriesOf(keys, m)[1..] == EntriesOf(keys[1..], m);
      PairsPut(keys[1..], m, rest);
      var tail := Pairs(keys[1..], m) + rest;
      TextPut(v, tail);
      TextPut(k, Text(v) + tail);
      assert Text(k) + (Text(v) + tail) == (Text(k) + Text(v) + Pairs(keys[1..], m)) + rest;
    }
  }

  lemma DictionaryPut(m: map<string, string>, rest: string)
    ensures PutMap(m, rest) == Dictionary(m) + rest
  {
    hide LittleEndian, PutPairs, Pairs;
    PairsPut(Sorted(m.Keys), m, rest);
    Join(Number(|m|), Pairs(Sorted(m.Keys), m), rest);
  }

  lemma Join(a: string, b: string, c: string)
    ensures a + (b + c) == (a + b) + c
  {
  }

  lemma {:induction false} FlatAppend(xs: seq<string>, ys: seq<string>)
    ensures Flat(xs + ys) == Flat(xs) + Flat(ys)
  {
    if xs == [] {
      assert xs + ys == ys;
    } else {
      assert (xs + ys)[1..] == xs[1..] + ys;
      FlatAppend(xs[1..], ys);
      Join(xs[0], Flat(xs[1..]), Flat(ys));
    }
  }

  lemma FlatStep(part: string, parts: seq<string>, rest: string)
    ensures Flat([part] + parts) + rest == part + (Flat(parts) + rest)
  {
    assert ([part] + parts)[1..] == parts;
    Join(part, Flat(parts), rest);
  }

  lemma FlatNone(rest: string)
    ensures Flat([]) + rest == rest
  {
  }

  /** One package: five texts, three flags, three lists, two dictionaries. */
  function PackageParts(p: PackageView): seq<string>
  {
    [Text(p.path), Text(p.name), Text(p.version), Text(p.resolved), Text(p.integrity), Flag(p.link), Flag(p.dev), Flag(p.optional),
     List(p.os), List(p.cpu), List(p.libc), Dictionary(p.bin), Dictionary(p.dependencies)]
  }

  lemma PackageLayout(p: PackageView, rest: string)
    ensures PutPackage(p, rest) == Flat(PackageParts(p)) + rest
  {
    hide PutField, PutBool, PutList, PutMap, Text, Flag, List, Dictionary, Flat;
    ListsLayout(p, rest);
    var lists := [List(p.os), List(p.cpu), List(p.libc), Dictionary(p.bin), Dictionary(p.dependencies)];
    FlagsLayout(p, Flat(lists) + rest);
    var flags := [Flag(p.link), Flag(p.dev), Flag(p.optional)];
    TextsLayout(p, Flat(flags) + (Flat(lists) + rest));
    var texts := [Text(p.path), Text(p.name), Text(p.version), Text(p.resolved), Text(p.integrity)];
    assert PackageParts(p) == texts + (flags + lists);
    FlatAppend(texts, flags + lists);
    FlatAppend(flags, lists);
    Join(Flat(flags), Flat(lists), rest);
    Join(Flat(texts), Flat(flags) + Flat(lists), rest);
  }

  lemma ListsLayout(p: PackageView, rest: string)
    ensures PutPackageLists(p, rest) == Flat([List(p.os), List(p.cpu), List(p.libc), Dictionary(p.bin), Dictionary(p.dependencies)]) + rest
  {
    hide PutList, PutMap, List, Dictionary, Flat;
    var (a, b, c, d, e) := (List(p.os), List(p.cpu), List(p.libc), Dictionary(p.bin), Dictionary(p.dependencies));
    DictionaryPut(p.dependencies, rest);
    DictionaryPut(p.bin, e + rest);
    ListPut(p.libc, d + (e + rest));
    ListPut(p.cpu, c + (d + (e + rest)));
    ListPut(p.os, b + (c + (d + (e + rest))));
    FlatFive(a, b, c, d, e, rest);
  }

  lemma FlatFive(a: string, b: string, c: string, d: string, e: string, rest: string)
    ensures Flat([a, b, c, d, e]) + rest == a + (b + (c + (d + (e + rest))))
  {
    hide Flat;
    FlatNone(rest);
    FlatStep(e, [], rest);
    FlatStep(d, [e], rest);
    FlatStep(c, [d, e], rest);
    FlatStep(b, [c, d, e], rest);
    FlatStep(a, [b, c, d, e], rest);
    assert [e] + [] == [e] && [d] + [e] == [d, e] && [c] + [d, e] == [c, d, e];
    assert [b] + [c, d, e] == [b, c, d, e] && [a] + [b, c, d, e] == [a, b, c, d, e];
  }

  lemma FlagsLayout(p: PackageView, rest: string)
    ensures PutBool(p.link, PutBool(p.dev, PutBool(p.optional, rest))) == Flat([Flag(p.link), Flag(p.dev), Flag(p.optional)]) + rest
  {
    hide PutBool, Flag, Flat;
    var (a, b, c) := (Flag(p.link), Flag(p.dev), Flag(p.optional));
    FlagPut(p.optional, rest);
    FlagPut(p.dev, c + rest);
    FlagPut(p.link, b + (c + rest));
    FlatNone(rest);
    FlatStep(c, [], rest);
    FlatStep(b, [c], rest);
    FlatStep(a, [b, c], rest);
    assert [c] + [] == [c] && [b] + [c] == [b, c] && [a] + [b, c] == [a, b, c];
  }

  lemma TextsLayout(p: PackageView, rest: string)
    ensures PutField(p.path, PutField(p.name, PutField(p.version, PutField(p.resolved, PutField(p.integrity, rest)))))
            == Flat([Text(p.path), Text(p.name), Text(p.version), Text(p.resolved), Text(p.integrity)]) + rest
  {
    hide PutField, Text, Flat;
    var (a, b, c, d, e) := (Text(p.path), Text(p.name), Text(p.version), Text(p.resolved), Text(p.integrity));
    TextPut(p.integrity, rest);
    TextPut(p.resolved, e + rest);
    TextPut(p.version, d + (e + rest));
    TextPut(p.name, c + (d + (e + rest)));
    TextPut(p.path, b + (c + (d + (e + rest))));
    FlatFive(a, b, c, d, e, rest);
  }

  function PackagesBytes(ps: seq<PackageView>): string
  {
    if ps == [] then "" else Flat(PackageParts(ps[0])) + PackagesBytes(ps[1..])
  }

  lemma {:induction false} PackagesLayout(ps: seq<PackageView>, rest: string)
    ensures PutPackages(ps, rest) == PackagesBytes(ps) + rest
  {
    hide PutPackage, PackageParts;
    if ps != [] {
      PackagesLayout(ps[1..], rest);
      PackageLayout(ps[0], PackagesBytes(ps[1..]) + rest);
      Join(Flat(PackageParts(ps[0])), PackagesBytes(ps[1..]), rest);
    }
  }

  function TargetBytes(target: TargetView): string
  {
    if target.NoTarget? then Flag(false) else Flag(true) + Text(target.os) + Text(target.cpu) + Text(target.libc)
  }

  lemma TargetLayout(target: TargetView, rest: string)
    ensures PutTarget(target, rest) == TargetBytes(target) + rest
  {
    hide PutField, PutBool, Text, Flag;
    if target.NoTarget? {
      FlagPut(false, rest);
    } else {
      var (f, a, b, c) := (Flag(true), Text(target.os), Text(target.cpu), Text(target.libc));
      TextPut(target.libc, rest);
      TextPut(target.cpu, c + rest);
      TextPut(target.os, b + (c + rest));
      FlagPut(true, a + (b + (c + rest)));
      assert f + (a + (b + (c + rest))) == (f + a + b + c) + rest;
    }
  }

  function NamesBytes(m: map<string, string>): string
  {
    if m == map[] then "" else "registry-names\n" + Dictionary(m)
  }

  lemma NamesLayout(m: map<string, string>, rest: string)
    ensures PutNames(m, rest) == NamesBytes(m) + rest
  {
    hide PutMap, Dictionary;
    if m != map[] {
      DictionaryPut(m, rest);
      Join("registry-names\n", Dictionary(m), rest);
    }
  }

  /** Each image: its path as a text, then its 32 bytes as they are. */
  function ImagesBytes(keys: seq<string>, m: map<string, string>): string
    requires forall k :: k in keys ==> k in m
  {
    if keys == [] then "" else Text(keys[0]) + m[keys[0]] + ImagesBytes(keys[1..], m)
  }

  lemma {:induction false} ImagesLayout(keys: seq<string>, m: map<string, string>, rest: string)
    requires forall k :: k in keys ==> k in m
    ensures PutImages(EntriesOf(keys, m), rest) == ImagesBytes(keys, m) + rest
    decreases |keys|
  {
    if keys != [] {
      assert EntriesOf(keys, m)[1..] == EntriesOf(keys[1..], m);
      ImagesLayout(keys[1..], m, rest);
      var (k, v, tail) := (Text(keys[0]), m[keys[0]], ImagesBytes(keys[1..], m));
      TextPut(keys[0], v + (tail + rest));
      assert k + (v + (tail + rest)) == (k + v + tail) + rest;
    }
  }

  function PreparedBytes(m: map<string, string>): string
  {
    if m == map[] then "" else "prepared-images\n" + Number(|m|) + ImagesBytes(Sorted(m.Keys), m)
  }

  function ProfileBytes(profile: InstallProfile): string
  {
    if !profile.omitDev && !profile.lifecycleProduction then ""
    else "install-profile-v2\n" + Flag(profile.omitDev) + Flag(profile.lifecycleProduction)
  }

  lemma ProfileLayout(profile: InstallProfile)
    ensures PutProfile(profile) == ProfileBytes(profile)
  {
    hide PutBool, Flag;
    if !profile.IsDefault() {
      var (a, b) := (Flag(profile.omitDev), Flag(profile.lifecycleProduction));
      FlagPut(profile.lifecycleProduction, "");
      FlagPut(profile.omitDev, b);
      assert b + "" == b;
      Join("install-profile-v2\n", a, b);
    }
  }

  lemma PreparedLayout(m: map<string, string>, rest: string)
    ensures PutPrepared(m, rest) == PreparedBytes(m) + rest
  {
    hide LittleEndian, PutImages, ImagesBytes;
    if m != map[] {
      var (n, images) := (Number(|m|), ImagesBytes(Sorted(m.Keys), m));
      ImagesLayout(Sorted(m.Keys), m, rest);
      Join(n, images, rest);
      Join("prepared-images\n", n + images, rest);
      Join("prepared-images\n", n, images);
    }
  }

  lemma TrailersLayout(v: GraphView)
    ensures Trailers(v) == PreparedBytes(v.prepared) + ProfileBytes(v.profile)
  {
    hide PutProfile, PutPrepared, PreparedBytes, ProfileBytes;
    ProfileLayout(v.profile);
    PreparedLayout(v.prepared, ProfileBytes(v.profile));
  }

  /** Everything that is hashed for a graph id, in order. */
  function GraphParts(v: GraphView): seq<string>
  {
    ["bpm-graph-v2\n", Text(v.platform), "root\n", Dictionary(v.rootDependencies), Dictionary(v.overrides), TargetBytes(v.target),
     "packages\n", Number(|v.packages|), PackagesBytes(v.packages), NamesBytes(v.registryNames),
     PreparedBytes(v.prepared), ProfileBytes(v.profile)]
  }

  lemma GraphLayout(v: GraphView)
    ensures Encode(v) == Flat(GraphParts(v))
  {
    hide PutField, PutMap, PutTarget, PutPackages, PutNames, Trailers, Text, Dictionary, TargetBytes, Number, PackagesBytes, NamesBytes,
      PreparedBytes, ProfileBytes, Flat, LittleEndian;
    var (trailers, names) := (Trailers(v), NamesBytes(v.registryNames));
    var tail := ["packages\n", Number(|v.packages|), PackagesBytes(v.packages), names];
    TailLayout(v, trailers);
    var body := Flat(tail) + trailers;
    var front := ["bpm-graph-v2\n", Text(v.platform), "root\n", Dictionary(v.rootDependencies), Dictionary(v.overrides), TargetBytes(v.target)];
    TargetLayout(v.target, body);
    DictionaryPut(v.overrides, TargetBytes(v.target) + body);
    DictionaryPut(v.rootDependencies, Dictionary(v.overrides) + (TargetBytes(v.target) + body));
    TextPut(v.platform, "root\n" + (Dictionary(v.rootDependencies) + (Dictionary(v.overrides) + (TargetBytes(v.target) + body))));
    FlatSix(front[0], front[1], front[2], front[3], front[4], front[5], body);
    TrailersLayout(v);
    FlatTwo(PreparedBytes(v.prepared), ProfileBytes(v.profile));
    var last := [PreparedBytes(v.prepared), ProfileBytes(v.profile)];
    assert GraphParts(v) == front + (tail + last);
    FlatAppend(tail, last);
    FlatAppend(front, tail + last);
  }

  lemma FlatTwo(a: string, b: string)
    ensures Flat([a, b]) == a + b
  {
    assert Flat([b]) == b + Flat([][..]) by { assert [b][1..] == []; }
    assert [a, b][1..] == [b] && b + "" == b;
  }

  lemma FlatSix(a: string, b: string, c: string, d: string, e: string, f: string, rest: string)
    ensures Flat([a, b, c, d, e, f]) + rest == a + (b + (c + (d + (e + (f + rest)))))
  {
    hide Flat;
    FlatFive(b, c, d, e, f, rest);
    FlatStep(a, [b, c, d, e, f], rest);
    assert [a] + [b, c, d, e, f] == [a, b, c, d, e, f];
  }

  lemma TailLayout(v: GraphView, trailers: string)
    ensures PACKAGES_TAG + PutU64(|v.packages|, PutPackages(v.packages, PutNames(v.registryNames, trailers)))
            == Flat(["packages\n", Number(|v.packages|), PackagesBytes(v.packages), NamesBytes(v.registryNames)]) + trailers
  {
    hide PutPackages, PutNames, PackagesBytes, NamesBytes, Flat, LittleEndian;
    var (t, n, ps, names) := ("packages\n", Number(|v.packages|), PackagesBytes(v.packages), NamesBytes(v.registryNames));
    NamesLayout(v.registryNames, trailers);
    PackagesLayout(v.packages, names + trailers);
    FlatNone(trailers);
    FlatStep(names, [], trailers);
    FlatStep(ps, [names], trailers);
    FlatStep(n, [ps, names], trailers);
    FlatStep(t, [n, ps, names], trailers);
    assert [names] + [] == [names] && [ps] + [names] == [ps, names] && [n] + [ps, names] == [n, ps, names];
    assert [t] + [n, ps, names] == [t, n, ps, names];
  }

  // ---------------------------------------------------------------- the closure digest

  function ChildrenBytes(kids: seq<Key>): string
  {
    if kids == [] then "" else "child\0" + kids[0] + ChildrenBytes(kids[1..])
  }

  lemma {:induction false} ChildrenLayout(kids: seq<Key>)
    ensures ChildPart(kids) == ChildrenBytes(kids)
  {
    if kids != [] {
      ChildrenLayout(kids[1..]);
      assert Label("child") == "child\0";
      Join("child\0", kids[0], ChildrenBytes(kids[1..]));
    }
  }

  /** One package frame: version tag, path, what is known of the package, and each child's hash after its label. */
  lemma FrameLayout(path: string, identity: Identity, kids: seq<Key>)
    ensures FrameBytes(path, identity, kids) ==
              "bpm-package-closure-v1\0" + "path\0" + path +
              (if identity.Unknown? then ""
               else "version\0" + identity.version + "resolved\0" + identity.resolved + "integrity\0" + identity.integrity) +
              ChildrenBytes(kids)
    ensures CycleBytes(path) == "bpm-package-closure-cycle\0" + path
  {
    hide ChildPart, ChildrenBytes;
    ChildrenLayout(kids);
    LabelsAre();
    var known := if identity.Unknown? then ""
                 else "version\0" + identity.version + "resolved\0" + identity.resolved + "integrity\0" + identity.integrity;
    assert IdentityPart(identity) == known by {
      if identity.Known? {
        KnownLayout(identity.version, identity.resolved, identity.integrity);
      }
    }
    assert "bpm-package-closure-v1\0" + ("path\0" + path) + (known + ChildrenBytes(kids))
           == "bpm-package-closure-v1\0" + "path\0" + path + known + ChildrenBytes(kids);
  }

  lemma LabelsAre()
    ensures Label("bpm-package-closure-v1") == "bpm-package-closure-v1\0" && Label("path") == "path\0"
    ensures Label("version") == "version\0" && Label("resolved") == "resolved\0" && Label("integrity") == "integrity\0"
    ensures Label("bpm-package-closure-cycle") == "bpm-package-closure-cycle\0"
  {
  }

  lemma KnownLayout(version: string, resolved: string, integrity: string)
    ensures "version\0" + (version + ("resolved\0" + (resolved + ("integrity\0" + integrity))))
            == "version\0" + version + "resolved\0" + resolved + "integrity\0" + integrity
  {
  }
}
