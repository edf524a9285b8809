/** The lockfile `bpm.lock` as the program holds it in memory (src/lockfile.rs). */
module LockTypes {
  import opened Options

  datatype PackageEntry = PackageEntry(
    path: string, name: string, version: string, resolved: string,
    workspaceTarget: Option<string>, integrity: Option<string>,
    link: bool, dev: bool, optional: bool, os: seq<string>, cpu: seq<string>,
    bin: map<string, string>, dependencies: map<string, string>)

  datatype LockSource =
    | Registry(registry: string)
    | Workspace(relativePath: string)
    | LocalFile(path: string)
    | Tarball(url: string)
    | Git(url: string, reference: Option<string>, resolvedCommit: string)
    | Patch(source: LockSource, patch: string)

  datatype LockDependency = LockDependency(spec: string, target: string)

  datatype PeerProvider = PeerProvider(name: string, version: string, source: LockSource, path: string)

  type TargetMap = map<string, LockDependency>

  datatype PackageResolution = PackageResolution(
    source: LockSource, devOptional: bool, peer: bool, libc: seq<string>,
    dependencies: TargetMap, optionalDependencies: TargetMap, peerDependencies: TargetMap,
    optionalPeers: set<string>, peerContext: map<string, PeerProvider>,
    workspaceTarget: Option<string>, hasInstallScript: bool)

  datatype LockTarget = LockTarget(os: string, cpu: string, libc: Option<string>)

  datatype PeerMode = Strict | LegacyIgnore

  datatype RootResolution = RootResolution(
    devDependencies: map<string, string>, optionalDependencies: map<string, string>,
    overrides: map<string, string>, workspacePatterns: seq<string>,
    workspaceIndexDigest: Option<string>, target: Option<LockTarget>, peerMode: PeerMode)

  datatype ResolutionMetadata = ResolutionMetadata(
    root: RootResolution, packages: map<string, PackageResolution>, registryNames: map<string, string>)

  datatype RootEntry = RootEntry(name: Option<string>, version: Option<string>, dependencies: map<string, string>)

  datatype Lock = Lock(
    lockfileVersion: int, generator: string, root: RootEntry,
    packages: seq<PackageEntry>, resolution: ResolutionMetadata)

  function EmptyResolution(): ResolutionMetadata
  {
    ResolutionMetadata(RootResolution(map[], map[], map[], [], None, None, Strict), map[], map[])
  }
}
