/**
 A lock on which the yarn importer's walk (src/yarn_lock.rs) never ends: two packages that need each other crosswise in two
 versions. Each placement finds the other version nearest and nests one level deeper, at a path not seen before.
 */
module YarnNests {
  import opened Hoist
  import opened NodePaths
  import opened Ordering
  import opened YarnImport

  /** Which of the four entries visit `k` is for. */
  function Turn(k: nat): (r: nat)
    ensures r < 4
  {
    if k < 4 then k else Turn(k - 4)
  }

  lemma {:induction false} NextTurn(k: nat)
    ensures Turn(k + 1) == if Turn(k) == 3 then 0 else Turn(k) + 1
    decreases k
  {
    if k >= 4 {
      NextTurn(k - 4);
    }
  }

  function NameAt(k: nat): string
  {
    if Turn(k) == 0 || Turn(k) == 2 then "a" else "b"
  }

  function VersionAt(k: nat): string
  {
    if Turn(k) < 2 then "1" else "2"
  }

  /** a 1 needs b 1, b 1 needs a 2, a 2 needs b 2, b 2 needs a 1. */
  function EntryAt(k: nat): LockEntry
  {
    LockEntry(NameAt(k), VersionAt(k), map[NameAt(k + 1) := Turn(k + 1)])
  }

  function CrossLock(): YarnLock
  {
    YarnLock([EntryAt(0), EntryAt(1), EntryAt(2), EntryAt(3)], map["a" := 0])
  }

  /** The package placed by visit `k`: the first two side by side at the root, every later one in the one before. */
  function PathAt(k: nat): (path: string)
    ensures path != ""
  {
    if k < 2 then PackageIn(ROOT_DIR, NameAt(k)) else PackageIn(OwnDir(PathAt(k - 1)), NameAt(k))
  }

  function DependentAt(k: nat): string
  {
    if k == 0 then "" else PathAt(k - 1)
  }

  function ItemAt(k: nat): Item
  {
    Item(Turn(k), DependentAt(k))
  }

  function RequestAt(k: nat): Request
  {
    Request(DependentAt(k), NameAt(k), VersionAt(k))
  }

  lemma EntryIs(i: nat)
    requires i < 4
    ensures CrossLock().entries[i] == EntryAt(i)
  {
    hide EntryAt;
  }

  lemma EntriesRepeat(k: nat)
    ensures |CrossLock().entries| == 4 && CrossLock().entries[Turn(k)] == EntryAt(k)
  {
    EntryIs(Turn(k));
    NextTurn(k);
    NextTurn(Turn(k));
  }

  /** One name back is the other name; two back is the same name in the other version. */
  lemma Alternates(k: nat)
    ensures NameAt(k + 1) != NameAt(k) && NameAt(k + 2) == NameAt(k) && VersionAt(k + 2) != VersionAt(k)
  {
    NextTurn(k);
    NextTurn(k + 1);
    assert "a"[0] != "b"[0] && "1"[0] != "2"[0];
  }

  lemma NamesAreClean()
    ensures CleanName("a") && CleanName("b")
  {
  }

  lemma NeedFound(i: nat)
    requires i < 4
    ensures FoundByName(CrossLock(), EntryAt(i).dependencies) && CleanName(EntryAt(i).name)
  {
    hide CleanName, CrossLock;
    NamesAreClean();
    EntriesRepeat(i + 1);
  }

  lemma CrossLockFits()
    ensures WellFormed(CrossLock())
  {
    hide CleanName, FoundByName, NameAt, VersionAt;
    forall i | 0 <= i < 4
      ensures CrossLock().entries[i] == EntryAt(i) && FoundByName(CrossLock(), EntryAt(i).dependencies) && CleanName(EntryAt(i).name)
    {
      EntryIs(i);
      NeedFound(i);
    }
    RootFound();
    EntriesDiffer();
  }

  lemma RootFound()
    ensures FoundByName(CrossLock(), CrossLock().roots)
  {
  }

  lemma EntriesDiffer()
    ensures forall i, j :: 0 <= i < j < 4 ==> EntryAt(i).name != EntryAt(j).name || EntryAt(i).version != EntryAt(j).version
  {
  }

  // ---------------------------------------------------------------- the paths are all different

  lemma {:induction false} PathsGrow(j: nat, k: nat)
    requires j < k && k >= 2
    ensures |PathAt(j)| < |PathAt(k)|
    decreases k
  {
    if j == k - 1 || k == 2 {
      if k == 2 && j == 0 {
        assert |PathAt(0)| == |PathAt(1)|;
      }
    } else {
      PathsGrow(j, k - 1);
    }
  }

  lemma PathsDiffer(j: nat, k: nat)
    requires j < k
    ensures PathAt(j) != PathAt(k)
  {
    if k >= 2 {
      PathsGrow(j, k);
    } else {
      assert PathAt(0)[13] == 'a' && PathAt(1)[13] == 'b';
    }
  }

  lemma ItemsDiffer(j: nat, k: nat)
    requires j < k
    ensures ItemAt(j) != ItemAt(k)
  {
    if j > 0 {
      PathsDiffer(j - 1, k - 1);
    }
  }

  // ---------------------------------------------------------------- where each package goes

  lemma {:induction false} ChainOf(k: nat)
    requires k >= 1
    ensures ROOT_PREFIX <= PathAt(k) && |Ancestors(PathAt(k))| == k
    ensures forall i :: 0 <= i < k ==> Ancestors(PathAt(k))[i] == PathAt(k - i)
  {
    hide CleanName, NameAt, ParentPackage;
    NamesAreClean();
    NameIsEither(k);
    if k == 1 {
      FirstBelowRoot();
    } else {
      ChainOf(k - 1);
      PlacedParent(PathAt(k - 1), NameAt(k));
      assert PathAt(k) == PathAt(k - 1) + ("/node_modules" + "/" + NameAt(k));
      assert Ancestors(PathAt(k)) == [PathAt(k)] + Ancestors(PathAt(k - 1));
    }
  }

  lemma NameIsEither(k: nat)
    ensures NameAt(k) in {"a", "b"}
  {
  }

  lemma FirstBelowRoot()
    ensures ROOT_PREFIX <= PathAt(1) && Ancestors(PathAt(1)) == [PathAt(1)]
  {
    hide CleanName;
    NamesAreClean();
    InRoot("b");
    RootHasNoParent("b");
  }

  /** What the placer holds after `k` visits, two of them at least. */
  ghost predicate Placed(occupied: Occupied, k: nat)
  {
    && ROOT_DIR in occupied && occupied[ROOT_DIR] == map["a" := "1", "b" := "1"]
    && (forall j :: 1 <= j < k - 1 ==> OwnDir(PathAt(j)) in occupied && occupied[OwnDir(PathAt(j))] == map[NameAt(j + 1) := VersionAt(j + 1)])
    && forall j :: j >= 1 && j >= k - 1 ==> OwnDir(PathAt(j)) !in occupied
  }

  lemma DirsUp(k: nat)
    requires k >= 2
    ensures var chain := DirChain(DependentAt(k));
            |chain| == k && chain[k - 1] == ROOT_DIR && forall i :: 0 <= i < k - 1 ==> chain[i] == OwnDir(PathAt(k - 1 - i))
  {
    hide Ancestors, OwnDir, PathAt;
    ChainOf(k - 1);
  }

  /** The nearest copy of the name wanted is two names up, in the other version. */
  lemma OtherVersionIsNearest(occupied: Occupied, k: nat)
    requires k >= 2 && Placed(occupied, k)
    ensures var chain := DirChain(DependentAt(k));
            var i := FirstHolding(occupied, chain, NameAt(k));
            && 0 < i < |chain| && chain[0] == OwnDir(PathAt(k - 1)) && occupied[chain[i]][NameAt(k)] != VersionAt(k)
  {
    hide DirChain, OwnDir, PathAt, DependentAt, NameAt, VersionAt, FirstHolding;
    DirsUp(k);
    Alternates(k - 2);
    var chain := DirChain(DependentAt(k));
    assert !Holds(occupied, chain[0], NameAt(k));
    if k >= 3 {
      Alternates(k - 1);
      assert chain[1] == OwnDir(PathAt(k - 2));
    }
    if k >= 4 {
      assert chain[2] == OwnDir(PathAt(k - 3));
      FirstHoldingIs(occupied, chain, NameAt(k), 2);
    } else {
      RootHoldsBoth(occupied, k);
      FirstHoldingIs(occupied, chain, NameAt(k), k - 1);
    }
  }

  lemma RootHoldsBoth(occupied: Occupied, k: nat)
    requires Placed(occupied, k)
    ensures Holds(occupied, ROOT_DIR, NameAt(k)) && (k in {2, 3} ==> occupied[ROOT_DIR][NameAt(k)] != VersionAt(k))
  {
    hide OwnDir, PathAt;
  }

  lemma NestsDeeper(occupied: Occupied, k: nat)
    requires k >= 2 && Placed(occupied, k)
    ensures PlaceIn(occupied, RequestAt(k)).1 == PathAt(k) && Placed(PlaceIn(occupied, RequestAt(k)).0, k + 1)
  {
    hide DirChain, FirstHolding, OwnDir, NameAt, VersionAt;
    OtherVersionIsNearest(occupied, k);
    ClaimKeepsPlaced(occupied, k);
  }

  lemma ClaimKeepsPlaced(occupied: Occupied, k: nat)
    requires k >= 2 && Placed(occupied, k)
    ensures Placed(Claim(occupied, OwnDir(PathAt(k - 1)), NameAt(k), VersionAt(k)), k + 1)
  {
    hide OwnDir, PathAt, NameAt, VersionAt;
    forall j | j >= 1 && j != k - 1
      ensures OwnDir(PathAt(j)) != OwnDir(PathAt(k - 1))
    {
      OwnDirsDiffer(j, k - 1);
    }
    NotRoot(k - 1);
  }

  lemma OwnDirsDiffer(j: nat, k: nat)
    requires j != k
    ensures OwnDir(PathAt(j)) != OwnDir(PathAt(k))
  {
    hide PathAt;
    PathsDiffer(if j < k then j else k, if j < k then k else j);
    if OwnDir(PathAt(j)) == OwnDir(PathAt(k)) {
      OwnDirInjective(PathAt(j), PathAt(k));
    }
  }

  lemma NotRoot(k: nat)
    ensures OwnDir(PathAt(k)) != ROOT_DIR
  {
    hide PathAt;
    assert |OwnDir(PathAt(k))| > |ROOT_DIR|;
  }

  function Requests(k: nat): seq<Request>
  {
    seq(k, i requires 0 <= i < k => RequestAt(i))
  }

  function Paths(k: nat): seq<string>
  {
    seq(k, i requires 0 <= i < k => PathAt(i))
  }

  lemma PlacedAtRoot(occupied: Occupied, k: nat)
    requires k < 2 && forall dir, n :: Holds(occupied, dir, n) ==> dir == ROOT_DIR && n == "a" && k == 1
    ensures PlaceIn(occupied, RequestAt(k)) == (Claim(occupied, ROOT_DIR, NameAt(k), VersionAt(k)), PathAt(k))
  {
    hide DirChain, Claim, FirstHolding, DependentAt;
    assert "a"[0] != "b"[0];
    var chain := DirChain(DependentAt(k));
    assert forall dir :: !Holds(occupied, dir, NameAt(k));
    FirstHoldingNone(occupied, chain, NameAt(k));
  }

  lemma FirstTwo()
    ensures Run(Requests(0)) == (map[], []) && Run(Requests(1)).1 == Paths(1) && Run(Requests(2)).1 == Paths(2)
    ensures forall dir, n :: Holds(Run(Requests(1)).0, dir, n) ==> dir == ROOT_DIR && n == "a"
    ensures Placed(Run(Requests(2)).0, 2)
  {
    hide PlaceIn, PathAt, Run, Placed, RequestAt, Claim;
    RunOfNone();
    RunStep(Requests(2), 0);
    RunStep(Requests(2), 1);
    assert Requests(2)[..0] == Requests(0) == [] && Requests(2)[..1] == Requests(1) && Requests(2)[..2] == Requests(2);
    PlacedAtRoot(map[], 0);
    BothClaimed();
    PlacedAtRoot(Run(Requests(1)).0, 1);
    assert Paths(1) == [PathAt(0)] && Paths(2) == [PathAt(0), PathAt(1)];
  }

  lemma BothClaimed()
    ensures forall dir, n :: Holds(Claim(map[], ROOT_DIR, NameAt(0), VersionAt(0)), dir, n) ==> dir == ROOT_DIR && n == "a"
    ensures Placed(Claim(Claim(map[], ROOT_DIR, NameAt(0), VersionAt(0)), ROOT_DIR, NameAt(1), VersionAt(1)), 2)
  {
    hide PathAt, OwnDir;
    forall j | j >= 1
      ensures OwnDir(PathAt(j)) != ROOT_DIR
    {
      NotRoot(j);
    }
  }

  lemma {:induction false} RunOfRequests(k: nat)
    requires k >= 2
    ensures Run(Requests(k)).1 == Paths(k) && Placed(Run(Requests(k)).0, k)
  {
    hide PlaceIn, Placed, PathAt;
    if k == 2 {
      FirstTwo();
    } else {
      RunOfRequests(k - 1);
      RunStep(Requests(k), k - 1);
      assert Requests(k)[..k - 1] == Requests(k - 1) && Requests(k)[..k] == Requests(k);
      NestsDeeper(Run(Requests(k - 1)).0, k - 1);
      assert Paths(k) == Paths(k - 1) + [PathAt(k - 1)];
    }
  }

  /** Where visit `k` places its package. */
  lemma VisitGoesTo(k: nat)
    ensures PlaceIn(Run(Requests(k)).0, RequestAt(k)).1 == PathAt(k)
  {
    hide PlaceIn, Placed, Run, PathAt;
    FirstTwo();
    if k < 2 {
      PlacedAtRoot(Run(Requests(k)).0, k);
    } else {
      RunOfRequests(k);
      NestsDeeper(Run(Requests(k)).0, k);
    }
  }

  // ---------------------------------------------------------------- the walk

  function ItemsTo(k: nat): seq<Item>
  {
    seq(k, i requires 0 <= i < k => ItemAt(i))
  }

  /** After `k` turns every turn was a first visit and exactly one item waits. */
  ghost predicate OneWaits(w: Walk, k: nat)
  {
    w.log == ItemsTo(k + 1) && w.head == k && w.placed == Requests(k)
  }

  lemma OneItem(name: string, index: nat, dependent: string)
    ensures Items(map[name := index], dependent) == [Item(index, dependent)]
  {
    assert map[name := index].Keys == {name};
    assert |Sorted({name})| == 1 && Sorted({name})[0] in {name};
  }

  lemma NextIsNew(k: nat)
    ensures ItemsTo(k + 1)[k] == ItemAt(k) && ItemAt(k) !in ItemsTo(k + 1)[..k]
  {
    hide ItemAt;
    var items := ItemsTo(k + 1);
    forall j | 0 <= j < k
      ensures items[j] != ItemAt(k)
    {
      ItemsDiffer(j, k);
    }
  }

  lemma StepNests(w: Walk, k: nat)
    requires OneWaits(w, k)
    ensures InBounds(CrossLock(), w) ==> OneWaits(Step(CrossLock(), w), k + 1)
  {
    hide PlaceIn, Run, PathAt, CrossLock, Items, NameAt, VersionAt;
    NextIsNew(k);
    EntriesRepeat(k);
    VisitGoesTo(k);
    if InBounds(CrossLock(), w) {
      assert w.log[w.head] == ItemAt(k) && RequestOf(CrossLock(), w.log[w.head]) == RequestAt(k);
      OneItem(NameAt(k + 1), Turn(k + 1), PathAt(k));
      assert ItemsTo(k + 2) == ItemsTo(k + 1) + [ItemAt(k + 1)];
      assert Requests(k + 1) == Requests(k) + [RequestAt(k)];
    }
  }

  /** On this lock the queue never runs dry, however long the walk goes on. */
  lemma {:induction false} NeverEnds(steps: nat)
    ensures WellFormed(CrossLock())
    ensures OneWaits(WalkFor(CrossLock(), steps), steps) && WalkFor(CrossLock(), steps).head < |WalkFor(CrossLock(), steps).log|
  {
    hide Step, CrossLock, WellFormed, OneWaits;
    CrossLockFits();
    if steps == 0 {
      StartWaits();
    } else {
      NeverEnds(steps - 1);
      StepNests(WalkFor(CrossLock(), steps - 1), steps - 1);
    }
    SomethingWaits(WalkFor(CrossLock(), steps), steps);
  }

  lemma StartWaits()
    ensures OneWaits(Start(CrossLock()), 0)
  {
    hide Items;
    OneItem("a", 0, "");
  }

  lemma SomethingWaits(w: Walk, k: nat)
    requires OneWaits(w, k)
    ensures w.head < |w.log|
  {
  }
}
