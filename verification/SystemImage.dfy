/**
 What a publication by emu/qemu/astra_image.py leaves on the volume, what it keeps, and that a
 second publication of the same products changes nothing.
 */
module SystemImage {
  import opened Prelude
  import opened PublicationPlan
  import opened VolumeTree

  // ----- what is kept ----------------------------------------------------------------------

  /** What a release owns: the catalog, the cleared trees, the system fonts and the startup sound. */
  predicate Owned(n: Path) {
    || n == ["astra_events.cat"] || n == ["media", "startup.pcm"] || ["fonts", "system"] <= n
    || ["commands"] <= n || ["services"] <= n || ["libs"] <= n || ["apps"] <= n || ["startup"] <= n
  }

  /** What belongs to the user. */
  predicate UserOwned(n: Path) {
    || ["config"] <= n || ["home"] <= n || ["local"] <= n
    || ["fonts", "installed"] <= n
  }

  /** A path lies in one top-level entry only. */
  lemma OneRoot(i: nat, j: nat, n: Path)
    requires i < |ROOTS| && j < |ROOTS| && ROOTS[i] <= n && ROOTS[j] <= n
    ensures i == j
  {
    if i < j {
      RootsApart(i, j);
      PrefixesCompare(n, ROOTS[i], ROOTS[j]);
    } else if j < i {
      RootsApart(j, i);
      PrefixesCompare(n, ROOTS[i], ROOTS[j]);
    }
  }

  lemma InstalledIsNotSystem(n: Path)
    requires FONTS + ["installed"] <= n
    ensures !(SYSTEM_FONTS <= n)
  {
    assert "installed"[0] == 'i' && "system"[0] == 's';
    NamesApart(FONTS, "installed", "system");
    ApartRoots(FONTS + ["installed"], SYSTEM_FONTS, n);
  }

  lemma UserIsNotOwned(n: Path)
    requires UserOwned(n)
    ensures !Owned(n)
  {
    var u := if CONFIG <= n then 8 else if HOME <= n then 9 else if LOCAL <= n then 10 else 3;
    if ["fonts", "installed"] <= n {
      assert FONTS + ["installed"] == ["fonts", "installed"];
      InstalledIsNotSystem(n);
    }
    if Owned(n) {
      var o := if n == CATALOG then 0 else if COMMANDS <= n then 1 else if SERVICES <= n then 2
               else if LIBS <= n then 5 else if APPS <= n then 6 else if STARTUP <= n then 7
               else if n == STARTUP_SOUND then 4 else 3;
      OneRoot(u, o, n);
    }
  }

  /** Only owned paths can be overwritten or cleared. */
  lemma DecidedIsOwned(products: Products, n: Path)
    requires ValidProducts(products) && Decided(Plan(products), n)
    ensures Owned(n)
  {
    DecidedInPart(Parts(products), n);
    var k :| 0 <= k < |Parts(products)| && Decided(Parts(products)[k].actions, n);
    PartsConfined(products, k);
    DecidedWithin(Parts(products)[k].actions, ROOTS[k], n);
    PartDecides(products, k, n);
    RootIsOwned(k, n);
  }

  /** Of a cleared part everything is owned, and of some others one file or tree. */
  lemma RootIsOwned(k: nat, n: Path)
    requires k < 8 && ROOTS[k] <= n
    requires (k == 0 ==> n == CATALOG) && (k == 3 ==> SYSTEM_FONTS <= n) && (k == 4 ==> n == STARTUP_SOUND)
    ensures Owned(n)
  {
    assert SYSTEM_FONTS == ["fonts", "system"] && STARTUP_SOUND == ["media", "startup.pcm"];
  }

  /** The last three parts decide nothing, and three others only what is the release's. */
  lemma PartDecides(products: Products, k: nat, n: Path)
    requires k < |ROOTS| && Decided(Parts(products)[k].actions, n)
    ensures k < 8
    ensures (k == 0 ==> n == CATALOG) && (k == 3 ==> SYSTEM_FONTS <= n) && (k == 4 ==> n == STARTUP_SOUND)
  {
    match k
    case 0 => CatalogDecides(products.catalog, n);
    case 3 => FontsDecide(products.fonts, n);
    case 4 => MediaDecides(products.sound, n);
    case 8 => ConfigPart(products.configuration); KeptPart(ConfigPlan(products.configuration));
    case 9 => HomePart(products.home); KeptPart(HomePlan(products.home));
    case 10 => KeptPart(LocalPlan());
    case _ =>
  }

  lemma DecidedWithin(actions: seq<Action>, root: Path, n: Path)
    requires Confined(actions, root) && Decided(actions, n)
    ensures root <= n
  {
    var i :| 0 <= i < |actions| && Decides(actions[i], n);
    assert root <= actions[i].path <= n;
  }

  lemma CatalogDecides(catalog: string, n: Path)
    requires Decided([Replace(CATALOG, catalog)], n)
    ensures n == CATALOG
  {
  }

  lemma {:induction false} DecidedInPart(parts: seq<Part>, n: Path)
    requires Decided(Joined(parts), n)
    ensures exists k :: 0 <= k < |parts| && Decided(parts[k].actions, n)
  {
    var less, last := parts[..|parts| - 1], parts[|parts| - 1];
    DecidedAppend(Joined(less), last.actions, n);
    if Decided(Joined(less), n) {
      DecidedInPart(less, n);
      var k :| 0 <= k < |less| && Decided(less[k].actions, n);
      assert parts[k] == less[k];
    }
  }

  lemma FontsDecide(fonts: Option<seq<Product>>, n: Path)
    requires Decided(FontsPlan(fonts), n)
    ensures SYSTEM_FONTS <= n
  {
    FontsPart(fonts);
    var plan := FontsPlan(fonts);
    var i :| 0 <= i < |plan| && Decides(plan[i], n);
    assert i >= 3 && plan[i] == Replaces(SYSTEM_FONTS, fonts.value)[i - 3];
  }

  lemma MediaDecides(sound: Option<string>, n: Path)
    requires Decided(MediaPlan(sound), n)
    ensures n == STARTUP_SOUND
  {
    var plan := MediaPlan(sound);
    var i :| 0 <= i < |plan| && Decides(plan[i], n);
    assert i == 1;
  }

  /** What was there before and is not the release's own is there afterwards, the same inode. */
  lemma KeptByPublication(products: Products, before: Nodes, after: Nodes, n: Path)
    requires ValidProducts(products) && Run(Plan(products), before) == Some(after)
    requires n in before && !Owned(n)
    ensures n in after && after[n] == before[n]
  {
    if Decided(Plan(products), n) {
      DecidedIsOwned(products, n);
    }
    RunIsPointwise(Plan(products), before, n);
    UndecidedIsKept(Plan(products), n, Some(before[n]));
  }

  /** The user's files and settings survive, with their metadata. */
  lemma UserKept(products: Products, before: Nodes, after: Nodes, n: Path)
    requires ValidProducts(products) && Run(Plan(products), before) == Some(after)
    requires n in before && UserOwned(n)
    ensures n in after && after[n] == before[n]
  {
    UserIsNotOwned(n);
    KeptByPublication(products, before, after, n);
  }

  /** Publishing again what was published changes nothing. */
  lemma PublishTwice(products: Products, before: Nodes, after: Nodes)
    requires ValidProducts(products) && Run(Plan(products), before) == Some(after)
    ensures Run(Plan(products), after) == Some(after)
  {
    PartsDisjoint(products);
    RunTwice(Plan(products), before, after);
  }

  // ----- a new volume ----------------------------------------------------------------------

  /** All that is there lies at or below one of these top-level names. */
  ghost predicate Under(nodes: Nodes, names: set<string>) {
    forall n :: n in nodes ==> n != [] && n[0] in names
  }

  /** The list is accepted, and leaves nothing outside these top-level names. */
  ghost predicate RunsUnder(actions: seq<Action>, nodes: Nodes, names: set<string>) {
    Run(actions, nodes).Some? && Under(Run(actions, nodes).value, names)
  }

  lemma RunsBoth(a: seq<Action>, b: seq<Action>, nodes: Nodes, middle: set<string>, names: set<string>)
    requires RunsUnder(a, nodes, middle) && RunsUnder(b, Run(a, nodes).value, names)
    ensures RunsUnder(a + b, nodes, names)
  {
    RunAppend(a, b, nodes);
  }

  lemma RunsOne(action: Action, nodes: Nodes)
    requires Acceptable(action, nodes)
    ensures Run([action], nodes) == Some(Apply(action, nodes))
  {
    assert [action][1..] == [];
    assert Run([], Apply(action, nodes)) == Some(Apply(action, nodes));
  }

  /** A directory or a file directly in the directory of this name. */
  ghost predicate Simple(name: string, action: Action) {
    && |action.path| == 2 && action.path[0] == name && SafeName(name) && SafeName(action.path[1])
    && (action.MakeDir? || action.Replace?)
  }

  /** The top-level directory is there, and in it nothing these changes are not aimed at. */
  ghost predicate Filled(nodes: Nodes, name: string, actions: seq<Action>) {
    && [name] in nodes && nodes[[name]].Directory?
    && forall n :: n in nodes && |n| > 1 && n[0] == name ==> Aimed(actions, n)
  }

  ghost predicate Aimed(actions: seq<Action>, n: Path) {
    exists i :: 0 <= i < |actions| && actions[i].path == n
  }

  function Opening(name: string, cleared: bool): seq<Action> {
    if cleared then [MakeDir([name]), Clear([name])] else [MakeDir([name])]
  }

  lemma OpeningRuns(name: string, cleared: bool, nodes: Nodes, names: set<string>)
    requires Under(nodes, names) && name !in names && SafeName(name)
    ensures RunsUnder(Opening(name, cleared), nodes, names + {name})
    ensures Filled(Run(Opening(name, cleared), nodes).value, name, [])
  {
    var made := nodes[[name] := Directory(NEW)];
    RunsOne(MakeDir([name]), nodes);
    if cleared {
      assert Without(made, [name]) == made;
      RunsOne(Clear([name]), made);
      RunAppend([MakeDir([name])], [Clear([name])], nodes);
      assert [MakeDir([name])] + [Clear([name])] == Opening(name, cleared);
    }
  }

  lemma SimpleRuns(name: string, less: seq<Action>, last: Action, nodes: Nodes, names: set<string>)
    requires Under(nodes, names) && name in names && Filled(nodes, name, less) && Simple(name, last)
    requires !Aimed(less, last.path)
    ensures Acceptable(last, nodes) && Under(Apply(last, nodes), names)
    ensures Filled(Apply(last, nodes), name, less + [last])
  {
    assert last.path !in nodes && Parent(last.path) == [name];
    var all := less + [last];
    forall n | n in Apply(last, nodes) && |n| > 1 && n[0] == name ensures Aimed(all, n) {
      if n == last.path {
        assert all[|less|].path == n;
      } else {
        var i :| 0 <= i < |less| && less[i].path == n;
        assert all[i].path == n;
      }
    }
  }

  /** Each is directly in the directory, and not aimed at again. */
  ghost predicate AllSimple(name: string, actions: seq<Action>) {
    forall i :: 0 <= i < |actions| ==> SimpleAt(name, actions, i)
  }

  ghost predicate SimpleAt(name: string, actions: seq<Action>, i: nat)
    requires i < |actions|
  {
    Simple(name, actions[i]) && !Aimed(actions[..i], actions[i].path)
  }

  lemma SimpleFront(name: string, less: seq<Action>, last: Action)
    requires AllSimple(name, less + [last])
    ensures AllSimple(name, less) && Simple(name, last) && !Aimed(less, last.path)
  {
    var all := less + [last];
    assert SimpleAt(name, all, |less|) && all[..|less|] == less;
    forall i | 0 <= i < |less| ensures SimpleAt(name, less, i) {
      assert SimpleAt(name, all, i) && all[..i] == less[..i];
    }
  }

  /** A new top-level directory, cleared or not, and directories and files directly in it. */
  lemma {:induction false} TopRuns(name: string, cleared: bool, more: seq<Action>, nodes: Nodes, names: set<string>)
    requires Under(nodes, names) && name !in names && SafeName(name) && AllSimple(name, more)
    ensures RunsUnder(Opening(name, cleared) + more, nodes, names + {name})
    ensures Filled(Run(Opening(name, cleared) + more, nodes).value, name, more)
  {
    var head := Opening(name, cleared);
    if more == [] {
      OpeningRuns(name, cleared, nodes, names);
      assert head + more == head;
    } else {
      var less, last := more[..|more| - 1], more[|more| - 1];
      assert more == less + [last];
      SimpleFront(name, less, last);
      TopRuns(name, cleared, less, nodes, names);
      SimpleRuns(name, less, last, Run(head + less, nodes).value, names + {name});
      RunOne(head + less, last, nodes);
      assert head + less + [last] == head + more;
    }
  }

  /** Products without any commands, services, fonts, sound, Kits, applications or defaults. */
  function Bare(catalog: string, startup: string): Products {
    Products(catalog, [], [], None, None, None, [], None, [], [], startup, [], [])
  }

  /** What is made of these in a top-level directory. */
  function InTop(startup: string, k: nat): seq<Action>
    requires k < |ROOTS|
  {
    match k
    case 5 => [MakeDir(["libs", ".providers"])]
    case 7 => [Replace(["startup", "system"], startup)]
    case 8 => [MakeDir(["config", "system"]), MakeDir(["config", "services"]), MakeDir(["config", "applications"])]
    case 10 => [MakeDir(["local", "commands"])]
    case _ => []
  }

  lemma OneSimple(name: string, action: Action)
    requires Simple(name, action)
    ensures AllSimple(name, [action])
  {
    assert SimpleAt(name, [action], 0);
  }

  lemma ThreeSimple(name: string, a: string, b: string, c: string)
    requires SafeName(name) && SafeName(a) && SafeName(b) && SafeName(c) && a != b && a != c && b != c
    ensures AllSimple(name, [MakeDir([name, a]), MakeDir([name, b]), MakeDir([name, c])])
  {
    var all := [MakeDir([name, a]), MakeDir([name, b]), MakeDir([name, c])];
    forall i | 0 <= i < |all| ensures SimpleAt(name, all, i) {
      assert all[i].path[1] == [a, b, c][i];
      forall j | 0 <= j < i ensures all[..i][j].path != all[i].path {
        assert all[..i][j].path[1] == [a, b, c][j];
      }
    }
  }

  lemma ScopesSimple()
    ensures AllSimple("config", [MakeDir(["config", "system"]), MakeDir(["config", "services"]),
                                 MakeDir(["config", "applications"])])
  {
    assert "system"[1] != "services"[1] && "applications"[0] == 'a';
    ThreeSimple("config", "system", "services", "applications");
  }

  lemma InTopSimple(startup: string, k: nat)
    requires k < |ROOTS|
    ensures AllSimple(ROOTS[k][0], InTop(startup, k))
  {
    if k == 5 {
      OneSimple("libs", MakeDir(["libs", ".providers"]));
    } else if k == 7 {
      OneSimple("startup", Replace(["startup", "system"], startup));
    } else if k == 8 {
      ScopesSimple();
    } else if k == 10 {
      OneSimple("local", MakeDir(["local", "commands"]));
    }
  }

  lemma TopSafe(k: nat)
    requires k < |ROOTS|
    ensures |ROOTS[k]| == 1 && SafeName(ROOTS[k][0])
  {
  }

  lemma PartShape(catalog: string, startup: string, k: nat)
    requires k < |ROOTS|
    ensures var actions := Parts(Bare(catalog, startup))[k].actions;
            if k == 0 then actions == [Replace(CATALOG, catalog)]
            else if k == 3 || k == 4 then actions == []
            else actions == Opening(ROOTS[k][0], k < 8) + InTop(startup, k)
  {
    var actions := Parts(Bare(catalog, startup))[k].actions;
    assert LIBS + [".providers"] == ["libs", ".providers"] && STARTUP + ["system"] == ["startup", "system"];
    assert CONFIG + ["system"] == ["config", "system"] && CONFIG + ["services"] == ["config", "services"];
    assert CONFIG + ["applications"] == ["config", "applications"] && LOCAL + ["commands"] == ["local", "commands"];
  }

  lemma OpenedRuns(startup: string, k: nat, nodes: Nodes, names: set<string>)
    requires k < |ROOTS| && Under(nodes, names) && ROOTS[k][0] !in names
    ensures RunsUnder(Opening(ROOTS[k][0], k < 8) + InTop(startup, k), nodes, names + {ROOTS[k][0]})
  {
    TopSafe(k);
    InTopSimple(startup, k);
    TopRuns(ROOTS[k][0], k < 8, InTop(startup, k), nodes, names);
  }

  lemma CatalogRuns(catalog: string, nodes: Nodes, names: set<string>)
    requires Under(nodes, names) && CATALOG[0] !in names
    ensures RunsUnder([Replace(CATALOG, catalog)], nodes, names + {CATALOG[0]})
  {
    assert SafeName(CATALOG[0]);
    RunsOne(Replace(CATALOG, catalog), nodes);
  }

  lemma PartRuns(catalog: string, startup: string, k: nat, nodes: Nodes, names: set<string>)
    requires k < |ROOTS| && Under(nodes, names) && ROOTS[k][0] !in names
    ensures RunsUnder(Parts(Bare(catalog, startup))[k].actions, nodes, names + {ROOTS[k][0]})
  {
    PartShape(catalog, startup, k);
    if k == 0 {
      CatalogRuns(catalog, nodes, names);
    } else if k != 3 && k != 4 {
      OpenedRuns(startup, k, nodes, names);
    }
  }

  function TopNames(k: nat): (names: set<string>)
    requires k <= |ROOTS|
    ensures forall name :: name in names <==> exists j :: 0 <= j < k && ROOTS[j] == [name]
  {
    if k == 0 then {} else
      assert ROOTS[k - 1] == [ROOTS[k - 1][0]];
      TopNames(k - 1) + {ROOTS[k - 1][0]}
  }

  lemma SameHead(a: Path, b: Path)
    requires |a| == |b| == 1 && a == [b[0]]
    ensures a <= b
  {
    assert a == b;
  }

  lemma NewTop(j: nat)
    requires j < |ROOTS|
    ensures ROOTS[j][0] !in TopNames(j)
  {
    if i :| 0 <= i < j && ROOTS[i] == [ROOTS[j][0]] {
      TopSafe(i);
      TopSafe(j);
      SameHead(ROOTS[i], ROOTS[j]);
      RootsApart(i, j);
      assert false;
    }
  }

  lemma {:induction false} FrontRuns(parts: seq<Part>, k: nat)
    requires k <= |parts| == |ROOTS|
    requires forall j, nodes, names :: 0 <= j < |parts| && Under(nodes, names) && ROOTS[j][0] !in names ==>
               RunsUnder(parts[j].actions, nodes, names + {ROOTS[j][0]})
    ensures RunsUnder(Joined(parts[..k]), map[], TopNames(k))
  {
    if k > 0 {
      FrontRuns(parts, k - 1);
      NewTop(k - 1);
      OneMorePart(parts, k, TopNames(k - 1), TopNames(k));
    }
  }

  lemma OneMorePart(parts: seq<Part>, k: nat, middle: set<string>, names: set<string>)
    requires 0 < k <= |parts| && RunsUnder(Joined(parts[..k - 1]), map[], middle)
    requires RunsUnder(parts[k - 1].actions, Run(Joined(parts[..k - 1]), map[]).value, names)
    ensures RunsUnder(Joined(parts[..k]), map[], names)
  {
    RunsBoth(Joined(parts[..k - 1]), parts[k - 1].actions, map[], middle, names);
    assert parts[..k][..k - 1] == parts[..k - 1];
  }

  /** These are published on an empty volume without a refusal. */
  lemma EmptyVolumeAccepts(catalog: string, startup: string)
    ensures ValidProducts(Bare(catalog, startup)) && Run(Plan(Bare(catalog, startup)), map[]).Some?
  {
    var parts := Parts(Bare(catalog, startup));
    forall j, nodes, names | 0 <= j < |parts| && Under(nodes, names) && ROOTS[j][0] !in names
      ensures RunsUnder(parts[j].actions, nodes, names + {ROOTS[j][0]})
    {
      PartRuns(catalog, startup, j, nodes, names);
    }
    FrontRuns(parts, |ROOTS|);
    assert parts[..|ROOTS|] == parts;
  }
}
