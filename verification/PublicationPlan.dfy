/**
 _install_built of emu/qemu/astra_image.py: the changes one publication makes to the volume of
 a system image, in order.
 */
module PublicationPlan {
  import opened Prelude
  import opened VolumeTree

  // ----- what is published -----------------------------------------------------------------

  /** A product file and the path, below some directory, it is installed as. */
  datatype Product = Product(path: Path, content: string)

  /** What os.walk comes to below a host directory, in its order. */
  datatype HostEntry = HostDir(path: Path) | HostFile(path: Path, content: string) | HostLink(path: Path)

  datatype Bundle = Bundle(name: string, entries: seq<HostEntry>)

  datatype Products = Products(
    catalog: string,
    commands: seq<Product>,
    services: seq<Product>,
    fonts: Option<seq<Product>>,
    sound: Option<string>,
    terminfo: Option<string>,
    kits: seq<Bundle>,
    vim: Option<seq<HostEntry>>,
    providers: seq<Product>,
    apps: seq<Bundle>,
    startup: string,
    configuration: seq<Product>,
    home: seq<Product>)

  const CATALOG: Path := ["astra_events.cat"]
  const COMMANDS: Path := ["commands"]
  const SERVICES: Path := ["services"]
  const FONTS: Path := ["fonts"]
  const MEDIA: Path := ["media"]
  const LIBS: Path := ["libs"]
  const APPS: Path := ["apps"]
  const STARTUP: Path := ["startup"]
  const CONFIG: Path := ["config"]
  const HOME: Path := ["home"]
  const LOCAL: Path := ["local"]

  const SYSTEM_FONTS: Path := FONTS + ["system"]
  const STARTUP_SOUND: Path := MEDIA + ["startup.pcm"]

  // ----- the changes, in order -------------------------------------------------------------

  function Replaces(root: Path, files: seq<Product>): (actions: seq<Action>)
    ensures |actions| == |files|
    ensures forall i :: 0 <= i < |files| ==> actions[i] == Replace(root + files[i].path, files[i].content)
  {
    seq(|files|, i requires 0 <= i < |files| => Replace(root + files[i].path, files[i].content))
  }

  /** A host file replaces what is there, or is added where nothing is. */
  function EntryAction(root: Path, entry: HostEntry, adding: bool): Action {
    var path := root + entry.path;
    match entry
    case HostDir(_) => MakeDir(path)
    case HostFile(_, content) => if adding then Add(path, content) else Replace(path, content)
    case HostLink(_) => Refuse(path)
  }

  function EntryActions(root: Path, entries: seq<HostEntry>, adding: bool): (actions: seq<Action>)
    ensures |actions| == |entries|
    ensures forall i :: 0 <= i < |entries| ==> actions[i] == EntryAction(root, entries[i], adding)
  {
    seq(|entries|, i requires 0 <= i < |entries| => EntryAction(root, entries[i], adding))
  }

  /** A directory that is emptied and then holds these files. */
  function FlatPlan(root: Path, files: seq<Product>): seq<Action> {
    [MakeDir(root), Clear(root)] + Replaces(root, files)
  }

  function BundlePlan(path: Path, entries: seq<HostEntry>): seq<Action> {
    [MakeDir(path), Clear(path), MakeDir(path)] + EntryActions(path, entries, false)
  }

  function BundlesPlan(root: Path, bundles: seq<Bundle>): seq<Action> {
    if bundles == [] then []
    else
      var last := bundles[|bundles| - 1];
      BundlesPlan(root, bundles[..|bundles| - 1]) + BundlePlan(root + [last.name], last.entries)
  }

  function FontsPlan(fonts: Option<seq<Product>>): seq<Action> {
    if fonts.None? then []
    else [MakeDir(FONTS), MakeDir(SYSTEM_FONTS), MakeDir(FONTS + ["installed"])] + Replaces(SYSTEM_FONTS, fonts.value)
  }

  function MediaPlan(sound: Option<string>): seq<Action> {
    if sound.None? then [] else [MakeDir(MEDIA), Replace(STARTUP_SOUND, sound.value)]
  }

  function TerminfoPlan(root: Path, terminfo: Option<string>): seq<Action> {
    if terminfo.None? then []
    else [MakeDir(root), MakeDir(root + ["a"]), Replace(root + ["a", "astra-256color"], terminfo.value)]
  }

  function VimPlan(root: Path, vim: Option<seq<HostEntry>>): seq<Action> {
    var runtime := root + ["vim", "runtime"];
    if vim.None? then []
    else [MakeDir(root), MakeDir(root + ["vim"]), MakeDir(runtime), MakeDir(runtime)]
         + EntryActions(runtime, vim.value, true)
  }

  function ProvidersPlan(root: Path, providers: seq<Product>): seq<Action> {
    [MakeDir(root)] + Replaces(root, providers)
  }

  function LibsPlan(products: Products): seq<Action> {
    [MakeDir(LIBS), Clear(LIBS)] + TerminfoPlan(LIBS + ["terminfo"], products.terminfo)
    + BundlesPlan(LIBS, products.kits) + VimPlan(LIBS, products.vim)
    + ProvidersPlan(LIBS + [".providers"], products.providers)
  }

  function AppsPlan(apps: seq<Bundle>): seq<Action> {
    [MakeDir(APPS), Clear(APPS)] + BundlesPlan(APPS, apps)
  }

  /** The directories from below a root down to a file, in that order. */
  function Ladder(root: Path, path: Path): (actions: seq<Action>)
    ensures |path| <= 1 ==> actions == []
    ensures |path| > 1 ==> |actions| == |path| - 1
    ensures forall i :: 0 <= i < |actions| ==> actions[i] == MakeDir(root + path[..i + 1])
  {
    if path == [] then []
    else seq(|path| - 1, i requires 0 <= i < |path| - 1 => MakeDir(root + path[..i + 1]))
  }

  /** One default under its directories; a strict one refuses what is no file. */
  function DefaultPlan(root: Path, file: Product, strict: bool): seq<Action> {
    var path := root + file.path;
    Ladder(root, file.path) + [if strict then Default(path, file.content) else Offer(path, file.content)]
  }

  /** The defaults of a tree the user owns. */
  function DefaultsPlan(root: Path, defaults: seq<Product>, strict: bool): seq<Action> {
    if defaults == [] then []
    else DefaultsPlan(root, defaults[..|defaults| - 1], strict) + DefaultPlan(root, defaults[|defaults| - 1], strict)
  }

  function ConfigPlan(configuration: seq<Product>): seq<Action> {
    [MakeDir(CONFIG), MakeDir(CONFIG + ["system"]), MakeDir(CONFIG + ["services"]), MakeDir(CONFIG + ["applications"])]
    + DefaultsPlan(CONFIG, configuration, true)
  }

  function HomePlan(home: seq<Product>): seq<Action> {
    [MakeDir(HOME)] + DefaultsPlan(HOME, home, false)
  }

  function LocalPlan(): seq<Action> {
    [MakeDir(LOCAL), MakeDir(LOCAL + ["commands"])]
  }

  /** One top-level name and the changes at it or below. */
  datatype Part = Part(root: Path, actions: seq<Action>)

  const ROOTS: seq<Path> := [CATALOG, COMMANDS, SERVICES, FONTS, MEDIA, LIBS, APPS, STARTUP, CONFIG, HOME, LOCAL]

  function Parts(products: Products): (parts: seq<Part>)
    ensures |parts| == |ROOTS| && forall i :: 0 <= i < |parts| ==> parts[i].root == ROOTS[i]
  {
    [Part(CATALOG, [Replace(CATALOG, products.catalog)]),
     Part(COMMANDS, FlatPlan(COMMANDS, products.commands)),
     Part(SERVICES, FlatPlan(SERVICES, products.services)),
     Part(FONTS, FontsPlan(products.fonts)),
     Part(MEDIA, MediaPlan(products.sound)),
     Part(LIBS, LibsPlan(products)),
     Part(APPS, AppsPlan(products.apps)),
     Part(STARTUP, FlatPlan(STARTUP, [Product(["system"], products.startup)])),
     Part(CONFIG, ConfigPlan(products.configuration)),
     Part(HOME, HomePlan(products.home)),
     Part(LOCAL, LocalPlan())]
  }

  function Joined(parts: seq<Part>): seq<Action> {
    if parts == [] then [] else Joined(parts[..|parts| - 1]) + parts[|parts| - 1].actions
  }

  /** Everything a publication does to the volume. */
  function Plan(products: Products): seq<Action> {
    Joined(Parts(products))
  }

  // ----- parts keep to themselves ----------------------------------------------------------

  /** Every change is at this path or below it. */
  ghost predicate Confined(actions: seq<Action>, root: Path) {
    forall i :: 0 <= i < |actions| ==> root <= actions[i].path
  }

  ghost predicate Apart(a: Path, b: Path) {
    !(a <= b) && !(b <= a)
  }

  ghost predicate Disjoint(parts: seq<Part>) {
    && (forall i :: 0 <= i < |parts| ==> Confined(parts[i].actions, parts[i].root))
    && (forall i, j :: 0 <= i < j < |parts| ==> Apart(parts[i].root, parts[j].root))
  }

  lemma PrefixesCompare(path: Path, a: Path, b: Path)
    requires a <= path && b <= path
    ensures a <= b || b <= a
  {
  }

  /** No path is below two roots that are apart. */
  lemma ApartRoots(a: Path, b: Path, path: Path)
    requires Apart(a, b) && a <= path
    ensures !(b <= path)
  {
    if b <= path {
      PrefixesCompare(path, a, b);
    }
  }

  /** A part leaves alone whatever lies at or below another root. */
  lemma OtherPart(actions: seq<Action>, root: Path, other: Path, n: Path, v: Option<Node>)
    requires Confined(actions, root) && Apart(root, other) && other <= n
    ensures !Decided(actions, n) && Effect(actions, n, v) == v
    ensures forall i :: 0 <= i < |actions| ==> actions[i].path != n
  {
    ApartRoots(other, root, n);
    forall i | 0 <= i < |actions| ensures actions[i].path != n && !Decides(actions[i], n) {
      assert root <= actions[i].path;
    }
    UnaimedIsKept(actions, n, v);
  }

  lemma DisjointFront(parts: seq<Part>)
    requires Disjoint(parts) && parts != []
    ensures Disjoint(parts[..|parts| - 1])
    ensures Confined(parts[|parts| - 1].actions, parts[|parts| - 1].root)
    ensures forall i :: 0 <= i < |parts| - 1 ==> Apart(parts[i].root, parts[|parts| - 1].root)
  {
  }

  /** What the whole list does at or below a root is what that root's part does. */
  lemma {:induction false} OnlyOwnPart(parts: seq<Part>, k: nat, n: Path, v: Option<Node>)
    requires Disjoint(parts) && k < |parts| && parts[k].root <= n
    ensures Effect(Joined(parts), n, v) == Effect(parts[k].actions, n, v)
    ensures Decided(Joined(parts), n) <==> Decided(parts[k].actions, n)
    decreases |parts|
  {
    var less, last := parts[..|parts| - 1], parts[|parts| - 1];
    DisjointFront(parts);
    EffectAppend(Joined(less), last.actions, n, v);
    DecidedAppend(Joined(less), last.actions, n);
    if k < |less| {
      assert less[k] == parts[k];
      OnlyOwnPart(less, k, n, v);
      OtherPart(last.actions, last.root, parts[k].root, n, Effect(Joined(less), n, v));
    } else {
      forall i | 0 <= i < |less| ensures Apart(less[i].root, last.root) {
        assert less[i] == parts[i];
      }
      NoneOwn(less, last.root, n, v);
    }
  }

  lemma {:induction false} NoneOwn(parts: seq<Part>, root: Path, n: Path, v: Option<Node>)
    requires Disjoint(parts) && root <= n
    requires forall i :: 0 <= i < |parts| ==> Apart(parts[i].root, root)
    ensures Effect(Joined(parts), n, v) == v && !Decided(Joined(parts), n)
    decreases |parts|
  {
    if parts != [] {
      var less, last := parts[..|parts| - 1], parts[|parts| - 1];
      DisjointFront(parts);
      EffectAppend(Joined(less), last.actions, n, v);
      DecidedAppend(Joined(less), last.actions, n);
      NoneOwn(less, root, n, v);
      OtherPart(last.actions, last.root, root, n, v);
    }
  }

  lemma DecidedAppend(a: seq<Action>, b: seq<Action>, n: Path)
    ensures Decided(a + b, n) <==> Decided(a, n) || Decided(b, n)
  {
    var all := a + b;
    if Decided(a, n) {
      var i :| 0 <= i < |a| && Decides(a[i], n);
      assert all[i] == a[i];
    }
    if Decided(b, n) {
      var i :| 0 <= i < |b| && Decides(b[i], n);
      assert all[|a| + i] == b[i];
    }
    if Decided(all, n) {
      var i :| 0 <= i < |all| && Decides(all[i], n);
      assert i < |a| ==> a[i] == all[i];
      assert i >= |a| ==> b[i - |a|] == all[i];
    }
  }

  // ----- clearing comes first --------------------------------------------------------------

  ghost predicate NoClears(actions: seq<Action>) {
    forall i :: 0 <= i < |actions| ==> !actions[i].Clear?
  }

  ghost predicate NoAdds(actions: seq<Action>) {
    forall i :: 0 <= i < |actions| ==> !actions[i].Add?
  }

  /** Nothing one list is aimed at is cleared by another. */
  ghost predicate SparesAll(later: seq<Action>, earlier: seq<Action>) {
    forall i :: 0 <= i < |earlier| ==> Spares(later, earlier[i].path)
  }

  lemma SparesAppend(a: seq<Action>, b: seq<Action>, n: Path)
    requires Spares(a, n) && Spares(b, n)
    ensures Spares(a + b, n)
  {
  }

  lemma OrderedAppend(a: seq<Action>, b: seq<Action>)
    requires Ordered(a) && Ordered(b) && SparesAll(b, a)
    ensures Ordered(a + b)
  {
    var all := a + b;
    forall i | 0 <= i < |all| ensures Spares(all[i + 1..], all[i].path) {
      if i < |a| {
        assert all[i + 1..] == a[i + 1..] + b;
        SparesAppend(a[i + 1..], b, a[i].path);
      } else {
        assert all[i + 1..] == b[i - |a| + 1..];
      }
    }
  }

  lemma AddsAppend(a: seq<Action>, b: seq<Action>)
    requires AddsCleared(a)
    requires AddsCleared(b) || forall i :: 0 <= i < |b| && b[i].Add? ==> Decided(a, b[i].path)
    ensures AddsCleared(a + b)
  {
    var all := a + b;
    forall i | 0 <= i < |all| && all[i].Add? ensures Decided(all[..i], all[i].path) {
      if i < |a| {
        assert all[..i] == a[..i];
      } else {
        assert all[..i] == a + b[..i - |a|];
        DecidedAppend(a, b[..i - |a|], all[i].path);
      }
    }
  }

  lemma NoClearsOrdered(actions: seq<Action>)
    requires NoClears(actions)
    ensures Ordered(actions) && forall n :: Spares(actions, n)
  {
  }

  /** A root is not above itself, so clearing it after making it is in order. */
  lemma ClearedThenFilled(root: Path, files: seq<Action>, again: bool)
    requires NoClears(files)
    ensures Ordered([MakeDir(root), Clear(root)] + (if again then [MakeDir(root)] else []) + files)
  {
    var head := [MakeDir(root), Clear(root)] + if again then [MakeDir(root)] else [];
    NoClearsOrdered(files);
    forall i | 0 <= i < |head| ensures Spares(head[i + 1..], head[i].path) {
      var rest := head[i + 1..];
      forall j | 0 <= j < |rest| && rest[j].Clear? ensures !(rest[j].path < head[i].path) {
        assert rest[j] == head[i + 1 + j];
      }
    }
    OrderedAppend(head, files);
  }

  /** Clears of apart roots spare each other's paths. */
  lemma ApartSpares(later: seq<Action>, earlier: seq<Action>, a: Path, b: Path)
    requires Confined(earlier, a) && Confined(later, b) && Apart(a, b)
    ensures SparesAll(later, earlier)
  {
    forall i, j | 0 <= i < |earlier| && 0 <= j < |later| ensures !(later[j].path < earlier[i].path) {
      ApartRoots(a, b, earlier[i].path);
      assert b <= later[j].path;
    }
    forall i | 0 <= i < |earlier| ensures Spares(later, earlier[i].path) {
    }
  }

  lemma {:induction false} JoinedIsTidy(parts: seq<Part>)
    requires Disjoint(parts) && forall i :: 0 <= i < |parts| ==> parts[i].root != []
    requires forall i :: 0 <= i < |parts| ==> Ordered(parts[i].actions) && AddsCleared(parts[i].actions)
    ensures Tidy(Joined(parts))
    decreases |parts|
  {
    if parts != [] {
      var less, last := parts[..|parts| - 1], parts[|parts| - 1];
      DisjointFront(parts);
      JoinedIsTidy(less);
      JoinedSpared(less, last);
      OrderedAppend(Joined(less), last.actions);
      AddsAppend(Joined(less), last.actions);
      assert last == parts[|parts| - 1];
      forall i | 0 <= i < |last.actions| ensures last.actions[i].path != [] {
        assert last.root <= last.actions[i].path;
      }
    }
  }

  lemma {:induction false} JoinedSpared(parts: seq<Part>, last: Part)
    requires Disjoint(parts) && Confined(last.actions, last.root)
    requires forall i :: 0 <= i < |parts| ==> Apart(parts[i].root, last.root)
    ensures SparesAll(last.actions, Joined(parts))
    decreases |parts|
  {
    if parts != [] {
      var less, end := parts[..|parts| - 1], parts[|parts| - 1];
      DisjointFront(parts);
      JoinedSpared(less, last);
      ApartSpares(last.actions, end.actions, end.root, last.root);
    }
  }

  // ----- the parts of a publication --------------------------------------------------------

  /** What is confined to a path below a root is confined to the root. */
  lemma ConfinedDeeper(actions: seq<Action>, root: Path, deeper: Path)
    requires Confined(actions, deeper) && root <= deeper
    ensures Confined(actions, root)
  {
  }

  lemma ReplacesConfined(root: Path, files: seq<Product>)
    ensures Confined(Replaces(root, files), root) && NoClears(Replaces(root, files)) && NoAdds(Replaces(root, files))
  {
  }

  lemma EntriesConfined(root: Path, entries: seq<HostEntry>, adding: bool)
    ensures Confined(EntryActions(root, entries, adding), root) && NoClears(EntryActions(root, entries, adding))
    ensures !adding ==> NoAdds(EntryActions(root, entries, adding))
  {
  }

  lemma FlatPart(root: Path, files: seq<Product>)
    ensures var plan := FlatPlan(root, files); Confined(plan, root) && Ordered(plan) && AddsCleared(plan)
  {
    ReplacesConfined(root, files);
    ClearedThenFilled(root, Replaces(root, files), false);
    assert [MakeDir(root), Clear(root)] + [] + Replaces(root, files) == FlatPlan(root, files);
    assert NoAdds(FlatPlan(root, files));
  }

  lemma BundlePart(path: Path, entries: seq<HostEntry>)
    ensures var plan := BundlePlan(path, entries); Confined(plan, path) && Ordered(plan) && NoAdds(plan)
  {
    EntriesConfined(path, entries, false);
    ClearedThenFilled(path, EntryActions(path, entries, false), true);
    assert [MakeDir(path), Clear(path)] + [MakeDir(path)] == [MakeDir(path), Clear(path), MakeDir(path)];
  }

  ghost predicate DistinctBundles(bundles: seq<Bundle>) {
    forall i, j :: 0 <= i < j < |bundles| ==> bundles[i].name != bundles[j].name
  }

  /** Different names in one directory are apart. */
  lemma NamesApart(root: Path, a: string, b: string)
    requires a != b
    ensures Apart(root + [a], root + [b])
  {
    assert (root + [a])[|root|] == a && (root + [b])[|root|] == b;
  }

  lemma {:induction false} BundlesPart(root: Path, bundles: seq<Bundle>)
    requires DistinctBundles(bundles)
    ensures var plan := BundlesPlan(root, bundles); Confined(plan, root) && Ordered(plan) && NoAdds(plan)
    decreases |bundles|
  {
    if bundles != [] {
      var less, last := bundles[..|bundles| - 1], bundles[|bundles| - 1];
      var plan := BundlePlan(root + [last.name], last.entries);
      BundlesPart(root, less);
      BundlePart(root + [last.name], last.entries);
      ConfinedDeeper(plan, root, root + [last.name]);
      forall j | 0 <= j < |less| ensures less[j].name != last.name {
        assert less[j] == bundles[j];
      }
      BundlesSpared(root, less, plan, last.name);
      OrderedAppend(BundlesPlan(root, less), plan);
    }
  }

  lemma {:induction false} BundlesSpared(root: Path, bundles: seq<Bundle>, later: seq<Action>, name: string)
    requires Confined(later, root + [name]) && forall j :: 0 <= j < |bundles| ==> bundles[j].name != name
    ensures SparesAll(later, BundlesPlan(root, bundles))
    decreases |bundles|
  {
    if bundles != [] {
      var less, last := bundles[..|bundles| - 1], bundles[|bundles| - 1];
      BundlesSpared(root, less, later, name);
      BundlePart(root + [last.name], last.entries);
      NamesApart(root, last.name, name);
      ApartSpares(later, BundlePlan(root + [last.name], last.entries), root + [last.name], root + [name]);
    }
  }

  /** Clears of bundles spare what is confined to another name beside them. */
  lemma {:induction false} BundlesSpare(root: Path, bundles: seq<Bundle>, earlier: seq<Action>, name: string)
    requires Confined(earlier, root + [name]) && forall j :: 0 <= j < |bundles| ==> bundles[j].name != name
    ensures SparesAll(BundlesPlan(root, bundles), earlier)
    decreases |bundles|
  {
    if bundles != [] {
      var less, last := bundles[..|bundles| - 1], bundles[|bundles| - 1];
      var plan := BundlePlan(root + [last.name], last.entries);
      BundlesSpare(root, less, earlier, name);
      BundlePart(root + [last.name], last.entries);
      NamesApart(root, last.name, name);
      ApartSpares(plan, earlier, root + [name], root + [last.name]);
      forall i | 0 <= i < |earlier| ensures Spares(BundlesPlan(root, bundles), earlier[i].path) {
        SparesAppend(BundlesPlan(root, less), plan, earlier[i].path);
      }
    }
  }

  /** Clears at or below a root spare the root itself. */
  lemma DeeperSpares(later: seq<Action>, root: Path)
    requires Confined(later, root)
    ensures Spares(later, root)
  {
  }

  lemma AppsPart(apps: seq<Bundle>)
    requires DistinctBundles(apps)
    ensures var plan := AppsPlan(apps); Confined(plan, APPS) && Ordered(plan) && AddsCleared(plan)
  {
    var head, rest := [MakeDir(APPS), Clear(APPS)], BundlesPlan(APPS, apps);
    BundlesPart(APPS, apps);
    DeeperSpares(rest, APPS);
    ClearedThenFilled(APPS, [], false);
    assert [MakeDir(APPS), Clear(APPS)] + [] + [] == head;
    OrderedAppend(head, rest);
    assert NoAdds(AppsPlan(apps));
  }

  lemma TerminfoPart(root: Path, terminfo: Option<string>)
    ensures var plan := TerminfoPlan(root, terminfo); Confined(plan, root) && NoClears(plan) && NoAdds(plan)
  {
  }

  lemma VimPart(root: Path, vim: Option<seq<HostEntry>>)
    ensures var plan := VimPlan(root, vim);
            && Confined(plan, root) && NoClears(plan)
            && forall i :: 0 <= i < |plan| && plan[i].Add? ==> root < plan[i].path
  {
    var runtime := root + ["vim", "runtime"];
    if vim.Some? {
      EntriesConfined(runtime, vim.value, true);
    }
  }

  lemma ProvidersPart(root: Path, providers: seq<Product>)
    ensures var plan := ProvidersPlan(root, providers); Confined(plan, root) && NoClears(plan) && NoAdds(plan)
  {
    ReplacesConfined(root, providers);
  }

  /** What the inventories of Kits and applications are checked for before anything is changed. */
  ghost predicate ValidProducts(products: Products) {
    && DistinctBundles(products.kits) && DistinctBundles(products.apps)
    && forall i :: 0 <= i < |products.kits| ==> IsKit(products.kits[i].name)
  }

  predicate IsKit(name: string) {
    |name| >= 4 && name[|name| - 4..] == ".kit"
  }

  lemma LibsPart(products: Products)
    requires ValidProducts(products)
    ensures var plan := LibsPlan(products); Confined(plan, LIBS) && Ordered(plan) && AddsCleared(plan)
  {
    forall j | 0 <= j < |products.kits| ensures products.kits[j].name != "terminfo" {
      assert IsKit(products.kits[j].name) && "terminfo"[4..][0] != ".kit"[0];
    }
    LibsOrder(LIBS, "terminfo", ".providers", products);
  }

  lemma LibsOrder(root: Path, terminfo: string, providers: string, products: Products)
    requires DistinctBundles(products.kits) && forall j :: 0 <= j < |products.kits| ==>
               products.kits[j].name != terminfo
    ensures var plan := [MakeDir(root), Clear(root)] + TerminfoPlan(root + [terminfo], products.terminfo)
                        + BundlesPlan(root, products.kits) + VimPlan(root, products.vim)
                        + ProvidersPlan(root + [providers], products.providers);
            Confined(plan, root) && Ordered(plan) && AddsCleared(plan)
  {
    var t, b := TerminfoPlan(root + [terminfo], products.terminfo), BundlesPlan(root, products.kits);
    var v, p := VimPlan(root, products.vim), ProvidersPlan(root + [providers], products.providers);
    TerminfoPart(root + [terminfo], products.terminfo);
    VimPart(root, products.vim);
    ProvidersPart(root + [providers], products.providers);
    BundlesPart(root, products.kits);
    BundlesSpare(root, products.kits, t, terminfo);
    ConfinedDeeper(t, root, root + [terminfo]);
    ConfinedDeeper(p, root, root + [providers]);
    LibsFront(root, t, b);
    LibsRest(root, [MakeDir(root), Clear(root)] + t + b, v, p);
  }

  lemma LibsFront(root: Path, t: seq<Action>, b: seq<Action>)
    requires Confined(t, root) && NoClears(t) && NoAdds(t)
    requires Confined(b, root) && Ordered(b) && NoAdds(b) && SparesAll(b, t)
    ensures var front := [MakeDir(root), Clear(root)] + t + b;
            Confined(front, root) && Ordered(front) && NoAdds(front) && |front| > 1 && front[1] == Clear(root)
  {
    var head := [MakeDir(root), Clear(root)];
    ClearedThenFilled(root, t, false);
    assert [MakeDir(root), Clear(root)] + [] + t == head + t;
    DeeperSpares(b, root);
    OrderedAppend(head + t, b);
  }

  lemma LibsRest(root: Path, front: seq<Action>, v: seq<Action>, p: seq<Action>)
    requires Ordered(front) && Confined(front, root) && NoAdds(front) && |front| > 1 && front[1] == Clear(root)
    requires Confined(v, root) && NoClears(v) && forall i :: 0 <= i < |v| && v[i].Add? ==> root < v[i].path
    requires Confined(p, root) && NoClears(p) && NoAdds(p)
    ensures Confined(front + v + p, root) && Ordered(front + v + p) && AddsCleared(front + v + p)
  {
    NoClearsOrdered(v);
    NoClearsOrdered(p);
    OrderedAppend(front, v);
    OrderedAppend(front + v, p);
    forall i | 0 <= i < |v| && v[i].Add? ensures Decided(front, v[i].path) {
      assert Decides(front[1], v[i].path);
    }
    AddsAppend(front, v);
    AddsAppend(front + v, p);
  }

  lemma FontsPart(fonts: Option<seq<Product>>)
    ensures var plan := FontsPlan(fonts); Confined(plan, FONTS) && NoClears(plan) && NoAdds(plan)
  {
    if fonts.Some? {
      ReplacesConfined(SYSTEM_FONTS, fonts.value);
    }
  }

  lemma MediaPart(sound: Option<string>)
    ensures var plan := MediaPlan(sound); Confined(plan, MEDIA) && NoClears(plan) && NoAdds(plan)
  {
  }

  /** Only directories are made and files offered. */
  ghost predicate Keeps(actions: seq<Action>) {
    forall i :: 0 <= i < |actions| ==> actions[i].MakeDir? || actions[i].Default? || actions[i].Offer?
  }

  lemma KeepsAppend(a: seq<Action>, b: seq<Action>, root: Path)
    requires Confined(a, root) && Keeps(a) && Confined(b, root) && Keeps(b)
    ensures Confined(a + b, root) && Keeps(a + b)
  {
  }

  lemma DefaultPart(root: Path, file: Product, strict: bool)
    ensures var plan := DefaultPlan(root, file, strict); Confined(plan, root) && Keeps(plan)
  {
  }

  lemma {:induction false} DefaultsPart(root: Path, defaults: seq<Product>, strict: bool)
    ensures var plan := DefaultsPlan(root, defaults, strict); Confined(plan, root) && Keeps(plan)
    decreases |defaults|
  {
    if defaults != [] {
      var less, last := defaults[..|defaults| - 1], defaults[|defaults| - 1];
      DefaultsPart(root, less, strict);
      DefaultPart(root, last, strict);
      KeepsAppend(DefaultsPlan(root, less, strict), DefaultPlan(root, last, strict), root);
    }
  }

  lemma KeptPart(actions: seq<Action>)
    requires Keeps(actions)
    ensures Ordered(actions) && AddsCleared(actions) && forall n :: !Decided(actions, n)
  {
    NoClearsOrdered(actions);
  }

  lemma PlainPart(actions: seq<Action>)
    requires NoClears(actions) && NoAdds(actions)
    ensures Ordered(actions) && AddsCleared(actions)
  {
    NoClearsOrdered(actions);
  }

  // ----- the whole publication -------------------------------------------------------------

  lemma RootsDiffer(i: nat, j: nat)
    requires i < j < |ROOTS|
    ensures ROOTS[i] != ROOTS[j]
  {
    assert |CATALOG[0]| == 16 && |COMMANDS[0]| == |SERVICES[0]| == 8 && |FONTS[0]| == |MEDIA[0]| == |LOCAL[0]| == 5;
    assert |LIBS[0]| == |APPS[0]| == |HOME[0]| == 4 && |STARTUP[0]| == 7 && |CONFIG[0]| == 6;
    assert COMMANDS[0][0] == 'c' && SERVICES[0][0] == 's';
    assert FONTS[0][0] == 'f' && MEDIA[0][0] == 'm' && LOCAL[0][0] == 'l';
    assert LIBS[0][0] == 'l' && APPS[0][0] == 'a' && HOME[0][0] == 'h';
  }

  lemma RootsApart(i: nat, j: nat)
    requires i < j < |ROOTS|
    ensures Apart(ROOTS[i], ROOTS[j])
  {
    RootsDiffer(i, j);
    assert |ROOTS[i]| == |ROOTS[j]| == 1;
  }

  lemma ConfigPart(configuration: seq<Product>)
    ensures Confined(ConfigPlan(configuration), CONFIG) && Keeps(ConfigPlan(configuration))
  {
    DefaultsPart(CONFIG, configuration, true);
  }

  lemma HomePart(home: seq<Product>)
    ensures Confined(HomePlan(home), HOME) && Keeps(HomePlan(home))
  {
    DefaultsPart(HOME, home, false);
  }

  /** Confined, and in an order that can be repeated. */
  ghost predicate SoundPart(part: Part) {
    Confined(part.actions, part.root) && Ordered(part.actions) && AddsCleared(part.actions)
  }

  lemma ProgramParts(products: Products)
    ensures SoundPart(Part(CATALOG, [Replace(CATALOG, products.catalog)]))
    ensures SoundPart(Part(COMMANDS, FlatPlan(COMMANDS, products.commands)))
    ensures SoundPart(Part(SERVICES, FlatPlan(SERVICES, products.services)))
    ensures SoundPart(Part(STARTUP, FlatPlan(STARTUP, [Product(["system"], products.startup)])))
  {
    PlainPart([Replace(CATALOG, products.catalog)]);
    FlatPart(COMMANDS, products.commands);
    FlatPart(SERVICES, products.services);
    FlatPart(STARTUP, [Product(["system"], products.startup)]);
  }

  lemma AssetParts(products: Products)
    ensures SoundPart(Part(FONTS, FontsPlan(products.fonts))) && SoundPart(Part(MEDIA, MediaPlan(products.sound)))
  {
    FontsPart(products.fonts);
    PlainPart(FontsPlan(products.fonts));
    MediaPart(products.sound);
    PlainPart(MediaPlan(products.sound));
  }

  lemma SeededParts(products: Products)
    ensures SoundPart(Part(CONFIG, ConfigPlan(products.configuration)))
    ensures SoundPart(Part(HOME, HomePlan(products.home))) && SoundPart(Part(LOCAL, LocalPlan()))
  {
    ConfigPart(products.configuration);
    KeptPart(ConfigPlan(products.configuration));
    HomePart(products.home);
    KeptPart(HomePlan(products.home));
    KeptPart(LocalPlan());
  }

  lemma PartsConfined(products: Products, k: nat)
    requires ValidProducts(products) && k < |ROOTS|
    ensures SoundPart(Parts(products)[k])
  {
    ProgramParts(products);
    AssetParts(products);
    LibsPart(products);
    AppsPart(products.apps);
    SeededParts(products);
    assert SoundPart(Part(LIBS, LibsPlan(products))) && SoundPart(Part(APPS, AppsPlan(products.apps)));
    AllSound(products, k);
  }

  /** The parts are these eleven. */
  lemma AllSound(products: Products, k: nat)
    requires k < |ROOTS|
    requires SoundPart(Part(CATALOG, [Replace(CATALOG, products.catalog)]))
    requires SoundPart(Part(COMMANDS, FlatPlan(COMMANDS, products.commands)))
    requires SoundPart(Part(SERVICES, FlatPlan(SERVICES, products.services)))
    requires SoundPart(Part(FONTS, FontsPlan(products.fonts))) && SoundPart(Part(MEDIA, MediaPlan(products.sound)))
    requires SoundPart(Part(LIBS, LibsPlan(products))) && SoundPart(Part(APPS, AppsPlan(products.apps)))
    requires SoundPart(Part(STARTUP, FlatPlan(STARTUP, [Product(["system"], products.startup)])))
    requires SoundPart(Part(CONFIG, ConfigPlan(products.configuration)))
    requires SoundPart(Part(HOME, HomePlan(products.home))) && SoundPart(Part(LOCAL, LocalPlan()))
    ensures SoundPart(Parts(products)[k])
  {
    var part := Parts(products)[k];
    assert part in Parts(products);
  }

  lemma PartsDisjoint(products: Products)
    requires ValidProducts(products)
    ensures Disjoint(Parts(products)) && Tidy(Plan(products))
  {
    var parts := Parts(products);
    forall i | 0 <= i < |parts| ensures SoundPart(parts[i]) {
      PartsConfined(products, i);
    }
    forall i, j | 0 <= i < j < |parts| ensures Apart(parts[i].root, parts[j].root) {
      RootsApart(i, j);
    }
    JoinedIsTidy(parts);
  }
}
