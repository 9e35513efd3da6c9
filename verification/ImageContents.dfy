/**
 What each top-level tree of a published volume holds: the files, defaults and directories of
 the products, listed without any of the changes that bring them there.
 */
module ImageContents {
  import opened Prelude
  import opened PublicationPlan
  import opened SystemImage
  import opened VolumeTree

  // ----- what belongs on the volume --------------------------------------------------------

  /** A file that is written only if there is none; a strict one accepts nothing but a file. */
  datatype Seed = Seed(path: Path, content: string, strict: bool)

  datatype Contents = Contents(files: seq<Product>, seeds: seq<Seed>, directories: set<Path>)

  const NOTHING := Contents([], [], {})

  function Join(a: Contents, b: Contents): Contents {
    Contents(a.files + b.files, a.seeds + b.seeds, a.directories + b.directories)
  }

  function Files(root: Path, files: seq<Product>): Contents {
    Contents(seq(|files|, i requires 0 <= i < |files| => Product(root + files[i].path, files[i].content)), [], {})
  }

  function Directories(paths: set<Path>): Contents {
    Contents([], [], paths)
  }

  /** A host directory's files and directories, in their places. */
  function Tree(root: Path, entries: seq<HostEntry>): (contents: Contents)
    ensures contents.seeds == []
  {
    if entries == [] then NOTHING
    else
      var place := match entries[|entries| - 1]
        case HostDir(path) => Directories({root + path})
        case HostFile(path, content) => Files(root, [Product(path, content)])
        case HostLink(_) => NOTHING;
      Join(Tree(root, entries[..|entries| - 1]), place)
  }

  /** Each bundle's own directory and, in it, the bundle. */
  function Bundles(root: Path, bundles: seq<Bundle>): (contents: Contents)
    ensures contents.seeds == []
  {
    if bundles == [] then NOTHING
    else
      var last := bundles[|bundles| - 1];
      var home := root + [last.name];
      Join(Bundles(root, bundles[..|bundles| - 1]), Join(Directories({home}), Tree(home, last.entries)))
  }

  /** The directories between a root and a path below it. */
  function Between(root: Path, path: Path): set<Path> {
    set k | 0 < k < |path| :: root + path[..k]
  }

  function Defaults(root: Path, defaults: seq<Product>, strict: bool): Contents {
    if defaults == [] then NOTHING
    else
      var last := defaults[|defaults| - 1];
      Join(Defaults(root, defaults[..|defaults| - 1], strict),
           Contents([], [Seed(root + last.path, last.content, strict)], Between(root, last.path)))
  }

  function Terminfo(root: Path, terminfo: Option<string>): Contents {
    if terminfo.None? then NOTHING
    else Join(Directories({root, root + ["a"]}), Files(root, [Product(["a", "astra-256color"], terminfo.value)]))
  }

  function VimRuntime(root: Path, vim: Option<seq<HostEntry>>): (contents: Contents)
    ensures contents.seeds == []
  {
    var runtime := root + ["vim", "runtime"];
    if vim.None? then NOTHING else Join(Directories({root, root + ["vim"], runtime}), Tree(runtime, vim.value))
  }

  function Libs(products: Products): (contents: Contents)
    ensures contents.seeds == []
  {
    Join(Join(Join(Join(Directories({LIBS}), Terminfo(LIBS + ["terminfo"], products.terminfo)),
                   Bundles(LIBS, products.kits)),
              VimRuntime(LIBS, products.vim)),
         Join(Directories({LIBS + [".providers"]}), Files(LIBS + [".providers"], products.providers)))
  }

  function Fonts(fonts: Option<seq<Product>>): Contents {
    if fonts.None? then NOTHING
    else Join(Directories({FONTS, SYSTEM_FONTS, FONTS + ["installed"]}), Files(SYSTEM_FONTS, fonts.value))
  }

  function Media(sound: Option<string>): Contents {
    if sound.None? then NOTHING else Join(Directories({MEDIA}), Files([], [Product(STARTUP_SOUND, sound.value)]))
  }

  /** What a publication is for, one top-level name at a time. */
  function Published(products: Products, k: nat): Contents
    requires k < |ROOTS|
  {
    match k
    case 0 => Files([], [Product(CATALOG, products.catalog)])
    case 1 => Join(Directories({COMMANDS}), Files(COMMANDS, products.commands))
    case 2 => Join(Directories({SERVICES}), Files(SERVICES, products.services))
    case 3 => Fonts(products.fonts)
    case 4 => Media(products.sound)
    case 5 => Libs(products)
    case 6 => Join(Directories({APPS}), Bundles(APPS, products.apps))
    case 7 => Join(Directories({STARTUP}), Files(STARTUP, [Product(["system"], products.startup)]))
    case 8 => Join(Directories({CONFIG, CONFIG + ["system"], CONFIG + ["services"], CONFIG + ["applications"]}),
                   Defaults(CONFIG, products.configuration, true))
    case 9 => Join(Directories({HOME}), Defaults(HOME, products.home, false))
    case 10 => Directories({LOCAL, LOCAL + ["commands"]})
  }

  /** The contents listed last for a path. */
  function LastFile(files: seq<Product>, n: Path): Option<string> {
    if files == [] then None
    else if files[|files| - 1].path == n then Some(files[|files| - 1].content)
    else LastFile(files[..|files| - 1], n)
  }

  /** The default listed first for a path. */
  function FirstSeed(seeds: seq<Seed>, n: Path): Option<Seed> {
    if seeds == [] then None
    else if seeds[0].path == n then Some(seeds[0])
    else FirstSeed(seeds[1..], n)
  }

  // ----- what a list of changes is meant to leave ------------------------------------------

  function Intent(action: Action): Contents {
    match action
    case MakeDir(path) => Directories({path})
    case Replace(path, content) => Contents([Product(path, content)], [], {})
    case Add(path, content) => Contents([Product(path, content)], [], {})
    case Default(path, content) => Contents([], [Seed(path, content, true)], {})
    case Offer(path, content) => Contents([], [Seed(path, content, false)], {})
    case Clear(_) => NOTHING
    case Refuse(_) => NOTHING
  }

  function Intends(actions: seq<Action>): Contents {
    if actions == [] then NOTHING else Join(Intends(actions[..|actions| - 1]), Intent(actions[|actions| - 1]))
  }

  lemma JoinAssociates(a: Contents, b: Contents, c: Contents)
    ensures Join(Join(a, b), c) == Join(a, Join(b, c))
    ensures Join(a, NOTHING) == a == Join(NOTHING, a)
  {
    assert Join(Join(a, b), c).files == Join(a, Join(b, c)).files;
    assert Join(Join(a, b), c).seeds == Join(a, Join(b, c)).seeds;
  }

  lemma {:induction false} IntendsAppend(a: seq<Action>, b: seq<Action>)
    ensures Intends(a + b) == Join(Intends(a), Intends(b))
  {
    if b == [] {
      assert a + b == a;
      JoinAssociates(Intends(a), NOTHING, NOTHING);
    } else {
      var less, last := b[..|b| - 1], b[|b| - 1];
      assert (a + b)[..|a + b| - 1] == a + less;
      IntendsAppend(a, less);
      JoinAssociates(Intends(a), Intends(less), Intent(last));
    }
  }

  lemma {:induction false} IntendsReplaces(root: Path, files: seq<Product>)
    ensures Intends(Replaces(root, files)) == Files(root, files)
  {
    if files != [] {
      var less, last := files[..|files| - 1], files[|files| - 1];
      assert Replaces(root, files)[..|files| - 1] == Replaces(root, less);
      IntendsReplaces(root, less);
      assert Files(root, files).files == Files(root, less).files + [Product(root + last.path, last.content)];
    }
  }

  lemma {:induction false} IntendsEntries(root: Path, entries: seq<HostEntry>, adding: bool)
    ensures Intends(EntryActions(root, entries, adding)) == Tree(root, entries)
  {
    if entries != [] {
      var less := entries[..|entries| - 1];
      assert EntryActions(root, entries, adding)[..|entries| - 1] == EntryActions(root, less, adding);
      IntendsEntries(root, less, adding);
    }
  }

  lemma IntendsOne(action: Action)
    ensures Intends([action]) == Intent(action)
  {
    assert [action][..0] == [];
    JoinAssociates(Intent(action), NOTHING, NOTHING);
  }

  /** Making directories, and clearing, leaves these directories. */
  lemma {:induction false} IntendsDirectories(actions: seq<Action>, paths: set<Path>)
    requires forall i :: 0 <= i < |actions| ==> actions[i].MakeDir? || actions[i].Clear?
    requires forall p :: p in paths <==> MakeDir(p) in actions
    ensures Intends(actions) == Directories(paths)
  {
    if actions == [] {
      assert paths == {};
    } else {
      var less, last := actions[..|actions| - 1], actions[|actions| - 1];
      var fewer := set p | p in paths && MakeDir(p) in less;
      MadeLast(actions, paths, fewer);
      IntendsDirectories(less, fewer);
    }
  }

  lemma MadeLast(actions: seq<Action>, paths: set<Path>, fewer: set<Path>)
    requires actions != [] && (actions[|actions| - 1].MakeDir? || actions[|actions| - 1].Clear?)
    requires forall p :: p in paths <==> MakeDir(p) in actions
    requires forall p :: p in fewer <==> p in paths && MakeDir(p) in actions[..|actions| - 1]
    ensures forall p :: p in fewer <==> MakeDir(p) in actions[..|actions| - 1]
    ensures paths == fewer + Intent(actions[|actions| - 1]).directories
  {
    var less, last := actions[..|actions| - 1], actions[|actions| - 1];
    assert actions == less + [last];
    forall p ensures MakeDir(p) in actions <==> MakeDir(p) in less || MakeDir(p) == last {
    }
  }

  lemma IntendsFlat(root: Path, files: seq<Product>)
    ensures Intends(FlatPlan(root, files)) == Join(Directories({root}), Files(root, files))
  {
    IntendsDirectories([MakeDir(root), Clear(root)], {root});
    IntendsReplaces(root, files);
    IntendsAppend([MakeDir(root), Clear(root)], Replaces(root, files));
  }

  lemma {:induction false} IntendsBundles(root: Path, bundles: seq<Bundle>)
    ensures Intends(BundlesPlan(root, bundles)) == Bundles(root, bundles)
  {
    if bundles != [] {
      var less, last := bundles[..|bundles| - 1], bundles[|bundles| - 1];
      var home := root + [last.name];
      IntendsBundles(root, less);
      IntendsDirectories([MakeDir(home), Clear(home), MakeDir(home)], {home});
      IntendsEntries(home, last.entries, false);
      IntendsAppend([MakeDir(home), Clear(home), MakeDir(home)], EntryActions(home, last.entries, false));
      IntendsAppend(BundlesPlan(root, less), BundlePlan(home, last.entries));
    }
  }

  lemma IntendsLadder(root: Path, path: Path)
    ensures Intends(Ladder(root, path)) == Directories(Between(root, path))
  {
    var steps := Ladder(root, path);
    forall p ensures p in Between(root, path) <==> MakeDir(p) in steps {
      if p in Between(root, path) {
        var k :| 0 < k < |path| && p == root + path[..k];
        assert steps[k - 1] == MakeDir(p);
      }
    }
    IntendsDirectories(steps, Between(root, path));
  }

  lemma {:induction false} IntendsDefaults(root: Path, defaults: seq<Product>, strict: bool)
    ensures Intends(DefaultsPlan(root, defaults, strict)) == Defaults(root, defaults, strict)
  {
    if defaults != [] {
      var less, last := defaults[..|defaults| - 1], defaults[|defaults| - 1];
      var path := root + last.path;
      var action := if strict then Default(path, last.content) else Offer(path, last.content);
      IntendsDefaults(root, less, strict);
      IntendsLadder(root, last.path);
      IntendsOne(action);
      IntendsAppend(Ladder(root, last.path), [action]);
      IntendsAppend(DefaultsPlan(root, less, strict), DefaultPlan(root, last, strict));
    }
  }

  lemma IntendsTerminfo(root: Path, terminfo: Option<string>)
    ensures Intends(TerminfoPlan(root, terminfo)) == Terminfo(root, terminfo)
  {
    if terminfo.Some? {
      var head := [MakeDir(root), MakeDir(root + ["a"])];
      var file := Replace(root + ["a", "astra-256color"], terminfo.value);
      IntendsDirectories(head, {root, root + ["a"]});
      IntendsOne(file);
      IntendsAppend(head, [file]);
      assert head + [file] == TerminfoPlan(root, terminfo);
    }
  }

  lemma IntendsVim(root: Path, vim: Option<seq<HostEntry>>)
    ensures Intends(VimPlan(root, vim)) == VimRuntime(root, vim)
  {
    if vim.Some? {
      var runtime := root + ["vim", "runtime"];
      var head := [MakeDir(root), MakeDir(root + ["vim"]), MakeDir(runtime), MakeDir(runtime)];
      IntendsDirectories(head, {root, root + ["vim"], runtime});
      IntendsEntries(runtime, vim.value, true);
      IntendsAppend(head, EntryActions(runtime, vim.value, true));
    }
  }

  lemma IntendsProviders(root: Path, providers: seq<Product>)
    ensures Intends(ProvidersPlan(root, providers)) == Join(Directories({root}), Files(root, providers))
  {
    IntendsOne(MakeDir(root));
    IntendsReplaces(root, providers);
    IntendsAppend([MakeDir(root)], Replaces(root, providers));
  }

  lemma IntendsLibs(products: Products)
    ensures Intends(LibsPlan(products)) == Libs(products)
  {
    var head, t := [MakeDir(LIBS), Clear(LIBS)], TerminfoPlan(LIBS + ["terminfo"], products.terminfo);
    var b, v := BundlesPlan(LIBS, products.kits), VimPlan(LIBS, products.vim);
    var p := ProvidersPlan(LIBS + [".providers"], products.providers);
    IntendsDirectories(head, {LIBS});
    IntendsTerminfo(LIBS + ["terminfo"], products.terminfo);
    IntendsBundles(LIBS, products.kits);
    IntendsVim(LIBS, products.vim);
    IntendsProviders(LIBS + [".providers"], products.providers);
    IntendsAppend(head, t);
    IntendsAppend(head + t, b);
    IntendsAppend(head + t + b, v);
    IntendsAppend(head + t + b + v, p);
  }

  lemma IntendsFonts(fonts: Option<seq<Product>>)
    ensures Intends(FontsPlan(fonts)) == Fonts(fonts)
  {
    if fonts.Some? {
      var head := [MakeDir(FONTS), MakeDir(SYSTEM_FONTS), MakeDir(FONTS + ["installed"])];
      IntendsDirectories(head, {FONTS, SYSTEM_FONTS, FONTS + ["installed"]});
      IntendsReplaces(SYSTEM_FONTS, fonts.value);
      IntendsAppend(head, Replaces(SYSTEM_FONTS, fonts.value));
    }
  }

  lemma IntendsMedia(sound: Option<string>)
    ensures Intends(MediaPlan(sound)) == Media(sound)
  {
    if sound.Some? {
      IntendsOne(MakeDir(MEDIA));
      IntendsOne(Replace(STARTUP_SOUND, sound.value));
      IntendsAppend([MakeDir(MEDIA)], [Replace(STARTUP_SOUND, sound.value)]);
      assert [MakeDir(MEDIA)] + [Replace(STARTUP_SOUND, sound.value)] == MediaPlan(sound);
      assert [] + STARTUP_SOUND == STARTUP_SOUND;
    }
  }

  lemma IntendsApps(apps: seq<Bundle>)
    ensures Intends(AppsPlan(apps)) == Join(Directories({APPS}), Bundles(APPS, apps))
  {
    IntendsDirectories([MakeDir(APPS), Clear(APPS)], {APPS});
    IntendsBundles(APPS, apps);
    IntendsAppend([MakeDir(APPS), Clear(APPS)], BundlesPlan(APPS, apps));
  }

  lemma IntendsConfig(configuration: seq<Product>)
    ensures Intends(ConfigPlan(configuration)) ==
            Join(Directories({CONFIG, CONFIG + ["system"], CONFIG + ["services"], CONFIG + ["applications"]}),
                 Defaults(CONFIG, configuration, true))
  {
    var head := [MakeDir(CONFIG), MakeDir(CONFIG + ["system"]), MakeDir(CONFIG + ["services"]),
                 MakeDir(CONFIG + ["applications"])];
    IntendsDirectories(head, {CONFIG, CONFIG + ["system"], CONFIG + ["services"], CONFIG + ["applications"]});
    IntendsDefaults(CONFIG, configuration, true);
    IntendsAppend(head, DefaultsPlan(CONFIG, configuration, true));
  }

  lemma IntendsHome(home: seq<Product>)
    ensures Intends(HomePlan(home)) == Join(Directories({HOME}), Defaults(HOME, home, false))
  {
    IntendsOne(MakeDir(HOME));
    IntendsDefaults(HOME, home, false);
    IntendsAppend([MakeDir(HOME)], DefaultsPlan(HOME, home, false));
  }

  lemma IntendsCatalog(catalog: string)
    ensures Intends([Replace(CATALOG, catalog)]) == Files([], [Product(CATALOG, catalog)])
  {
    IntendsOne(Replace(CATALOG, catalog));
    assert [] + CATALOG == CATALOG;
  }

  lemma IntendsLocal()
    ensures Intends(LocalPlan()) == Directories({LOCAL, LOCAL + ["commands"]})
  {
    IntendsDirectories(LocalPlan(), {LOCAL, LOCAL + ["commands"]});
  }

  /** Each part of the plan is for exactly what is listed for its top-level name. */
  lemma PartIntends(products: Products, k: nat)
    requires k < |ROOTS|
    ensures Intends(Parts(products)[k].actions) == Published(products, k)
    ensures k < 11 && ROOTS[k] == [["astra_events.cat", "commands", "services", "fonts", "media", "libs", "apps",
                                    "startup", "config", "home", "local"][k]]
  {
    match k
    case 0 => IntendsCatalog(products.catalog);
    case 1 => IntendsFlat(COMMANDS, products.commands);
    case 2 => IntendsFlat(SERVICES, products.services);
    case 3 => IntendsFonts(products.fonts);
    case 4 => IntendsMedia(products.sound);
    case 5 => IntendsLibs(products);
    case 6 => IntendsApps(products.apps);
    case 7 => IntendsFlat(STARTUP, [Product(["system"], products.startup)]);
    case 8 => IntendsConfig(products.configuration);
    case 9 => IntendsHome(products.home);
    case 10 => IntendsLocal();
  }

  // ----- what the changes do leave ---------------------------------------------------------

  lemma EffectLast(actions: seq<Action>, n: Path, v: Option<Node>)
    requires actions != []
    ensures var less, last := actions[..|actions| - 1], actions[|actions| - 1];
            Effect(actions, n, v) == Step(last, n, Effect(less, n, v))
  {
    var less, last := actions[..|actions| - 1], actions[|actions| - 1];
    assert actions == less + [last];
    EffectAppend(less, [last], n, v);
    assert [last][1..] == [];
  }

  lemma OrderedFront(actions: seq<Action>)
    requires Ordered(actions) && actions != []
    ensures var less, last := actions[..|actions| - 1], actions[|actions| - 1];
            Ordered(less) && forall i :: 0 <= i < |less| && last.Clear? ==> !(last.path < less[i].path)
  {
    var less, last := actions[..|actions| - 1], actions[|actions| - 1];
    forall i | 0 <= i < |less|
      ensures Spares(less[i + 1..], less[i].path) && (last.Clear? ==> !(last.path < less[i].path))
    {
      assert Spares(actions[i + 1..], actions[i].path);
      assert actions[i + 1..] == less[i + 1..] + [last];
      assert actions[i + 1..][|actions| - i - 2] == last;
      var rest := less[i + 1..];
      forall j | 0 <= j < |rest| && rest[j].Clear? ensures !(rest[j].path < less[i].path) {
        assert actions[i + 1..][j] == rest[j];
      }
    }
  }

  lemma LastFileAppend(a: seq<Product>, last: Product, n: Path)
    ensures LastFile(a + [last], n) == if last.path == n then Some(last.content) else LastFile(a, n)
    ensures LastFile(a + [], n) == LastFile(a, n)
  {
    assert (a + [last])[..|a|] == a;
    assert a + [] == a;
  }

  lemma {:induction false} FirstSeedAppend(a: seq<Seed>, last: Seed, n: Path)
    ensures FirstSeed(a + [last], n) ==
            if FirstSeed(a, n).Some? then FirstSeed(a, n) else if last.path == n then Some(last) else None
    ensures FirstSeed(a + [], n) == FirstSeed(a, n)
  {
    assert a + [] == a;
    if a != [] {
      assert (a + [last])[1..] == a[1..] + [last];
      FirstSeedAppend(a[1..], last, n);
    } else {
      assert (a + [last])[1..] == [];
    }
  }

  /** What one more change adds to what is listed for a path. */
  lemma IntendsLast(actions: seq<Action>, n: Path)
    requires actions != []
    ensures var less, last := Intends(actions[..|actions| - 1]), actions[|actions| - 1];
            var all := Intends(actions);
            && LastFile(all.files, n)
                == (if Writes(last) && last.path == n then Some(last.content) else LastFile(less.files, n))
            && FirstSeed(all.seeds, n) ==
               (if FirstSeed(less.seeds, n).None? && (last.Default? || last.Offer?) && last.path == n
                then Some(Seed(n, last.content, last.Default?)) else FirstSeed(less.seeds, n))
            && (n in all.directories <==> n in less.directories || last == MakeDir(n))
  {
    var less, last := Intends(actions[..|actions| - 1]), actions[|actions| - 1];
    LastFileAppend(less.files, Product(n, ""), n);
    FirstSeedAppend(less.seeds, Seed(n, "", true), n);
    if Writes(last) {
      LastFileAppend(less.files, Product(last.path, last.content), n);
    }
    if last.Default? || last.Offer? {
      FirstSeedAppend(less.seeds, Seed(last.path, last.content, last.Default?), n);
    }
  }

  lemma {:induction false} ListedIsWritten(actions: seq<Action>, n: Path)
    requires LastFile(Intends(actions).files, n).Some?
    ensures exists i :: 0 <= i < |actions| && actions[i].path == n
  {
    IntendsLast(actions, n);
    var less, last := actions[..|actions| - 1], actions[|actions| - 1];
    if last.path != n {
      ListedIsWritten(less, n);
      var i :| 0 <= i < |less| && less[i].path == n;
      assert actions[i] == less[i];
    } else {
      assert actions[|actions| - 1] == last;
    }
  }

  /** Whatever was there, an orderly list leaves the contents it writes last. */
  lemma {:induction false} FilesHold(actions: seq<Action>, n: Path, v: Option<Node>)
    requires Ordered(actions) && LastFile(Intends(actions).files, n).Some?
    ensures Effect(actions, n, v) == Some(File(LastFile(Intends(actions).files, n).value, NEW))
  {
    var less, last := actions[..|actions| - 1], actions[|actions| - 1];
    IntendsLast(actions, n);
    EffectLast(actions, n, v);
    OrderedFront(actions);
    if !(Writes(last) && last.path == n) {
      FilesHold(less, n, v);
      ListedIsWritten(less, n);
    }
  }

  /** What an empty path can be left with. */
  lemma {:induction false} EmptyHolds(actions: seq<Action>, n: Path)
    ensures var node, all := Effect(actions, n, None), Intends(actions);
            node.Some? ==>
              || (node == Some(Directory(NEW)) && n in all.directories)
              || (node.value.File? && (LastFile(all.files, n).Some? || FirstSeed(all.seeds, n).Some?))
  {
    if actions != [] {
      IntendsLast(actions, n);
      EffectLast(actions, n, None);
      EmptyHolds(actions[..|actions| - 1], n);
    }
  }

  /** Where nothing is overwritten or cleared, what comes first to an empty path stays. */
  lemma {:induction false} SeedsHold(actions: seq<Action>, n: Path)
    requires !Decided(actions, n)
    ensures var node, all := Effect(actions, n, None), Intends(actions);
            && (node.None? <==> FirstSeed(all.seeds, n).None? && n !in all.directories)
            && (node.Some? ==>
                  || (node == Some(Directory(NEW)) && n in all.directories)
                  || (FirstSeed(all.seeds, n).Some? && node == Some(File(FirstSeed(all.seeds, n).value.content, NEW))))
  {
    if actions != [] {
      var less, last := actions[..|actions| - 1], actions[|actions| - 1];
      IntendsLast(actions, n);
      EffectLast(actions, n, None);
      assert !Decides(last, n);
      assert actions == less + [last];
      DecidedAppend(less, [last], n);
      SeedsHold(less, n);
    }
  }

  lemma {:induction false} SeedIsOffered(actions: seq<Action>, n: Path) returns (i: nat)
    requires FirstSeed(Intends(actions).seeds, n).Some?
    ensures i < |actions|
    ensures var seed := FirstSeed(Intends(actions).seeds, n).value;
            actions[i] == if seed.strict then Default(n, seed.content) else Offer(n, seed.content)
  {
    IntendsLast(actions, n);
    var less := actions[..|actions| - 1];
    if FirstSeed(Intends(less).seeds, n).None? {
      return |less|;
    }
    i := SeedIsOffered(less, n);
  }

  lemma {:induction false} DirectoryIsMade(actions: seq<Action>, n: Path) returns (i: nat)
    requires n in Intends(actions).directories
    ensures i < |actions| && actions[i] == MakeDir(n)
  {
    IntendsLast(actions, n);
    var less := actions[..|actions| - 1];
    if n !in Intends(less).directories {
      return |less|;
    }
    i := DirectoryIsMade(less, n);
  }

  /** What an accepted change puts at its path is of its kind to the end. */
  lemma MadeStays(actions: seq<Action>, before: Nodes, after: Nodes, q: nat)
    requires Ordered(actions) && Run(actions, before) == Some(after) && q < |actions|
    requires Creates(actions[q])
    ensures actions[q].path in after
    ensures actions[q].MakeDir? ==> after[actions[q].path].Directory?
    ensures actions[q].Default? ==> after[actions[q].path].File?
  {
    var done, rest := actions[..q], actions[q + 1..];
    assert actions == done + ([actions[q]] + rest);
    RunAppend(done, [actions[q]] + rest, before);
    assert ([actions[q]] + rest)[1..] == rest;
    assert Spares(rest, actions[q].path);
    Stays(rest, Apply(actions[q], Run(done, before).value), after, actions[q].path);
  }

  lemma {:induction false} JoinedMember(parts: seq<Part>, k: nat, i: nat) returns (q: nat)
    requires k < |parts| && i < |parts[k].actions|
    ensures q < |Joined(parts)| && Joined(parts)[q] == parts[k].actions[i]
  {
    var less := parts[..|parts| - 1];
    if k == |less| {
      return |Joined(less)| + i;
    }
    q := JoinedMember(less, k, i);
  }

  /** A change of the whole list is one of some part. */
  lemma {:induction false} MemberJoined(parts: seq<Part>, q: nat) returns (k: nat, i: nat)
    requires q < |Joined(parts)|
    ensures k < |parts| && i < |parts[k].actions| && parts[k].actions[i] == Joined(parts)[q]
  {
    var less, last := parts[..|parts| - 1], parts[|parts| - 1];
    if q < |Joined(less)| {
      k, i := MemberJoined(less, q);
    } else {
      return |less|, q - |Joined(less)|;
    }
  }

  /** At or below a top-level name only that name's part acts. */
  lemma OwnPartActs(products: Products, before: Nodes, after: Nodes, k: nat, n: Path)
    requires ValidProducts(products) && Run(Plan(products), before) == Some(after)
    requires k < |ROOTS| && ROOTS[k] <= n
    ensures Get(after, n) == Effect(Parts(products)[k].actions, n, Get(before, n))
    ensures Decided(Plan(products), n) <==> Decided(Parts(products)[k].actions, n)
    ensures Ordered(Parts(products)[k].actions)
  {
    PartsDisjoint(products);
    RunIsPointwise(Plan(products), before, n);
    OnlyOwnPart(Parts(products), k, n, Get(before, n));
    PartsConfined(products, k);
  }

  // ----- what a publication leaves ---------------------------------------------------------

  /** Every product file is in its place with its bytes, whatever was there. */
  lemma FilesPlaced(products: Products, before: Nodes, after: Nodes, k: nat, n: Path)
    requires ValidProducts(products) && Run(Plan(products), before) == Some(after)
    requires k < |ROOTS| && ROOTS[k] <= n && LastFile(Published(products, k).files, n).Some?
    ensures n in after && after[n] == File(LastFile(Published(products, k).files, n).value, NEW)
  {
    OwnPartActs(products, before, after, k, n);
    PartIntends(products, k);
    FilesHold(Parts(products)[k].actions, n, Get(before, n));
  }

  /** Every directory the products and the user's trees need is there. */
  lemma DirectoriesPlaced(products: Products, before: Nodes, after: Nodes, k: nat, n: Path)
    requires ValidProducts(products) && Run(Plan(products), before) == Some(after)
    requires k < |ROOTS| && n in Published(products, k).directories
    ensures n in after && after[n].Directory?
  {
    PartIntends(products, k);
    PartsDisjoint(products);
    var i := DirectoryIsMade(Parts(products)[k].actions, n);
    var q := JoinedMember(Parts(products), k, i);
    MadeStays(Plan(products), before, after, q);
  }

  /** This is one of the files, defaults or directories. */
  ghost predicate Lists(contents: Contents, n: Path) {
    n in contents.directories || LastFile(contents.files, n).Some? || FirstSeed(contents.seeds, n).Some?
  }

  /** Nothing appears anywhere but what is listed. */
  lemma NothingElseAppears(products: Products, before: Nodes, after: Nodes, n: Path)
    requires ValidProducts(products) && Run(Plan(products), before) == Some(after) && n !in before && n in after
    ensures exists k :: 0 <= k < |ROOTS| && ROOTS[k] <= n && Lists(Published(products, k), n)
  {
    RunIsPointwise(Plan(products), before, n);
    AppearsByAim(Plan(products), n);
    var q :| 0 <= q < |Plan(products)| && Creates(Plan(products)[q]) && Plan(products)[q].path == n;
    var k, i := MemberJoined(Parts(products), q);
    PartsConfined(products, k);
    OwnPartActs(products, before, after, k, n);
    PartIntends(products, k);
    EmptyHolds(Parts(products)[k].actions, n);
    assert Lists(Published(products, k), n);
  }

  /** commands, services, libs, apps and startup. */
  predicate ClearedRoot(k: nat) {
    k == 1 || k == 2 || k == 5 || k == 6 || k == 7
  }

  lemma ClearsItself(products: Products, k: nat)
    requires ClearedRoot(k)
    ensures var actions := Parts(products)[k].actions; |actions| > 1 && actions[1] == Clear(ROOTS[k])
  {
    if k == 5 {
      assert LibsPlan(products)[1] == Clear(LIBS);
    } else if k == 6 {
      assert AppsPlan(products.apps)[1] == Clear(APPS);
    } else {
      assert forall files :: FlatPlan(ROOTS[k], files)[1] == Clear(ROOTS[k]);
    }
  }

  lemma NothingSeeded(products: Products, k: nat)
    requires ClearedRoot(k)
    ensures Published(products, k).seeds == []
  {
  }

  /** Below a cleared directory is exactly what is listed for it: nothing older is left. */
  lemma ClearedTreesExactly(products: Products, before: Nodes, after: Nodes, k: nat, n: Path)
    requires ValidProducts(products) && Run(Plan(products), before) == Some(after)
    requires ClearedRoot(k) && ROOTS[k] < n
    ensures var listed := Published(products, k);
            && (n in after && after[n].File? <==> LastFile(listed.files, n).Some?)
            && (n in after && after[n].Directory? <==> n in listed.directories)
            && (n in after ==> after[n] == Directory(NEW) || after[n].File?)
  {
    var actions := Parts(products)[k].actions;
    OwnPartActs(products, before, after, k, n);
    PartIntends(products, k);
    ClearsItself(products, k);
    NothingSeeded(products, k);
    assert Decides(actions[1], n);
    DecidedIsConstant(actions, n, Get(before, n), None);
    EmptyHolds(actions, n);
    if LastFile(Published(products, k).files, n).Some? {
      FilesPlaced(products, before, after, k, n);
    }
    if n in Published(products, k).directories {
      DirectoriesPlaced(products, before, after, k, n);
    }
  }

  /**
   Every default of the configuration and of the home directory is there afterwards.  What was
   there before is as it was.  Where nothing was, the default listed first is there with its
   bytes, or else a directory another default needs.  A configuration default is always a file.
   */
  lemma DefaultsSeeded(products: Products, before: Nodes, after: Nodes, k: nat, n: Path)
    requires ValidProducts(products) && Run(Plan(products), before) == Some(after)
    requires (k == 8 || k == 9) && ROOTS[k] <= n && FirstSeed(Published(products, k).seeds, n).Some?
    ensures n in after && (n in before ==> after[n] == before[n])
    ensures var listed := Published(products, k);
            var seed := FirstSeed(listed.seeds, n).value;
            && (n !in before ==>
                after[n] == File(seed.content, NEW) || (after[n] == Directory(NEW) && n in listed.directories))
            && (seed.strict ==> after[n].File?)
  {
    var actions := Parts(products)[k].actions;
    OwnPartActs(products, before, after, k, n);
    PartIntends(products, k);
    PartsDisjoint(products);
    var i := SeedIsOffered(actions, n);
    var q := JoinedMember(Parts(products), k, i);
    MadeStays(Plan(products), before, after, q);
    if n in before {
      UserKept(products, before, after, n);
    } else {
      UserIsNotOwned(n);
      if Decided(Plan(products), n) {
        DecidedIsOwned(products, n);
      }
      SeedsHold(actions, n);
    }
  }
}
