/**
 _install_built of emu/qemu/astra_image.py as it runs, request by request, and the image file
 around it: the volume is sliced out, changed, and spliced back only when nothing was refused.
 */
module Publisher {
  import opened Prelude
  import opened PublicationPlan
  import opened Volume
  import opened VolumeTree

  /** A method did what a list of changes does, or was refused where the list is. */
  ghost predicate Did(actions: seq<Action>, before: Nodes, after: Nodes, ok: bool) {
    if ok then Run(actions, before) == Some(after) else Run(actions, before).None?
  }

  lemma DidOne(action: Action, before: Nodes, after: Nodes, ok: bool)
    requires ok <==> Acceptable(action, before)
    requires ok ==> after == Apply(action, before)
    ensures Did([action], before, after, ok)
  {
    assert [action][1..] == [];
    assert Run([action], before) == if Acceptable(action, before) then Run([], Apply(action, before)) else None;
  }

  lemma DidBoth(a: seq<Action>, b: seq<Action>, before: Nodes, middle: Nodes, after: Nodes, ok: bool)
    requires Did(a, before, middle, true) && Did(b, middle, after, ok)
    ensures Did(a + b, before, after, ok)
  {
    RunAppend(a, b, before);
  }

  lemma DidNot(a: seq<Action>, b: seq<Action>, before: Nodes, after: Nodes)
    requires Did(a, before, after, false)
    ensures Did(a + b, before, after, false)
  {
    RunAppend(a, b, before);
  }

  class Installation {
    const volume: MountedVolume
    /** The volume at the start, and the changes made since. */
    ghost var start: Nodes
    ghost var done: seq<Action>
    var refused: bool

    ghost predicate Valid()
      reads this, volume
    {
      Grounded(volume.nodes) && Did(done, start, volume.nodes, !refused)
    }

    constructor (volume: MountedVolume)
      requires Grounded(volume.nodes)
      ensures this.volume == volume && start == volume.nodes && done == [] && !refused && Valid()
    {
      this.volume, start, done, refused := volume, volume.nodes, [], false;
    }

    /** One request; after a refusal nothing more is asked for. */
    method Do(action: Action)
      requires Valid() && action.path != []
      modifies this, volume
      ensures Valid() && start == old(start) && done == old(done) + [action]
      ensures !refused ==> !old(refused) && volume.nodes == Apply(action, old(volume.nodes))
    {
      ghost var before := volume.nodes;
      if refused {
        DidNot(done, [action], start, volume.nodes);
      } else {
        var ok;
        match action {
          case MakeDir(path) => ok := volume.MakeDirectory(path);
          case Clear(path) =>
            ok := path in volume.nodes && volume.nodes[path].Directory?;
            if ok {
              ok := volume.ClearDirectory(path);
            }
          case Replace(path, content) => ok := volume.Replace(path, content);
          case Add(path, content) => ok := volume.Write(path, content);
          case Default(path, content) => ok := volume.Seed(path, content, true);
          case Offer(path, content) => ok := volume.Seed(path, content, false);
          case Refuse(_) => ok := false;
        }
        refused := !ok;
        DidOne(action, before, volume.nodes, ok);
        DidBoth(done, [action], start, before, volume.nodes, ok);
      }
      done := done + [action];
    }

    /** A directory made and emptied. */
    method FreshDirectory(path: Path)
      requires Valid() && path != []
      modifies this, volume
      ensures Valid() && start == old(start) && done == old(done) + [MakeDir(path), Clear(path)]
    {
      Do(MakeDir(path));
      Do(Clear(path));
      assert [MakeDir(path)] + [Clear(path)] == [MakeDir(path), Clear(path)];
    }

    method ReplaceFiles(root: Path, files: seq<Product>)
      requires Valid() && root != []
      modifies this, volume
      ensures Valid() && start == old(start) && done == old(done) + Replaces(root, files)
    {
      ghost var plan := Replaces(root, files);
      for k := 0 to |files|
        invariant Valid() && start == old(start) && done == old(done) + plan[..k]
      {
        Do(Replace(root + files[k].path, files[k].content));
        assert plan[..k + 1] == plan[..k] + [plan[k]];
      }
      assert plan[..|files|] == plan;
    }

    /** The host files below a directory, in the order os.walk comes to them. */
    method InstallEntries(root: Path, entries: seq<HostEntry>, adding: bool)
      requires Valid() && root != []
      modifies this, volume
      ensures Valid() && start == old(start) && done == old(done) + EntryActions(root, entries, adding)
    {
      ghost var plan := EntryActions(root, entries, adding);
      for k := 0 to |entries|
        invariant Valid() && start == old(start) && done == old(done) + plan[..k]
      {
        Do(EntryAction(root, entries[k], adding));
        assert plan[..k + 1] == plan[..k] + [plan[k]];
      }
      assert plan[..|entries|] == plan;
    }

    method InstallFlat(root: Path, files: seq<Product>)
      requires Valid() && root != []
      modifies this, volume
      ensures Valid() && start == old(start) && done == old(done) + FlatPlan(root, files)
    {
      FreshDirectory(root);
      ReplaceFiles(root, files);
    }

    /** _install_bundle */
    method InstallBundle(path: Path, entries: seq<HostEntry>)
      requires Valid() && path != []
      modifies this, volume
      ensures Valid() && start == old(start) && done == old(done) + BundlePlan(path, entries)
    {
      FreshDirectory(path);
      Do(MakeDir(path));
      InstallEntries(path, entries, false);
      assert [MakeDir(path), Clear(path)] + [MakeDir(path)] == [MakeDir(path), Clear(path), MakeDir(path)];
    }

    method InstallBundles(root: Path, bundles: seq<Bundle>)
      requires Valid()
      modifies this, volume
      ensures Valid() && start == old(start) && done == old(done) + BundlesPlan(root, bundles)
    {
      for k := 0 to |bundles|
        invariant Valid() && start == old(start) && done == old(done) + BundlesPlan(root, bundles[..k])
      {
        InstallBundle(root + [bundles[k].name], bundles[k].entries);
        assert bundles[..k + 1][..k] == bundles[..k];
      }
      assert bundles[..|bundles|] == bundles;
    }

    /** The directories down to a file. */
    method MakeLadder(root: Path, path: Path)
      requires Valid() && root != []
      modifies this, volume
      ensures Valid() && start == old(start) && done == old(done) + Ladder(root, path)
    {
      ghost var ladder := Ladder(root, path);
      var count := 1;
      while count < |path|
        invariant Valid() && start == old(start)
        invariant 1 <= count && (count == 1 || count <= |path|) && done == old(done) + ladder[..count - 1]
      {
        Do(MakeDir(root + path[..count]));
        assert ladder[..count] == ladder[..count - 1] + [ladder[count - 1]];
        count := count + 1;
      }
      assert ladder[..count - 1] == ladder;
    }

    method SeedOne(root: Path, file: Product, strict: bool)
      requires Valid() && root != []
      modifies this, volume
      ensures Valid() && start == old(start) && done == old(done) + DefaultPlan(root, file, strict)
    {
      var path := root + file.path;
      MakeLadder(root, file.path);
      Do(if strict then Default(path, file.content) else Offer(path, file.content));
    }

    /** Each default under its directories, which are made first. */
    method SeedDefaults(root: Path, defaults: seq<Product>, strict: bool)
      requires Valid() && root != []
      modifies this, volume
      ensures Valid() && start == old(start) && done == old(done) + DefaultsPlan(root, defaults, strict)
    {
      for k := 0 to |defaults|
        invariant Valid() && start == old(start) && done == old(done) + DefaultsPlan(root, defaults[..k], strict)
      {
        SeedOne(root, defaults[k], strict);
        DefaultsOneMore(root, defaults, k, strict, old(done));
      }
      assert defaults[..|defaults|] == defaults;
    }

    method InstallTerminfo(root: Path, terminfo: Option<string>)
      requires Valid() && root != []
      modifies this, volume
      ensures Valid() && start == old(start) && done == old(done) + TerminfoPlan(root, terminfo)
    {
      if terminfo.Some? {
        Do(MakeDir(root));
        Do(MakeDir(root + ["a"]));
        Do(Replace(root + ["a", "astra-256color"], terminfo.value));
      }
    }

    /** _install_tree: no file may be there already. */
    method InstallVim(root: Path, vim: Option<seq<HostEntry>>)
      requires Valid() && root != []
      modifies this, volume
      ensures Valid() && start == old(start) && done == old(done) + VimPlan(root, vim)
    {
      if vim.Some? {
        var runtime := root + ["vim", "runtime"];
        Do(MakeDir(root));
        Do(MakeDir(root + ["vim"]));
        Do(MakeDir(runtime));
        Do(MakeDir(runtime));
        InstallEntries(runtime, vim.value, true);
      }
    }

    /** _write_provider_index */
    method InstallProviders(root: Path, providers: seq<Product>)
      requires Valid() && root != []
      modifies this, volume
      ensures Valid() && start == old(start) && done == old(done) + ProvidersPlan(root, providers)
    {
      Do(MakeDir(root));
      ReplaceFiles(root, providers);
    }

    /** The shared Kits: emptied, then terminal descriptions, bundles, Vim's files and the index. */
    method InstallLibs(products: Products)
      requires Valid()
      modifies this, volume
      ensures Valid() && start == old(start) && done == old(done) + LibsPlan(products)
    {
      FreshDirectory(LIBS);
      InstallTerminfo(LIBS + ["terminfo"], products.terminfo);
      InstallBundles(LIBS, products.kits);
      InstallVim(LIBS, products.vim);
      InstallProviders(LIBS + [".providers"], products.providers);
      AfterFive(old(done), [MakeDir(LIBS), Clear(LIBS)], TerminfoPlan(LIBS + ["terminfo"], products.terminfo),
                BundlesPlan(LIBS, products.kits), VimPlan(LIBS, products.vim),
                ProvidersPlan(LIBS + [".providers"], products.providers));
    }

    method InstallApps(apps: seq<Bundle>)
      requires Valid()
      modifies this, volume
      ensures Valid() && start == old(start) && done == old(done) + AppsPlan(apps)
    {
      FreshDirectory(APPS);
      InstallBundles(APPS, apps);
    }

    method InstallFonts(fonts: Option<seq<Product>>)
      requires Valid()
      modifies this, volume
      ensures Valid() && start == old(start) && done == old(done) + FontsPlan(fonts)
    {
      if fonts.Some? {
        Do(MakeDir(FONTS));
        Do(MakeDir(SYSTEM_FONTS));
        Do(MakeDir(FONTS + ["installed"]));
        ReplaceFiles(SYSTEM_FONTS, fonts.value);
      }
    }

    method InstallSound(sound: Option<string>)
      requires Valid()
      modifies this, volume
      ensures Valid() && start == old(start) && done == old(done) + MediaPlan(sound)
    {
      if sound.Some? {
        Do(MakeDir(MEDIA));
        Do(Replace(STARTUP_SOUND, sound.value));
      }
    }

    method InstallConfiguration(configuration: seq<Product>)
      requires Valid()
      modifies this, volume
      ensures Valid() && start == old(start) && done == old(done) + ConfigPlan(configuration)
    {
      Do(MakeDir(CONFIG));
      Do(MakeDir(CONFIG + ["system"]));
      Do(MakeDir(CONFIG + ["services"]));
      Do(MakeDir(CONFIG + ["applications"]));
      SeedDefaults(CONFIG, configuration, true);
    }

    method InstallHome(home: seq<Product>)
      requires Valid()
      modifies this, volume
      ensures Valid() && start == old(start) && done == old(done) + HomePlan(home)
    {
      Do(MakeDir(HOME));
      SeedDefaults(HOME, home, false);
    }

    method InstallLocal()
      requires Valid()
      modifies this, volume
      ensures Valid() && start == old(start) && done == old(done) + LocalPlan()
    {
      Do(MakeDir(LOCAL));
      Do(MakeDir(LOCAL + ["commands"]));
    }

    /** The catalog, the commands and the services. */
    method InstallCommands(products: Products)
      requires Valid() && done == []
      modifies this, volume
      ensures Valid() && start == old(start) && done == Joined(Parts(products)[..3])
    {
      ghost var parts := Parts(products);
      Do(Replace(CATALOG, products.catalog));
      JoinedStep(parts, 0);
      InstallFlat(COMMANDS, products.commands);
      JoinedStep(parts, 1);
      InstallFlat(SERVICES, products.services);
      JoinedStep(parts, 2);
    }

    /** These, the fonts and the startup sound. */
    method InstallPrograms(products: Products)
      requires Valid() && done == []
      modifies this, volume
      ensures Valid() && start == old(start) && done == Joined(Parts(products)[..5])
    {
      ghost var parts := Parts(products);
      InstallCommands(products);
      InstallFonts(products.fonts);
      JoinedStep(parts, 3);
      InstallSound(products.sound);
      JoinedStep(parts, 4);
    }

    /** The products: from the catalog to the startup manifest. */
    method InstallProducts(products: Products)
      requires Valid() && done == []
      modifies this, volume
      ensures Valid() && start == old(start) && done == Joined(Parts(products)[..8])
    {
      ghost var parts := Parts(products);
      InstallPrograms(products);
      InstallLibs(products);
      JoinedStep(parts, 5);
      InstallApps(products.apps);
      JoinedStep(parts, 6);
      InstallFlat(STARTUP, [Product(["system"], products.startup)]);
      JoinedStep(parts, 7);
    }

    /** _install_built: the products, and then what is seeded for the user. */
    method InstallBuilt(products: Products)
      requires Valid() && done == []
      modifies this, volume
      ensures Valid() && start == old(start) && done == Plan(products)
    {
      ghost var parts := Parts(products);
      InstallProducts(products);
      InstallConfiguration(products.configuration);
      JoinedStep(parts, 8);
      InstallHome(products.home);
      JoinedStep(parts, 9);
      InstallLocal();
      JoinedStep(parts, 10);
      assert parts[..11] == parts;
    }
  }

  lemma AfterFive(o: seq<Action>, a: seq<Action>, b: seq<Action>, c: seq<Action>, d: seq<Action>, e: seq<Action>)
    ensures o + a + b + c + d + e == o + (a + b + c + d + e)
  {
    assert o + a + b == o + (a + b);
    assert o + (a + b) + c == o + (a + b + c);
    assert o + (a + b + c) + d == o + (a + b + c + d);
  }

  lemma DefaultsOneMore(root: Path, defaults: seq<Product>, k: nat, strict: bool, before: seq<Action>)
    requires k < |defaults|
    ensures before + DefaultsPlan(root, defaults[..k + 1], strict)
         == before + DefaultsPlan(root, defaults[..k], strict) + DefaultPlan(root, defaults[k], strict)
  {
    assert defaults[..k + 1][..k] == defaults[..k];
  }

  lemma JoinedStep(parts: seq<Part>, k: nat)
    requires k < |parts|
    ensures Joined(parts[..k + 1]) == Joined(parts[..k]) + parts[k].actions
    ensures Joined(parts[..0]) == []
  {
    assert parts[..k + 1][..k] == parts[..k];
  }

  // ----- the image file around the volume --------------------------------------------------

  const BLOCK: nat := 0x10_0000

  function Least(a: nat, b: nat): nat {
    if a < b then a else b
  }

  /** _slice: block by block, up to a length or the end of the file. */
  method Slice(image: seq<byte>, offset: nat, length: nat) returns (out: seq<byte>)
    requires offset <= |image|
    ensures out == image[offset..Least(offset + length, |image|)]
  {
    out := [];
    var at, remaining := offset, length;
    while remaining > 0
      invariant offset <= at <= |image| && 0 <= remaining && at + remaining == offset + length
      invariant out == image[offset..at]
      decreases remaining
    {
      var end := Least(at + Least(BLOCK, remaining), |image|);
      var block := image[at..end];
      if block == [] {
        assert end == at == |image|;
        return out;
      }
      SliceGrows(image, offset, at, end);
      out := out + block;
      at, remaining := end, remaining - |block|;
    }
  }

  lemma SliceGrows(image: seq<byte>, from: nat, middle: nat, to: nat)
    requires from <= middle <= to <= |image|
    ensures image[from..middle] + image[middle..to] == image[from..to]
  {
  }

  /** The image with these bytes written over its own from an offset on. */
  function Overwritten(image: seq<byte>, offset: nat, source: seq<byte>): seq<byte>
    requires offset <= |image|
  {
    image[..offset] + source + image[Least(offset + |source|, |image|)..]
  }

  /** _splice: block by block, over what is there. */
  method Splice(image: seq<byte>, offset: nat, source: seq<byte>) returns (out: seq<byte>)
    requires offset <= |image|
    ensures out == Overwritten(image, offset, source)
  {
    out := image;
    var at := 0;
    while at < |source|
      invariant at <= |source| && out == Overwritten(image, offset, source[..at])
    {
      var end := Least(at + BLOCK, |source|);
      var block := source[at..end];
      out := out[..offset + at] + block + out[Least(offset + at + |block|, |out|)..];
      assert source[..end] == source[..at] + block;
      at := end;
    }
    assert source[..at] == source;
  }

  /**
   How a volume's bytes are read as a tree, if they are one, and written back in place, if there
   is room: e2fsck, debugfs and tune2fs.
   */
  datatype FileSystem = FileSystem(parse: seq<byte> -> Option<Nodes>, render: (seq<byte>, Nodes) -> Option<seq<byte>>)

  ghost predicate Faithful(system: FileSystem) {
    && (forall v :: system.parse(v).Some? ==> Grounded(system.parse(v).value))
    && (forall v, n :: system.render(v, n).Some? ==>
          |system.render(v, n).value| == |v| && system.parse(system.render(v, n).value) == Some(n))
  }

  class ImageFile {
    const system: FileSystem
    const offset: nat
    const length: nat
    var bytes: seq<byte>

    ghost predicate Valid()
      reads this
    {
      Faithful(system) && offset + length <= |bytes|
    }

    /** The tree on the image's partition. */
    ghost function Tree(): Option<Nodes>
      reads this
      requires Valid()
    {
      system.parse(bytes[offset..offset + length])
    }

    constructor (system: FileSystem, bytes: seq<byte>, offset: nat, length: nat)
      requires Faithful(system) && offset + length <= |bytes|
      ensures Valid() && this.system == system && this.bytes == bytes && this.offset == offset && this.length == length
    {
      this.system, this.bytes, this.offset, this.length := system, bytes, offset, length;
    }

    /** The plan runs on the partition's tree, and what it makes of the tree has room there. */
    ghost predicate CanInstall(products: Products)
      reads this
      requires Valid()
    {
      && Tree().Some? && Run(Plan(products), Tree().value).Some?
      && system.render(bytes[offset..offset + length], Run(Plan(products), Tree().value).value).Some?
    }

    /**
     install: all of the plan or nothing, and nothing only when it cannot be done.  Outside the
     partition no byte changes; inside, the tree becomes what the plan makes of it.
     */
    method Install(products: Products) returns (ok: bool)
      requires Valid()
      modifies this
      ensures Valid() && |bytes| == |old(bytes)|
      ensures !ok ==> bytes == old(bytes)
      ensures ok ==>
                bytes[..offset] == old(bytes)[..offset] && bytes[offset + length..] == old(bytes)[offset + length..]
      ensures ok ==> old(Tree()).Some? && Tree().Some? && Run(Plan(products), old(Tree()).value) == Tree()
      ensures ok <==> old(CanInstall(products))
    {
      var slice := Slice(bytes, offset, length);
      var tree := system.parse(slice);
      if tree.None? {
        return false;
      }
      var volume := new MountedVolume(tree.value);
      var installation := new Installation(volume);
      installation.InstallBuilt(products);
      if installation.refused {
        return false;
      }
      var rendered := system.render(slice, volume.nodes);
      if rendered.None? {
        return false;
      }
      ghost var before := bytes;
      bytes := Splice(bytes, offset, rendered.value);
      assert bytes[offset..offset + length] == rendered.value;
      assert bytes[offset + length..] == before[offset + length..];
      return true;
    }
  }
}
