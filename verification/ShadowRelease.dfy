/**
 The shadow release and guest file replacement of emu/qemu/dev-install-de25.py.

 A shadow starts as hard links: its names lead to the very inodes of the selected release.
 Inodes are therefore explicit, and a directory listing maps names to them.
 */
module ShadowRelease {
  import opened Paths
  import opened Prelude
  import opened ReleaseManifest

  datatype Inode = Inode(content: Bytes, executable: bool, writable: bool)

  datatype Item = FileAt(inode: nat) | DirectoryAt(writable: bool)

  /** A directory tree: its names, by relative path, and whether its root can be written. */
  datatype Listing = Listing(items: map<string, Item>, writable: bool)

  ghost predicate Linked(listing: Listing, inodes: map<nat, Inode>) {
    forall n :: n in listing.items && listing.items[n].FileAt? ==> listing.items[n].inode in inodes
  }

  function NodeOf(item: Item, inodes: map<nat, Inode>): Node
    requires item.FileAt? ==> item.inode in inodes
  {
    match item
    case FileAt(i) => File(inodes[i].content, inodes[i].executable, inodes[i].writable)
    case DirectoryAt(writable) => Directory(writable)
  }

  /** What a reader of the listing sees. */
  function View(listing: Listing, inodes: map<nat, Inode>): Tree
    requires Linked(listing, inodes)
  {
    Tree(map n | n in listing.items :: NodeOf(listing.items[n], inodes), listing.writable)
  }

  /** One host file to replace: the staged artifact, its place in the release, its expected digest. */
  datatype Update = Update(artifact: Source, name: string, digest: string)

  ghost predicate Installable(update: Update, digest: Digest) {
    update.artifact.Regular? && digest(update.artifact.content) == update.digest
  }

  /** Files already there keep their content and mode, whatever is added beside them. */
  ghost predicate NoneChanged(before: map<nat, Inode>, after: map<nat, Inode>) {
    forall i :: i in before ==> i in after && after[i] == before[i]
  }

  lemma ViewKept(listing: Listing, before: map<nat, Inode>, after: map<nat, Inode>)
    requires Linked(listing, before) && NoneChanged(before, after)
    ensures Linked(listing, after) && View(listing, after) == View(listing, before)
  {
    var a, b := View(listing, before).nodes, View(listing, after).nodes;
    assert a.Keys == b.Keys;
    assert forall n :: n in a ==> a[n] == b[n];
    assert a == b;
  }

  /** The listing is a release that verify accepts under this identity. */
  ghost predicate Genuine(listing: Listing, inodes: map<nat, Inode>, digest: Digest, name: string) {
    && Linked(listing, inodes)
    && forall tree {:trigger Exact(tree, digest)} :: tree == View(listing, inodes) ==>
         Exact(tree, digest) && digest(tree.nodes[MANIFEST].content) == name
  }

  /** The listing is a release under some identity. */
  ghost predicate Verifies(listing: Listing, inodes: map<nat, Inode>, digest: Digest) {
    && Linked(listing, inodes)
    && forall tree {:trigger Exact(tree, digest)} :: tree == View(listing, inodes) ==> Exact(tree, digest)
  }

  ghost predicate AllGenuine(releases: map<string, Listing>, inodes: map<nat, Inode>, digest: Digest) {
    forall r {:trigger Genuine(releases[r], inodes, digest, r)} :: r in releases ==>
        Genuine(releases[r], inodes, digest, r)
  }

  /** The one directory holds some of the other's entries, each as it is there. */
  predicate Less(less: Listing, whole: Listing) {
    less.items.Keys < whole.items.Keys && forall n :: n in less.items ==> less.items[n] == whole.items[n]
  }

  predicate Within(part: Listing, whole: Listing) {
    part == whole || Less(part, whole)
  }

  /** What an interrupted removal leaves of a release. */
  ghost predicate Remains(listing: Listing, inodes: map<nat, Inode>, digest: Digest, name: string) {
    exists whole :: Less(listing, whole) && Genuine(whole, inodes, digest, name)
  }

  /** Under every name is the release it names, or what an interrupted removal left of it. */
  ghost predicate AllStanding(releases: map<string, Listing>, inodes: map<nat, Inode>, digest: Digest) {
    forall r {:trigger Standing(releases[r], inodes, digest, r)} :: r in releases ==>
      Standing(releases[r], inodes, digest, r)
  }

  ghost predicate Standing(listing: Listing, inodes: map<nat, Inode>, digest: Digest, name: string) {
    Genuine(listing, inodes, digest, name) || Remains(listing, inodes, digest, name)
  }

  lemma StandingKept(listing: Listing, before: map<nat, Inode>, after: map<nat, Inode>, digest: Digest, name: string)
    requires NoneChanged(before, after) && Standing(listing, before, digest, name)
    ensures Standing(listing, after, digest, name)
  {
    if Genuine(listing, before, digest, name) {
      GenuineKept(listing, before, after, digest, name);
    } else {
      var whole :| Less(listing, whole) && Genuine(whole, before, digest, name);
      GenuineKept(whole, before, after, digest, name);
      assert Remains(listing, after, digest, name);
    }
  }

  /** A removal that goes on leaves remains. */
  lemma StandingShrinks(listing: Listing, less: Listing, inodes: map<nat, Inode>, digest: Digest, name: string)
    requires Standing(listing, inodes, digest, name) && Less(less, listing)
    ensures Standing(less, inodes, digest, name)
  {
    if !Genuine(listing, inodes, digest, name) {
      var whole :| Less(listing, whole) && Genuine(whole, inodes, digest, name);
      assert Less(less, whole);
    }
    assert Remains(less, inodes, digest, name);
  }

  lemma GenuineKept(listing: Listing, before: map<nat, Inode>, after: map<nat, Inode>, digest: Digest, name: string)
    requires Linked(listing, before) && NoneChanged(before, after)
    ensures Genuine(listing, after, digest, name) <==> Genuine(listing, before, digest, name)
    ensures Verifies(listing, after, digest) <==> Verifies(listing, before, digest)
  {
    ViewKept(listing, before, after);
    var tree := View(listing, before);
    assert Exact(tree, digest) || !Exact(tree, digest);
  }

  // ----- the manifest with some records replaced -------------------------------------------

  function Replaced(entries: seq<Entry>, records: map<string, Entry>): (r: seq<Entry>)
    ensures |r| == |entries|
    ensures forall i :: 0 <= i < |r| ==>
              r[i] == if entries[i].name in records then records[entries[i].name] else entries[i]
  {
    seq(|entries|, i requires 0 <= i < |entries| =>
      if entries[i].name in records then records[entries[i].name] else entries[i])
  }

  /** Every record is the well-formed record of a name the manifest already lists. */
  ghost predicate RecordsFor(entries: seq<Entry>, records: map<string, Entry>) {
    forall n :: n in records ==> n in NameSet(Names(entries)) && records[n].name == n && Identity(records[n].digest)
  }

  lemma ReplacedNames(entries: seq<Entry>, records: map<string, Entry>)
    requires RecordsFor(entries, records)
    ensures Names(Replaced(entries, records)) == Names(entries)
  {
    var r := Replaced(entries, records);
    forall i | 0 <= i < |entries| ensures r[i].name == entries[i].name {}
  }

  predicate Executable(artifact: Source) {
    artifact.Regular? && artifact.executable
  }

  /** The new records: of updates of one name the last decides. */
  function RecordsFrom(files: seq<Update>): map<string, Entry> {
    if files == [] then map[]
    else
      var last := files[|files| - 1];
      RecordsFrom(files[..|files| - 1])[last.name := Entry(last.name, last.digest, Executable(last.artifact))]
  }

  /** The manifest these updates make of this one. */
  function NewManifest(data: Bytes, files: seq<Update>): string {
    if Parse(data).None? then "" else Text(Replaced(Parse(data).value, RecordsFrom(files)))
  }

  /** The identity a shadow of this tree will have. */
  function ShadowName(tree: Tree, files: seq<Update>, digest: Digest): string {
    if MANIFEST in tree.nodes && tree.nodes[MANIFEST].File?
        && Ascii(NewManifest(tree.nodes[MANIFEST].content, files)) then
      digest(NewManifest(tree.nodes[MANIFEST].content, files))
    else
      ""
  }

  /** The rewritten manifest is ASCII and reads back as the replaced entries. */
  lemma ReplacedText(data: Bytes, records: map<string, Entry>)
    requires Parse(data).Some? && RecordsFor(Parse(data).value, records)
    ensures Ascii(Text(Replaced(Parse(data).value, records)))
    ensures ParseLines(Lines(Text(Replaced(Parse(data).value, records)))) == Some(Replaced(Parse(data).value, records))
  {
    var entries := Parse(data).value;
    var r := Replaced(entries, records);
    ParsedEntries(data);
    ReplacedNames(entries, records);
    forall i | 0 <= i < |r| ensures Identity(r[i].digest) && Ascii(r[i].name) && OneLine(r[i].name) {
      assert Names(r)[i] == Names(entries)[i];
    }
    AsciiText(r);
    ParseText(r);
  }

  /** The tree the shadow has come to: the source's, with each recorded file as its record says. */
  ghost predicate Rewritten(source: Tree, shadow: Tree, records: map<string, Entry>, digest: Digest) {
    && source.nodes.Keys == shadow.nodes.Keys
    && (forall n :: n in shadow.nodes && n !in records ==> shadow.nodes[n] == source.nodes[n])
    && (forall n :: n in records && n in shadow.nodes ==> Recorded(records[n], shadow, digest))
  }

  /** With its manifest rewritten to match, the shadow is a release that verify accepts. */
  lemma RewrittenIsExact(source: Tree, shadow: Tree, records: map<string, Entry>, digest: Digest, payload: Bytes,
                         manifest: Node)
    requires Exact(source, digest) && Rewritten(source, shadow, records, digest)
    requires RecordsFor(Parse(source.nodes[MANIFEST].content).value, records)
    requires payload == Text(Replaced(Parse(source.nodes[MANIFEST].content).value, records))
    requires manifest.File? && manifest.content == payload
    ensures Exact(shadow.(nodes := shadow.nodes[MANIFEST := manifest]), digest)
  {
    var data := source.nodes[MANIFEST].content;
    var entries := Parse(data).value;
    var r, final := Replaced(entries, records), shadow.(nodes := shadow.nodes[MANIFEST := manifest]);
    ReplacedText(data, records);
    ReplacedNames(entries, records);
    assert Parse(payload) == Some(r);
    ListedFiles(source, entries, digest);
    assert MANIFEST !in records;
    SameKinds(source, shadow, records, digest, manifest);
    forall i | 0 <= i < |r| ensures Recorded(r[i], final, digest) {
      var n := entries[i].name;
      assert Names(entries)[i] == n;
      assert Recorded(entries[i], source, digest);
      if n in records {
        assert Recorded(records[n], shadow, digest);
      }
    }
    assert Describes(r, final, digest);
  }

  lemma ListedFiles(tree: Tree, entries: seq<Entry>, digest: Digest)
    requires Describes(entries, tree, digest)
    ensures MANIFEST !in NameSet(Names(entries)) && forall n :: n in NameSet(Names(entries)) ==> n in Files(tree)
  {
  }

  lemma SameKinds(source: Tree, shadow: Tree, records: map<string, Entry>, digest: Digest, manifest: Node)
    requires Rewritten(source, shadow, records, digest) && manifest.File? && MANIFEST in Files(source)
    requires forall n :: n in records ==> n in Files(source) && records[n].name == n
    ensures var final := shadow.(nodes := shadow.nodes[MANIFEST := manifest]);
            && Files(final) == Files(source) && Directories(final) == Directories(source)
            && (forall n :: n in source.nodes && !source.nodes[n].Special? ==> !final.nodes[n].Special?)
  {
    forall n | n in source.nodes && n in records ensures shadow.nodes[n].File? {
      assert Recorded(records[n], shadow, digest);
    }
  }

  // ----- the shadow, step by step ----------------------------------------------------------

  /** What the shadow's names lead to, once these records' files are in it. */
  ghost predicate Shadowing(source: Listing, shadow: Listing, records: map<string, Entry>,
                            before: map<nat, Inode>, inodes: map<nat, Inode>, digest: Digest)
  {
    && Linked(shadow, inodes) && shadow.writable == source.writable
    && shadow.items.Keys == source.items.Keys
    && (forall n :: n in shadow.items && n !in records ==> shadow.items[n] == source.items[n])
    && forall n :: n in records && n in shadow.items ==>
         && shadow.items[n].FileAt? && shadow.items[n].inode !in before
         && Carries(inodes[shadow.items[n].inode], records[n], digest)
  }

  /** A read-only file with the recorded digest and mode. */
  ghost predicate Carries(inode: Inode, record: Entry, digest: Digest) {
    digest(inode.content) == record.digest && inode.executable == record.executable && !inode.writable
  }

  class Disk {
    const digest: Digest
    var inodes: map<nat, Inode>
    var next: nat
    var source: Listing
    var releases: map<string, Listing>
    var selected: Option<string>

    /** The development link, once there is one, leads to the shadow that is the next source. */
    ghost predicate Valid()
      reads this
    {
      && HexDigest(digest) && Linked(source, inodes)
      && (forall i :: i in inodes ==> i < next)
      && (forall r :: r in releases ==> Linked(releases[r], inodes))
      && (selected.Some? ==> selected.value in releases && releases[selected.value] == source)
    }

    /** Every shadow verifies as its name says, and what the next one is made from verifies. */
    ghost predicate Sound()
      reads this
      requires Valid()
    {
      AllGenuine(releases, inodes, digest) && Verifies(source, inodes, digest)
    }

    /** The same with removals that were interrupted: the release tool's own release is never one. */
    ghost predicate Stands()
      reads this
      requires Valid()
    {
      AllStanding(releases, inodes, digest) && (selected.None? ==> Verifies(source, inodes, digest))
    }

    constructor (digest: Digest, inodes: map<nat, Inode>, next: nat, source: Listing)
      requires HexDigest(digest) && Linked(source, inodes) && forall i :: i in inodes ==> i < next
      ensures Valid() && this.digest == digest && this.source == source && this.inodes == inodes
      ensures releases == map[] && selected.None?
      ensures Exact(View(source, inodes), digest) ==> Sound()
    {
      this.digest, this.inodes, this.next, this.source, releases, selected := digest, inodes, next, source, map[], None;
    }

    /** A file written under a temporary name: always a new inode. */
    method Write(content: Bytes, executable: bool, writable: bool) returns (inode: nat)
      requires Valid()
      modifies `inodes, `next
      ensures Valid() && NoneChanged(old(inodes), inodes)
      ensures inode !in old(inodes) && inodes == old(inodes)[inode := Inode(content, executable, writable)]
    {
      inode := next;
      next := next + 1;
      inodes := inodes[inode := Inode(content, executable, writable)];
    }

    /** install_file with readonly: the artifact is copied, checked, and renamed over the target. */
    method InstallFile(shadow: Listing, update: Update) returns (installed: Option<Listing>, ghost inode: nat)
      requires Valid() && Linked(shadow, inodes) && update.artifact.Regular?
      modifies `inodes, `next
      ensures Valid() && NoneChanged(old(inodes), inodes)
      ensures installed.Some? <==> Installable(update, digest)
      ensures inode !in old(inodes)
      ensures inodes == old(inodes)[inode := Inode(update.artifact.content, update.artifact.executable, false)]
      ensures installed.Some? ==> installed.value == shadow.(items := shadow.items[update.name := FileAt(inode)])
    {
      var i := Write(update.artifact.content, update.artifact.executable, false);
      inode := i;
      if digest(inodes[i].content) != update.digest {
        return None, inode;
      }
      return Some(shadow.(items := shadow.items[update.name := FileAt(i)])), inode;
    }

    /** One file replaced, and its record noted. */
    method OverlayOne(files: seq<Update>, k: nat, shadow: Listing, records: map<string, Entry>,
                      ghost before: map<nat, Inode>)
      returns (shadow': Listing, records': map<string, Entry>, ok: bool)
      requires Valid() && k < |files| && files[k].artifact.Regular? && files[k].name in source.items
      requires NoneChanged(before, inodes) && Overlaid(source, files, k, shadow, records, before, inodes, digest)
      modifies `inodes, `next
      ensures Valid() && NoneChanged(old(inodes), inodes)
      ensures ok <==> Installable(files[k], digest)
      ensures ok ==> Overlaid(source, files, k + 1, shadow', records', before, inodes, digest)
    {
      var update := files[k];
      var installed, inode := InstallFile(shadow, update);
      if installed.None? {
        return shadow, records, false;
      }
      shadow' := installed.value;
      records' := records[update.name := Entry(update.name, update.digest, update.artifact.executable)];
      OverlaidMore(source, files, k, shadow, records, before, old(inodes), digest, inode);
      return shadow', records', true;
    }

    /** The hard-linked copy, with every file replaced in turn. */
    method Overlay(files: seq<Update>) returns (shadow: Listing, records: map<string, Entry>, ok: bool)
      requires Valid()
      requires forall k :: 0 <= k < |files| ==> files[k].name in source.items && files[k].artifact.Regular?
      modifies `inodes, `next
      ensures Valid() && NoneChanged(old(inodes), inodes)
      ensures ok <==> AllInstallable(files, |files|, digest)
      ensures ok ==> Overlaid(source, files, |files|, shadow, records, old(inodes), inodes, digest)
    {
      shadow, records := source, map[];
      ghost var before := inodes;
      NothingOverlaid(source, files, before, digest);
      for k := 0 to |files|
        invariant Valid() && NoneChanged(before, inodes)
        invariant AllInstallable(files, k, digest)
        invariant Overlaid(source, files, k, shadow, records, before, inodes, digest)
      {
        shadow, records, ok := OverlayOne(files, k, shadow, records, before);
        if !ok {
          return;
        }
      }
      ok := true;
    }

    /** The manifest rewritten and renamed into place. */
    method Finish(data: Bytes, shadow: Listing, records: map<string, Entry>, ghost files: seq<Update>,
                  ghost before: map<nat, Inode>)
      returns (final: Listing, identity: string)
      requires Valid() && NoneChanged(before, inodes) && Linked(source, before) && Exact(View(source, before), digest)
      requires data == View(source, before).nodes[MANIFEST].content && RecordsFor(Parse(data).value, records)
      requires Overlaid(source, files, |files|, shadow, records, before, inodes, digest)
      modifies `inodes, `next
      ensures Valid() && NoneChanged(old(inodes), inodes)
      ensures Shadow(source, final, files, inodes, digest, identity)
    {
      var payload := Rewrite(data, records);
      ReplacedText(data, records);
      var manifest := Write(payload, false, false);
      final := shadow.(items := shadow.items[MANIFEST := FileAt(manifest)]);
      identity := digest(payload);
      assert AlmostFinished(source, shadow, records, before, old(inodes), digest, data, payload, files);
      Finishing(source, shadow, records, before, old(inodes), inodes, digest, data, payload, manifest, files);
    }

    /**
     shadow_release: a release of its own, verified under its own identity, that differs from
     the selected one only in the listed files and the manifest, while no inode that was there
     before has changed.  Under a name that was taken there stands what stood there, and the
     identity names a release if and only if that one does; it is then the same release as the
     shadow, or else the digest collides on the two.
     */
    method ShadowRelease(files: seq<Update>) returns (identity: Option<string>, ghost shadow: Listing)
      requires Valid() && Exact(View(source, inodes), digest)
      modifies `inodes, `next, `releases
      ensures Valid() && NoneChanged(old(inodes), inodes)
      ensures View(source, inodes) == old(View(source, inodes))
      ensures identity.Some? <==> CanReplace(files, old(View(source, inodes)), digest)
      ensures identity.None? ==> releases == old(releases)
      ensures identity.Some? ==> Shadow(source, shadow, files, inodes, digest, identity.value)
      ensures identity.Some? ==>
                releases == if identity.value in old(releases) then old(releases)
                    else old(releases)[identity.value := shadow]
      ensures identity.Some? ==>
                (Genuine(releases[identity.value], inodes, digest, identity.value) <==>
                   identity.value in old(releases) ==>
                     Genuine(old(releases)[identity.value], old(inodes), digest, identity.value))
      ensures identity.Some? && Genuine(releases[identity.value], inodes, digest, identity.value) ==>
                SameRelease(shadow, releases[identity.value], inodes, digest)
      ensures old(AllGenuine(releases, inodes, digest)) ==> AllGenuine(releases, inodes, digest)
    {
      ghost var tree := View(source, inodes);
      ManifestInode(source, inodes, digest);
      var data := inodes[source.items[MANIFEST].inode].content;
      ReplaceableFiles(files, tree, digest);
      var made := Prepare(data, files);
      ViewKept(source, old(inodes), inodes);
      AllKept(releases, old(inodes), inodes, digest);
      if made.None? {
        return None, source;
      }
      var (final, name) := made.value;
      Settle(final, name);
      return Some(name), final;
    }

    /** The shadow is renamed to its identity, unless something stands there. */
    method Settle(shadow: Listing, name: string)
      requires Valid() && Genuine(shadow, inodes, digest, name)
      modifies `releases
      ensures Valid()
      ensures releases == if name in old(releases) then old(releases) else old(releases)[name := shadow]
      ensures Genuine(releases[name], inodes, digest, name) <==>
                name in old(releases) ==> Genuine(old(releases)[name], inodes, digest, name)
      ensures Genuine(releases[name], inodes, digest, name) ==> SameRelease(shadow, releases[name], inodes, digest)
      ensures old(AllGenuine(releases, inodes, digest)) ==> AllGenuine(releases, inodes, digest)
    {
      if name !in releases {
        releases := releases[name := shadow];
      }
      if Genuine(releases[name], inodes, digest, name) {
        OneRelease(shadow, releases[name], inodes, digest, name);
      }
    }

    /**
     activate_shadow: the development link leads to this shadow, if its units can be read
     (`linked`); then they are put in place, which may fail (`installed`).
     */
    method Activate(name: string, linked: bool, installed: bool) returns (ok: bool)
      requires Valid() && name in releases
      modifies `source, `selected
      ensures Valid()
      ensures ok <==> linked && installed
      ensures selected == if linked then Some(name) else old(selected)
      ensures source == if linked then releases[name] else old(source)
      ensures old(Sound()) ==> Sound()
      ensures old(Stands()) ==> Stands()
    {
      if Genuine(releases[name], inodes, digest, name) {
        assert Exact(View(releases[name], inodes), digest);
      }
      if linked {
        source, selected := releases[name], Some(name);
      }
      return linked && installed;
    }

    /** One entry of a release is removed. */
    method Unlink(name: string, entry: string)
      requires Valid() && selected != Some(name) && name in releases && entry in releases[name].items
      modifies `releases
      ensures Valid()
      ensures releases == old(releases)[name := old(releases)[name].(items := old(releases)[name].items - {entry})]
      ensures Less(releases[name], old(releases)[name])
    {
      releases := releases[name := releases[name].(items := releases[name].items - {entry})];
    }

    /** One shadow is removed, entry by entry and the directory last; an interrupted removal may stop anywhere. */
    method RemoveShadow(name: string, interrupted: bool) returns (gone: bool)
      requires Valid() && name in releases && selected != Some(name)
      modifies `releases
      ensures Valid()
      ensures gone ==> releases == old(releases) - {name}
      ensures !gone ==> interrupted && name in releases && releases - {name} == old(releases) - {name}
      ensures !gone ==> Within(releases[name], old(releases)[name])
    {
      ghost var whole := releases[name];
      var todo := releases[name].items.Keys;
      while todo != {}
        invariant Valid() && name in releases && todo <= releases[name].items.Keys
        invariant releases - {name} == old(releases) - {name}
        invariant Within(releases[name], whole)
        decreases |todo|
      {
        var dies: bool := *;
        if interrupted && dies {
          return false;
        }
        var entry :| entry in todo;
        Unlink(name, entry);
        todo := todo - {entry};
      }
      var dies: bool := *;
      if interrupted && dies {
        return false;
      }
      releases := releases - {name};
      return true;
    }

    /**
     prune_shadows: every shadow but the selected one goes, and none while none is selected.
     An interrupted one leaves some, and of one perhaps a part.
     */
    method PruneShadows(interrupted: bool)
      requires Valid()
      modifies `releases
      ensures Valid() && Shrunk(old(releases), releases)
      ensures selected.None? ==> releases == old(releases)
      ensures selected.Some? ==> releases[selected.value] == old(releases)[selected.value]
      ensures selected.Some? && !interrupted ==> releases.Keys == {selected.value}
    {
      if selected.Some? {
        PruneOthers(selected.value, interrupted);
      }
    }

    method PruneOthers(kept: string, interrupted: bool)
      requires Valid() && selected == Some(kept)
      modifies `releases
      ensures Valid() && Shrunk(old(releases), releases)
      ensures !interrupted ==> forall r :: r in releases <==> r == kept
    {
      ghost var start := releases;
      var todo := releases.Keys - {kept};
      while todo != {}
        invariant Valid() && Shrunk(start, releases)
        invariant forall r :: r in releases <==> r == kept || r in todo
        invariant kept !in todo
        decreases |todo|
      {
        var name :| name in todo;
        var gone := PruneOne(name, interrupted, start);
        if !gone {
          return;
        }
        todo := todo - {name};
      }
    }

    method PruneOne(name: string, interrupted: bool, ghost start: map<string, Listing>) returns (gone: bool)
      requires Valid() && name in releases && selected != Some(name) && Shrunk(start, releases)
      modifies `releases
      ensures Valid() && Shrunk(start, releases)
      ensures gone ==> forall r :: r in releases <==> r in old(releases) && r != name
      ensures !gone ==> interrupted
    {
      ghost var before := releases;
      gone := RemoveShadow(name, interrupted);
      ShrunkOnce(start, before, releases, name);
    }

    /** Whether the release the next shadow is made from verifies. */
    method SourceVerifies() returns (ok: bool)
      requires Valid()
      ensures ok <==> Verifies(source, inodes, digest)
    {
      var identity := Verify(View(source, inodes), digest, false);
      return identity.Some?;
    }

    /**
     Any sequence of development installs, as long as what the next shadow is made from
     verifies.  Every identity returned names, until a later pruning, the release that has it,
     or what an interrupted pruning has left of that; the latter only if some pruning was
     interrupted.  Only that can end the sequence early: the selected shadow is then such
     remains.  No inode ever changes.  `selections` is what the development link led to before
     each install and at the end, `sources` what the next shadow was to be made from.
     */
    method Run(steps: seq<Step>)
      returns (identities: seq<Option<string>>, ghost selections: seq<Option<string>>, ghost sources: seq<Tree>)
      requires Valid() && Sound()
      modifies this
      ensures Valid() && Stands() && NoneChanged(old(inodes), inodes)
      ensures NoneInterrupted(steps, |steps|) ==> Sound() && |identities| == |steps|
      ensures |identities| <= |steps|
      ensures |identities| < |steps| ==> selected.Some? && Remains(source, inodes, digest, selected.value)
      ensures StillThere(steps, identities, releases.Keys)
      ensures |identities| <= |steps| && Tells(steps, identities, selections, sources, digest)
      ensures selections[0] == old(selected) && selections[|identities|] == selected
      ensures sources != [] ==> sources[0] == old(View(source, inodes))
    {
      identities, selections, sources := [], [selected], [];
      ghost var first := View(source, inodes);
      SoundStands();
      for i := 0 to |steps|
        invariant Valid() && Stands() && NoneChanged(old(inodes), inodes)
        invariant NoneInterrupted(steps, i) ==> Sound()
        invariant |identities| == i && StillThere(steps, identities, releases.Keys)
        invariant Tells(steps, identities, selections, sources, digest)
        invariant selections[0] == old(selected) && selections[i] == selected
        invariant (if i == 0 then View(source, inodes) else sources[0]) == first
      {
        ghost var there := releases.Keys;
        var fit, identity, tree := InstallNext(steps[i]);
        if !fit {
          return;
        }
        StillThereMore(steps, identities, identity, there, releases.Keys);
        TellsMore(steps, identities, selections, sources, digest, identity, selected, tree);
        identities, selections, sources := identities + [identity], selections + [selected], sources + [tree];
      }
    }

    /** What the next shadow would be made from fails to verify only as the remains of a removal. */
    lemma UnfitRemains()
      requires Valid() && Stands() && !Verifies(source, inodes, digest)
      ensures selected.Some? && Remains(source, inodes, digest, selected.value)
    {
      if selected.Some? {
        assert Standing(releases[selected.value], inodes, digest, selected.value);
        GenuineVerifies(source, inodes, digest, selected.value);
      }
    }

    /** A selected shadow that verifies is the one its name says. */
    lemma SelectedVerifies()
      requires Valid() && Stands() && Verifies(source, inodes, digest)
      ensures Exact(View(source, inodes), digest)
      ensures selected.Some? ==> digest(View(source, inodes).nodes[MANIFEST].content) == selected.value
    {
      assert Exact(View(source, inodes), digest);
      if selected.Some? {
        assert Standing(releases[selected.value], inodes, digest, selected.value);
        if Remains(source, inodes, digest, selected.value) {
          RemainsAreDamaged(source, inodes, digest, selected.value);
        }
      }
    }

    lemma SoundStands()
      requires Valid() && Sound()
      ensures Stands()
    {
      forall r | r in releases ensures Standing(releases[r], inodes, digest, r) {
        assert Genuine(releases[r], inodes, digest, r);
      }
    }

    /** The host half of one development install; whatever fails ends it. */
    method Install(step: Step) returns (identity: Option<string>)
      requires Valid() && Stands() && Verifies(source, inodes, digest)
      modifies this
      ensures Valid() && Stands() && NoneChanged(old(inodes), inodes)
      ensures old(Sound()) && !step.interrupted ==> Sound()
      ensures NamesShadow(identity, step.files, old(View(source, inodes)), digest)
      ensures selected == if Selects(step, identity) then identity else old(selected)
      ensures if Completes(step, identity) && step.prunes && selected.Some? then
                selected.value in releases && (!step.interrupted ==> releases.Keys == {selected.value})
              else releases.Keys == old(releases).Keys + if identity.Some? then {identity.value} else {}
      ensures !step.prunes ==> old(releases).Keys <= releases.Keys
      ensures identity.Some? ==> identity.value in releases
    {
      identity := None;
      if step.files != [] {
        identity := AddShadow(step.files);
        if identity.None? || !step.activates {
          return;
        }
        var ok := Activate(identity.value, step.linked, step.installed);
        if !ok {
          return;
        }
      }
      if step.prunes {
        ghost var before := releases;
        PruneShadows(step.interrupted);
        ShrunkStands(before, releases, inodes, digest);
      }
    }

    /** The same where it can be tried: what it would be made from is a release and not the remains of one. */
    method InstallNext(step: Step) returns (fit: bool, identity: Option<string>, ghost tree: Tree)
      requires Valid() && Stands()
      modifies this
      ensures Valid() && Stands() && NoneChanged(old(inodes), inodes)
      ensures old(Sound()) ==> fit && (!step.interrupted ==> Sound())
      ensures !fit ==> selected.Some? && Remains(source, inodes, digest, selected.value)
      ensures !fit ==> releases == old(releases) && selected == old(selected)
      ensures !fit ==> source == old(source) && inodes == old(inodes)
      ensures fit && !step.prunes ==> old(releases).Keys <= releases.Keys
      ensures fit && identity.Some? ==> identity.value in releases
      ensures tree == old(View(source, inodes))
      ensures fit ==> TellsOne(step, identity, old(selected), selected, tree, digest)
    {
      tree := View(source, inodes);
      fit := SourceVerifies();
      if !fit {
        UnfitRemains();
        return false, None, tree;
      }
      SelectedVerifies();
      identity := Install(step);
    }

    method AddShadow(files: seq<Update>) returns (identity: Option<string>)
      requires Valid() && Stands() && Verifies(source, inodes, digest)
      modifies `inodes, `next, `releases
      ensures Valid() && Stands() && NoneChanged(old(inodes), inodes)
      ensures old(Sound()) ==> Sound()
      ensures releases.Keys == old(releases).Keys + (if identity.Some? then {identity.value} else {})
      ensures files != [] ==> NamesShadow(identity, files, old(View(source, inodes)), digest)
      ensures source == old(source)
    {
      assert Exact(View(source, inodes), digest);
      ghost var shadow: Listing;
      identity, shadow := ShadowRelease(files);
      GenuineKept(source, old(inodes), inodes, digest, "");
      AddedKeys(old(releases), releases, identity, shadow);
      AddedStands(old(releases), releases, identity, old(inodes), inodes, digest);
    }

    /** What a second call will meet: the same identity, if nothing else has changed. */
    method NameShadow(files: seq<Update>) returns (identity: Option<string>)
      requires Valid() && Exact(View(source, inodes), digest)
      modifies `inodes, `next, `releases
      ensures Valid() && NoneChanged(old(inodes), inodes) && Verifies(source, inodes, digest)
      ensures View(source, inodes) == old(View(source, inodes))
      ensures identity.Some? <==> CanReplace(files, old(View(source, inodes)), digest)
      ensures identity.Some? ==> identity.value == ShadowName(View(source, inodes), files, digest)
      ensures identity.Some? && identity.value in old(releases) ==> releases == old(releases)
      ensures identity.Some? && identity.value !in old(releases) ==>
                && releases.Keys == old(releases).Keys + {identity.value}
                && Genuine(releases[identity.value], inodes, digest, identity.value)
                && releases[identity.value].items.Keys == source.items.Keys
    {
      ghost var shadow: Listing;
      identity, shadow := ShadowRelease(files);
      GenuineKept(source, old(inodes), inodes, digest, "");
    }

    /**
     A shadow that loses any one entry is no release, and the same updates again return its
     identity all the same.
     */
    method LossGoesUnseen(files: seq<Update>, lost: string) returns (identity: Option<string>, again: Option<string>)
      requires Valid() && Exact(View(source, inodes), digest) && lost in source.items
      requires ShadowName(View(source, inodes), files, digest) !in releases
      modifies `inodes, `next, `releases
      ensures Valid() && identity == again
      ensures identity.Some? <==> CanReplace(files, old(View(source, inodes)), digest)
      ensures again.Some? ==> again.value in releases && !Genuine(releases[again.value], inodes, digest, again.value)
    {
      identity := NameShadow(files);
      if identity.None? {
        return identity, None;
      }
      var name := identity.value;
      ghost var whole := releases[name];
      Unlink(name, lost);
      assert Exact(View(source, inodes), digest);
      label lost:
      assert !Genuine(releases[name], inodes, digest, name) by {
        assert Remains(releases[name], inodes, digest, name);
        RemainsAreDamaged(releases[name], inodes, digest, name);
      }
      again := NameShadow(files);
      GenuineKept(releases[name], old@lost(inodes), inodes, digest, name);
    }

    /** The shadow, up to its last rename. */
    method Prepare(data: Bytes, files: seq<Update>) returns (made: Option<(Listing, string)>)
      requires Valid() && Exact(View(source, inodes), digest) && data == View(source, inodes).nodes[MANIFEST].content
      modifies `inodes, `next
      ensures Valid() && NoneChanged(old(inodes), inodes)
      ensures made.Some? <==> Replaceable(files, Parse(data).value, digest)
      ensures made.Some? ==> Shadow(source, made.value.0, files, inodes, digest, made.value.1)
    {
      ManifestListed(source, inodes, digest);
      var shadow, records, ok := Fill(data, files);
      if !ok {
        return None;
      }
      var final, name := Finish(data, shadow, records, files, old(inodes));
      return Some((final, name));
    }

    /** The shadow's files, all but the manifest. */
    method Fill(data: Bytes, files: seq<Update>) returns (shadow: Listing, records: map<string, Entry>, ok: bool)
      requires Valid() && Parse(data).Some?
      requires forall n :: n in NameSet(Names(Parse(data).value)) ==> n in source.items
      modifies `inodes, `next
      ensures Valid() && NoneChanged(old(inodes), inodes)
      ensures ok <==> Replaceable(files, Parse(data).value, digest)
      ensures ok ==> Overlaid(source, files, |files|, shadow, records, old(inodes), inodes, digest)
      ensures ok ==> RecordsFor(Parse(data).value, records)
    {
      shadow, records := source, map[];
      var known := AllListed(data, files);
      if !known {
        return shadow, records, false;
      }
      shadow, records, ok := Overlay(files);
      if ok {
        KnownRecords(files, records, Parse(data).value, digest);
      }
    }
  }

  lemma OneArtifact(source: Source)
    requires source.Regular?
    ensures Creatable([Artifact("a", source)])
  {
    NoSlash("a");
    assert Parent("a") == "" && Above("a") == {};
    assert "a"[0..] == "a" && |"a"| == 1 && |MANIFEST| == 16;
    assert RelativePath("a") && Ascii("a") && OneLine("a");
  }

  /** A release of one file, as names and inodes. */
  method ListOne(tree: Tree, source: Source) returns (listing: Listing, inodes: map<nat, Inode>)
    requires source.Regular? && Holds(tree, [Artifact("a", source)])
    ensures listing.items.Keys == {"a", MANIFEST} && inodes.Keys == {0, 1}
    ensures Linked(listing, inodes) && View(listing, inodes) == tree
  {
    NoSlash("a");
    assert NamesOf([Artifact("a", source)])[0] == "a";
    assert Copied([Artifact("a", source)][0], tree.nodes);
    assert "a" in Files(tree) && MANIFEST in Files(tree);
    assert tree.nodes.Keys == Files(tree) + Directories(tree) == {"a", MANIFEST};
    var a, m := tree.nodes["a"], tree.nodes[MANIFEST];
    listing := Listing(map["a" := FileAt(0), MANIFEST := FileAt(1)], tree.writable);
    inodes := map[0 := Inode(a.content, a.executable, a.writable), 1 := Inode(m.content, m.executable, m.writable)];
    assert View(listing, inodes).nodes == tree.nodes;
  }

  method OneFileDisk(digest: Digest, file: Source) returns (disk: Disk)
    requires HexDigest(digest) && file.Regular?
    ensures fresh(disk) && disk.Valid() && disk.digest == digest && disk.releases == map[] && disk.selected.None?
    ensures Exact(View(disk.source, disk.inodes), digest)
    ensures "a" in disk.source.items && "a" in Files(View(disk.source, disk.inodes))
  {
    OneArtifact(file);
    var made := Create([Artifact("a", file)], digest);
    var listing, inodes := ListOne(made.value.tree, file);
    disk := new Disk(digest, inodes, 2, listing);
    assert Copied([Artifact("a", file)][0], made.value.tree.nodes);
  }

  /**
   Such a run: a release of one file, a shadow of it with that file updated, the file lost
   from the shadow, and the same update again.
   */
  method DamagedExample(digest: Digest, first: Source, update: Source) returns (disk: Disk, again: Option<string>)
    requires HexDigest(digest) && first.Regular? && update.Regular?
    ensures disk.Valid() && again.Some? && again.value in disk.releases
    ensures !Genuine(disk.releases[again.value], disk.inodes, disk.digest, again.value)
  {
    disk := OneFileDisk(digest, first);
    assert "a" != MANIFEST by {
      assert |MANIFEST| == 16;
    }
    OneReplaceable(update, "a", View(disk.source, disk.inodes), digest);
    var _, returned := disk.LossGoesUnseen([Update(update, "a", digest(update.content))], "a");
    again := returned;
  }

  lemma OneReplaceable(artifact: Source, name: string, source: Tree, digest: Digest)
    requires artifact.Regular? && name in Files(source) - {MANIFEST}
    ensures CanReplace([Update(artifact, name, digest(artifact.content))], source, digest)
  {
  }

  lemma ManifestListed(source: Listing, inodes: map<nat, Inode>, digest: Digest)
    requires Linked(source, inodes) && Exact(View(source, inodes), digest)
    ensures Parse(View(source, inodes).nodes[MANIFEST].content).Some?
    ensures forall n :: n in NameSet(Names(Parse(View(source, inodes).nodes[MANIFEST].content).value)) ==>
              n in source.items
  {
    var tree := View(source, inodes);
    ListedFiles(tree, Parse(tree.nodes[MANIFEST].content).value, digest);
  }

  /** Every update is of a regular artifact and a name some line of the manifest lists. */
  method AllListed(data: Bytes, files: seq<Update>) returns (ok: bool)
    requires Parse(data).Some?
    ensures ok <==> forall k :: 0 <= k < |files| ==>
              files[k].artifact.Regular? && files[k].name in NameSet(Names(Parse(data).value))
  {
    var lines := Lines(data);
    ParsedEntries(data);
    forall k | 0 <= k < |lines| ensures ThreeFields(lines[k]) && LineName(lines[k]) == Parse(data).value[k].name {
      ParsedLine(data, k);
    }
    var names := KnownNames(lines);
    assert names == Names(Parse(data).value);
    ok := CheckKnown(names, files);
  }

  /**
   One development install: the host files, if any; whether nothing stops it before the activation,
   whether that sets the link and puts the units in place; whether the machine then starts and it
   gets to pruning, and whether that is interrupted.
   */
  datatype Step =
    Step(files: seq<Update>, activates: bool, linked: bool, installed: bool, prunes: bool, interrupted: bool)

  /** The identity is that of the shadow these updates make, and there is one exactly if they can. */
  ghost predicate NamesShadow(identity: Option<string>, files: seq<Update>, source: Tree, digest: Digest) {
    && (identity.Some? <==> files != [] && CanReplace(files, source, digest))
    && (identity.Some? ==> identity.value == ShadowName(source, files, digest))
  }

  /** The install gets as far as making its shadow the selected one. */
  predicate Selects(step: Step, identity: Option<string>) {
    identity.Some? && step.activates && step.linked
  }

  /** Nothing stops it before the pruning. */
  predicate Completes(step: Step, identity: Option<string>) {
    step.files == [] || (Selects(step, identity) && step.installed)
  }

  /**
   What was returned for each install so far, and where it led: its identity is that of the shadow
   of its source, the link follows it if it gets that far, and a source the link led to is the
   release of that identity.
   */
  ghost predicate Tells(steps: seq<Step>, identities: seq<Option<string>>, selections: seq<Option<string>>,
                        sources: seq<Tree>, digest: Digest)
  {
    && |identities| <= |steps| && |selections| == |identities| + 1 && |sources| == |identities|
    && forall k :: 0 <= k < |identities| ==>
         TellsOne(steps[k], identities[k], selections[k], selections[k + 1], sources[k], digest)
  }

  ghost predicate TellsOne(step: Step, identity: Option<string>, before: Option<string>, after: Option<string>,
                           source: Tree, digest: Digest)
  {
    && NamesShadow(identity, step.files, source, digest)
    && after == (if Selects(step, identity) then identity else before)
    && (before.Some? ==> Exact(source, digest) && digest(source.nodes[MANIFEST].content) == before.value)
  }

  /** Every identity returned since the last pruning is that of something that is there. */
  ghost predicate StillThere(steps: seq<Step>, identities: seq<Option<string>>, names: set<string>) {
    && |identities| <= |steps|
    && forall k :: 0 <= k < |identities| && identities[k].Some? && NothingPruned(steps, k + 1, |identities|) ==>
         identities[k].value in names
  }

  lemma StillThereMore(steps: seq<Step>, identities: seq<Option<string>>, identity: Option<string>,
                       before: set<string>, after: set<string>)
    requires StillThere(steps, identities, before) && |identities| < |steps|
    requires !steps[|identities|].prunes ==> before <= after
    requires identity.Some? ==> identity.value in after
    ensures StillThere(steps, identities + [identity], after)
  {
    var more, n := identities + [identity], |identities|;
    forall k | 0 <= k < |more| && more[k].Some? && NothingPruned(steps, k + 1, |more|)
      ensures more[k].value in after
    {
      if k < n {
        assert !steps[n].prunes && NothingPruned(steps, k + 1, n);
      }
    }
  }

  lemma TellsMore(steps: seq<Step>, identities: seq<Option<string>>, selections: seq<Option<string>>,
                  sources: seq<Tree>, digest: Digest, identity: Option<string>, after: Option<string>, source: Tree)
    requires Tells(steps, identities, selections, sources, digest) && |identities| < |steps|
    requires TellsOne(steps[|identities|], identity, selections[|identities|], after, source, digest)
    ensures Tells(steps, identities + [identity], selections + [after], sources + [source], digest)
  {
    var i, s, t := identities + [identity], selections + [after], sources + [source];
    forall k | 0 <= k < |i| ensures TellsOne(steps[k], i[k], s[k], s[k + 1], t[k], digest) {
      if k < |identities| {
        assert TellsOne(steps[k], identities[k], selections[k], selections[k + 1], sources[k], digest);
      }
    }
  }

  predicate NoneInterrupted(steps: seq<Step>, to: nat)
    requires to <= |steps|
  {
    forall j :: 0 <= j < to ==> !steps[j].interrupted
  }

  /** Some releases are gone, and others may have lost entries. */
  predicate Shrunk(before: map<string, Listing>, after: map<string, Listing>) {
    && after.Keys <= before.Keys
    && forall r {:trigger Within(after[r], before[r])} :: r in after ==> Within(after[r], before[r])
  }

  lemma ShrunkOnce(before: map<string, Listing>, middle: map<string, Listing>, after: map<string, Listing>,
                   name: string)
    requires Shrunk(before, middle) && name in middle && after - {name} == middle - {name}
    requires name in after ==> Within(after[name], middle[name])
    ensures Shrunk(before, after)
  {
    forall r | r in after ensures r in before && Within(after[r], before[r]) {
      assert r in middle ==> Within(middle[r], before[r]);
      if r != name {
        assert r in after - {name} && (after - {name})[r] == after[r];
        assert r in middle && (middle - {name})[r] == middle[r];
      }
    }
  }

  lemma ShrunkStands(before: map<string, Listing>, after: map<string, Listing>, inodes: map<nat, Inode>, digest: Digest)
    requires Shrunk(before, after) && AllStanding(before, inodes, digest)
    ensures AllStanding(after, inodes, digest)
  {
    forall r | r in after ensures Standing(after[r], inodes, digest, r) {
      assert Standing(before[r], inodes, digest, r) && Within(after[r], before[r]);
      if after[r] != before[r] {
        StandingShrinks(before[r], after[r], inodes, digest, r);
      }
    }
  }

  lemma AddedKeys(before: map<string, Listing>, after: map<string, Listing>, name: Option<string>, shadow: Listing)
    requires name.None? ==> after == before
    requires name.Some? ==> after == if name.value in before then before else before[name.value := shadow]
    ensures after.Keys == before.Keys + if name.Some? then {name.value} else {}
  {
  }

  lemma AddedStands(before: map<string, Listing>, after: map<string, Listing>, name: Option<string>,
                    old': map<nat, Inode>, inodes: map<nat, Inode>, digest: Digest)
    requires NoneChanged(old', inodes) && AllStanding(before, old', digest)
    requires before.Keys <= after.Keys && forall r :: r in before ==> after[r] == before[r]
    requires forall r :: r in after && r !in before ==> Genuine(after[r], inodes, digest, r)
    ensures AllStanding(after, inodes, digest)
  {
    forall r | r in after ensures Standing(after[r], inodes, digest, r) {
      if r in before {
        assert Standing(before[r], old', digest, r);
        StandingKept(before[r], old', inodes, digest, r);
      } else {
        assert Genuine(after[r], inodes, digest, r);
      }
    }
  }

  lemma GenuineVerifies(listing: Listing, inodes: map<nat, Inode>, digest: Digest, name: string)
    ensures Genuine(listing, inodes, digest, name) ==> Verifies(listing, inodes, digest)
  {
    if Genuine(listing, inodes, digest, name) {
      assert Exact(View(listing, inodes), digest);
    }
  }

  predicate NothingPruned(steps: seq<Step>, from: nat, to: nat)
    requires from <= to <= |steps|
  {
    forall j :: from <= j < to ==> !steps[j].prunes
  }

  lemma AllKept(releases: map<string, Listing>, before: map<nat, Inode>, after: map<nat, Inode>, digest: Digest)
    requires NoneChanged(before, after) && forall r :: r in releases ==> Linked(releases[r], before)
    ensures forall r :: r in releases ==>
              (Genuine(releases[r], after, digest, r) <==> Genuine(releases[r], before, digest, r))
  {
    forall r | r in releases
      ensures Genuine(releases[r], after, digest, r) <==> Genuine(releases[r], before, digest, r)
    {
      GenuineKept(releases[r], before, after, digest, r);
    }
  }

  /** The two hold the same files and directories, or the digest collides on their contents. */
  ghost predicate SameRelease(a: Listing, b: Listing, inodes: map<nat, Inode>, digest: Digest)
    requires Linked(a, inodes) && Linked(b, inodes)
  {
    var x, y := View(a, inodes), View(b, inodes);
    SameTree(x, y) || Collides(digest, Contents(x) + Contents(y))
  }

  lemma OneRelease(a: Listing, b: Listing, inodes: map<nat, Inode>, digest: Digest, name: string)
    requires Genuine(a, inodes, digest, name) && Genuine(b, inodes, digest, name)
    ensures SameRelease(a, b, inodes, digest)
  {
    IdentityNamesTree(View(a, inodes), View(b, inodes), digest);
  }

  /** A release without some of its entries does not verify. */
  lemma LossIsDamage(listing: Listing, less: Listing, inodes: map<nat, Inode>, digest: Digest)
    requires Linked(listing, inodes) && Exact(View(listing, inodes), digest) && Less(less, listing)
    ensures Linked(less, inodes) && !Exact(View(less, inodes), digest)
  {
    var a, b := View(listing, inodes), View(less, inodes);
    assert a.nodes.Keys == listing.items.Keys && b.nodes.Keys == less.items.Keys;
    OtherPaths(a, b, digest);
  }

  /** So what stands under a name is never both. */
  lemma RemainsAreDamaged(listing: Listing, inodes: map<nat, Inode>, digest: Digest, name: string)
    requires Remains(listing, inodes, digest, name)
    ensures Linked(listing, inodes) && !Exact(View(listing, inodes), digest)
    ensures !Genuine(listing, inodes, digest, name)
  {
    var whole :| Less(listing, whole) && Genuine(whole, inodes, digest, name);
    assert Exact(View(whole, inodes), digest);
    LossIsDamage(whole, listing, inodes, digest);
    GenuineVerifies(listing, inodes, digest, name);
  }

  /** A tree with the manifest of a release and other paths is none. */
  lemma OtherPaths(a: Tree, b: Tree, digest: Digest)
    requires Exact(a, digest) && a.nodes.Keys != b.nodes.Keys
    requires MANIFEST in b.nodes ==> b.nodes[MANIFEST] == a.nodes[MANIFEST]
    ensures !Exact(b, digest)
  {
    if Exact(b, digest) {
      ExactKeys(a, digest);
      ExactKeys(b, digest);
    }
  }

  /** The manifest determines every path of the tree. */
  lemma ExactKeys(tree: Tree, digest: Digest)
    requires Exact(tree, digest)
    ensures var names := NameSet(Names(Parse(tree.nodes[MANIFEST].content).value));
            tree.nodes.Keys == names + {MANIFEST} + AllAbove(names)
  {
    assert tree.nodes.Keys == Files(tree) + Directories(tree);
  }

  /** Every update is of a file the manifest lists, and its artifact is the one expected. */
  ghost predicate Replaceable(files: seq<Update>, entries: seq<Entry>, digest: Digest) {
    forall k :: 0 <= k < |files| ==> Installable(files[k], digest) && files[k].name in NameSet(Names(entries))
  }

  /** Every update is of a file of the release, and its artifact is the one expected. */
  ghost predicate CanReplace(files: seq<Update>, source: Tree, digest: Digest) {
    forall k :: 0 <= k < |files| ==> Installable(files[k], digest) && files[k].name in Files(source) - {MANIFEST}
  }

  lemma ReplaceableFiles(files: seq<Update>, tree: Tree, digest: Digest)
    requires Exact(tree, digest)
    ensures Replaceable(files, Parse(tree.nodes[MANIFEST].content).value, digest) <==>
            CanReplace(files, tree, digest)
  {
    ListedFiles(tree, Parse(tree.nodes[MANIFEST].content).value, digest);
  }

  /** The names of the manifest's lines. */
  method KnownNames(lines: seq<string>) returns (known: seq<string>)
    requires forall k :: 0 <= k < |lines| ==> ThreeFields(lines[k])
    ensures |known| == |lines| && forall k :: 0 <= k < |lines| ==> known[k] == LineName(lines[k])
  {
    known := [];
    for k := 0 to |lines|
      invariant |known| == k && forall j :: 0 <= j < k ==> known[j] == LineName(lines[j])
    {
      known := known + [LineName(lines[k])];
    }
  }

  /** Every name asked for is in the manifest. */
  method CheckKnown(known: seq<string>, files: seq<Update>) returns (ok: bool)
    ensures ok <==> forall k :: 0 <= k < |files| ==> files[k].artifact.Regular? && files[k].name in NameSet(known)
  {
    for k := 0 to |files|
      invariant forall j :: 0 <= j < k ==> files[j].artifact.Regular? && files[j].name in NameSet(known)
    {
      if files[k].name !in NameSet(known) || !files[k].artifact.Regular? {
        return false;
      }
    }
    return true;
  }

  lemma ManifestInode(source: Listing, inodes: map<nat, Inode>, digest: Digest)
    requires Linked(source, inodes) && Exact(View(source, inodes), digest)
    ensures MANIFEST in source.items && source.items[MANIFEST].FileAt?
    ensures View(source, inodes).nodes[MANIFEST].content == inodes[source.items[MANIFEST].inode].content
  {
    assert View(source, inodes).nodes[MANIFEST] == NodeOf(source.items[MANIFEST], inodes);
  }

  lemma KnownRecords(files: seq<Update>, records: map<string, Entry>, entries: seq<Entry>, digest: Digest)
    requires HexDigest(digest) && RecordsOf(files, |files|, records)
    requires forall k :: 0 <= k < |files| ==> Installable(files[k], digest) && files[k].name in NameSet(Names(entries))
    ensures RecordsFor(entries, records)
  {
    forall n | n in records ensures n in NameSet(Names(entries)) && Identity(records[n].digest) {
      assert Wanted(files, |files|, records[n]);
    }
  }

  predicate ThreeFields(line: string) {
    |Split(line, 2)| == 3
  }

  function LineName(line: string): string
    requires ThreeFields(line)
  {
    Split(line, 2)[2]
  }

  lemma ParsedLine(data: Bytes, k: nat)
    requires Parse(data).Some? && k < |Lines(data)|
    ensures ThreeFields(Lines(data)[k]) && LineName(Lines(data)[k]) == Parse(data).value[k].name
    ensures Lines(data)[k] == Record(Parse(data).value[k])
  {
    ParsedEntries(data);
    assert ParseLine(Lines(data)[k]) == Some(Parse(data).value[k]);
  }

  /** Line by line: the new record of a replaced file, the old line of any other. */
  method Rewrite(data: Bytes, records: map<string, Entry>) returns (text: string)
    requires Parse(data).Some?
    ensures text == Text(Replaced(Parse(data).value, records))
  {
    var lines := Lines(data);
    ghost var r := Replaced(Parse(data).value, records);
    text := "";
    for k := 0 to |lines|
      invariant text == Text(r[..k])
    {
      ParsedLine(data, k);
      var name := LineName(lines[k]);
      var line := if name in records then Record(records[name]) else lines[k];
      assert line == Record(r[k]);
      text := text + (line + "\n");
      TextOneMore(r, k);
    }
    assert r[..|lines|] == r;
  }

  lemma TextOneMore(entries: seq<Entry>, k: nat)
    requires k < |entries|
    ensures Text(entries[..k + 1]) == Text(entries[..k]) + Line(entries[k])
  {
    assert entries[..k + 1] == entries[..k] + [entries[k]];
    TextGrows(entries[..k], entries[k]);
  }

  ghost predicate AllInstallable(files: seq<Update>, count: nat, digest: Digest)
    requires count <= |files|
  {
    forall k :: 0 <= k < count ==> Installable(files[k], digest)
  }

  /** The shadow once these files are in it. */
  ghost predicate Overlaid(source: Listing, files: seq<Update>, count: nat, shadow: Listing,
                           records: map<string, Entry>, before: map<nat, Inode>, inodes: map<nat, Inode>,
                           digest: Digest)
    requires count <= |files|
  {
    && Shadowing(source, shadow, records, before, inodes, digest)
    && RecordsOf(files, count, records) && records == RecordsFrom(files[..count])
    && Delivered(files, count, shadow, inodes)
  }

  lemma NothingOverlaid(source: Listing, files: seq<Update>, inodes: map<nat, Inode>, digest: Digest)
    requires Linked(source, inodes)
    ensures Overlaid(source, files, 0, source, map[], inodes, inodes, digest)
  {
  }

  lemma OverlaidMore(source: Listing, files: seq<Update>, k: nat, shadow: Listing, records: map<string, Entry>,
                     before: map<nat, Inode>, inodes: map<nat, Inode>, digest: Digest, inode: nat)
    requires k < |files| && Overlaid(source, files, k, shadow, records, before, inodes, digest)
    requires NoneChanged(before, inodes) && Installable(files[k], digest) && files[k].name in source.items
               && inode !in inodes
    ensures Overlaid(source, files, k + 1, shadow.(items := shadow.items[files[k].name := FileAt(inode)]),
              records[files[k].name := Entry(files[k].name, files[k].digest, files[k].artifact.executable)], before,
              inodes[inode := Inode(files[k].artifact.content, files[k].artifact.executable, false)], digest)
  {
    ShadowingMore(source, shadow, records, before, inodes, digest, files[k], inode);
    RecordsMore(files, k, records);
    assert files[..k + 1][..k] == files[..k];
    DeliveredMore(files, k, shadow, inodes, inode);
  }

  /** The new release, against the one it was made from. */
  ghost predicate Shadow(source: Listing, shadow: Listing, files: seq<Update>, inodes: map<nat, Inode>,
                         digest: Digest, identity: string)
    requires Linked(source, inodes)
  {
    && Genuine(shadow, inodes, digest, identity)
    && identity == ShadowName(View(source, inodes), files, digest)
    && (ReadOnly(View(source, inodes)) ==> ReadOnly(View(shadow, inodes)))
    && shadow.items.Keys == source.items.Keys
    && Untouched(source, shadow, files)
    && Delivered(files, |files|, shadow, inodes)
  }

  /** A name that is neither updated nor the manifest's leads where it led in the source. */
  ghost predicate Untouched(source: Listing, shadow: Listing, files: seq<Update>) {
    forall n :: n in shadow.items && n in source.items && n != MANIFEST && !Updates(files, n) ==>
                  shadow.items[n] == source.items[n]
  }

  lemma UntouchedNames(source: Listing, shadow: Listing, records: map<string, Entry>, files: seq<Update>,
                       entries: seq<Entry>, manifest: nat)
    requires RecordsOf(files, |files|, records) && RecordsFor(entries, records) && MANIFEST !in NameSet(Names(entries))
    requires forall n :: n in shadow.items && n !in records && n in source.items ==> shadow.items[n] == source.items[n]
    ensures !Updates(files, MANIFEST)
    ensures Untouched(source, shadow.(items := shadow.items[MANIFEST := FileAt(manifest)]), files)
  {
    forall n | n in records ensures Updates(files, n) {
      assert Wanted(files, |files|, records[n]);
    }
  }

  ghost predicate Updates(files: seq<Update>, name: string) {
    exists k :: 0 <= k < |files| && files[k].name == name
  }

  /** The last update of a name decides: its bytes and mode are what the name leads to. */
  ghost predicate Delivered(files: seq<Update>, count: nat, shadow: Listing, inodes: map<nat, Inode>)
    requires count <= |files|
  {
    forall k {:trigger Last(files, count, k)} :: 0 <= k < count && Last(files, count, k) ==>
        Leads(shadow, inodes, files[k])
  }

  ghost predicate Last(files: seq<Update>, count: nat, k: nat)
    requires k < count <= |files|
  {
    forall j :: k < j < count ==> files[j].name != files[k].name
  }

  ghost predicate Leads(shadow: Listing, inodes: map<nat, Inode>, update: Update) {
    && update.artifact.Regular? && update.name in shadow.items && shadow.items[update.name].FileAt?
    && shadow.items[update.name].inode in inodes
    && inodes[shadow.items[update.name].inode] == Inode(update.artifact.content, update.artifact.executable, false)
  }

  ghost predicate RecordsOf(files: seq<Update>, count: nat, records: map<string, Entry>)
    requires count <= |files|
  {
    && (forall k :: 0 <= k < count ==> files[k].name in records)
    && (forall n :: n in records ==> records[n].name == n && Wanted(files, count, records[n]))
  }

  ghost predicate Wanted(files: seq<Update>, count: nat, record: Entry)
    requires count <= |files|
  {
    exists k :: 0 <= k < count && files[k].name == record.name && files[k].digest == record.digest
  }

  lemma RecordsMore(files: seq<Update>, k: nat, records: map<string, Entry>)
    requires k < |files| && RecordsOf(files, k, records) && files[k].artifact.Regular?
    ensures RecordsOf(files, k + 1,
              records[files[k].name := Entry(files[k].name, files[k].digest, files[k].artifact.executable)])
  {
    var name := files[k].name;
    var more := records[name := Entry(name, files[k].digest, files[k].artifact.executable)];
    forall n | n in more ensures Wanted(files, k + 1, more[n]) {
      if n != name {
        assert Wanted(files, k, records[n]);
      }
    }
  }

  lemma ShadowingMore(source: Listing, shadow: Listing, records: map<string, Entry>, before: map<nat, Inode>,
                      inodes: map<nat, Inode>, digest: Digest, update: Update, inode: nat)
    requires Shadowing(source, shadow, records, before, inodes, digest) && NoneChanged(before, inodes)
    requires Installable(update, digest) && update.name in source.items && inode !in inodes
    ensures Shadowing(source, shadow.(items := shadow.items[update.name := FileAt(inode)]),
              records[update.name := Entry(update.name, update.digest, update.artifact.executable)], before,
              inodes[inode := Inode(update.artifact.content, update.artifact.executable, false)], digest)
  {
  }

  lemma DeliveredMore(files: seq<Update>, k: nat, shadow: Listing, inodes: map<nat, Inode>, inode: nat)
    requires k < |files| && files[k].artifact.Regular? && Delivered(files, k, shadow, inodes) && inode !in inodes
    ensures Delivered(files, k + 1, shadow.(items := shadow.items[files[k].name := FileAt(inode)]),
              inodes[inode := Inode(files[k].artifact.content, files[k].artifact.executable, false)])
  {
    var shadow' := shadow.(items := shadow.items[files[k].name := FileAt(inode)]);
    var inodes' := inodes[inode := Inode(files[k].artifact.content, files[k].artifact.executable, false)];
    forall j | 0 <= j < k + 1 && Last(files, k + 1, j) ensures Leads(shadow', inodes', files[j]) {
      if j < k {
        assert Last(files, k, j);
        assert Leads(shadow, inodes, files[j]);
      }
    }
  }

  /** Everything that leads up to the last rename. */
  ghost predicate AlmostFinished(source: Listing, shadow: Listing, records: map<string, Entry>, before: map<nat, Inode>,
                                 overlaid: map<nat, Inode>, digest: Digest, data: Bytes, payload: Bytes,
                                 files: seq<Update>)
  {
    && Verifies(source, before, digest) && NoneChanged(before, overlaid)
    && MANIFEST in source.items && NodeOf(source.items[MANIFEST], before).File?
    && data == NodeOf(source.items[MANIFEST], before).content
    && Parse(data).Some? && RecordsFor(Parse(data).value, records)
    && payload == Text(Replaced(Parse(data).value, records))
    && Overlaid(source, files, |files|, shadow, records, before, overlaid, digest)
  }

  /** With the manifest renamed into place the shadow is finished. */
  lemma Finishing(source: Listing, shadow: Listing, records: map<string, Entry>, before: map<nat, Inode>,
                  overlaid: map<nat, Inode>, inodes: map<nat, Inode>, digest: Digest, data: Bytes, payload: Bytes,
                  manifest: nat, files: seq<Update>)
    requires AlmostFinished(source, shadow, records, before, overlaid, digest, data, payload, files)
    requires manifest !in overlaid && inodes == overlaid[manifest := Inode(payload, false, false)]
    ensures Linked(source, inodes)
              && Shadow(source, shadow.(items := shadow.items[MANIFEST := FileAt(manifest)]), files, inodes, digest,
                        digest(payload))
  {
    ViewKept(source, before, inodes);
    FinishedGenuine(source, shadow, records, before, overlaid, inodes, digest, data, payload, manifest, files);
    FinishedEntries(source, shadow, records, before, overlaid, inodes, digest, data, payload, manifest, files);
    FinishedName(View(source, inodes), data, files, records, payload, digest);
    if ReadOnly(View(source, before)) {
      ReadOnlyStill(source, shadow, records, before, overlaid, inodes, digest, manifest);
    }
  }

  lemma FinishedName(tree: Tree, data: Bytes, files: seq<Update>, records: map<string, Entry>, payload: Bytes,
                     digest: Digest)
    requires MANIFEST in tree.nodes && tree.nodes[MANIFEST].File? && tree.nodes[MANIFEST].content == data
    requires Parse(data).Some? && RecordsFor(Parse(data).value, records) && records == RecordsFrom(files[..|files|])
    requires payload == Text(Replaced(Parse(data).value, records))
    ensures ShadowName(tree, files, digest) == digest(payload)
  {
    assert files[..|files|] == files;
    ReplacedText(data, records);
  }

  lemma FinishedGenuine(source: Listing, shadow: Listing, records: map<string, Entry>, before: map<nat, Inode>,
                        overlaid: map<nat, Inode>, inodes: map<nat, Inode>, digest: Digest, data: Bytes, payload: Bytes,
                        manifest: nat, files: seq<Update>)
    requires AlmostFinished(source, shadow, records, before, overlaid, digest, data, payload, files)
    requires manifest !in overlaid && inodes == overlaid[manifest := Inode(payload, false, false)]
    ensures Genuine(shadow.(items := shadow.items[MANIFEST := FileAt(manifest)]), inodes, digest, digest(payload))
  {
    assert Exact(View(source, before), digest);
    FinishedExact(source, shadow, records, before, overlaid, inodes, digest, data, payload, manifest);
  }

  lemma FinishedEntries(source: Listing, shadow: Listing, records: map<string, Entry>, before: map<nat, Inode>,
                        overlaid: map<nat, Inode>, inodes: map<nat, Inode>, digest: Digest, data: Bytes, payload: Bytes,
                        manifest: nat, files: seq<Update>)
    requires AlmostFinished(source, shadow, records, before, overlaid, digest, data, payload, files)
    requires manifest !in overlaid && inodes == overlaid[manifest := Inode(payload, false, false)]
    ensures var final := shadow.(items := shadow.items[MANIFEST := FileAt(manifest)]);
            && final.items.Keys == source.items.Keys
            && Untouched(source, final, files) && Delivered(files, |files|, final, inodes)
  {
    assert Exact(View(source, before), digest);
    ListedFiles(View(source, before), Parse(data).value, digest);
    FinishedNames(source, files, shadow, records, Parse(data).value, before, overlaid, inodes, digest, manifest);
  }

  lemma FinishedNames(source: Listing, files: seq<Update>, shadow: Listing, records: map<string, Entry>,
                      entries: seq<Entry>, before: map<nat, Inode>, overlaid: map<nat, Inode>, inodes: map<nat, Inode>,
                      digest: Digest, manifest: nat)
    requires Overlaid(source, files, |files|, shadow, records, before, overlaid, digest)
               && NoneChanged(overlaid, inodes)
    requires RecordsFor(entries, records) && MANIFEST !in NameSet(Names(entries)) && MANIFEST in source.items
    ensures var final := shadow.(items := shadow.items[MANIFEST := FileAt(manifest)]);
            && final.items.Keys == source.items.Keys
            && Untouched(source, final, files) && Delivered(files, |files|, final, inodes)
  {
    UntouchedNames(source, shadow, records, files, entries, manifest);
    DeliveredStill(files, shadow, overlaid, inodes, manifest);
  }

  lemma FinishedExact(source: Listing, shadow: Listing, records: map<string, Entry>, before: map<nat, Inode>,
                      overlaid: map<nat, Inode>, inodes: map<nat, Inode>, digest: Digest, data: Bytes, payload: Bytes,
                      manifest: nat)
    requires Linked(source, before) && Exact(View(source, before), digest)
    requires NoneChanged(before, overlaid) && manifest !in overlaid
    requires data == View(source, before).nodes[MANIFEST].content && RecordsFor(Parse(data).value, records)
    requires payload == Text(Replaced(Parse(data).value, records))
    requires inodes == overlaid[manifest := Inode(payload, false, false)]
    requires Shadowing(source, shadow, records, before, overlaid, digest)
    ensures var final := shadow.(items := shadow.items[MANIFEST := FileAt(manifest)]);
            && Linked(final, inodes) && Exact(View(final, inodes), digest)
            && View(final, inodes).nodes[MANIFEST].content == payload
  {
    ViewKept(shadow, overlaid, inodes);
    ShadowRewritten(source, shadow, records, before, overlaid, digest);
    FinalView(shadow, inodes, manifest);
    FinalExact(View(source, before), View(shadow, overlaid), records, digest);
  }

  lemma FinalExact(source: Tree, shadow: Tree, records: map<string, Entry>, digest: Digest)
    requires Exact(source, digest) && Rewritten(source, shadow, records, digest)
    requires RecordsFor(Parse(source.nodes[MANIFEST].content).value, records)
    ensures var text := Text(Replaced(Parse(source.nodes[MANIFEST].content).value, records));
            Ascii(text) && Exact(shadow.(nodes := shadow.nodes[MANIFEST := File(text, false, false)]), digest)
  {
    var data := source.nodes[MANIFEST].content;
    ReplacedText(data, records);
    var payload: Bytes := Text(Replaced(Parse(data).value, records));
    RewrittenIsExact(source, shadow, records, digest, payload, File(payload, false, false));
  }

  lemma FinalView(shadow: Listing, inodes: map<nat, Inode>, manifest: nat)
    requires Linked(shadow, inodes) && manifest in inodes
    ensures var final := shadow.(items := shadow.items[MANIFEST := FileAt(manifest)]);
            && Linked(final, inodes)
            && View(final, inodes) ==
               View(shadow, inodes).(nodes := View(shadow, inodes).nodes[MANIFEST := NodeOf(FileAt(manifest), inodes)])
  {
    var final := shadow.(items := shadow.items[MANIFEST := FileAt(manifest)]);
    var a, b := View(final, inodes).nodes, View(shadow, inodes).nodes[MANIFEST := NodeOf(FileAt(manifest), inodes)];
    assert a.Keys == b.Keys;
    assert forall n :: n in a ==> a[n] == b[n];
    assert a == b;
  }

  lemma ShadowRewritten(source: Listing, shadow: Listing, records: map<string, Entry>, before: map<nat, Inode>,
                        inodes: map<nat, Inode>, digest: Digest)
    requires Linked(source, before) && NoneChanged(before, inodes)
    requires Shadowing(source, shadow, records, before, inodes, digest)
    requires forall n :: n in records ==> records[n].name == n
    ensures Rewritten(View(source, before), View(shadow, inodes), records, digest)
  {
    var a, b := View(source, before), View(shadow, inodes);
    assert a.nodes.Keys == b.nodes.Keys;
    forall n | n in records && n in b.nodes ensures Recorded(records[n], b, digest) {
      assert Carries(inodes[shadow.items[n].inode], records[n], digest);
    }
  }

  lemma DeliveredStill(files: seq<Update>, shadow: Listing, overlaid: map<nat, Inode>, inodes: map<nat, Inode>,
                       manifest: nat)
    requires Delivered(files, |files|, shadow, overlaid) && NoneChanged(overlaid, inodes) && !Updates(files, MANIFEST)
    ensures Delivered(files, |files|, shadow.(items := shadow.items[MANIFEST := FileAt(manifest)]), inodes)
  {
    var final := shadow.(items := shadow.items[MANIFEST := FileAt(manifest)]);
    forall k | 0 <= k < |files| && Last(files, |files|, k) ensures Leads(final, inodes, files[k]) {
      assert Leads(shadow, overlaid, files[k]);
      assert Updates(files, files[k].name);
    }
  }

  lemma ReadOnlyStill(source: Listing, shadow: Listing, records: map<string, Entry>, before: map<nat, Inode>,
                      overlaid: map<nat, Inode>, inodes: map<nat, Inode>, digest: Digest, manifest: nat)
    requires Linked(source, before) && NoneChanged(before, overlaid) && NoneChanged(overlaid, inodes)
    requires Shadowing(source, shadow, records, before, overlaid, digest)
    requires ReadOnly(View(source, before)) && manifest in inodes && !inodes[manifest].writable
    ensures var final := shadow.(items := shadow.items[MANIFEST := FileAt(manifest)]);
            Linked(final, inodes) && ReadOnly(View(final, inodes))
  {
    var final, a := shadow.(items := shadow.items[MANIFEST := FileAt(manifest)]), View(source, before);
    var b := View(final, inodes);
    forall n | n in b.nodes && !b.nodes[n].Special? ensures !b.nodes[n].writable {
      if n != MANIFEST {
        if n in records {
          assert Carries(overlaid[shadow.items[n].inode], records[n], digest);
        } else {
          assert a.nodes[n] == NodeOf(source.items[n], before);
        }
      }
    }
  }
}
