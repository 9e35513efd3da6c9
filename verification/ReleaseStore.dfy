/**
 The release store of tools/astra_release.py: install, select and prune, with a crash allowed
 before any change to the file system.

 Only one process works on the store at a time.  After a crash nothing more is changed until a
 new process starts, so the state a method ends in is the state the crash left behind.
 */
module ReleaseStore {
  import opened Paths
  import opened Prelude
  import opened ReleaseManifest

  /** What stands where a selector may be: a link to releases/<name>, another link, or no link. */
  datatype Place = Link(name: string) | Astray | Plain | Folder

  /** A name in the store's own directory or in by-boot. */
  datatype Spot = Top(name: string) | ByBoot(name: string)

  const CURRENT := Top("current")
  const PREVIOUS := Top("previous")

  /** An entry of releases or of state. */
  datatype Location = InReleases(name: string) | InState(name: string)

  datatype Held = Kept(tree: Tree) | Foreign

  /**
   What one process is asked to do; its number is in the names of its temporary links.  Only a
   `mortal` one may die before it is done.
   */
  datatype Command =
    | Installing(process: string, mortal: bool, stage: Option<Tree>, activate: bool)
    | Selecting(process: string, mortal: bool, spot: Spot, identity: string)
    | Pruning(process: string, mortal: bool)

  /** What the store holds and what stands in its own directory and in by-boot. */
  datatype State = State(held: map<Location, Held>, places: map<Spot, Place>)

  predicate Selector(spot: Spot) {
    spot == CURRENT || spot == PREVIOUS || spot.ByBoot?
  }

  predicate IsLink(place: Place) {
    place.Link? || place.Astray?
  }

  /** The temporary link a process makes before it renames it over a selector. */
  function Temporary(spot: Spot, process: string): (temporary: Spot)
    ensures temporary != spot
  {
    match spot
    case Top(name) =>
      assert |"." + name + "." + process| > |name|;
      Top("." + name + "." + process)
    case ByBoot(name) =>
      assert |"." + name + "." + process| > |name|;
      ByBoot("." + name + "." + process)
  }

  lemma TemporaryIsHidden(spot: Spot, process: string)
    requires spot.Top?
    ensures !Selector(Temporary(spot, process))
  {
    var name := "." + spot.name + "." + process;
    assert name[0] == '.' && "current"[0] == 'c' && "previous"[0] == 'p';
  }

  /** Temporary links of different processes beside current and previous never meet. */
  lemma TemporariesApart(a: Spot, p: string, b: Spot, q: string)
    requires (a == CURRENT || a == PREVIOUS) && Selector(b) && p != q
    ensures Temporary(a, p) != Temporary(b, q) && Temporary(a, p) != b
  {
    TemporaryIsHidden(a, p);
    if b.Top? {
      var x, y := "." + a.name + "." + p, "." + b.name + "." + q;
      assert x[1] == a.name[0] && y[1] == b.name[0] && "current"[0] == 'c' && "previous"[0] == 'p';
      if a == b {
        var n := |a.name| + 2;
        assert x[n..] == p && y[n..] == q;
      }
    }
  }

  // ----- a tree and its modes -------------------------------------------------------------

  predicate SameButModes(a: Tree, b: Tree) {
    a.nodes.Keys == b.nodes.Keys && forall n :: n in a.nodes ==> SameButMode(a.nodes[n], b.nodes[n])
  }

  predicate SameButMode(a: Node, b: Node) {
    match a
    case File(content, executable, _) => b.File? && b.content == content && b.executable == executable
    case Directory(_) => b.Directory?
    case Special => b.Special?
  }

  /** Taking write permission away leaves a verified tree verified, under the same identity. */
  lemma ExactIgnoresModes(a: Tree, b: Tree, digest: Digest)
    requires Exact(a, digest) && SameButModes(a, b)
    ensures Exact(b, digest) && b.nodes[MANIFEST].content == a.nodes[MANIFEST].content
  {
    assert SameButMode(a.nodes[MANIFEST], b.nodes[MANIFEST]);
    assert forall n :: n in a.nodes ==> SameButMode(a.nodes[n], b.nodes[n]);
    assert Files(a) == Files(b) && Directories(a) == Directories(b);
    var entries := Parse(a.nodes[MANIFEST].content).value;
    assert forall i :: 0 <= i < |entries| ==> Recorded(entries[i], a, digest);
    forall i | 0 <= i < |entries| ensures Recorded(entries[i], b, digest) {
      assert SameButMode(a.nodes[entries[i].name], b.nodes[entries[i].name]);
    }
  }

  /** The root and every directory of the tree can be written. */
  predicate AllUnlocked(tree: Tree) {
    tree.writable && forall n :: n in tree.nodes && tree.nodes[n].Directory? ==> tree.nodes[n].writable
  }

  predicate NoSpecial(tree: Tree) {
    forall n :: n in tree.nodes ==> !tree.nodes[n].Special?
  }

  function Locked(node: Node): Node {
    if node.Special? then node else node.(writable := false)
  }

  // ----- the store ------------------------------------------------------------------------

  /** This name is that of an installed release. */
  ghost predicate Sound(held: map<Location, Held>, name: string, digest: Digest) {
    && Identity(name) && InReleases(name) in held && held[InReleases(name)].Kept?
    && Installed(held[InReleases(name)].tree, digest, name)
  }

  /** Every selector that is a link names an installed release. */
  ghost predicate AllSound(places: map<Spot, Place>, held: map<Location, Held>, digest: Digest) {
    forall spot :: spot in places && Selector(spot) && IsLink(places[spot]) ==>
                     places[spot].Link? && Sound(held, places[spot].name, digest)
  }

  /** The releases selected by current, previous or a link in by-boot. */
  ghost function Retained(places: map<Spot, Place>): set<string> {
    set spot | spot in places && Selector(spot) && places[spot].Link? :: places[spot].name
  }

  /** A release is retained when current, previous or a link in by-boot names it. */
  lemma RetainedMeans(places: map<Spot, Place>, name: string)
    ensures name in Retained(places) <==>
            || (Top("current") in places && places[Top("current")] == Link(name))
            || (Top("previous") in places && places[Top("previous")] == Link(name))
            || exists boot :: ByBoot(boot) in places && places[ByBoot(boot)] == Link(name)
  {
    if name in Retained(places) {
      var spot :| spot in places && Selector(spot) && places[spot].Link? && places[spot].name == name;
      assert spot.ByBoot? ==> ByBoot(spot.name) in places;
    }
  }

  /** A link at this spot leads to an installed release. */
  ghost predicate Leads(places: map<Spot, Place>, held: map<Location, Held>, digest: Digest, spot: Spot) {
    spot in places && (places[spot].Link? || places[spot].Astray?) ==>
      places[spot].Link? && Sound(held, places[spot].name, digest)
  }

  /** The selectors are current, previous and the links in by-boot. */
  lemma AllSoundMeans(places: map<Spot, Place>, held: map<Location, Held>, digest: Digest)
    ensures AllSound(places, held, digest) <==>
            && Leads(places, held, digest, Top("current")) && Leads(places, held, digest, Top("previous"))
            && forall boot :: Leads(places, held, digest, ByBoot(boot))
  {
    if Leads(places, held, digest, Top("current")) && Leads(places, held, digest, Top("previous"))
       && forall boot :: Leads(places, held, digest, ByBoot(boot)) {
      forall spot | spot in places && Selector(spot) && IsLink(places[spot])
        ensures places[spot].Link? && Sound(held, places[spot].name, digest)
      {
        assert spot.ByBoot? ==> Leads(places, held, digest, ByBoot(spot.name));
      }
    }
    forall boot | AllSound(places, held, digest) ensures Leads(places, held, digest, ByBoot(boot)) {
      assert Selector(ByBoot(boot));
    }
  }

  /** Nothing but this entry may differ. */
  ghost predicate OnlyEntry(before: map<Location, Held>, after: map<Location, Held>, at: Location) {
    forall l :: l != at ==> (l in before <==> l in after) && (l in before ==> after[l] == before[l])
  }

  /** A spot is as before: with the same place, or absent. */
  ghost predicate Same(before: map<Spot, Place>, after: map<Spot, Place>, spot: Spot) {
    (spot in before <==> spot in after) && (spot in before ==> after[spot] == before[spot])
  }

  /** Selectors may be replaced but never taken away, even for a moment. */
  ghost predicate NoneVanish(before: map<Spot, Place>, after: map<Spot, Place>) {
    forall spot :: spot in before && Selector(spot) ==> spot in after
  }

  /** previous after an activation: the release current named, unless it was this one or none. */
  ghost predicate Demoted(before: map<Spot, Place>, after: map<Spot, Place>, identity: string) {
    if CURRENT in before && IsLink(before[CURRENT]) && before[CURRENT] != Link(identity) then
      PREVIOUS in after && after[PREVIOUS] == before[CURRENT]
    else
      Same(before, after, PREVIOUS)
  }

  /** The three states an activation passes through. */
  ghost predicate Activating(before: map<Spot, Place>, after: map<Spot, Place>, identity: string) {
    || (Same(before, after, CURRENT) && Same(before, after, PREVIOUS))
    || (Same(before, after, CURRENT) && Demoted(before, after, identity))
    || Activated(before, after, identity)
  }

  /** The last of the three. */
  ghost predicate Activated(before: map<Spot, Place>, after: map<Spot, Place>, identity: string) {
    CURRENT in after && after[CURRENT] == Link(identity) && Demoted(before, after, identity)
  }

  /** What stops a release from being selected at a spot. */
  predicate Selectable(places: map<Spot, Place>, spot: Spot, process: string) {
    (spot in places ==> IsLink(places[spot])) && Temporary(spot, process) !in places
  }

  /** What an activation may change. */
  function Touched(process: string): set<Spot> {
    {CURRENT, PREVIOUS, Temporary(CURRENT, process), Temporary(PREVIOUS, process)}
  }

  /** Nothing keeps this process from setting current and previous. */
  predicate Ready(places: map<Spot, Place>, process: string) {
    && (forall spot :: spot in {CURRENT, PREVIOUS} && spot in places ==> IsLink(places[spot]))
    && Temporary(CURRENT, process) !in places && Temporary(PREVIOUS, process) !in places
  }

  /** A store whose selectors are sound keeps no release from being activated by a process that is ready. */
  lemma ReadyActivates(places: map<Spot, Place>, held: map<Location, Held>, digest: Digest, process: string,
                       identity: string)
    requires AllSound(places, held, digest) && Ready(places, process)
    ensures CanActivate(places, held, digest, process, identity)
  {
    if CURRENT in places {
      assert CURRENT in {CURRENT, PREVIOUS};
    }
    if PREVIOUS in places {
      assert PREVIOUS in {CURRENT, PREVIOUS};
    }
  }

  ghost predicate CanDemote(places: map<Spot, Place>, held: map<Location, Held>, digest: Digest,
                            process: string, identity: string)
  {
    CURRENT in places && IsLink(places[CURRENT]) ==>
      && places[CURRENT].Link? && Sound(held, places[CURRENT].name, digest)
      && (places[CURRENT].name != identity ==> Selectable(places, PREVIOUS, process))
  }

  ghost predicate CanPromote(places: map<Spot, Place>, process: string) {
    (CURRENT in places ==> !places[CURRENT].Folder?) && Temporary(CURRENT, process) !in places
  }

  /** The name a staged tree will be installed under. */
  ghost function NameFor(stage: Option<Tree>, digest: Digest): Option<string> {
    if stage.Some? && MANIFEST in stage.value.nodes && stage.value.nodes[MANIFEST].File? then
      Some(digest(stage.value.nodes[MANIFEST].content))
    else
      None
  }

  /** The staged tree verifies, and what already has its name, if anything, is that release. */
  ghost predicate CanDeposit(stage: Option<Tree>, held: map<Location, Held>, digest: Digest) {
    && NameFor(stage, digest).Some? && Exact(stage.value, digest)
    && var name := NameFor(stage, digest).value;
       InReleases(name) in held ==> Sound(held, name, digest)
  }

  /**
   An install that dies between its move and its last change of mode leaves the stage under
   its name with something still writable: the same stage, if it is staged once more, is
   refused, until that directory is gone.
   */
  lemma InterruptedInstallBlocks(stage: Tree, moved: Tree, held: map<Location, Held>, digest: Digest)
    requires CanDeposit(Some(stage), held, digest) && InReleases(NameFor(Some(stage), digest).value) !in held
    requires SameButModes(stage, moved)
    ensures var at := InReleases(NameFor(Some(stage), digest).value);
            && (CanDeposit(Some(stage), held[at := Kept(moved)], digest) <==> ReadOnly(moved) && Identity(at.name))
            && CanDeposit(Some(stage), held[at := Kept(moved)] - {at}, digest)
  {
    ExactIgnoresModes(stage, moved, digest);
  }

  /** The stage once it was moved and these files of it were made read-only: directories come later. */
  function PartlyHardened(stage: Tree, done: set<string>): Tree {
    Tree(map n | n in stage.nodes :: if n in done then Locked(stage.nodes[n]) else stage.nodes[n], stage.writable)
  }

  lemma HardenedIsSame(stage: Tree, done: set<string>)
    ensures SameButModes(stage, PartlyHardened(stage, done))
  {
  }

  /** One file still as it was staged is enough, if that can be written. */
  lemma OneWritableFileBlocks(stage: Tree, done: set<string>, left: string, held: map<Location, Held>, digest: Digest)
    requires CanDeposit(Some(stage), held, digest) && InReleases(NameFor(Some(stage), digest).value) !in held
    requires left in Files(stage) - done && stage.nodes[left].writable
    ensures var at := InReleases(NameFor(Some(stage), digest).value);
            var crashed := held[at := Kept(PartlyHardened(stage, done))];
            !CanDeposit(Some(stage), crashed, digest) && CanDeposit(Some(stage), crashed - {at}, digest)
  {
    var moved := PartlyHardened(stage, done);
    HardenedIsSame(stage, done);
    InterruptedInstallBlocks(stage, moved, held, digest);
    assert moved.nodes[left].writable;
  }

  /** Nothing stands in the way of activating this release. */
  ghost predicate CanActivate(places: map<Spot, Place>, held: map<Location, Held>, digest: Digest,
                              process: string, identity: string)
  {
    CanDemote(places, held, digest, process, identity) && CanPromote(places, process)
  }

  function Releases(held: map<Location, Held>): set<Location> {
    set l | l in held && l.InReleases?
  }

  function States(held: map<Location, Held>): set<Location> {
    set l | l in held && l.InState?
  }

  /** releases holds only directories named by identities. */
  ghost predicate WellNamed(held: map<Location, Held>) {
    forall l :: l in Releases(held) ==> held[l].Kept? && Identity(l.name)
  }

  /** What prune leaves in state: retained generations, and whatever is no generation. */
  predicate Spared(entry: Held, name: string, retained: set<string>) {
    entry.Foreign? || !Identity(name) || name in retained
  }

  ghost predicate SparedBy(held: map<Location, Held>, at: Location, retained: set<string>)
    requires at in held
  {
    if at.InReleases? then at.name in retained else Spared(held[at], at.name, retained)
  }

  class Store {
    const digest: Digest
    var process: string
    var mortal: bool
    var alive: bool
    var stage: Option<Tree>
    var held: map<Location, Held>
    var places: map<Spot, Place>

    ghost predicate Valid() {
      HexDigest(digest)
    }

    ghost predicate Safe()
      reads this
    {
      AllSound(places, held, digest)
    }

    constructor (digest: Digest, process: string)
      requires HexDigest(digest)
      ensures Valid() && Safe() && alive && held == map[] && places == map[] && this.digest == digest
    {
      this.digest, this.process, mortal := digest, process, true;
      alive, stage, held, places := true, None, map[], map[];
    }

    /** A process that was alive is so still, unless it was mortal; a dead one stays dead. */
    ghost predicate Lives(before: bool)
      reads `alive, `mortal
    {
      (alive ==> before) && (before && !mortal ==> alive)
    }

    /** The next change happens, or the process, if it can, dies before it. */
    method Proceed()
      modifies `alive
      ensures Lives(old(alive))
    {
      var dies: bool := *;
      if dies && mortal {
        alive := false;
      }
    }

    method VerifyRelease(name: string) returns (ok: bool)
      requires Valid()
      ensures ok <==> Sound(held, name, digest)
    {
      if InReleases(name) !in held || !held[InReleases(name)].Kept? {
        return false;
      }
      var identity := Verify(held[InReleases(name)].tree, digest, true);
      return identity == Some(name);
    }

    /** _readonly: file by file, directory by directory, and the root last. */
    method Harden(name: string) returns (ok: bool)
      requires InReleases(name) in held && held[InReleases(name)].Kept?
      modifies `alive, `held
      ensures Lives(old(alive))
      ensures OnlyEntry(old(held), held, InReleases(name)) && InReleases(name) in held
      ensures held[InReleases(name)].Kept?
                && SameButModes(old(held[InReleases(name)].tree), held[InReleases(name)].tree)
      ensures ok ==> alive && ReadOnly(held[InReleases(name)].tree)
      ensures alive && NoSpecial(old(held[InReleases(name)].tree)) ==> ok
    {
      var at, tree := InReleases(name), held[InReleases(name)].tree;
      if !NoSpecial(tree) {
        return false;
      }
      var files := HardenAll(at, Files(tree));
      if !files {
        return false;
      }
      var directories := HardenAll(at, Directories(tree));
      if !directories {
        return false;
      }
      Proceed();
      if !alive {
        return false;
      }
      held := held[at := Kept(held[at].tree.(writable := false))];
      return true;
    }

    method HardenAll(at: Location, names: set<string>) returns (ok: bool)
      requires at in held && held[at].Kept? && names <= held[at].tree.nodes.Keys
      modifies `alive, `held
      ensures Lives(old(alive))
      ensures OnlyEntry(old(held), held, at) && at in held && held[at].Kept?
      ensures SameButModes(old(held[at].tree), held[at].tree)
      ensures ok <==> alive
      ensures ok ==> forall n :: n in held[at].tree.nodes ==>
                held[at].tree.nodes[n] == if n in names then Locked(old(held[at].tree).nodes[n])
                                          else old(held[at].tree).nodes[n]
    {
      var todo := names;
      while todo != {}
        invariant todo <= names && Lives(old(alive))
        invariant OnlyEntry(old(held), held, at) && at in held && held[at].Kept?
        invariant held[at].tree.nodes.Keys == old(held[at].tree).nodes.Keys
        invariant forall n :: n in held[at].tree.nodes ==>
                    held[at].tree.nodes[n] == if n in names - todo then Locked(old(held[at].tree).nodes[n])
                                              else old(held[at].tree).nodes[n]
        decreases |todo|
      {
        var n :| n in todo;
        Proceed();
        if !alive {
          return false;
        }
        var tree := held[at].tree;
        held := held[at := Kept(tree.(nodes := tree.nodes[n := Locked(tree.nodes[n])]))];
        todo := todo - {n};
      }
      return alive;
    }

    /** select: a link made beside the selector and renamed over it. */
    method Select(spot: Spot, identity: string) returns (ok: bool)
      requires Valid() && Selector(spot)
      modifies `alive, `places
      ensures Lives(old(alive))
      ensures ok ==> alive && Sound(held, identity, digest) && places == old(places)[spot := Link(identity)]
      ensures alive ==> (ok <==> Sound(held, identity, digest) && Selectable(old(places), spot, process))
      ensures alive && !ok ==> places == old(places)
      ensures !ok ==>
                || places == old(places)
                || (Temporary(spot, process) !in old(places) && Sound(held, identity, digest)
                    && places == old(places)[Temporary(spot, process) := Link(identity)])
    {
      var sound := VerifyRelease(identity);
      if !sound || (spot in places && !IsLink(places[spot])) {
        return false;
      }
      if Temporary(spot, process) in places {
        return false;
      }
      ok := LinkOver(spot, identity);
    }

    method LinkOver(spot: Spot, identity: string) returns (ok: bool)
      requires Temporary(spot, process) !in places
      modifies `alive, `places
      ensures Lives(old(alive))
      ensures ok <==> alive
      ensures ok ==> places == old(places)[spot := Link(identity)]
      ensures !ok ==> places == old(places) || places == old(places)[Temporary(spot, process) := Link(identity)]
    {
      var temporary := Temporary(spot, process);
      Proceed();
      if !alive {
        return false;
      }
      places := places[temporary := Link(identity)];
      Proceed();
      if !alive {
        return false;
      }
      places := (places - {temporary})[spot := places[temporary]];
      return true;
    }

    /** The release current names becomes previous, unless it is the one to be activated. */
    method Demote(identity: string) returns (ok: bool)
      requires Valid()
      modifies `alive, `places
      ensures Lives(old(alive))
      ensures Same(old(places), places, CURRENT) && NoneVanish(old(places), places)
      ensures Same(old(places), places, PREVIOUS) || Demoted(old(places), places, identity)
      ensures Same(old(places), places, Temporary(CURRENT, process)) || !ok
      ensures forall spot :: spot !in Touched(process) ==> Same(old(places), places, spot)
      ensures old(Safe()) ==> Safe()
      ensures ok ==> Demoted(old(places), places, identity)
      ensures alive ==> (ok <==> CanDemote(old(places), held, digest, process, identity))
    {
      TemporaryIsHidden(PREVIOUS, process);
      TemporaryIsHidden(CURRENT, process);
      if CURRENT !in places || !IsLink(places[CURRENT]) {
        return true;
      }
      if places[CURRENT].Astray? {
        return false;
      }
      var former := places[CURRENT].name;
      var sound := VerifyRelease(former);
      if !sound {
        return false;
      }
      if former == identity {
        return true;
      }
      ok := Select(PREVIOUS, former);
    }

    /** current is replaced by a link to this release. */
    method Promote(identity: string) returns (ok: bool)
      requires Valid() && Sound(held, identity, digest)
      modifies `alive, `places
      ensures Lives(old(alive))
      ensures Same(old(places), places, PREVIOUS) && NoneVanish(old(places), places)
      ensures Same(old(places), places, CURRENT) || (CURRENT in places && places[CURRENT] == Link(identity))
      ensures forall spot :: spot !in Touched(process) ==> Same(old(places), places, spot)
      ensures old(Safe()) ==> Safe()
      ensures ok ==> alive && CURRENT in places && places[CURRENT] == Link(identity)
      ensures alive ==> (ok <==> CanPromote(old(places), process))
      ensures alive && !ok ==> Temporary(CURRENT, process) in places ==> !IsLink(places[Temporary(CURRENT, process)])
    {
      TemporaryIsHidden(CURRENT, process);
      var temporary := Temporary(CURRENT, process);
      Proceed();
      if !alive {
        return false;
      }
      if temporary in places {
        Discard(temporary);
        return false;
      }
      places := places[temporary := Link(identity)];
      Proceed();
      if !alive {
        return false;
      }
      if CURRENT in places && places[CURRENT].Folder? {
        Discard(temporary);
        return false;
      }
      places := (places - {temporary})[CURRENT := places[temporary]];
      return true;
    }

    /** The second half of install: the old current becomes previous, then the new one current. */
    method Activate(identity: string) returns (ok: bool)
      requires Valid() && Sound(held, identity, digest)
      modifies `alive, `places
      ensures Lives(old(alive))
      ensures Activating(old(places), places, identity) && NoneVanish(old(places), places)
      ensures forall spot :: spot !in Touched(process) ==> Same(old(places), places, spot)
      ensures old(Safe()) ==> Safe()
      ensures ok ==> alive && Activated(old(places), places, identity)
      ensures alive ==> (ok <==> CanActivate(old(places), held, digest, process, identity))
    {
      var demoted := Demote(identity);
      if !demoted {
        return false;
      }
      label promote:
      assert CanPromote(places, process) == CanPromote(old(places), process);
      ok := Promote(identity);
      assert Demoted(old(places), places, identity) by {
        assert Same(old@promote(places), places, PREVIOUS);
      }
    }

    /** The finally clause: a temporary link left behind is removed. */
    method Discard(temporary: Spot)
      requires temporary in places
      modifies `alive, `places
      ensures Lives(old(alive))
      ensures places == old(places) || places == old(places) - {temporary}
      ensures alive && IsLink(old(places)[temporary]) ==> temporary !in places
    {
      if IsLink(places[temporary]) {
        Proceed();
        if alive {
          places := places - {temporary};
        }
      }
    }

    /** The first half of install: the staged tree becomes releases/<identity>, read-only. */
    method Deposit() returns (identity: Option<string>)
      requires Valid()
      modifies `alive, `stage, `held
      ensures Lives(old(alive))
      ensures stage.None? || stage == old(stage)
      ensures identity.Some? ==> Sound(held, identity.value, digest)
      ensures identity.Some? ==> identity == NameFor(old(stage), digest)
      ensures alive ==> (identity.Some? <==> CanDeposit(old(stage), old(held), digest))
      ensures alive && identity.None? ==> held == old(held) && stage == old(stage)
      ensures alive && identity.Some? ==> stage == if held == old(held) then old(stage) else None
      ensures forall l :: l in old(held) ==> l in held && held[l] == old(held)[l]
      ensures forall l :: l in held && l !in old(held) ==>
                && NameFor(old(stage), digest).Some? && l == InReleases(NameFor(old(stage), digest).value)
                && held[l].Kept? && SameButModes(old(stage).value, held[l].tree)
    {
      if stage.None? {
        return None;
      }
      var tree := stage.value;
      identity := Verify(tree, digest, false);
      if identity.None? {
        return None;
      }
      var name, at := identity.value, InReleases(identity.value);
      if at in held {
        var present := VerifyRelease(name);
        return if present then identity else None;
      }
      Proceed();
      if !alive {
        return None;
      }
      stage, held := None, held[at := Kept(tree)];
      var hardened := Harden(name);
      if !hardened {
        return None;
      }
      ExactIgnoresModes(tree, held[at].tree, digest);
      var installed := VerifyRelease(name);
      if !installed {
        return None;
      }
      return identity;
    }

    method Install(activate: bool) returns (identity: Option<string>)
      requires Valid()
      modifies `alive, `stage, `held, `places
      ensures Lives(old(alive))
      ensures old(Safe()) ==> Safe()
      ensures NoneVanish(old(places), places)
      ensures forall l :: l in old(held) ==> l in held && held[l] == old(held)[l]
      ensures forall spot :: spot !in Touched(process) ==> Same(old(places), places, spot)
      ensures places != old(places) ==>
                && activate && NameFor(old(stage), digest).Some?
                && Activating(old(places), places, NameFor(old(stage), digest).value)
      ensures identity.Some? ==> Sound(held, identity.value, digest) && identity == NameFor(old(stage), digest)
      ensures alive ==> if CanDeposit(old(stage), old(held), digest) then
                          Sound(held, NameFor(old(stage), digest).value, digest)
                        else held == old(held) && stage == old(stage) && places == old(places)
      ensures forall l :: l in held && l !in old(held) ==>
                NameFor(old(stage), digest).Some? && l == InReleases(NameFor(old(stage), digest).value)
      ensures identity.Some? && activate ==>
                alive && Activated(old(places), places, identity.value)
      ensures alive ==> (identity.Some? <==>
                           && CanDeposit(old(stage), old(held), digest)
                           && (activate ==>
                               CanActivate(old(places), held, digest, process, NameFor(old(stage), digest).value)))
    {
      identity := Deposit();
      assert old(Safe()) ==> Safe();
      if identity.Some? && activate {
        var activated := Activate(identity.value);
        if !activated {
          return None;
        }
      }
    }

    method SelectedIdentity(spot: Spot) returns (ok: bool, identity: Option<string>)
      requires Valid()
      ensures ok <==> (spot in places && IsLink(places[spot]) ==>
                         places[spot].Link? && Sound(held, places[spot].name, digest))
      ensures ok ==> identity == if spot in places && IsLink(places[spot]) then Some(places[spot].name) else None
    {
      if spot !in places || !IsLink(places[spot]) {
        return true, None;
      }
      if places[spot].Astray? {
        return false, None;
      }
      ok := VerifyRelease(places[spot].name);
      return ok, Some(places[spot].name);
    }

    /** Before a tree is removed its directories can be written again, the root first. */
    method Unlock(at: Location) returns (ok: bool)
      requires at in held && held[at].Kept?
      modifies `alive, `held
      ensures Lives(old(alive))
      ensures OnlyEntry(old(held), held, at) && at in held && held[at].Kept?
      ensures SameButModes(old(held[at].tree), held[at].tree)
      ensures ok <==> alive
      ensures ok ==> AllUnlocked(held[at].tree)
    {
      Proceed();
      if !alive {
        return false;
      }
      held := held[at := Kept(held[at].tree.(writable := true))];
      var todo := Directories(held[at].tree);
      while todo != {}
        invariant Lives(old(alive))
        invariant OnlyEntry(old(held), held, at) && at in held && held[at].Kept?
        invariant SameButModes(old(held[at].tree), held[at].tree) && todo <= Directories(held[at].tree)
        invariant held[at].tree.writable
        invariant forall n :: n in Directories(held[at].tree) - todo ==> held[at].tree.nodes[n].writable
        decreases |todo|
      {
        var n :| n in todo;
        Proceed();
        if !alive {
          return false;
        }
        var tree := held[at].tree;
        held := held[at := Kept(tree.(nodes := tree.nodes[n := Directory(true)]))];
        todo := todo - {n};
      }
      return alive;
    }

    /** An entry can be removed from a directory that can be written. */
    method RemoveEntry(at: Location, n: string)
      requires at in held && held[at].Kept? && n in held[at].tree.nodes && held[at].tree.writable
      requires var d := Parent(n);
               d in held[at].tree.nodes && held[at].tree.nodes[d].Directory? ==> held[at].tree.nodes[d].writable
      modifies `held
      ensures held == old(held)[at := Kept(old(held)[at].tree.(nodes := old(held)[at].tree.nodes - {n}))]
    {
      held := held[at := Kept(held[at].tree.(nodes := held[at].tree.nodes - {n}))];
    }

    /** _remove_tree: piece by piece, and the directory itself last. */
    method RemoveTree(at: Location) returns (ok: bool)
      requires at in held && held[at].Kept?
      modifies `alive, `held
      ensures Lives(old(alive))
      ensures OnlyEntry(old(held), held, at)
      ensures ok <==> alive
      ensures ok ==> at !in held
    {
      var unlocked := Unlock(at);
      if !unlocked {
        return false;
      }
      var todo := held[at].tree.nodes.Keys;
      while todo != {}
        invariant Lives(old(alive))
        invariant OnlyEntry(old(held), held, at) && at in held && held[at].Kept?
        invariant AllUnlocked(held[at].tree) && todo <= held[at].tree.nodes.Keys
        decreases |todo|
      {
        var n :| n in todo;
        Proceed();
        if !alive {
          return false;
        }
        RemoveEntry(at, n);
        todo := todo - {n};
      }
      Proceed();
      if !alive {
        return false;
      }
      held := held - {at};
      return true;
    }

    /** The releases some selector names; no answer when a link is not sound. */
    method Gather() returns (retained: Option<set<string>>)
      requires Valid()
      ensures retained.Some? <==> Safe()
      ensures retained.Some? ==> retained.value == Retained(places)
    {
      var todo := set spot | spot in places && Selector(spot);
      var found: set<string> := {};
      ghost var done: set<Spot> := {};
      while todo != {}
        invariant todo + done == (set spot | spot in places && Selector(spot))
        invariant forall spot :: spot in done && IsLink(places[spot]) ==>
                    places[spot].Link? && Sound(held, places[spot].name, digest)
        invariant found == set spot | spot in done && places[spot].Link? :: places[spot].name
        decreases |todo|
      {
        var spot :| spot in todo;
        var ok, identity := SelectedIdentity(spot);
        if !ok {
          return None;
        }
        if identity.Some? {
          found := found + {identity.value};
        }
        todo, done := todo - {spot}, done + {spot};
      }
      return Some(found);
    }

    /** Every release that is not retained is removed; an entry that is no release stops this. */
    method PruneReleases(retained: set<string>) returns (removed: Option<nat>)
      modifies `alive, `held
      ensures Lives(old(alive))
      ensures forall l :: l in held ==> l in old(held)
      ensures forall l :: l in old(held) && (l.InState? || l.name in retained) ==> l in held && held[l] == old(held)[l]
      ensures alive ==> (removed.Some? <==> WellNamed(old(held)))
      ensures removed.Some? ==> alive && removed.value == |Releases(old(held))| - |Releases(held)|
      ensures removed.Some? ==> forall l :: l in Releases(held) ==> l.name in retained
      ensures removed.Some? ==> forall l :: l in held ==> held[l] == old(held)[l]
    {
      var count, todo := 0, Releases(held);
      while todo != {}
        invariant Lives(old(alive))
        invariant todo <= Releases(held) <= Releases(old(held))
        invariant forall l :: l in held ==> l in old(held) && held[l] == old(held)[l]
        invariant forall l :: l in old(held) && (l.InState? || l.name in retained || l in todo) ==>
                    l in held && held[l] == old(held)[l]
        invariant forall l :: l in Releases(held) - todo ==> l.name in retained
        invariant forall l :: l in Releases(old(held)) - todo ==> old(held)[l].Kept? && Identity(l.name)
        invariant count + |Releases(held)| == |Releases(old(held))|
        decreases |todo|
      {
        var at :| at in todo;
        if !held[at].Kept? || !Identity(at.name) {
          return None;
        }
        if at.name !in retained {
          ghost var before := held;
          var removed' := RemoveTree(at);
          if !removed' {
            return None;
          }
          assert Releases(held) == Releases(before) - {at};
          count := count + 1;
        }
        todo := todo - {at};
      }
      if !alive {
        return None;
      }
      return Some(count);
    }

    /** Every generation of state that is not retained is removed; other entries are skipped. */
    method PruneStates(retained: set<string>) returns (removed: Option<nat>)
      modifies `alive, `held
      ensures Lives(old(alive))
      ensures forall l :: l in held ==> l in old(held)
      ensures forall l :: l in old(held) && (l.InReleases? || Spared(old(held)[l], l.name, retained)) ==>
                l in held && held[l] == old(held)[l]
      ensures removed.Some? <==> alive
      ensures removed.Some? ==> removed.value == |States(old(held))| - |States(held)|
      ensures removed.Some? ==> forall l :: l in States(held) ==> Spared(held[l], l.name, retained)
      ensures removed.Some? ==> forall l :: l in held ==> held[l] == old(held)[l]
    {
      var count, todo := 0, States(held);
      while todo != {}
        invariant Lives(old(alive))
        invariant todo <= States(held) <= States(old(held))
        invariant forall l :: l in held ==> l in old(held) && held[l] == old(held)[l]
        invariant forall l ::
                    l in old(held) && (l.InReleases? || l in todo || Spared(old(held)[l], l.name, retained)) ==>
                    l in held && held[l] == old(held)[l]
        invariant forall l :: l in States(held) - todo ==> Spared(held[l], l.name, retained)
        invariant count + |States(held)| == |States(old(held))|
        decreases |todo|
      {
        var at :| at in todo;
        if held[at].Kept? && Identity(at.name) && at.name !in retained {
          ghost var before := held;
          var removed' := RemoveTree(at);
          if !removed' {
            return None;
          }
          assert States(held) == States(before) - {at};
          count := count + 1;
        }
        todo := todo - {at};
      }
      if !alive {
        return None;
      }
      return Some(count);
    }

    /**
     prune: afterwards exactly the retained releases are left, and of the state exactly the
     retained generations and what is no generation.  Those are untouched even when it stops half way.
     */
    method Prune() returns (removed: Option<(nat, nat)>)
      requires Valid()
      modifies `alive, `held
      ensures Lives(old(alive))
      ensures old(Safe()) ==> Safe()
      ensures forall l :: l in held ==> l in old(held)
      ensures forall l :: l in old(held) && SparedBy(old(held), l, Retained(places)) ==>
                l in held && held[l] == old(held)[l]
      ensures alive ==> (removed.Some? <==> old(Safe()) && WellNamed(old(held)))
      ensures removed.Some? ==> forall l :: l in held ==>
                SparedBy(old(held), l, Retained(places)) && held[l] == old(held)[l]
      ensures removed.Some? ==>
                && removed.value.0 == |Releases(old(held))| - |Releases(held)|
                && removed.value.1 == |States(old(held))| - |States(held)|
    {
      var retained := Gather();
      if retained.None? {
        return None;
      }
      var releases := PruneReleases(retained.value);
      if releases.None? {
        return None;
      }
      assert States(held) == States(old(held));
      label states:
      var states := PruneStates(retained.value);
      if states.None? {
        return None;
      }
      assert Releases(held) == Releases(old@states(held));
      return Some((releases.value, states.value));
    }

    /**
     Any sequence of commands, each a new process that may die at any step: every selector goes
     on naming an installed release, and none that was ever set is missing.  Whatever the dead
     ones leave behind, no other process is kept from activating a release afterwards.  A command
     whose process cannot die does what it is for whenever nothing stands in its way.
     */
    method Run(commands: seq<Command>) returns (ghost history: seq<State>)
      requires Valid() && Safe()
      requires forall k :: 0 <= k < |commands| && commands[k].Selecting? ==> Selector(commands[k].spot)
      modifies this
      ensures Safe() && NoneVanish(old(places), places)
      ensures forall p :: Ready(old(places), p) && Uninvolved(commands, p) ==> Ready(places, p)
      ensures |history| == |commands| + 1 && history[0] == State(old(held), old(places))
      ensures history[|commands|] == State(held, places)
      ensures forall k :: 0 <= k < |commands| ==> Done(commands[k], history[k], history[k + 1], digest)
    {
      history := [State(held, places)];
      for k := 0 to |commands|
        invariant Safe() && NoneVanish(old(places), places)
        invariant forall p :: Ready(old(places), p) && Uninvolved(commands[..k], p) ==> Ready(places, p)
        invariant |history| == k + 1 && history[0] == State(old(held), old(places)) && history[k] == State(held, places)
        invariant forall j :: 0 <= j < k ==> Done(commands[j], history[j], history[j + 1], digest)
      {
        ghost var before := places;
        Execute(commands[k]);
        forall p | Ready(old(places), p) && Uninvolved(commands[..k + 1], p) ensures Ready(places, p) {
          UninvolvedFront(commands, k, p);
          assert Ready(before, p);
        }
        history := history + [State(held, places)];
      }
      assert commands[..|commands|] == commands;
    }

    /** One command, by its own process. */
    method Execute(command: Command)
      requires Valid() && Safe() && (command.Selecting? ==> Selector(command.spot))
      modifies this
      ensures Safe() && NoneVanish(old(places), places)
      ensures forall p :: Ready(old(places), p) && p != command.process ==> Ready(places, p)
      ensures Done(command, State(old(held), old(places)), State(held, places), digest)
    {
      alive, process, mortal := true, command.process, command.mortal;
      match command
      case Installing(_, _, tree, activate) =>
        stage := tree;
        ExecuteInstall(activate);
      case Selecting(_, _, spot, identity) =>
        ExecuteSelect(spot, identity);
      case Pruning(_, _) =>
        ExecutePrune();
    }

    method ExecuteInstall(activate: bool)
      requires Valid() && Safe() && alive
      modifies `alive, `stage, `held, `places
      ensures Lives(true) && Safe() && NoneVanish(old(places), places)
      ensures forall p :: Ready(old(places), p) && p != process ==> Ready(places, p)
      ensures alive ==>
                Installs(process, old(stage), activate, State(old(held), old(places)), State(held, places), digest)
    {
      var _ := Install(activate);
      StillReady(old(places), places, process);
      if CanDeposit(old(stage), old(held), digest) {
        OnlyNew(old(held), held, InReleases(NameFor(old(stage), digest).value));
      }
    }

    method ExecuteSelect(spot: Spot, identity: string)
      requires Valid() && Safe() && alive && Selector(spot)
      modifies `alive, `places
      ensures Lives(true) && Safe() && NoneVanish(old(places), places)
      ensures forall p :: Ready(old(places), p) && p != process ==> Ready(places, p)
      ensures alive ==>
                places == if Sound(held, identity, digest) && Selectable(old(places), spot, process) then
                            old(places)[spot := Link(identity)]
                          else old(places)
    {
      var _ := Select(spot, identity);
      StillReadySelect(old(places), places, process, spot, identity);
    }

    method ExecutePrune()
      requires Valid() && Safe() && alive
      modifies `alive, `held
      ensures Lives(true) && Safe()
      ensures alive ==> Prunes(old(held), held, places)
    {
      var _ := Prune();
    }
  }

  lemma OnlyNew(before: map<Location, Held>, after: map<Location, Held>, at: Location)
    requires forall l :: l in before ==> l in after && after[l] == before[l]
    requires forall l :: l in after && l !in before ==> l == at
    ensures OnlyEntry(before, after, at) && (at in before ==> after == before)
  {
    if at in before {
      assert after.Keys == before.Keys;
    }
  }

  /** If all of releases is releases, what is left is exactly what is retained or no generation. */
  ghost predicate Prunes(before: map<Location, Held>, after: map<Location, Held>, places: map<Spot, Place>) {
    WellNamed(before) ==>
      forall l :: (l in after <==> l in before && SparedBy(before, l, Retained(places)))
                  && (l in after ==> after[l] == before[l])
  }

  /** What a command whose process cannot die leaves. */
  ghost predicate Done(command: Command, before: State, after: State, digest: Digest) {
    !command.mortal ==>
      match command
      case Installing(process, _, stage, activate) => Installs(process, stage, activate, before, after, digest)
      case Selecting(process, _, spot, identity) =>
        after == if Sound(before.held, identity, digest) && Selectable(before.places, spot, process) then
                   before.(places := before.places[spot := Link(identity)])
                 else before
      case Pruning(_, _) =>
        after.places == before.places && Prunes(before.held, after.held, before.places)
  }

  /** The staged tree is there as a release if it could be, and is current if it was to be. */
  ghost predicate Installs(process: string, stage: Option<Tree>, activate: bool, before: State, after: State,
                           digest: Digest)
  {
    if CanDeposit(stage, before.held, digest) then
      var name := NameFor(stage, digest).value;
      && Sound(after.held, name, digest) && OnlyEntry(before.held, after.held, InReleases(name))
      && (InReleases(name) in before.held ==> after.held == before.held)
      && (if !activate then after.places == before.places
          else CanActivate(before.places, after.held, digest, process, name) ==>
                 Activated(before.places, after.places, name))
    else after == before
  }

  ghost predicate Uninvolved(commands: seq<Command>, process: string) {
    forall k :: 0 <= k < |commands| ==> commands[k].process != process
  }

  lemma UninvolvedFront(commands: seq<Command>, k: nat, process: string)
    requires k < |commands| && Uninvolved(commands[..k + 1], process)
    ensures Uninvolved(commands[..k], process) && commands[k].process != process
  {
    assert commands[..k + 1][k] == commands[k];
    forall i | 0 <= i < k ensures commands[..k][i].process != process {
      assert commands[..k + 1][i] == commands[i];
    }
  }

  /** An activation by one process leaves the others ready. */
  lemma StillReady(before: map<Spot, Place>, after: map<Spot, Place>, process: string)
    requires forall spot :: spot !in Touched(process) ==> Same(before, after, spot)
    requires forall spot :: spot in {CURRENT, PREVIOUS} ==>
               Same(before, after, spot) || (spot in after && IsLink(after[spot]))
    ensures forall p :: Ready(before, p) && p != process ==> Ready(after, p)
  {
    forall p | Ready(before, p) && p != process ensures Ready(after, p) {
      forall a | a in {CURRENT, PREVIOUS} ensures Temporary(a, p) !in after && (a in after ==> IsLink(after[a])) {
        TemporariesApart(a, p, CURRENT, process);
        TemporariesApart(a, p, PREVIOUS, process);
        assert Same(before, after, Temporary(a, p));
      }
    }
  }

  lemma StillReadySelect(before: map<Spot, Place>, after: map<Spot, Place>, process: string, spot: Spot,
                         identity: string)
    requires Selector(spot)
    requires || after == before || after == before[spot := Link(identity)]
             || after == before[Temporary(spot, process) := Link(identity)]
    ensures forall p :: Ready(before, p) && p != process ==> Ready(after, p)
  {
    forall p | Ready(before, p) && p != process ensures Ready(after, p) {
      forall a | a in {CURRENT, PREVIOUS} ensures Temporary(a, p) !in after && (a in after ==> IsLink(after[a])) {
        TemporariesApart(a, p, spot, process);
        assert a in before ==> IsLink(before[a]);
      }
    }
  }
}
