/**
 Permanent deletion of bundles in tools/bundle_tool.c: has_dependents decides whether anything
 left in the scanned roots still needs a Kit, and delete removes it only if nothing does.
 The library rules are those of sw/userspace/system/src/bundle.c.

 A bundle is named by its real path, so two roots that reach one bundle list it twice under
 the same name.
 */
module BundleDeletion {
  import opened Prelude

  datatype Version = Version(major: nat, minor: nat, patch: nat)
  datatype Library = Library(name: string, abi: nat, version: Version)
  datatype Kind = Application | Kit
  datatype Manifest = Manifest(kind: Kind, requirements: seq<Library>, offers: seq<Library>)

  /** One valid bundle met while reading a root directory. */
  datatype Scanned = Scanned(identity: nat, manifest: Manifest)

  // ----- library rules -------------------------------------------------------------------

  predicate AtLeast(have: Version, need: Version) {
    || have.major > need.major
    || (have.major == need.major && have.minor > need.minor)
    || (have.major == need.major && have.minor == need.minor && have.patch >= need.patch)
  }

  /** One version is below another if it is less in the first of the three numbers that differs. */
  ghost predicate Older(a: Version, b: Version) {
    var x, y := [a.major, a.minor, a.patch], [b.major, b.minor, b.patch];
    exists k :: 0 <= k < 3 && x[k] < y[k] && x[..k] == y[..k]
  }

  lemma AtLeastIsNotOlder(have: Version, need: Version)
    ensures AtLeast(have, need) <==> !Older(have, need)
  {
    var x, y := [have.major, have.minor, have.patch], [need.major, need.minor, need.patch];
    if !AtLeast(have, need) {
      var k := if have.major != need.major then 0 else if have.minor != need.minor then 1 else 2;
      assert x[k] < y[k] && x[..k] == y[..k];
    }
    if k :| 0 <= k < 3 && x[k] < y[k] && x[..k] == y[..k] {
      if k > 0 {
        assert x[..k][0] == have.major && y[..k][0] == need.major;
      }
      if k > 1 {
        assert x[..k][1] == have.minor && y[..k][1] == need.minor;
      }
    }
  }

  predicate Satisfies(requirement: Library, provider: Library) {
    && requirement.name == provider.name
    && requirement.abi == provider.abi
    && AtLeast(provider.version, requirement.version)
  }

  /** A library satisfies a requirement of its name and ABI that asks for no newer version. */
  lemma SatisfiesExactly(requirement: Library, provider: Library)
    ensures Satisfies(requirement, provider)
            <==> provider.name == requirement.name && provider.abi == requirement.abi
                 && !Older(provider.version, requirement.version)
  {
    AtLeastIsNotOlder(provider.version, requirement.version);
  }

  predicate Matches(library: Library, name: string, abi: nat) {
    library.name == name && library.abi == abi
  }

  /** The application's own newest library of this name and ABI. */
  ghost predicate IsPrivate(owner: Manifest, name: string, abi: nat, selected: Option<Library>) {
    match selected
    case None =>
      owner.kind != Application || abi == 0 || forall l :: l in owner.offers ==> l.name != name || l.abi != abi
    case Some(s) =>
      && owner.kind == Application && abi != 0
      && s in owner.offers && s.name == name && s.abi == abi
      && forall l :: l in owner.offers && l.name == name && l.abi == abi ==> !Older(s.version, l.version)
  }

  function Newest(offers: seq<Library>, name: string, abi: nat, selected: Option<Library>): Option<Library> {
    if offers == [] then selected
    else
      var candidate := offers[0];
      var better := Matches(candidate, name, abi)
          && (selected.None? || AtLeast(candidate.version, selected.value.version));
      Newest(offers[1..], name, abi, if better then Some(candidate) else selected)
  }

  function PrivateProvider(owner: Manifest, name: string, abi: nat): Option<Library> {
    if owner.kind != Application || abi == 0 then None else Newest(owner.offers, name, abi, None)
  }

  lemma {:induction false} NewestIsNewest(offers: seq<Library>, name: string, abi: nat, selected: Option<Library>)
    requires selected.Some? ==> Matches(selected.value, name, abi)
    ensures var r := Newest(offers, name, abi, selected);
            && (r.None? <==> selected.None? && forall l :: l in offers ==> !Matches(l, name, abi))
            && (r.Some? ==> Matches(r.value, name, abi) && (r == selected || r.value in offers))
            && (r.Some? && selected.Some? ==> AtLeast(r.value.version, selected.value.version))
            && (forall l :: l in offers && Matches(l, name, abi) && r.Some? ==> AtLeast(r.value.version, l.version))
  {
    if offers != [] {
      var candidate := offers[0];
      var better := Matches(candidate, name, abi)
          && (selected.None? || AtLeast(candidate.version, selected.value.version));
      NewestIsNewest(offers[1..], name, abi, if better then Some(candidate) else selected);
    }
  }

  lemma PrivateProviderIsNewest(owner: Manifest, name: string, abi: nat)
    ensures IsPrivate(owner, name, abi, PrivateProvider(owner, name, abi))
  {
    NewestIsNewest(owner.offers, name, abi, None);
    var selected := PrivateProvider(owner, name, abi);
    if selected.Some? {
      forall l | l in owner.offers && l.name == name && l.abi == abi ensures !Older(selected.value.version, l.version) {
        assert Matches(l, name, abi);
        AtLeastIsNotOlder(selected.value.version, l.version);
      }
    }
  }

  /** The selection loop of astra_bundle_private_provider. */
  method SelectPrivate(owner: Manifest, name: string, abi: nat) returns (selected: Option<Library>)
    ensures selected == PrivateProvider(owner, name, abi)
    ensures IsPrivate(owner, name, abi, selected)
  {
    selected := None;
    PrivateProviderIsNewest(owner, name, abi);
    if owner.kind != Application || abi == 0 {
      return;
    }
    var at := 0;
    while at < |owner.offers|
      invariant at <= |owner.offers|
      invariant Newest(owner.offers[at..], name, abi, selected) == Newest(owner.offers, name, abi, None)
    {
      var candidate := owner.offers[at];
      if Matches(candidate, name, abi) && (selected.None? || AtLeast(candidate.version, selected.value.version)) {
        selected := Some(candidate);
      }
      assert owner.offers[at..][1..] == owner.offers[at + 1..];
      at := at + 1;
    }
  }

  // ----- what it means for a set of bundles to work ----------------------------------------

  /** Some provider in the list satisfies the requirement. */
  ghost predicate Supplies(offers: seq<Library>, requirement: Library) {
    exists l :: l in offers && Satisfies(requirement, l)
  }

  /** A Kit of the set, other than `except`, satisfies the requirement. */
  ghost predicate SuppliedWithout(bundles: seq<Scanned>, requirement: Library, except: Option<nat>) {
    exists b :: b in bundles && b.manifest.kind == Kit && (except.None? || b.identity != except.value)
                && Supplies(b.manifest.offers, requirement)
  }

  /**
   A requirement is met by the application's own library of that name and ABI if it has one,
   whatever its version, and otherwise by a Kit.
   */
  ghost predicate Met(bundles: seq<Scanned>, owner: Manifest, requirement: Library) {
    match PrivateProvider(owner, requirement.name, requirement.abi)
    case Some(own) => AtLeast(own.version, requirement.version)
    case None => SuppliedWithout(bundles, requirement, None)
  }

  ghost predicate AllMet(bundles: seq<Scanned>) {
    forall b, r :: b in bundles && r in b.manifest.requirements ==> Met(bundles, b.manifest, r)
  }

  /** One bundle reached twice reads the same manifest twice. */
  ghost predicate Consistent(bundles: seq<Scanned>) {
    forall a, b :: a in bundles && b in bundles && a.identity == b.identity ==> a.manifest == b.manifest
  }

  /** What a scan finds once this bundle is gone, by whatever paths it was listed. */
  function Removed(bundles: seq<Scanned>, identity: nat): (rest: seq<Scanned>)
    ensures forall b :: b in rest <==> b in bundles && b.identity != identity
  {
    if bundles == [] then []
    else if bundles[0].identity == identity then Removed(bundles[1..], identity)
    else [bundles[0]] + Removed(bundles[1..], identity)
  }

  // ----- the decision ----------------------------------------------------------------------

  /** This requirement of another bundle depends on the target and on nothing else in the set. */
  ghost predicate Depends(bundles: seq<Scanned>, target: Scanned, consumer: Scanned, requirement: Library) {
    && consumer in bundles && consumer.identity != target.identity
    && requirement in consumer.manifest.requirements
    && PrivateProvider(consumer.manifest, requirement.name, requirement.abi).None?
    && Supplies(target.manifest.offers, requirement)
    && !SuppliedWithout(bundles, requirement, Some(target.identity))
  }

  ghost predicate Blocked(bundles: seq<Scanned>, target: Scanned) {
    target.manifest.kind == Kit && exists consumer, requirement :: Depends(bundles, target, consumer, requirement)
  }

  method AnySatisfies(offers: seq<Library>, requirement: Library) returns (found: bool)
    ensures found <==> Supplies(offers, requirement)
  {
    found := false;
    var at := 0;
    while at < |offers|
      invariant at <= |offers|
      invariant found <==> exists i :: 0 <= i < at && Satisfies(requirement, offers[i])
    {
      if Satisfies(requirement, offers[at]) {
        found := true;
      }
      at := at + 1;
    }
    if found {
      var i :| 0 <= i < |offers| && Satisfies(requirement, offers[i]);
      assert offers[i] in offers;
    }
  }

  method HasAlternative(bundles: seq<Scanned>, target: Scanned, requirement: Library) returns (alternative: bool)
    ensures alternative <==> SuppliedWithout(bundles, requirement, Some(target.identity))
  {
    alternative := false;
    var at := 0;
    while at < |bundles| && !alternative
      invariant at <= |bundles|
      invariant alternative ==> SuppliedWithout(bundles, requirement, Some(target.identity))
      invariant !alternative ==> !SuppliedWithout(bundles[..at], requirement, Some(target.identity))
    {
      if bundles[at].identity != target.identity && bundles[at].manifest.kind == Kit {
        alternative := AnySatisfies(bundles[at].manifest.offers, requirement);
      }
      assert bundles[at] in bundles;
      assert bundles[..at + 1] == bundles[..at] + [bundles[at]];
      at := at + 1;
    }
    assert bundles[..|bundles|] == bundles;
  }

  /** The requirements of one bundle. */
  method ConsumerBlocks(bundles: seq<Scanned>, target: Scanned, consumer: Scanned) returns (blocked: bool)
    requires consumer in bundles && consumer.identity != target.identity
    ensures blocked <==> exists r :: Depends(bundles, target, consumer, r)
  {
    blocked := false;
    var requirements := consumer.manifest.requirements;
    var need := 0;
    while need < |requirements|
      invariant need <= |requirements|
      invariant blocked <==> exists i :: 0 <= i < need && Depends(bundles, target, consumer, requirements[i])
    {
      var required := requirements[need];
      assert required in requirements;
      var own := SelectPrivate(consumer.manifest, required.name, required.abi);
      if own.None? {
        var suppliedByTarget := AnySatisfies(target.manifest.offers, required);
        if suppliedByTarget {
          var alternative := HasAlternative(bundles, target, required);
          if !alternative {
            blocked := true;
          }
        }
      }
      need := need + 1;
    }
    if r :| Depends(bundles, target, consumer, r) {
      var i :| 0 <= i < |requirements| && requirements[i] == r;
    }
  }

  datatype Answer = Cannot | Free | Needed

  /** The scan of every root; an unreadable root stops it. */
  function Scan(roots: seq<Option<seq<Scanned>>>): Option<seq<Scanned>> {
    if roots == [] then Some([])
    else if roots[0].None? then None
    else match Scan(roots[1..])
      case None => None
      case Some(rest) => Some(roots[0].value + rest)
  }

  function Joined(front: seq<Scanned>, rest: Option<seq<Scanned>>): Option<seq<Scanned>> {
    if rest.None? then None else Some(front + rest.value)
  }

  ghost predicate Readable(roots: seq<Option<seq<Scanned>>>) {
    forall r :: r in roots ==> r.Some?
  }

  /** Some root lists this bundle. */
  ghost predicate Lists(roots: seq<Option<seq<Scanned>>>, b: Scanned) {
    exists r :: r in roots && r.Some? && b in r.value
  }

  /** A scan finds what some root lists, and nothing else; one unreadable root is enough for none. */
  lemma {:induction false} ScanFinds(roots: seq<Option<seq<Scanned>>>)
    ensures Scan(roots).Some? <==> Readable(roots)
    ensures Scan(roots).Some? ==> forall b :: b in Scan(roots).value <==> Lists(roots, b)
  {
    if roots != [] {
      ScanFinds(roots[1..]);
      assert roots[0] in roots && forall r :: r in roots <==> r == roots[0] || r in roots[1..];
    }
  }

  /** The bundles of a root come in its own order, after those of the roots before it. */
  lemma {:induction false} ScanInOrder(before: seq<Option<seq<Scanned>>>, root: seq<Scanned>,
                                       after: seq<Option<seq<Scanned>>>)
    requires Readable(before) && Readable(after)
    ensures Scan(before).Some? && Scan(after).Some?
    ensures Scan(before + [Some(root)] + after) == Some(Scan(before).value + root + Scan(after).value)
  {
    ScanFinds(before);
    ScanFinds(after);
    var all := before + [Some(root)] + after;
    if before == [] {
      assert all[0] == Some(root) && all[1..] == after;
      assert [] + root == root;
    } else {
      var rest := before[1..];
      assert forall r :: r in rest ==> r in before;
      ScanInOrder(rest, root, after);
      assert all[0] == before[0] && all[1..] == rest + [Some(root)] + after;
      assert before[0].value + (Scan(rest).value + root + Scan(after).value)
          == before[0].value + Scan(rest).value + root + Scan(after).value;
    }
  }

  /** Something listed, other than the target, needs it, and no other Kit listed will do. */
  ghost predicate NeededBy(roots: seq<Option<seq<Scanned>>>, target: Scanned, consumer: Scanned, requirement: Library) {
    && Lists(roots, consumer) && consumer.identity != target.identity
    && requirement in consumer.manifest.requirements
    && IsPrivate(consumer.manifest, requirement.name, requirement.abi, None)
    && Supplies(target.manifest.offers, requirement)
    && !exists kit :: Lists(roots, kit) && kit.manifest.kind == Kit && kit.identity != target.identity
                      && Supplies(kit.manifest.offers, requirement)
  }

  lemma NeededExactly(roots: seq<Option<seq<Scanned>>>, target: Scanned, consumer: Scanned, requirement: Library)
    requires Scan(roots).Some?
    ensures NeededBy(roots, target, consumer, requirement)
            <==> Depends(Scan(roots).value, target, consumer, requirement)
  {
    ScanFinds(roots);
    PrivateProviderIsNewest(consumer.manifest, requirement.name, requirement.abi);
    var bundles := Scan(roots).value;
    if SuppliedWithout(bundles, requirement, Some(target.identity)) {
      var kit :| kit in bundles && kit.manifest.kind == Kit && kit.identity != target.identity
                 && Supplies(kit.manifest.offers, requirement);
      assert Lists(roots, kit);
    }
    if kit :| Lists(roots, kit) && kit.manifest.kind == Kit && kit.identity != target.identity
              && Supplies(kit.manifest.offers, requirement) {
      assert kit in bundles;
    }
  }

  method ScanRoots(roots: seq<Option<seq<Scanned>>>) returns (found: Option<seq<Scanned>>)
    ensures found == Scan(roots)
  {
    var bundles: seq<Scanned> := [];
    var root := 0;
    assert roots[0..] == roots;
    assert Scan(roots).Some? ==> [] + Scan(roots).value == Scan(roots).value;
    while root < |roots|
      invariant root <= |roots|
      invariant Joined(bundles, Scan(roots[root..])) == Scan(roots)
    {
      assert roots[root..][1..] == roots[root + 1..];
      if roots[root].None? {
        return None;
      }
      ghost var rest := Scan(roots[root + 1..]);
      assert rest.Some? ==> bundles + (roots[root].value + rest.value) == bundles + roots[root].value + rest.value;
      bundles := bundles + roots[root].value;
      root := root + 1;
    }
    assert bundles + [] == bundles;
    return Some(bundles);
  }

  /** has_dependents. */
  method HasDependents(target: Scanned, roots: seq<Option<seq<Scanned>>>) returns (answer: Answer)
    ensures answer == Cannot <==> target.manifest.kind == Kit && !Readable(roots)
    ensures answer == Needed <==>
            target.manifest.kind == Kit && Readable(roots) && exists c, r :: NeededBy(roots, target, c, r)
    ensures answer == Needed <==> Scan(roots).Some? && Blocked(Scan(roots).value, target)
  {
    ScanFinds(roots);
    if target.manifest.kind != Kit {
      return Free;
    }
    var scan := ScanRoots(roots);
    if scan.None? {
      return Cannot;
    }
    var bundles := scan.value;
    var blocked := false;
    var at := 0;
    while at < |bundles|
      invariant at <= |bundles|
      invariant blocked <==> exists i, r :: 0 <= i < at && Depends(bundles, target, bundles[i], r)
    {
      if bundles[at].identity != target.identity {
        assert bundles[at] in bundles;
        var needs := ConsumerBlocks(bundles, target, bundles[at]);
        if needs {
          blocked := true;
        }
      }
      at := at + 1;
    }
    if consumer, r :| Depends(bundles, target, consumer, r) {
      var i :| 0 <= i < |bundles| && bundles[i] == consumer;
      assert Depends(bundles, target, bundles[i], r);
    }
    forall c, r ensures NeededBy(roots, target, c, r) <==> Depends(bundles, target, c, r) {
      NeededExactly(roots, target, c, r);
    }
    return if blocked then Needed else Free;
  }

  // ----- what the decision protects --------------------------------------------------------

  /** A deletion that is not blocked leaves every remaining requirement met. */
  lemma FreeDeletionIsSafe(bundles: seq<Scanned>, target: Scanned)
    requires AllMet(bundles) && Consistent(bundles + [target]) && !Blocked(bundles, target)
    ensures AllMet(Removed(bundles, target.identity)) && Consistent(Removed(bundles, target.identity))
  {
    var rest := Removed(bundles, target.identity);
    forall b, r | b in rest && r in b.manifest.requirements ensures Met(rest, b.manifest, r) {
      assert Met(bundles, b.manifest, r);
      if PrivateProvider(b.manifest, r.name, r.abi).None? {
        var k :| k in bundles && k.manifest.kind == Kit && Supplies(k.manifest.offers, r);
        if k.identity == target.identity {
          assert k in bundles + [target] && target in bundles + [target];
          assert !Depends(bundles, target, b, r);
          var other :| other in bundles && other.manifest.kind == Kit && other.identity != target.identity
                       && Supplies(other.manifest.offers, r);
          assert other in rest;
        } else {
          assert k in rest;
        }
      }
    }
    forall a, b | a in rest && b in rest && a.identity == b.identity ensures a.manifest == b.manifest {
      assert a in bundles + [target] && b in bundles + [target];
    }
  }

  /** A blocked deletion would leave some remaining requirement unmet. */
  lemma BlockedDeletionBreaks(bundles: seq<Scanned>, target: Scanned)
    requires Blocked(bundles, target)
    ensures !AllMet(Removed(bundles, target.identity))
  {
    var rest := Removed(bundles, target.identity);
    var consumer, requirement :| Depends(bundles, target, consumer, requirement);
    assert consumer in rest;
    assert forall k :: k in rest ==> k in bundles && k.identity != target.identity;
    assert !Met(rest, consumer.manifest, requirement);
  }

  /** From a set in which everything is met, deletion is refused exactly when it would break one. */
  lemma RefusedExactlyWhenBreaking(bundles: seq<Scanned>, target: Scanned)
    requires AllMet(bundles) && Consistent(bundles + [target])
    ensures Blocked(bundles, target) <==> !AllMet(Removed(bundles, target.identity))
  {
    if Blocked(bundles, target) {
      BlockedDeletionBreaks(bundles, target);
    } else {
      FreeDeletionIsSafe(bundles, target);
    }
  }

  // ----- the command -----------------------------------------------------------------------

  /** Every root keeps its other bundles. */
  function RemovedFromRoots(roots: seq<Option<seq<Scanned>>>, identity: nat): (rest: seq<Option<seq<Scanned>>>)
    ensures |rest| == |roots|
    ensures forall i :: 0 <= i < |roots| ==> (rest[i].Some? <==> roots[i].Some?)
    ensures forall i :: 0 <= i < |roots| && roots[i].Some? ==>
              rest[i].Some? && rest[i].value == Removed(roots[i].value, identity)
  {
    if roots == [] then []
    else [if roots[0].None? then None else Some(Removed(roots[0].value, identity))]
         + RemovedFromRoots(roots[1..], identity)
  }

  lemma {:induction false} RemovedAppends(a: seq<Scanned>, b: seq<Scanned>, identity: nat)
    ensures Removed(a + b, identity) == Removed(a, identity) + Removed(b, identity)
  {
    if a == [] {
      assert a + b == b;
    } else {
      RemovedAppends(a[1..], b, identity);
      assert (a + b)[0] == a[0] && (a + b)[1..] == a[1..] + b;
      var first := if a[0].identity == identity then [] else [a[0]];
      assert first + (Removed(a[1..], identity) + Removed(b, identity))
          == (first + Removed(a[1..], identity)) + Removed(b, identity);
    }
  }

  /** Scanning after a removal finds the earlier scan without that bundle. */
  lemma {:induction false} ScanAfterRemoval(roots: seq<Option<seq<Scanned>>>, identity: nat)
    ensures Scan(RemovedFromRoots(roots, identity)).Some? <==> Scan(roots).Some?
    ensures Scan(roots).Some? ==> Scan(RemovedFromRoots(roots, identity)).value == Removed(Scan(roots).value, identity)
  {
    if roots != [] {
      ScanAfterRemoval(roots[1..], identity);
      assert RemovedFromRoots(roots, identity)[1..] == RemovedFromRoots(roots[1..], identity);
      if roots[0].Some? && Scan(roots[1..]).Some? {
        RemovedAppends(roots[0].value, Scan(roots[1..]).value, identity);
      }
    }
  }

  /**
   A requirement is met by the bundle's own newest library of that name and ABI, if it ships one,
   and otherwise by a listed Kit.
   */
  ghost predicate MetIn(roots: seq<Option<seq<Scanned>>>, owner: Manifest, requirement: Library) {
    && (forall own :: IsPrivate(owner, requirement.name, requirement.abi, Some(own)) ==>
          !Older(own.version, requirement.version))
    && (IsPrivate(owner, requirement.name, requirement.abi, None) ==>
          exists kit :: Lists(roots, kit) && kit.manifest.kind == Kit && Supplies(kit.manifest.offers, requirement))
  }

  ghost predicate AllMetIn(roots: seq<Option<seq<Scanned>>>) {
    forall b, r :: Lists(roots, b) && r in b.manifest.requirements ==> MetIn(roots, b.manifest, r)
  }

  lemma MetExactly(roots: seq<Option<seq<Scanned>>>, owner: Manifest, requirement: Library)
    requires Scan(roots).Some?
    ensures MetIn(roots, owner, requirement) <==> Met(Scan(roots).value, owner, requirement)
  {
    ScanFinds(roots);
    PrivateProviderIsNewest(owner, requirement.name, requirement.abi);
    match PrivateProvider(owner, requirement.name, requirement.abi) {
      case Some(newest) =>
        AtLeastIsNotOlder(newest.version, requirement.version);
        forall own | IsPrivate(owner, requirement.name, requirement.abi, Some(own))
          ensures Older(own.version, requirement.version) <==> Older(newest.version, requirement.version)
        {
          AtLeastIsNotOlder(own.version, newest.version);
          AtLeastIsNotOlder(newest.version, own.version);
        }
      case None =>
        if kit :| Lists(roots, kit) && kit.manifest.kind == Kit && Supplies(kit.manifest.offers, requirement) {
          assert kit in Scan(roots).value;
        }
        if kit :| kit in Scan(roots).value && kit.manifest.kind == Kit && Supplies(kit.manifest.offers, requirement) {
          assert Lists(roots, kit);
        }
    }
  }

  lemma AllMetExactly(roots: seq<Option<seq<Scanned>>>)
    requires Scan(roots).Some?
    ensures AllMetIn(roots) <==> AllMet(Scan(roots).value)
  {
    ScanFinds(roots);
    forall b: Scanned, r: Library
      ensures MetIn(roots, b.manifest, r) <==> Met(Scan(roots).value, b.manifest, r)
    {
      MetExactly(roots, b.manifest, r);
    }
  }

  /** Whatever is listed under this name is this bundle. */
  ghost predicate ReadsTheSame(roots: seq<Option<seq<Scanned>>>, b: Scanned) {
    forall a :: Lists(roots, a) && a.identity == b.identity ==> a == b
  }

  /** The bundle roots of one machine. */
  class Installation {
    var roots: seq<Option<seq<Scanned>>>

    constructor (roots: seq<Option<seq<Scanned>>>)
      ensures this.roots == roots
    {
      this.roots := roots;
    }

    /** Everything the roots list is met, and one bundle reads the same everywhere. */
    ghost predicate Sound(target: Scanned)
      reads this
    {
      && Readable(roots) && AllMetIn(roots)
      && forall b :: Lists(roots, b) ==> ReadsTheSame(roots, b) && (b.identity == target.identity ==> b == target)
    }

    /**
     delete: a Kit is refused when a root cannot be read or something listed needs it, and
     nothing else ever is.  Otherwise the bundle goes from every root, if its files go far enough
     for it to be no longer a valid bundle (`gone`).  Where all was met before, all stays met,
     and what is refused would have left something unmet.
     */
    method Delete(target: Scanned, gone: bool) returns (refused: bool)
      modifies this
      ensures refused <==>
              target.manifest.kind == Kit
              && (!Readable(old(roots)) || exists c, r :: NeededBy(old(roots), target, c, r))
      ensures roots == if !refused && gone then RemovedFromRoots(old(roots), target.identity) else old(roots)
      ensures old(Sound(target)) ==> Sound(target)
      ensures old(Sound(target)) ==> (refused <==> !AllMetIn(RemovedFromRoots(old(roots), target.identity)))
    {
      if Sound(target) {
        DeletionOutcome(roots, target);
        RemovedLists(roots, target.identity);
      }
      var answer := HasDependents(target, roots);
      refused := answer != Free;
      if !refused && gone {
        roots := RemovedFromRoots(roots, target.identity);
      }
    }
  }

  /** After a removal the roots can be read still and list everything else. */
  lemma RemovedLists(roots: seq<Option<seq<Scanned>>>, identity: nat)
    requires Readable(roots)
    ensures var rest := RemovedFromRoots(roots, identity);
            && Readable(rest)
            && (forall b :: Lists(rest, b) <==> Lists(roots, b) && b.identity != identity)
  {
    var rest := RemovedFromRoots(roots, identity);
    ScanFinds(roots);
    ScanFinds(rest);
    ScanAfterRemoval(roots, identity);
  }

  /** From sound roots: all that is left is met unless something listed needs the target. */
  lemma DeletionOutcome(roots: seq<Option<seq<Scanned>>>, target: Scanned)
    requires Readable(roots) && AllMetIn(roots)
    requires forall b :: Lists(roots, b) ==> ReadsTheSame(roots, b) && (b.identity == target.identity ==> b == target)
    ensures AllMetIn(RemovedFromRoots(roots, target.identity)) <==>
            !(target.manifest.kind == Kit && exists c, r :: NeededBy(roots, target, c, r))
  {
    var rest := RemovedFromRoots(roots, target.identity);
    ScanFinds(roots);
    ScanAfterRemoval(roots, target.identity);
    AllMetExactly(roots);
    AllMetExactly(rest);
    ListedConsistent(roots, target);
    RefusedExactlyWhenBreaking(Scan(roots).value, target);
    forall c, r ensures NeededBy(roots, target, c, r) <==> Depends(Scan(roots).value, target, c, r) {
      NeededExactly(roots, target, c, r);
    }
  }

  lemma ListedConsistent(roots: seq<Option<seq<Scanned>>>, target: Scanned)
    requires Scan(roots).Some?
    requires forall b :: Lists(roots, b) ==> ReadsTheSame(roots, b) && (b.identity == target.identity ==> b == target)
    ensures Consistent(Scan(roots).value + [target])
  {
    ScanFinds(roots);
    assert forall b :: b in Scan(roots).value + [target] ==> Lists(roots, b) || b == target;
  }

  /** The set left by deleting these bundles one after another, refusals skipped. */
  ghost function AfterDeletions(bundles: seq<Scanned>, targets: seq<Scanned>): seq<Scanned>
    decreases |targets|
  {
    if targets == [] then bundles
    else if Blocked(bundles, targets[0]) then AfterDeletions(bundles, targets[1..])
    else AfterDeletions(Removed(bundles, targets[0].identity), targets[1..])
  }

  /** However many deletions are asked for, nothing that remains ever loses a requirement. */
  lemma {:induction false} DeletionsStaySafe(bundles: seq<Scanned>, targets: seq<Scanned>)
    requires AllMet(bundles) && Consistent(bundles + targets)
    ensures AllMet(AfterDeletions(bundles, targets))
    ensures forall b :: b in bundles && (forall t :: t in targets ==> t.identity != b.identity) ==>
              b in AfterDeletions(bundles, targets)
    decreases |targets|
  {
    if targets != [] {
      var target := targets[0];
      var next := if Blocked(bundles, target) then bundles else Removed(bundles, target.identity);
      assert forall b :: b in bundles + [target] || b in next + targets[1..] ==> b in bundles + targets;
      assert Consistent(next + targets[1..]) && Consistent(bundles + [target]);
      if !Blocked(bundles, target) {
        assert Consistent(bundles);
        FreeDeletionIsSafe(bundles, target);
      }
      DeletionsStaySafe(next, targets[1..]);
    }
  }
}
