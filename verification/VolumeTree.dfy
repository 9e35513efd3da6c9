/**
 The changes emu/qemu/astra_image.py makes to a volume, one debugfs request at a time: what each
 does to the tree, when it is refused, and what a list of them does to any one path.

 A request that cannot be carried out is refused, and a refusal ends the list.
 */
module VolumeTree {
  import opened Prelude

  /** A path from the volume's root, component by component. */
  type Path = seq<string>

  function Parent(path: Path): Path {
    if path == [] then [] else path[..|path| - 1]
  }

  /** An inode with its metadata; whatever the publisher writes gets that of a new inode. */
  datatype Node = File(content: string, meta: nat) | Directory(meta: nat) | Other(meta: nat)

  const NEW: nat := 0

  /** Everything on the volume, by path from its root. */
  type Nodes = map<Path, Node>

  datatype Action =
    | MakeDir(path: Path)                   // _mkdir
    | Clear(path: Path)                     // _clear_directory
    | Replace(path: Path, content: string)  // rm, if it is there, and write
    | Add(path: Path, content: string)      // write
    | Default(path: Path, content: string)  // a configuration default
    | Offer(path: Path, content: string)    // a home default
    | Refuse(path: Path)                    // a symbolic link among the products

  /** A path debugfs can be given: requests are lines, and a slash separates components. */
  predicate Safe(path: Path) {
    forall i :: 0 <= i < |path| ==> SafeName(path[i])
  }

  predicate SafeName(name: string) {
    '/' !in name && '\n' !in name && '\r' !in name && '\0' !in name
  }

  predicate Placeable(nodes: Nodes, path: Path) {
    Safe(path) && (Parent(path) == [] || (Parent(path) in nodes && nodes[Parent(path)].Directory?))
  }

  ghost predicate Acceptable(action: Action, nodes: Nodes) {
    var p := action.path;
    match action
    case MakeDir(_) => if p in nodes then nodes[p].Directory? else Placeable(nodes, p)
    case Clear(_) => p in nodes && nodes[p].Directory? && forall n :: n in nodes && p < n ==> Safe(n)
    case Replace(_, _) => (p in nodes ==> !nodes[p].Directory?) && Placeable(nodes, p)
    case Add(_, _) => p !in nodes && Placeable(nodes, p)
    case Default(_, _) => if p in nodes then nodes[p].File? else Placeable(nodes, p)
    case Offer(_, _) => p in nodes || Placeable(nodes, p)
    case Refuse(_) => false
  }

  function Without(nodes: Nodes, path: Path): Nodes {
    map n | n in nodes && !(path < n) :: nodes[n]
  }

  function Apply(action: Action, nodes: Nodes): Nodes {
    var p := action.path;
    match action
    case MakeDir(_) => if p in nodes then nodes else nodes[p := Directory(NEW)]
    case Clear(_) => Without(nodes, p)
    case Replace(_, content) => nodes[p := File(content, NEW)]
    case Add(_, content) => nodes[p := File(content, NEW)]
    case Default(_, content) => if p in nodes then nodes else nodes[p := File(content, NEW)]
    case Offer(_, content) => if p in nodes then nodes else nodes[p := File(content, NEW)]
    case Refuse(_) => nodes
  }

  ghost function Run(actions: seq<Action>, nodes: Nodes): Option<Nodes> {
    if actions == [] then Some(nodes)
    else if Acceptable(actions[0], nodes) then Run(actions[1..], Apply(actions[0], nodes))
    else None
  }

  lemma {:induction false} RunAppend(a: seq<Action>, b: seq<Action>, nodes: Nodes)
    ensures Run(a + b, nodes) == if Run(a, nodes).Some? then Run(b, Run(a, nodes).value) else None
  {
    if a == [] {
      assert a + b == b;
    } else {
      assert (a + b)[1..] == a[1..] + b;
      if Acceptable(a[0], nodes) {
        RunAppend(a[1..], b, Apply(a[0], nodes));
      }
    }
  }

  lemma RunOne(a: seq<Action>, action: Action, nodes: Nodes)
    requires Run(a, nodes).Some?
    ensures Run(a + [action], nodes) ==
            if Acceptable(action, Run(a, nodes).value) then Some(Apply(action, Run(a, nodes).value)) else None
  {
    RunAppend(a, [action], nodes);
    var s := Run(a, nodes).value;
    assert [action][1..] == [];
    assert Run([action], s) == if Acceptable(action, s) then Run([], Apply(action, s)) else None;
  }

  // ----- one path at a time ----------------------------------------------------------------

  function Get(nodes: Nodes, n: Path): Option<Node> {
    if n in nodes then Some(nodes[n]) else None
  }

  predicate Writes(action: Action) {
    action.Replace? || action.Add?
  }

  predicate Creates(action: Action) {
    !action.Clear? && !action.Refuse?
  }

  /** What one change leaves at a path, given what was there. */
  function Step(action: Action, n: Path, was: Option<Node>): Option<Node> {
    match action
    case Clear(p) => if p < n then None else was
    case MakeDir(p) => if p == n && was.None? then Some(Directory(NEW)) else was
    case Replace(p, content) => if p == n then Some(File(content, NEW)) else was
    case Add(p, content) => if p == n then Some(File(content, NEW)) else was
    case Default(p, content) => if p == n && was.None? then Some(File(content, NEW)) else was
    case Offer(p, content) => if p == n && was.None? then Some(File(content, NEW)) else was
    case Refuse(_) => was
  }

  function Effect(actions: seq<Action>, n: Path, was: Option<Node>): Option<Node> {
    if actions == [] then was else Effect(actions[1..], n, Step(actions[0], n, was))
  }

  /** A list of changes, if none is refused, acts on every path by itself. */
  lemma {:induction false} RunIsPointwise(actions: seq<Action>, nodes: Nodes, n: Path)
    requires Run(actions, nodes).Some?
    ensures Get(Run(actions, nodes).value, n) == Effect(actions, n, Get(nodes, n))
  {
    if actions != [] {
      var next := Apply(actions[0], nodes);
      assert Get(next, n) == Step(actions[0], n, Get(nodes, n));
      RunIsPointwise(actions[1..], next, n);
    }
  }

  /** No component of the path has a slash, a line break or a NUL. */
  ghost predicate PlainText(path: Path) {
    forall i, k :: 0 <= i < |path| && 0 <= k < |path[i]| ==> path[i][k] !in ['/', '\n', '\r', '\0']
  }

  lemma PlainIsSafe(path: Path)
    ensures PlainText(path) <==> Safe(path)
  {
    if PlainText(path) {
      forall i | 0 <= i < |path| ensures SafeName(path[i]) {
        assert forall k :: 0 <= k < |path[i]| ==> path[i][k] !in ['/', '\n', '\r', '\0'];
      }
    }
    if Safe(path) {
      forall i, k | 0 <= i < |path| && 0 <= k < |path[i]| ensures path[i][k] !in ['/', '\n', '\r', '\0'] {
        assert SafeName(path[i]) && path[i][k] in path[i];
      }
    }
  }

  /** What the changes before number `i` leave at a path. */
  function Then(actions: seq<Action>, nodes: Nodes, i: nat, n: Path): Option<Node>
    requires i <= |actions|
  {
    Effect(actions[..i], n, Get(nodes, n))
  }

  /** The directory above a path is there. */
  ghost predicate HasPlace(actions: seq<Action>, nodes: Nodes, i: nat, path: Path)
    requires i <= |actions|
  {
    PlainText(path) &&
    (|path| > 1 ==> var above := Then(actions, nodes, i, path[..|path| - 1]); above.Some? && above.value.Directory?)
  }

  /**
   Change `i` can be made: a directory where one is or nothing is, a file where no directory is, a
   clearing of a directory in which no name is unsafe, a default of the configuration where
   nothing or a file is.
   */
  ghost predicate Fits(actions: seq<Action>, nodes: Nodes, i: nat)
    requires i < |actions|
  {
    var path := actions[i].path;
    var there := Then(actions, nodes, i, path);
    match actions[i]
    case MakeDir(_) => if there.Some? then there.value.Directory? else HasPlace(actions, nodes, i, path)
    case Clear(_) =>
      there.Some? && there.value.Directory?
      && forall n :: Then(actions, nodes, i, n).Some? && path < n ==> PlainText(n)
    case Replace(_, _) => (there.Some? ==> !there.value.Directory?) && HasPlace(actions, nodes, i, path)
    case Add(_, _) => there.None? && HasPlace(actions, nodes, i, path)
    case Default(_, _) => if there.Some? then there.value.File? else HasPlace(actions, nodes, i, path)
    case Offer(_, _) => there.Some? || HasPlace(actions, nodes, i, path)
    case Refuse(_) => false
  }

  /** A list is accepted exactly when each change fits what those before it leave, path by path. */
  lemma {:induction false} AcceptedExactly(actions: seq<Action>, nodes: Nodes)
    requires forall i :: 0 <= i < |actions| ==> actions[i].path != []
    ensures Run(actions, nodes).Some? <==> forall i :: 0 <= i < |actions| ==> Fits(actions, nodes, i)
  {
    if actions != [] {
      var less, last := actions[..|actions| - 1], actions[|actions| - 1];
      assert actions == less + [last];
      AcceptedExactly(less, nodes);
      forall i | 0 <= i < |less| ensures Fits(actions, nodes, i) <==> Fits(less, nodes, i) {
        SameBefore(actions, nodes, i);
      }
      if Run(less, nodes).Some? {
        LastFits(actions, nodes);
        RunOne(less, last, nodes);
      } else {
        RunAppend(less, [last], nodes);
      }
    }
  }

  lemma SameBefore(actions: seq<Action>, nodes: Nodes, i: nat)
    requires i + 1 < |actions|
    ensures Fits(actions, nodes, i) <==> Fits(actions[..|actions| - 1], nodes, i)
  {
    var less := actions[..|actions| - 1];
    assert less[..i] == actions[..i];
    forall n ensures Then(actions, nodes, i, n) == Then(less, nodes, i, n) {
    }
  }

  lemma LastFits(actions: seq<Action>, nodes: Nodes)
    requires actions != [] && actions[|actions| - 1].path != [] && Run(actions[..|actions| - 1], nodes).Some?
    ensures var last := |actions| - 1;
            Fits(actions, nodes, last) <==> Acceptable(actions[last], Run(actions[..last], nodes).value)
  {
    var last := |actions| - 1;
    var done := Run(actions[..last], nodes).value;
    var path := actions[last].path;
    forall n: Path ensures Then(actions, nodes, last, n) == Get(done, n) && (PlainText(n) <==> Safe(n)) {
      RunIsPointwise(actions[..last], nodes, n);
      PlainIsSafe(n);
    }
    assert HasPlace(actions, nodes, last, path) <==> Placeable(done, path);
  }

  lemma {:induction false} EffectAppend(a: seq<Action>, b: seq<Action>, n: Path, was: Option<Node>)
    ensures Effect(a + b, n, was) == Effect(b, n, Effect(a, n, was))
  {
    if a == [] {
      assert a + b == b;
    } else {
      assert (a + b)[1..] == a[1..] + b;
      EffectAppend(a[1..], b, n, Step(a[0], n, was));
    }
  }

  /** This change decides what is at the path, whatever was there. */
  predicate Decides(action: Action, n: Path) {
    (action.Clear? && action.path < n) || (Writes(action) && action.path == n)
  }

  ghost predicate Decided(actions: seq<Action>, n: Path) {
    exists i :: 0 <= i < |actions| && Decides(actions[i], n)
  }

  lemma {:induction false} DecidedIsConstant(actions: seq<Action>, n: Path, v: Option<Node>, w: Option<Node>)
    requires Decided(actions, n)
    ensures Effect(actions, n, v) == Effect(actions, n, w)
  {
    var i :| 0 <= i < |actions| && Decides(actions[i], n);
    if !Decides(actions[0], n) {
      assert actions[1..][i - 1] == actions[i];
      DecidedIsConstant(actions[1..], n, Step(actions[0], n, v), Step(actions[0], n, w));
    }
  }

  lemma {:induction false} UndecidedIsKept(actions: seq<Action>, n: Path, v: Option<Node>)
    requires !Decided(actions, n) && v.Some?
    ensures Effect(actions, n, v) == v
  {
    if actions != [] {
      assert !Decides(actions[0], n);
      assert forall i :: 0 <= i < |actions[1..]| ==> actions[1..][i] == actions[i + 1];
      UndecidedIsKept(actions[1..], n, v);
    }
  }

  /** A path no change is aimed at stays as it was, unless a directory above it is cleared. */
  lemma {:induction false} UnaimedIsKept(actions: seq<Action>, n: Path, v: Option<Node>)
    requires !Decided(actions, n)
    requires forall i :: 0 <= i < |actions| ==> !(Creates(actions[i]) && actions[i].path == n)
    ensures Effect(actions, n, v) == v
  {
    if actions != [] {
      assert !Decides(actions[0], n);
      assert forall i :: 0 <= i < |actions[1..]| ==> actions[1..][i] == actions[i + 1];
      UnaimedIsKept(actions[1..], n, v);
    }
  }

  /** Acting on a path a second time changes nothing. */
  lemma EffectTwice(actions: seq<Action>, n: Path, v: Option<Node>)
    ensures Effect(actions, n, Effect(actions, n, v)) == Effect(actions, n, v)
  {
    var w := Effect(actions, n, v);
    if Decided(actions, n) {
      DecidedIsConstant(actions, n, v, w);
    } else if w.Some? {
      UndecidedIsKept(actions, n, w);
    } else if v.Some? {
      UndecidedIsKept(actions, n, v);
    }
  }

  // ----- the whole list a second time ------------------------------------------------------

  ghost predicate Spares(actions: seq<Action>, n: Path) {
    forall i :: 0 <= i < |actions| && actions[i].Clear? ==> !(actions[i].path < n)
  }

  /** What earlier changes were aimed at is not cleared by later ones. */
  ghost predicate Ordered(actions: seq<Action>) {
    forall i :: 0 <= i < |actions| ==> Spares(actions[i + 1..], actions[i].path)
  }

  /** A file is added only where an earlier change has decided that nothing is left. */
  ghost predicate AddsCleared(actions: seq<Action>) {
    forall i :: 0 <= i < |actions| && actions[i].Add? ==> Decided(actions[..i], actions[i].path)
  }

  ghost predicate Tidy(actions: seq<Action>) {
    Ordered(actions) && AddsCleared(actions) && forall i :: 0 <= i < |actions| ==> actions[i].path != []
  }

  lemma SparesRest(actions: seq<Action>, n: Path)
    requires actions != [] && Spares(actions, n)
    ensures Spares(actions[1..], n) && (actions[0].Clear? ==> !(actions[0].path < n))
  {
    assert forall i :: 0 <= i < |actions[1..]| ==> actions[1..][i] == actions[i + 1];
  }

  /** What no later change clears stays: a directory as it is, a file as a file. */
  lemma {:induction false} Stays(actions: seq<Action>, s: Nodes, t: Nodes, n: Path)
    requires Run(actions, s) == Some(t) && n in s && Spares(actions, n)
    ensures n in t
    ensures s[n].Directory? ==> t[n] == s[n]
    ensures s[n].File? ==> t[n].File?
  {
    if actions != [] {
      SparesRest(actions, n);
      Stays(actions[1..], Apply(actions[0], s), t, n);
    }
  }

  lemma {:induction false} CreatedIsSafe(actions: seq<Action>, s: Nodes, t: Nodes, n: Path)
    requires Run(actions, s) == Some(t) && n !in s && n in t
    ensures Safe(n)
  {
    if actions != [] {
      var next := Apply(actions[0], s);
      if n !in next {
        CreatedIsSafe(actions[1..], next, t, n);
      }
    }
  }

  /** What appears at an empty path was put there by a change aimed at it. */
  lemma {:induction false} AppearsByAim(actions: seq<Action>, n: Path)
    requires Effect(actions, n, None).Some?
    ensures exists i :: 0 <= i < |actions| && Creates(actions[i]) && actions[i].path == n
  {
    if Step(actions[0], n, None).None? {
      AppearsByAim(actions[1..], n);
      var i :| 0 <= i < |actions[1..]| && Creates(actions[1..][i]) && actions[1..][i].path == n;
      assert actions[i + 1] == actions[1..][i];
    } else {
      assert Creates(actions[0]) && actions[0].path == n;
    }
  }

  /** The state before one change, in the first run and in the second. */
  ghost predicate Meets(done: seq<Action>, rest: seq<Action>, s: Nodes, t: Nodes, first: Nodes, second: Nodes) {
    && Run(done, s) == Some(first) && Run(rest, first) == Some(t) && Run(done, t) == Some(second)
  }

  /** At each path the second run meets what the first did, or else what the first left at its end. */
  lemma SecondMeets(done: seq<Action>, rest: seq<Action>, s: Nodes, t: Nodes, first: Nodes, second: Nodes, n: Path)
    requires Meets(done, rest, s, t, first, second)
    ensures Get(second, n) == Get(first, n) || (!Decided(done, n) && (n in t ==> Get(second, n) == Get(t, n)))
    ensures Decided(done, n) ==> Get(second, n) == Get(first, n)
    ensures !Decided(done, n) && n !in t ==> Get(second, n) == Effect(done, n, None)
  {
    RunIsPointwise(done, s, n);
    RunIsPointwise(done, t, n);
    if Decided(done, n) {
      DecidedIsConstant(done, n, Get(s, n), Get(t, n));
    } else if n in t {
      UndecidedIsKept(done, n, Get(t, n));
    }
  }

  lemma ParentSpared(actions: seq<Action>, n: Path)
    requires Spares(actions, n) && n != []
    ensures Parent(n) != [] ==> Spares(actions, Parent(n))
  {
  }

  lemma PlaceableAgain(done: seq<Action>, rest: seq<Action>, s: Nodes, t: Nodes, first: Nodes, second: Nodes, p: Path)
    requires Meets(done, rest, s, t, first, second)
    requires Placeable(first, p) && Spares(rest, p) && p != []
    ensures Placeable(second, p)
  {
    var d := Parent(p);
    if d != [] {
      ParentSpared(rest, p);
      Stays(rest, first, t, d);
      SecondMeets(done, rest, s, t, first, second, d);
    }
  }

  /** A change accepted the first time is accepted the second time. */
  lemma AcceptedAgain(done: seq<Action>, action: Action, rest: seq<Action>, s: Nodes, t: Nodes, first: Nodes,
                      second: Nodes)
    requires Meets(done, [action] + rest, s, t, first, second) && action.path != []
    requires Spares(rest, action.path) && (action.Add? ==> Decided(done, action.path))
    requires action.Clear? ==> forall i :: 0 <= i < |done| ==> !(action.path < done[i].path)
    ensures Acceptable(action, second)
  {
    var p, all := action.path, [action] + rest;
    assert all[1..] == rest;
    var next := Apply(action, first);
    assert Spares(all, p) by {
      assert forall i :: 1 <= i < |all| ==> all[i] == rest[i - 1];
    }
    SecondMeets(done, all, s, t, first, second, p);
    if !action.Clear? {
      if Placeable(first, p) {
        PlaceableAgain(done, all, s, t, first, second, p);
      }
      Stays(rest, next, t, p);
    } else {
      Stays(all, first, t, p);
      forall n | n in second && p < n ensures Safe(n) {
        SecondMeets(done, all, s, t, first, second, n);
        if n !in first {
          if n in t {
            CreatedIsSafe(all, first, t, n);
          } else {
            AppearsByAim(done, n);
          }
        }
      }
    }
  }

  /** Installing again on what was installed changes nothing. */
  lemma RunTwice(actions: seq<Action>, s: Nodes, t: Nodes)
    requires Tidy(actions) && Run(actions, s) == Some(t)
    ensures Run(actions, t) == Some(t)
  {
    assert actions[..|actions|] == actions;
    RunsAgain(actions, s, t, |actions|);
    var u := Run(actions, t).value;
    forall n ensures Get(u, n) == Get(t, n) {
      RunIsPointwise(actions, s, n);
      RunIsPointwise(actions, t, n);
      EffectTwice(actions, n, Get(s, n));
    }
    SameGets(u, t);
  }

  lemma SameGets(u: Nodes, t: Nodes)
    requires forall n :: Get(u, n) == Get(t, n)
    ensures u == t
  {
    forall n ensures n in u <==> n in t {
      assert Get(u, n) == Get(t, n);
    }
    forall n | n in u ensures u[n] == t[n] {
      assert Get(u, n) == Get(t, n);
    }
    assert u.Keys == t.Keys;
  }

  /** A directory is cleared before anything below it is touched. */
  lemma ClearedBefore(actions: seq<Action>, k: nat)
    requires Ordered(actions) && k < |actions| && actions[k].Clear?
    ensures forall i :: 0 <= i < k ==> !(actions[k].path < actions[i].path)
  {
    forall i | 0 <= i < k ensures !(actions[k].path < actions[i].path) {
      assert Spares(actions[i + 1..], actions[i].path);
      assert actions[i + 1..][k - 1 - i] == actions[k];
    }
  }

  lemma MeetsAt(actions: seq<Action>, s: Nodes, t: Nodes, k: nat)
    requires Run(actions, s) == Some(t) && k < |actions| && Run(actions[..k], t).Some?
    ensures Run(actions[..k], s).Some?
    ensures Meets(actions[..k], [actions[k]] + actions[k + 1..], s, t, Run(actions[..k], s).value,
                  Run(actions[..k], t).value)
  {
    assert actions == actions[..k] + ([actions[k]] + actions[k + 1..]);
    RunAppend(actions[..k], [actions[k]] + actions[k + 1..], s);
  }

  lemma {:induction false} RunsAgain(actions: seq<Action>, s: Nodes, t: Nodes, k: nat)
    requires Tidy(actions) && Run(actions, s) == Some(t) && k <= |actions|
    ensures Run(actions[..k], t).Some?
  {
    if k > 0 {
      var i := k - 1;
      var done, action := actions[..i], actions[i];
      RunsAgain(actions, s, t, i);
      MeetsAt(actions, s, t, i);
      if action.Clear? {
        ClearedBefore(actions, i);
      }
      assert Spares(actions[i + 1..], action.path);
      AcceptedAgain(done, action, actions[i + 1..], s, t, Run(done, s).value, Run(done, t).value);
      RunOne(done, action, t);
      assert actions[..k] == done + [action];
    }
  }
}
