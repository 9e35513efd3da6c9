/**
 Guest files put in place and taken away by emu/qemu/dev-install-de25.py on a mounted volume:
 checked_destination with install_file, and remove_file with its pruning of parents.
 */
module GuestTree {
  import opened Paths
  import opened Prelude
  import opened ReleaseManifest

  type Nodes = map<string, Node>

  /** Nothing lies below this directory but the target and what leads to it. */
  ghost predicate Lonely(nodes: Nodes, a: string, target: string) {
    forall n :: n in nodes && a in Above(n) ==> n == target || n in Above(target)
  }

  /** The directories remove_file takes away with its target: the first level always stays. */
  ghost function Emptied(nodes: Nodes, target: string): set<string> {
    set a | a in Above(target) && Parent(a) != "" && Lonely(nodes, a, target)
  }

  /** A path with no step down from a directory does not pass through it. */
  lemma {:induction false} NoStepFrom(n: string, a: string)
    requires forall c :: c in Chain(n) ==> Parent(c) != a
    ensures a !in Above(n)
    decreases |n|
  {
    if n != "" && Parent(n) != "" {
      NoStepFrom(Parent(n), a);
    }
  }

  /** A directory no remaining entry lies directly in holds nothing at all. */
  lemma NoChildNothingBelow(nodes: Nodes, a: string)
    requires Closed(nodes) && forall n :: n in nodes ==> Parent(n) != a
    ensures forall n :: n in nodes ==> a !in Above(n)
  {
    forall n | n in nodes ensures a !in Above(n) {
      assert Rooted(nodes, n);
      forall c | c in Chain(n) ensures c in nodes {
        assert c == n || c in Above(n);
      }
      NoStepFrom(n, a);
    }
  }

  /** Taking away a file, or a directory nothing lies in, leaves a tree. */
  lemma StillClosed(nodes: Nodes, a: string)
    requires Closed(nodes) && forall n :: n in nodes ==> a !in Above(n)
    ensures Closed(nodes - {a})
  {
    var less := nodes - {a};
    forall n | n in less ensures Rooted(less, n) {
      assert Rooted(nodes, n);
    }
  }

  lemma FileIsLeaf(nodes: Nodes, target: string)
    requires Closed(nodes) && target in nodes && nodes[target].File?
    ensures forall n :: n in nodes ==> target !in Above(n)
  {
    forall n | n in nodes ensures target !in Above(n) {
      assert Rooted(nodes, n);
    }
  }

  class Volume {
    const digest: Digest
    var nodes: Nodes

    constructor (digest: Digest, nodes: Nodes)
      ensures this.digest == digest && this.nodes == nodes
    {
      this.digest, this.nodes := digest, nodes;
    }

    /**
     remove_file: the target goes, and with it exactly those directories above it, short of the
     first level, in which nothing else is left.
     */
    method RemoveFile(target: string, expected: string) returns (ok: bool)
      requires Closed(nodes)
      modifies `nodes
      ensures Closed(nodes)
      ensures ok <==> Parent(target) != "" && target in old(nodes) && old(nodes)[target].File?
                      && digest(old(nodes)[target].content) == expected
      ensures nodes == if ok then old(nodes) - {target} - Emptied(old(nodes), target) else old(nodes)
    {
      if Parent(target) == "" || target !in nodes || !nodes[target].File? || digest(nodes[target].content) != expected {
        return false;
      }
      FileIsLeaf(nodes, target);
      StillClosed(nodes, target);
      nodes := nodes - {target};
      var parent := Parent(target);
      ghost var gone: set<string> := {};
      while Parent(parent) != ""
        invariant Pruned(old(nodes), nodes, target, parent, gone)
        decreases |parent|
      {
        if exists n :: n in nodes && Parent(n) == parent {
          NothingElseEmptied(old(nodes), nodes, target, parent, gone);
          return true;
        }
        PruneOne(old(nodes), nodes, target, parent, gone);
        nodes := nodes - {parent};
        gone := gone + {parent};
        parent := Parent(parent);
      }
      FirstLevelStays(old(nodes), nodes, target, parent, gone);
      return true;
    }
  }

  /** The directories gone so far, and the one looked at next. */
  ghost predicate Pruned(before: Nodes, nodes: Nodes, target: string, parent: string, gone: set<string>) {
    && Closed(nodes) && nodes == before - {target} - gone
    && parent != "" && Above(target) == gone + Chain(parent)
    && (forall a :: a in gone ==> Parent(a) != "" && Lonely(before, a, target))
  }

  lemma PruneOne(before: Nodes, nodes: Nodes, target: string, parent: string, gone: set<string>)
    requires Pruned(before, nodes, target, parent, gone) && Parent(parent) != ""
    requires forall n :: n in nodes ==> Parent(n) != parent
    ensures Pruned(before, nodes - {parent}, target, Parent(parent), gone + {parent})
  {
    NoChildNothingBelow(nodes, parent);
    StillClosed(nodes, parent);
    assert nodes - {parent} == before - {target} - (gone + {parent});
    assert Above(target) == (gone + {parent}) + Chain(Parent(parent));
    forall n | n in before && parent in Above(n) ensures n == target || n in Above(target) {
      assert n !in nodes;
    }
  }

  lemma FirstLevelStays(before: Nodes, nodes: Nodes, target: string, parent: string, gone: set<string>)
    requires Pruned(before, nodes, target, parent, gone) && Parent(parent) == ""
    ensures gone == Emptied(before, target)
  {
    assert Chain(parent) == {parent} + Chain("");
  }

  /** Where pruning stops, the directory and all above it still hold something else. */
  lemma NothingElseEmptied(before: Nodes, nodes: Nodes, target: string, parent: string, gone: set<string>)
    requires Pruned(before, nodes, target, parent, gone)
    requires exists n :: n in nodes && Parent(n) == parent
    ensures gone == Emptied(before, target)
  {
    var n :| n in nodes && Parent(n) == parent;
    forall a | a in Chain(parent) ensures !Lonely(before, a, target) {
      assert a in Above(n);
      if n in Chain(parent) {
        ChainShorter(parent, n);
      }
      assert n !in Above(target);
    }
  }

  // ----- putting a file in place -----------------------------------------------------------

  /** checked_destination and install_file, for an artifact that is the one expected. */
  function Installed(nodes: Nodes, target: string, file: Node): Option<Nodes> {
    var made := MakeDirectories(nodes, Parent(target));
    if made.None? || (target in made.value && !made.value[target].File?) then None
    else Some(made.value[target := file])
  }

  /**
   It can be put there exactly when every path above it that is taken is a directory and nothing
   but a file stands in its place; the directories that were missing are made, and nothing else
   changes.
   */
  lemma InstalledExactly(nodes: Nodes, target: string, file: Node)
    requires Closed(nodes) && target != ""
    ensures var installed := Installed(nodes, target, file);
            && (installed.Some? <==>
                  (forall a :: a in Above(target) && a in nodes ==> nodes[a].Directory?)
                  && (target in nodes ==> nodes[target].File?))
            && (installed.Some? ==>
                  && installed.value.Keys == nodes.Keys + Above(target) + {target}
                  && installed.value[target] == file
                  && forall n :: n in installed.value && n != target ==>
                       installed.value[n] == if n in nodes then nodes[n] else Directory(true))
  {
    DirectoriesMade(nodes, Parent(target));
    if target in Chain(Parent(target)) {
      ChainIsDownward(Parent(target), target);
    }
  }

  /** Something other than what leads to the target lies below the directory. */
  ghost predicate Occupied(nodes: Nodes, a: string, target: string) {
    exists n :: n in nodes && a in Above(n) && n !in Above(target)
  }

  /** The first directory was there before, and every deeper one that was there held something else. */
  ghost predicate Undoable(nodes: Nodes, target: string) {
    && (forall a :: a in Above(target) && Parent(a) == "" ==> a in nodes)
    && (forall a :: a in Above(target) && a in nodes && Parent(a) != "" ==> Occupied(nodes, a, target))
  }

  /** A file put in place and taken away again leaves the tree as it was exactly then. */
  lemma InstallThenRemove(nodes: Nodes, target: string, file: Node)
    requires Closed(nodes) && Parent(target) != "" && target !in nodes && file.File?
    requires Installed(nodes, target, file).Some?
    ensures var installed := Installed(nodes, target, file).value;
            installed - {target} - Emptied(installed, target) == nodes <==> Undoable(nodes, target)
  {
    DirectoriesMade(nodes, Parent(target));
    var installed := Installed(nodes, target, file).value;
    assert installed.Keys == nodes.Keys + Above(target) + {target};
    forall a, n | a in Above(target) && a !in nodes && n in nodes ensures a !in Above(n) {
      assert Rooted(nodes, n);
    }
    RemovedAgain(nodes, installed, target);
  }

  lemma RemovedAgain(nodes: Nodes, installed: Nodes, target: string)
    requires installed.Keys == nodes.Keys + Above(target) + {target} && target !in nodes
    requires forall n :: n in nodes ==> installed[n] == nodes[n]
    requires forall a :: a in Above(target) && a !in nodes ==> !Occupied(nodes, a, target)
    ensures installed - {target} - Emptied(installed, target) == nodes <==> Undoable(nodes, target)
  {
    var back, emptied := installed - {target} - Emptied(installed, target), Emptied(installed, target);
    forall a | a in Above(target) ensures a in emptied <==> Parent(a) != "" && !Occupied(nodes, a, target) {
      LonelyWhenUnoccupied(nodes, installed, a, target);
    }
    assert back.Keys == nodes.Keys + Above(target) - emptied - {target};
    if back == nodes {
      assert back.Keys == nodes.Keys;
      assert Undoable(nodes, target);
    }
    if Undoable(nodes, target) {
      assert back.Keys == nodes.Keys;
      assert back == nodes;
    }
  }

  lemma LonelyWhenUnoccupied(nodes: Nodes, installed: Nodes, a: string, target: string)
    requires installed.Keys == nodes.Keys + Above(target) + {target} && target !in nodes
    ensures Lonely(installed, a, target) <==> !Occupied(nodes, a, target)
  {
  }
}
