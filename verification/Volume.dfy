/** The requests of emu/qemu/astra_image.py on a mounted copy of the volume, and its recursive clearing. */
module Volume {
  import opened Prelude
  import opened VolumeTree

  /** Everything above an entry is a directory of the volume. */
  ghost predicate Founded(nodes: Nodes, n: Path) {
    forall a :: a != [] && a < n ==> a in nodes && nodes[a].Directory?
  }

  ghost predicate Grounded(nodes: Nodes) {
    forall n {:trigger Founded(nodes, n)} :: n in nodes ==> n != [] && Founded(nodes, n)
  }

  lemma PlacedGrounded(nodes: Nodes, path: Path, node: Node)
    requires Grounded(nodes) && path != [] && Placeable(nodes, path) && (path in nodes ==> !nodes[path].Directory?)
    ensures Grounded(nodes[path := node])
  {
    var more := nodes[path := node];
    forall n | n in more ensures n != [] && Founded(more, n) {
      if n == path {
        var d := Parent(path);
        assert d != [] ==> Founded(nodes, d);
        forall a | a != [] && a < path ensures a in more && more[a].Directory? {
          assert a == d || a < d;
        }
      } else {
        assert Founded(nodes, n);
      }
    }
  }

  /** Taking away a whole subtree leaves a tree. */
  lemma PrunedGrounded(nodes: Nodes, less: Nodes)
    requires Grounded(nodes) && less.Keys <= nodes.Keys && forall n :: n in less ==> less[n] == nodes[n]
    requires forall n, a :: n in less && a != [] && a < n ==> a in less
    ensures Grounded(less)
  {
    forall n | n in less ensures n != [] && Founded(less, n) {
      assert Founded(nodes, n);
    }
  }

  // ----- the branches of a directory -------------------------------------------------------

  /** The entry of a directory through which a path below it goes. */
  function Branch(n: Path, path: Path): (c: Path)
    requires path < n
  {
    n[..|path| + 1]
  }

  lemma BranchIsEntry(n: Path, path: Path)
    requires path < n
    ensures Branch(n, path) != [] && Parent(Branch(n, path)) == path && Branch(n, path) <= n
  {
  }

  lemma BranchIsUnique(n: Path, path: Path, c: Path)
    requires path < n && c != [] && Parent(c) == path && c <= n
    ensures Branch(n, path) == c
  {
  }

  /** What is left while a directory is being cleared: all but the branches already gone. */
  function Remaining(nodes: Nodes, path: Path, todo: set<Path>): Nodes
    requires path != []
  {
    map n | n in nodes && (path < n ==> Branch(n, path) in todo) :: nodes[n]
  }

  function Entries(nodes: Nodes, path: Path): set<Path> {
    set n | n in nodes && n != [] && Parent(n) == path
  }

  function Beneath(nodes: Nodes, path: Path): set<Path> {
    set n | n in nodes && path < n
  }

  lemma AllRemaining(nodes: Nodes, path: Path)
    requires Grounded(nodes) && path != []
    ensures Remaining(nodes, path, Entries(nodes, path)) == nodes
  {
    forall n | n in nodes && path < n ensures Branch(n, path) in Entries(nodes, path) {
      BranchIsEntry(n, path);
      assert Founded(nodes, n);
      assert Branch(n, path) == n || Branch(n, path) < n;
    }
  }

  lemma NoneRemaining(nodes: Nodes, path: Path)
    requires path != []
    ensures Remaining(nodes, path, {}) == Without(nodes, path)
  {
  }

  /** One branch goes: the entry and everything below it. */
  lemma BranchGone(nodes: Nodes, path: Path, todo: set<Path>, c: Path)
    requires path != [] && c != [] && Parent(c) == path && c in todo
    ensures Without(Remaining(nodes, path, todo), c) - {c} == Remaining(nodes, path, todo - {c})
  {
    var less, more := Without(Remaining(nodes, path, todo), c) - {c}, Remaining(nodes, path, todo - {c});
    forall n | n in nodes ensures n in less <==> n in more {
      if path < n {
        BranchIsEntry(n, path);
        if n == c || c < n {
          BranchIsUnique(n, path, c);
        }
      } else if n == c || c < n {
        ThroughEntry(n, path, c);
      }
    }
    assert less.Keys == more.Keys;
  }

  lemma ThroughEntry(n: Path, path: Path, c: Path)
    requires path != [] && c != [] && Parent(c) == path && (n == c || c < n)
    ensures path < n
  {
  }

  /** What remains is a tree, and holds the branches still to go unchanged. */
  lemma RemainingGrounded(nodes: Nodes, path: Path, todo: set<Path>)
    requires Grounded(nodes) && path != []
    ensures Grounded(Remaining(nodes, path, todo))
  {
    var less := Remaining(nodes, path, todo);
    forall n, a | n in less && a != [] && a < n ensures a in less {
      assert Founded(nodes, n);
      if path < a {
        assert Branch(a, path) == Branch(n, path);
      }
    }
    PrunedGrounded(nodes, less);
  }

  /** Nothing lies below what is no directory. */
  lemma LeafGone(nodes: Nodes, path: Path)
    requires Grounded(nodes) && path in nodes && !nodes[path].Directory?
    ensures Grounded(nodes - {path}) && Beneath(nodes, path) == {} && Without(nodes, path) == nodes
  {
    assert Founded(nodes, path);
    forall n | n in nodes ensures !(path < n) {
      assert Founded(nodes, n);
    }
    PrunedGrounded(nodes, nodes - {path}) by {
      forall n, a | n in nodes - {path} && a != [] && a < n ensures a in nodes - {path} {
        assert Founded(nodes, n);
      }
    }
  }

  lemma EntryIsBranch(c: Path, path: Path)
    requires c != [] && Parent(c) == path
    ensures path < c && Branch(c, path) == c
  {
  }

  lemma EntriesBeneath(nodes: Nodes, path: Path)
    ensures Entries(nodes, path) <= Beneath(nodes, path)
    ensures forall c :: c in Entries(nodes, path) ==> path < c && Branch(c, path) == c
  {
    forall c | c in Entries(nodes, path) ensures path < c && Branch(c, path) == c {
      EntryIsBranch(c, path);
    }
  }

  /** What is below an entry is below its directory, and goes with it. */
  lemma BelowEntry(nodes: Nodes, path: Path, todo: set<Path>, c: Path)
    requires path != [] && c != [] && Parent(c) == path && c in todo && c in nodes
    ensures Beneath(Remaining(nodes, path, todo), c) < Beneath(nodes, path)
    ensures forall n :: n in Beneath(nodes, path) && Branch(n, path) == c ==>
                          n == c || n in Beneath(Remaining(nodes, path, todo), c)
  {
    EntryIsBranch(c, path);
    var less, all := Beneath(Remaining(nodes, path, todo), c), Beneath(nodes, path);
    forall n | n in less ensures n in all {
      ThroughEntry(n, path, c);
    }
    assert c in all && c !in less;
    forall n | n in all && Branch(n, path) == c && n != c ensures n in less {
      BranchIsEntry(n, path);
    }
  }

  class MountedVolume {
    var nodes: Nodes

    constructor (nodes: Nodes)
      requires Grounded(nodes)
      ensures this.nodes == nodes
    {
      this.nodes := nodes;
    }

    method MakeDirectory(path: Path) returns (ok: bool)
      requires Grounded(nodes) && path != []
      modifies this
      ensures Grounded(nodes)
      ensures ok <==> Acceptable(MakeDir(path), old(nodes))
      ensures ok ==> nodes == Apply(MakeDir(path), old(nodes))
    {
      if path in nodes {
        return nodes[path].Directory?;
      }
      if !Placeable(nodes, path) {
        return false;
      }
      PlacedGrounded(nodes, path, Directory(NEW));
      nodes := nodes[path := Directory(NEW)];
      return true;
    }

    /** debugfs write */
    method Write(path: Path, content: string) returns (ok: bool)
      requires Grounded(nodes) && path != []
      modifies this
      ensures Grounded(nodes)
      ensures ok <==> Acceptable(Add(path, content), old(nodes))
      ensures ok ==> nodes == Apply(Add(path, content), old(nodes))
    {
      if path in nodes || !Placeable(nodes, path) {
        return false;
      }
      PlacedGrounded(nodes, path, File(content, NEW));
      nodes := nodes[path := File(content, NEW)];
      return true;
    }

    /** debugfs rm, when there may be nothing to remove, and write. */
    method Replace(path: Path, content: string) returns (ok: bool)
      requires Grounded(nodes) && path != []
      modifies this
      ensures Grounded(nodes)
      ensures ok <==> Acceptable(Action.Replace(path, content), old(nodes))
      ensures ok ==> nodes == Apply(Action.Replace(path, content), old(nodes))
    {
      if path in nodes && !nodes[path].Directory? {
        LeafGone(nodes, path);
        nodes := nodes - {path};
        assert Parent(path) != path;
      }
      ok := Write(path, content);
    }

    /** A default is written only where nothing is; a strict one refuses whatever is no file. */
    method Seed(path: Path, content: string, strict: bool) returns (ok: bool)
      requires Grounded(nodes) && path != []
      modifies this
      ensures Grounded(nodes)
      ensures var action := if strict then Default(path, content) else Offer(path, content);
              && (ok <==> Acceptable(action, old(nodes)))
              && (ok ==> nodes == Apply(action, old(nodes)))
    {
      if path in nodes {
        return !strict || nodes[path].File?;
      }
      ok := Write(path, content);
    }

    /** _clear_directory: entry by entry, each directory after its own entries. */
    method ClearDirectory(path: Path) returns (ok: bool)
      requires Grounded(nodes) && path != [] && path in nodes && nodes[path].Directory?
      modifies this
      ensures Grounded(nodes)
      ensures ok <==> forall n :: n in Beneath(old(nodes), path) ==> Safe(n)
      ensures ok ==> nodes == Without(old(nodes), path)
      decreases |Beneath(nodes, path)|, 1
    {
      var todo := Entries(nodes, path);
      EntriesBeneath(nodes, path);
      if exists c :: c in todo && !Safe(c) {
        return false;
      }
      AllRemaining(nodes, path);
      while todo != {}
        invariant todo <= Entries(old(nodes), path)
        invariant Grounded(nodes) && nodes == Remaining(old(nodes), path, todo)
        invariant forall n :: n in Beneath(old(nodes), path) && Branch(n, path) !in todo ==> Safe(n)
        decreases |todo|
      {
        var c :| c in todo;
        var cleared := ClearEntry(path, c, old(nodes), todo);
        if !cleared {
          return false;
        }
        todo := todo - {c};
      }
      NoneRemaining(old(nodes), path);
      return true;
    }

    /** One entry: a directory is cleared and removed, anything else just removed. */
    method ClearEntry(path: Path, c: Path, ghost start: Nodes, ghost todo: set<Path>) returns (ok: bool)
      requires Grounded(start) && path != [] && Grounded(nodes) && nodes == Remaining(start, path, todo)
      requires c in todo && c in start && Parent(c) == path && Safe(c)
      modifies this
      ensures Grounded(nodes)
      ensures !ok ==> exists n :: n in Beneath(start, path) && !Safe(n)
      ensures ok ==> nodes == Remaining(start, path, todo - {c})
      ensures ok ==> forall n :: n in Beneath(start, path) && Branch(n, path) == c ==> Safe(n)
      decreases |Beneath(start, path)|, 0
    {
      EntryIsBranch(c, path);
      BelowEntry(start, path, todo, c);
      SmallerSet(Beneath(nodes, c), Beneath(start, path));
      BranchGone(start, path, todo, c);
      RemainingGrounded(start, path, todo - {c});
      if nodes[c].Directory? {
        var cleared := ClearDirectory(c);
        if !cleared {
          return false;
        }
      } else {
        LeafGone(nodes, c);
      }
      nodes := nodes - {c};
      return true;
    }
  }
}
