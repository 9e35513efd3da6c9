/** Relative paths: text with slashes, and the paths above a path. */
module Paths {
  function SlashAfter(text: string): (n: nat)
    ensures n <= |text|
    ensures n > 0 ==> text[n - 1] == '/'
    ensures '/' !in text[n..]
  {
    if text == "" then 0
    else if text[|text| - 1] == '/' then |text|
    else
      var n := SlashAfter(text[..|text| - 1]);
      assert text[n..] == text[..|text| - 1][n..] + [text[|text| - 1]];
      n
  }

  /** The path above, or "" for one that lies directly in the root. */
  function Parent(path: string): (parent: string)
    ensures |parent| <= |path| && (path != "" ==> |parent| < |path|)
  {
    var n := SlashAfter(path);
    if n == 0 then "" else path[..n - 1]
  }

  predicate Component(part: string) {
    part != "" && part != "." && part != ".."
  }

  /** Components other than "", "." and "..", with single slashes between them. */
  predicate PathText(text: string)
    decreases |text|
  {
    var n := SlashAfter(text);
    Component(text[n..]) && (n > 0 ==> PathText(Parent(text)))
  }

  /** A path and every path above it, short of the root. */
  function Chain(path: string): set<string>
    decreases |path|
  {
    if path == "" then {} else {path} + Chain(Parent(path))
  }

  function Above(path: string): set<string> {
    Chain(Parent(path))
  }

  lemma {:induction false} ChainIsDownward(path: string, a: string)
    requires a in Chain(path)
    ensures a != "" && |a| <= |path| && Chain(a) <= Chain(path)
    decreases |path|
  {
    if a != path {
      ChainIsDownward(Parent(path), a);
    }
  }

  lemma {:induction false} ChainShorter(path: string, a: string)
    requires a in Chain(path)
    ensures a == path || |a| < |path|
    decreases |path|
  {
    if a != path {
      ChainShorter(Parent(path), a);
    }
  }

  lemma {:induction false} SlashPast(text: string, i: nat)
    requires i < |text| && text[i] == '/'
    ensures SlashAfter(text) > i
  {
    if text[|text| - 1] != '/' {
      SlashPast(text[..|text| - 1], i);
    }
  }

  lemma {:induction false} NoSlash(text: string)
    requires '/' !in text
    ensures SlashAfter(text) == 0
  {
    if text != "" {
      NoSlash(text[..|text| - 1]);
    }
  }

  /** A stretch of text between two slashes, or between a slash and an end. */
  ghost predicate Segment(text: string, i: nat, j: nat) {
    && i <= j <= |text| && (forall k :: i <= k < j ==> text[k] != '/')
    && (i == 0 || text[i - 1] == '/') && (j == |text| || text[j] == '/')
  }

  lemma NoSlashAfter(text: string)
    ensures forall k :: SlashAfter(text) <= k < |text| ==> text[k] != '/'
  {
    var n := SlashAfter(text);
    assert forall k :: n <= k < |text| ==> text[k] == text[n..][k - n];
  }

  /** The last segment starts after the last slash. */
  lemma LastSegment(text: string, i: nat)
    ensures Segment(text, i, |text|) <==> i == SlashAfter(text)
  {
    NoSlashAfter(text);
  }

  lemma FrontSegment(text: string, m: nat, i: nat, j: nat)
    requires m < |text| && text[m] == '/' && forall k :: m < k < |text| ==> text[k] != '/'
    ensures Segment(text, i, j) && j < |text| <==> Segment(text[..m], i, j)
    ensures Segment(text[..m], i, j) ==> text[..m][i..j] == text[i..j]
  {
    var front := text[..m];
    if Segment(text, i, j) && j < |text| {
      assert j <= m;
      assert forall k :: i <= k < j ==> front[k] == text[k];
    }
    if Segment(front, i, j) {
      assert forall k :: i <= k < j ==> front[k] == text[k];
      assert front[i..j] == text[i..j];
    }
  }

  /** The others are those of the parent. */
  lemma ParentSegment(text: string, i: nat, j: nat)
    requires SlashAfter(text) > 0
    ensures Segment(text, i, j) && j < |text| <==> Segment(Parent(text), i, j)
    ensures Segment(Parent(text), i, j) ==> Parent(text)[i..j] == text[i..j]
  {
    NoSlashAfter(text);
    FrontSegment(text, SlashAfter(text) - 1, i, j);
  }

  ghost predicate Named(text: string, i: nat, j: nat) {
    Segment(text, i, j) ==> text[i..j] != "" && text[i..j] != "." && text[i..j] != ".."
  }

  /** Exactly the texts none of whose parts between slashes is "", "." or "..". */
  lemma {:induction false} PathTextMeans(text: string)
    ensures PathText(text) <==> forall i: nat, j: nat :: Named(text, i, j)
    decreases |text|
  {
    var n := SlashAfter(text);
    LastSegment(text, n);
    assert text[n..] == text[n..|text|];
    if n > 0 {
      PathTextMeans(Parent(text));
    }
    if PathText(text) {
      forall i: nat, j: nat ensures Named(text, i, j) {
        if Segment(text, i, j) {
          if j == |text| {
            LastSegment(text, i);
          } else {
            SlashPast(text, j);
            ParentSegment(text, i, j);
            assert Named(Parent(text), i, j);
          }
        }
      }
    } else if forall i: nat, j: nat :: Named(text, i, j) {
      assert Named(text, n, |text|);
      forall i: nat, j: nat ensures Named(Parent(text), i, j) {
        assert n > 0;
        ParentSegment(text, i, j);
        assert Named(text, i, j);
      }
      assert false;
    }
  }

  lemma {:induction false} ChainMeans(path: string, a: string)
    ensures a in Chain(path) <==>
            a != "" && (a == path || exists i :: 0 <= i < |path| && path[i] == '/' && path[..i] == a)
    decreases |path|
  {
    if path != "" {
      var parent, n := Parent(path), SlashAfter(path);
      ChainMeans(parent, a);
      if i :| 0 <= i < |path| && path[i] == '/' && path[..i] == a {
        SlashPast(path, i);
        assert i < n - 1 ==> parent[i] == '/' && parent[..i] == a;
      }
      if i :| 0 <= i < |parent| && parent[i] == '/' && parent[..i] == a {
        assert path[i] == '/' && path[..i] == a;
      }
      if n > 0 && a == parent {
        assert path[n - 1] == '/' && path[..n - 1] == a;
      }
    }
  }

  /** The paths above a path are what stands before one of its slashes. */
  lemma AboveMeans(path: string, a: string)
    ensures a in Above(path) <==> a != "" && exists i :: 0 <= i < |path| && path[i] == '/' && path[..i] == a
  {
    ChainMeans(path, a);
    ChainMeans(Parent(path), a);
    if path != "" && a == path {
      if a in Chain(Parent(path)) {
        ChainShorter(Parent(path), a);
      }
      assert forall i :: 0 <= i < |path| ==> |path[..i]| < |a|;
    }
  }
}
