/**
 Content-addressed releases: verify and create of tools/astra_release.py.

 A byte is a character below 256, so the manifest is both a file's bytes and text.  The digest
 is a parameter; a theorem that needs it not to collide says on which contents.
 */
module ReleaseManifest {
  import opened Paths
  import opened Prelude

  type Bytes = s: string | forall i :: 0 <= i < |s| ==> s[i] as int < 256

  type Digest = Bytes -> string

  const MANIFEST := "artifacts.sha256"

  // ----- names ----------------------------------------------------------------------------

  /** What _relative_path accepts: "." has no components at all and passes too. */
  predicate RelativePath(text: string) {
    text != MANIFEST && (text == "." || PathText(text))
  }

  /** A name has no empty part, no "." and no ".." between its slashes, and is not the manifest's. */
  lemma RelativePathMeans(text: string)
    ensures RelativePath(text) <==>
            text != "artifacts.sha256" && (text == "." || forall i: nat, j: nat :: Named(text, i, j))
  {
    PathTextMeans(text);
  }

  // ----- the order of names ---------------------------------------------------------------

  predicate Below(a: string, b: string) {
    if b == "" then false
    else if a == "" then true
    else if a[0] != b[0] then a[0] < b[0]
    else Below(a[1..], b[1..])
  }

  lemma {:induction false} BelowTransitive(a: string, b: string, c: string)
    requires Below(a, b) && Below(b, c)
    ensures Below(a, c)
  {
    if a != "" && a[0] == b[0] == c[0] {
      BelowTransitive(a[1..], b[1..], c[1..]);
    }
  }

  lemma {:induction false} BelowTotal(a: string, b: string)
    ensures Below(a, b) || a == b || Below(b, a)
  {
    if a != "" && b != "" && a[0] == b[0] {
      BelowTotal(a[1..], b[1..]);
      assert a == [a[0]] + a[1..] && b == [b[0]] + b[1..];
    }
  }

  lemma {:induction false} BelowStrict(a: string, b: string)
    requires Below(a, b)
    ensures a != b
  {
    if a != "" && a[0] == b[0] {
      BelowStrict(a[1..], b[1..]);
    }
  }

  /** A name is below another that it is the start of, or that is greater where they first differ. */
  ghost predicate LessAt(a: string, b: string, k: nat) {
    k <= |a| && k < |b| && a[..k] == b[..k] && (k == |a| || a[k] < b[k])
  }

  lemma {:induction false} BelowMeans(a: string, b: string)
    ensures Below(a, b) <==> exists k: nat :: LessAt(a, b, k)
  {
    if a != "" && b != "" && a[0] == b[0] {
      BelowMeans(a[1..], b[1..]);
      if k: nat :| LessAt(a[1..], b[1..], k) {
        LessAtShifts(a, b, k);
      }
      if k: nat :| LessAt(a, b, k) {
        LessAtShifts(a, b, k - 1);
      }
    } else {
      assert a[..0] == b[..0];
      if Below(a, b) {
        assert LessAt(a, b, 0);
      }
      if k: nat :| LessAt(a, b, k) {
        if k > 0 {
          SameHead(a, b, k);
        }
      }
    }
  }

  lemma SameHead(a: string, b: string, k: nat)
    requires 0 < k <= |a| && k <= |b| && a[..k] == b[..k]
    ensures a[0] == b[0]
  {
    assert a[..k][0] == a[0];
  }

  lemma LessAtShifts(a: string, b: string, k: nat)
    requires a != "" && b != "" && a[0] == b[0]
    ensures LessAt(a, b, k + 1) <==> LessAt(a[1..], b[1..], k)
  {
    if k < |a| && k < |b| {
      assert a[..k + 1] == [a[0]] + a[1..][..k] && b[..k + 1] == [b[0]] + b[1..][..k];
      assert a[1..][..k] == a[..k + 1][1..] && b[1..][..k] == b[..k + 1][1..];
    }
  }

  predicate Increasing(names: seq<string>) {
    forall i :: 0 < i < |names| ==> InOrder(names, i)
  }

  predicate InOrder(names: seq<string>, i: nat)
    requires 0 < i < |names|
  {
    Below(names[i - 1], names[i])
  }

  lemma {:induction false} IncreasingApart(names: seq<string>, i: nat, j: nat)
    requires Increasing(names) && i < j < |names|
    ensures Below(names[i], names[j])
    decreases j
  {
    assert InOrder(names, j);
    if i + 1 < j {
      IncreasingApart(names, i, j - 1);
      BelowTransitive(names[i], names[j - 1], names[j]);
    }
  }

  // ----- the manifest's text --------------------------------------------------------------

  predicate HexDigit(c: char) {
    '0' <= c <= '9' || 'a' <= c <= 'f'
  }

  predicate Identity(text: string) {
    |text| == 64 && forall i :: 0 <= i < |text| ==> HexDigit(text[i])
  }

  /** 64 lower-case hexadecimal digits. */
  lemma IdentityMeans(text: string)
    ensures Identity(text) <==> |text| == 64 && forall i :: 0 <= i < |text| ==> text[i] in "0123456789abcdef"
  {
    var digits := "0123456789abcdef";
    forall c: char ensures HexDigit(c) <==> c in digits {
      if '0' <= c <= '9' {
        assert digits[c as int - '0' as int] == c;
      } else if 'a' <= c <= 'f' {
        assert digits[10 + c as int - 'a' as int] == c;
      }
    }
  }

  predicate Ascii(text: string) {
    forall i :: 0 <= i < |text| ==> text[i] as int < 128
  }

  /** Where Python's splitlines ends a line of ASCII text. */
  predicate Separator(c: char) {
    0x0a <= c as int <= 0x0d || 0x1c <= c as int <= 0x1e
  }

  predicate OneLine(text: string) {
    forall i :: 0 <= i < |text| ==> !Separator(text[i])
  }

  function LineEnd(text: string): (n: nat)
    ensures n <= |text| && OneLine(text[..n]) && (n < |text| ==> Separator(text[n]))
  {
    if text == "" || Separator(text[0]) then 0
    else
      var n := 1 + LineEnd(text[1..]);
      assert text[..n] == [text[0]] + text[1..][..n - 1];
      n
  }

  /** Where the next line starts: a carriage return takes a line feed with it. */
  function NextLine(text: string, n: nat): (next: nat)
    requires n < |text|
    ensures n < next <= |text|
  {
    if text[n] == '\r' && n + 1 < |text| && text[n + 1] == '\n' then n + 2 else n + 1
  }

  function Lines(text: string): (lines: seq<string>)
    ensures forall i :: 0 <= i < |lines| ==> OneLine(lines[i])
    decreases |text|
  {
    if text == "" then []
    else
      var n := LineEnd(text);
      if n == |text| then
        assert text[..n] == text;
        [text]
      else [text[..n]] + Lines(text[NextLine(text, n)..])
  }

  /**
   What ends a line: a line feed, a vertical tab, a form feed, a carriage return, a file, group or
   record separator, or a carriage return and a line feed together.
   */
  ghost predicate Ending(end: string) {
    end == "\r\n" || (|end| == 1 && end[0] as int in {10, 11, 12, 13, 28, 29, 30})
  }

  /** A line has none of these in it. */
  ghost predicate Unended(line: string) {
    forall i :: 0 <= i < |line| ==> !Ending([line[i]])
  }

  /** The text of these lines with these ends. */
  function Ended(lines: seq<string>, ends: seq<string>): string
    requires |lines| == |ends|
  {
    if lines == [] then "" else lines[0] + ends[0] + Ended(lines[1..], ends[1..])
  }

  /** The end of line `i` is not the first half of a longer one. */
  ghost predicate WholeEnd(lines: seq<string>, ends: seq<string>, i: nat)
    requires |lines| == |ends| && i < |ends|
  {
    if ends[i] == "" then i + 1 == |ends| && lines[i] != ""
    else Ending(ends[i]) && (ends[i] == "\r" && i + 1 < |ends| && lines[i + 1] == "" ==> !("\n" <= ends[i + 1]))
  }

  ghost predicate WholeEnds(lines: seq<string>, ends: seq<string>) {
    |lines| == |ends| && forall i :: 0 <= i < |ends| ==> WholeEnd(lines, ends, i)
  }

  /** The lines, put back together with their ends, are the text; only a last line may have none. */
  lemma {:induction false} LinesEnd(text: string) returns (ends: seq<string>)
    ensures |ends| == |Lines(text)| && Ended(Lines(text), ends) == text
    ensures WholeEnds(Lines(text), ends)
    ensures forall i :: 0 <= i < |ends| ==> Unended(Lines(text)[i])
    decreases |text|
  {
    var n := LineEnd(text);
    if text == "" {
      ends := [];
    } else if n == |text| {
      ends := [""];
      LastEnd(text);
    } else {
      var next := NextLine(text, n);
      var more := LinesEnd(text[next..]);
      ends := [text[n..next]] + more;
      FirstEnd(text, n);
      OneMoreEnd(text[..n], text[n..next], Lines(text[next..]), more);
      ThreeParts(text, n, next);
    }
  }

  lemma ThreeParts(text: string, n: nat, next: nat)
    requires n <= next <= |text|
    ensures text[..n] + text[n..next] + text[next..] == text
  {
  }

  lemma LastEnd(text: string)
    requires text != ""
    ensures Ended([text], [""]) == text && WholeEnds([text], [""])
  {
    assert [text][1..] == [] && [""][1..] == [];
    assert text + "" + "" == text;
  }

  lemma OneMoreEnd(line: string, end: string, rest: seq<string>, more: seq<string>)
    requires WholeEnds(rest, more) && Ending(end)
    requires end == "\r" && Ended(rest, more) != "" ==> Ended(rest, more)[0] != '\n'
    ensures WholeEnds([line] + rest, [end] + more)
    ensures Ended([line] + rest, [end] + more) == line + end + Ended(rest, more)
  {
    var lines, ends := [line] + rest, [end] + more;
    assert lines[1..] == rest && ends[1..] == more;
    forall i | 0 <= i < |ends| ensures WholeEnd(lines, ends, i) {
      if i > 0 {
        assert WholeEnd(rest, more, i - 1);
      } else if rest != [] {
        FirstOfEnded(rest, more);
      }
    }
  }

  lemma FirstEnd(text: string, n: nat)
    requires n < |text| && Separator(text[n])
    ensures var next := NextLine(text, n);
            && Ending(text[n..next])
            && (text[n..next] == "\r" && text[next..] != "" ==> text[next..][0] != '\n')
  {
    var next := NextLine(text, n);
    assert text[n..next] == if next == n + 2 then [text[n], text[n + 1]] else [text[n]];
  }

  /** An empty first line leaves its end at the front of the text. */
  lemma FirstOfEnded(lines: seq<string>, ends: seq<string>)
    requires WholeEnds(lines, ends) && lines != []
    ensures lines[0] == "" ==> ends[0] != "" && Ended(lines, ends) != "" && ends[0][0] == Ended(lines, ends)[0]
  {
    assert WholeEnd(lines, ends, 0);
  }

  predicate TwoSpaces(text: string, i: nat) {
    i + 1 < |text| && text[i] == ' ' && text[i + 1] == ' '
  }

  /** Where two spaces first stand together, or the length when they never do. */
  function Gap(text: string): (n: nat)
    ensures n <= |text|
    ensures n < |text| ==> TwoSpaces(text, n)
    ensures forall i :: 0 <= i < n ==> !TwoSpaces(text, i)
  {
    if text == "" || TwoSpaces(text, 0) then 0
    else
      var n := 1 + Gap(text[1..]);
      assert forall i :: 1 <= i < n ==> TwoSpaces(text, i) == TwoSpaces(text[1..], i - 1);
      n
  }

  /** split("  ", most) */
  function Split(text: string, most: nat): (fields: seq<string>)
    decreases most
  {
    var n := Gap(text);
    if most == 0 || n == |text| then [text]
    else [text[..n]] + Split(text[n + 2..], most - 1)
  }

  datatype Entry = Entry(name: string, digest: string, executable: bool)

  function ParseLine(line: string): Option<Entry> {
    var fields := Split(line, 2);
    if |fields| == 3 && Identity(fields[0]) && (fields[1] == "-" || fields[1] == "x") then
      Some(Entry(fields[2], fields[0], fields[1] == "x"))
    else
      None
  }

  function Mode(entry: Entry): string {
    if entry.executable then "x" else "-"
  }

  /** digest, mode and name, two spaces apart. */
  function Record(entry: Entry): string {
    entry.digest + "  " + (Mode(entry) + "  " + entry.name)
  }

  lemma RecordMeans(entry: Entry)
    ensures Record(entry) == entry.digest + (if entry.executable then "  x  " else "  -  ") + entry.name
  {
    if entry.executable {
      assert "  " + ("x" + "  " + entry.name) == "  x  " + entry.name;
    } else {
      assert "  " + ("-" + "  " + entry.name) == "  -  " + entry.name;
    }
    assert entry.digest + "  " + (Mode(entry) + "  " + entry.name)
        == entry.digest + ("  " + (Mode(entry) + "  " + entry.name));
  }

  lemma SplitAtGap(head: string, tail: string, most: nat)
    requires most > 0 && Spaceless(head)
    ensures Split(head + "  " + tail, most) == [head] + Split(tail, most - 1)
  {
    var text := head + "  " + tail;
    var n := Gap(text);
    assert TwoSpaces(text, |head|);
    assert forall i :: 0 <= i < |head| ==> text[i] == head[i];
    assert forall i :: 0 <= i < |head| ==> !TwoSpaces(text, i);
    assert text[..n] == head && text[n + 2..] == tail;
  }

  predicate Spaceless(text: string) {
    forall i :: 0 <= i < |text| ==> text[i] != ' '
  }

  lemma SplitThree(first: string, second: string, third: string)
    requires Spaceless(first) && Spaceless(second)
    ensures Split(first + "  " + (second + "  " + third), 2) == [first, second, third]
  {
    var rest := second + "  " + third;
    assert Split(third, 0) == [third];
    SplitAtGap(second, third, 1);
    SplitAtGap(first, rest, 2);
    assert [first] + ([second] + [third]) == [first, second, third];
  }

  /** A record reads back as what it was made from, whatever spaces its name holds. */
  lemma ParseRecord(entry: Entry)
    requires Identity(entry.digest)
    ensures ParseLine(Record(entry)) == Some(entry)
  {
    var mode := Mode(entry);
    SplitThree(entry.digest, mode, entry.name);
    assert mode == "x" <==> entry.executable by {
      assert "x"[0] != "-"[0];
    }
  }

  lemma SplitOnce(text: string, most: nat) returns (rest: string)
    requires |Split(text, most)| > 1
    ensures most > 0 && Split(text, most)[1..] == Split(rest, most - 1)
    ensures text == Split(text, most)[0] + "  " + rest
  {
    var n := Gap(text);
    rest := text[n + 2..];
    assert TwoSpaces(text, n) && text[n..n + 2] == "  ";
    assert text == text[..n] + text[n..n + 2] + rest;
  }

  lemma SplitJoins(text: string)
    requires |Split(text, 2)| == 3
    ensures var f := Split(text, 2); text == f[0] + "  " + (f[1] + "  " + f[2])
  {
    var f := Split(text, 2);
    var rest := SplitOnce(text, 2);
    assert f[1..][0] == f[1] && f[1..][1] == f[2];
    var last := SplitOnce(rest, 1);
    assert Split(rest, 1)[1..][0] == f[2];
    assert Split(last, 0) == [last];
  }

  /** A line that parses is the record of what it parses to. */
  lemma RecordOfParsed(line: string)
    requires ParseLine(line).Some?
    ensures Record(ParseLine(line).value) == line
  {
    SplitJoins(line);
  }

  function ParseLines(lines: seq<string>): (entries: Option<seq<Entry>>)
    ensures entries.Some? ==> |entries.value| == |lines|
    ensures entries.Some? ==> forall i :: 0 <= i < |lines| ==> ParseLine(lines[i]) == Some(entries.value[i])
    ensures entries.None? ==> exists i :: 0 <= i < |lines| && ParseLine(lines[i]).None?
  {
    if lines == [] then Some([])
    else
      var first, rest := ParseLine(lines[0]), ParseLines(lines[1..]);
      if first.Some? && rest.Some? then Some([first.value] + rest.value) else None
  }

  function Parse(data: Bytes): Option<seq<Entry>> {
    if Ascii(data) then ParseLines(Lines(data)) else None
  }

  function Names(entries: seq<Entry>): (names: seq<string>)
    ensures |names| == |entries| && forall i :: 0 <= i < |names| ==> names[i] == entries[i].name
  {
    seq(|entries|, i requires 0 <= i < |entries| => entries[i].name)
  }

  // ----- verify ---------------------------------------------------------------------------

  datatype Node =
    | File(content: Bytes, executable: bool, writable: bool)
    | Directory(writable: bool)
    | Special

  /** What lies below a release's root, by relative path, and whether the root can be written. */
  datatype Tree = Tree(nodes: map<string, Node>, writable: bool)

  function Files(tree: Tree): set<string> {
    set n | n in tree.nodes && tree.nodes[n].File?
  }

  function Directories(tree: Tree): set<string> {
    set n | n in tree.nodes && tree.nodes[n].Directory?
  }

  function AllAbove(names: set<string>): set<string> {
    set n, a | n in names && a in Above(n) :: a
  }

  function NameSet(names: seq<string>): set<string> {
    set i | 0 <= i < |names| :: names[i]
  }

  ghost predicate Describes(entries: seq<Entry>, tree: Tree, digest: Digest) {
    var names := Names(entries);
    && entries != [] && Increasing(names)
    && (forall i :: 0 <= i < |names| ==> RelativePath(names[i]))
    && (forall n :: n in tree.nodes ==> !tree.nodes[n].Special?)
    && Files(tree) == NameSet(names) + {MANIFEST}
    && Directories(tree) == AllAbove(NameSet(names))
    && forall i :: 0 <= i < |entries| ==> Recorded(entries[i], tree, digest)
  }

  ghost predicate Recorded(entry: Entry, tree: Tree, digest: Digest) {
    && entry.name in tree.nodes && tree.nodes[entry.name].File?
    && digest(tree.nodes[entry.name].content) == entry.digest
    && tree.nodes[entry.name].executable == entry.executable
  }

  predicate ReadOnly(tree: Tree) {
    !tree.writable && forall n :: n in tree.nodes && !tree.nodes[n].Special? ==> !tree.nodes[n].writable
  }

  /** The tree is the one its manifest describes. */
  ghost predicate Exact(tree: Tree, digest: Digest) {
    && MANIFEST in tree.nodes && tree.nodes[MANIFEST].File?
    && var entries := Parse(tree.nodes[MANIFEST].content);
       entries.Some? && Describes(entries.value, tree, digest)
  }

  /** An installed release is exact and nothing in it can be written. */
  ghost predicate Installed(tree: Tree, digest: Digest, identity: string) {
    Exact(tree, digest) && ReadOnly(tree) && digest(tree.nodes[MANIFEST].content) == identity
  }

  lemma AllParsed(lines: seq<string>, entries: seq<Entry>)
    requires |entries| == |lines| && forall i :: 0 <= i < |lines| ==> ParseLine(lines[i]) == Some(entries[i])
    ensures ParseLines(lines) == Some(entries)
  {
    assert ParseLines(lines).Some?;
    assert ParseLines(lines).value == entries;
  }

  lemma OneNotParsed(lines: seq<string>, k: nat)
    requires k < |lines| && ParseLine(lines[k]).None?
    ensures ParseLines(lines).None?
  {
  }

  lemma ParsesWhenAllDo(lines: seq<string>)
    ensures ParseLines(lines).Some? <==> forall i :: 0 <= i < |lines| ==> ParseLine(lines[i]).Some?
  {
    var entries := ParseLines(lines);
    if entries.Some? {
      forall i | 0 <= i < |lines| ensures ParseLine(lines[i]).Some? {
        assert ParseLine(lines[i]) == Some(entries.value[i]);
      }
    }
  }

  /** Every byte is ASCII and every line a record. */
  ghost predicate Readable(data: Bytes, lines: seq<string>) {
    && (forall i :: 0 <= i < |data| ==> data[i] as int < 128)
    && (forall i :: 0 <= i < |lines| ==> ParseLine(lines[i]).Some?)
  }

  method ReadEntries(data: Bytes) returns (entries: Option<seq<Entry>>)
    ensures entries == Parse(data)
    ensures entries.Some? <==> Readable(data, Lines(data))
  {
    if !Ascii(data) {
      ghost var i :| 0 <= i < |data| && data[i] as int >= 128;
      return None;
    }
    var lines := Lines(data);
    ParsesWhenAllDo(lines);
    entries := ReadLines(lines);
  }

  method ReadLines(lines: seq<string>) returns (entries: Option<seq<Entry>>)
    ensures entries == ParseLines(lines)
  {
    var read: seq<Entry> := [];
    for k := 0 to |lines|
      invariant |read| == k && forall i :: 0 <= i < k ==> ParseLine(lines[i]) == Some(read[i])
    {
      var entry := ParseLine(lines[k]);
      if entry.None? {
        OneNotParsed(lines, k);
        return None;
      }
      read := read + [entry.value];
    }
    AllParsed(lines, read);
    return Some(read);
  }

  /** The digests and modes of the files, one by one. */
  method CheckFiles(entries: seq<Entry>, tree: Tree, digest: Digest) returns (ok: bool)
    requires forall i :: 0 <= i < |entries| ==> entries[i].name in Files(tree)
    ensures ok <==> forall i :: 0 <= i < |entries| ==> Recorded(entries[i], tree, digest)
  {
    for k := 0 to |entries|
      invariant forall i :: 0 <= i < k ==> Recorded(entries[i], tree, digest)
    {
      var entry := entries[k];
      var node := tree.nodes[entry.name];
      if digest(node.content) != entry.digest || node.executable != entry.executable {
        assert !Recorded(entries[k], tree, digest);
        return false;
      }
    }
    return true;
  }

  method Verify(tree: Tree, digest: Digest, installed: bool) returns (identity: Option<string>)
    ensures identity.Some? <==>
            Exact(tree, digest)
            && (installed ==> !tree.writable && forall n :: n in tree.nodes ==> !tree.nodes[n].writable)
    ensures identity.Some? ==> identity.value == digest(tree.nodes["artifacts.sha256"].content)
  {
    if MANIFEST !in tree.nodes || !tree.nodes[MANIFEST].File? {
      return None;
    }
    var data := tree.nodes[MANIFEST].content;
    var read := ReadEntries(data);
    if read.None? {
      return None;
    }
    var entries := read.value;
    var names := Names(entries);
    if names == [] || !Increasing(names) {
      return None;
    }
    if exists i :: 0 <= i < |names| && !RelativePath(names[i]) {
      return None;
    }
    if exists n :: n in tree.nodes && tree.nodes[n].Special? {
      return None;
    }
    if Files(tree) != NameSet(names) + {MANIFEST} {
      return None;
    }
    var expected := ExpectedDirectories(names);
    if Directories(tree) != expected {
      return None;
    }
    forall i | 0 <= i < |entries| ensures entries[i].name in Files(tree) {
      assert names[i] in NameSet(names);
    }
    var ok := CheckFiles(entries, tree, digest);
    if !ok || (installed && !ReadOnly(tree)) {
      return None;
    }
    return Some(digest(data));
  }

  /** The directories a list of names calls for, found by climbing from each. */
  method ExpectedDirectories(names: seq<string>) returns (expected: set<string>)
    ensures expected == AllAbove(NameSet(names))
  {
    expected := {};
    for k := 0 to |names|
      invariant expected == AllAbove(NameSet(names[..k]))
    {
      ghost var before := expected;
      var parent := Parent(names[k]);
      while parent != ""
        invariant expected + Chain(parent) == before + Above(names[k])
        decreases |parent|
      {
        expected := expected + {parent};
        parent := Parent(parent);
      }
      NameSetGrows(names, k);
      AllAboveGrows(NameSet(names[..k]), names[k]);
    }
    assert names[..|names|] == names;
  }

  lemma AllAboveGrows(names: set<string>, name: string)
    ensures AllAbove(names + {name}) == AllAbove(names) + Above(name)
  {
  }

  lemma NameSetGrows(names: seq<string>, k: nat)
    requires k < |names|
    ensures NameSet(names[..k + 1]) == NameSet(names[..k]) + {names[k]}
  {
    var more, less := names[..k + 1], names[..k];
    assert forall i :: 0 <= i < k ==> more[i] == less[i];
    assert more[k] == names[k];
  }

  // ----- an identity names one tree -------------------------------------------------------

  function Contents(tree: Tree): set<Bytes> {
    set n | n in tree.nodes && tree.nodes[n].File? :: tree.nodes[n].content
  }

  ghost predicate Collides(digest: Digest, contents: set<Bytes>) {
    exists a, b :: a in contents && b in contents && a != b && digest(a) == digest(b)
  }

  /** The same paths, directories, bytes and executable bits. */
  ghost predicate SameTree(a: Tree, b: Tree) {
    && Files(a) == Files(b) && Directories(a) == Directories(b)
    && a.nodes.Keys == b.nodes.Keys
    && forall n :: n in Files(a) ==> SameFile(a.nodes[n], b.nodes[n], n == MANIFEST)
  }

  /** The manifest's own executable bit is not recorded anywhere. */
  predicate SameFile(a: Node, b: Node, manifest: bool) {
    a.File? && b.File? && a.content == b.content && (a.executable == b.executable || manifest)
  }

  /** Whatever the manifest's own executable bit, the tree verifies under the same identity. */
  lemma ManifestModeIsFree(tree: Tree, executable: bool, digest: Digest)
    requires Exact(tree, digest)
    ensures var other := tree.(nodes := tree.nodes[MANIFEST := tree.nodes[MANIFEST].(executable := executable)]);
            Exact(other, digest) && other.nodes[MANIFEST].content == tree.nodes[MANIFEST].content
  {
    var other := tree.(nodes := tree.nodes[MANIFEST := tree.nodes[MANIFEST].(executable := executable)]);
    var entries := Parse(tree.nodes[MANIFEST].content).value;
    assert Files(other) == Files(tree) && Directories(other) == Directories(tree);
    forall i | 0 <= i < |entries| ensures Recorded(entries[i], other, digest) {
      assert Names(entries)[i] in NameSet(Names(entries)) && RelativePath(Names(entries)[i]);
      assert Recorded(entries[i], tree, digest);
    }
  }

  /** Two verified trees of one identity are the same, unless the digest collides on their contents. */
  lemma IdentityNamesTree(a: Tree, b: Tree, digest: Digest)
    requires Exact(a, digest) && Exact(b, digest)
    requires digest(a.nodes[MANIFEST].content) == digest(b.nodes[MANIFEST].content)
    ensures SameTree(a, b) || Collides(digest, Contents(a) + Contents(b))
  {
    if !Collides(digest, Contents(a) + Contents(b)) {
      var contents := Contents(a) + Contents(b);
      assert a.nodes[MANIFEST].content in contents && b.nodes[MANIFEST].content in contents;
      var entries := Parse(a.nodes[MANIFEST].content).value;
      forall n | n in Files(a) ensures SameFile(a.nodes[n], b.nodes[n], n == MANIFEST) {
        if n != MANIFEST {
          assert n in NameSet(Names(entries));
          var i :| 0 <= i < |entries| && Names(entries)[i] == n;
          assert Recorded(entries[i], a, digest) && Recorded(entries[i], b, digest);
          assert a.nodes[n].content in contents && b.nodes[n].content in contents;
        }
      }
      assert a.nodes.Keys == Files(a) + Directories(a);
      assert b.nodes.Keys == Files(b) + Directories(b);
    }
  }

  // ----- create ---------------------------------------------------------------------------

  datatype Source = Regular(content: Bytes, executable: bool) | NotRegular

  datatype Artifact = Artifact(name: string, source: Source)

  datatype Release = Release(tree: Tree, identity: string)

  ghost predicate HexDigest(digest: Digest) {
    forall content: Bytes :: Identity(digest(content))
  }

  /** A file of this name can be made in a directory, and its record read back. */
  predicate Nameable(name: string) {
    RelativePath(name) && name != "." && Ascii(name) && OneLine(name) && '\0' !in name
  }

  /** No other name, nor the manifest's, is a directory this name needs. */
  ghost predicate Clear(name: string, artifacts: seq<Artifact>) {
    MANIFEST !in Above(name) && forall i :: 0 <= i < |artifacts| ==> artifacts[i].name !in Above(name)
  }

  predicate Distinct(artifacts: seq<Artifact>) {
    forall i, j :: 0 <= i < j < |artifacts| ==> artifacts[i].name != artifacts[j].name
  }

  /** What a caller can see before asking for a release. */
  ghost predicate Creatable(artifacts: seq<Artifact>) {
    && artifacts != [] && Distinct(artifacts)
    && forall i :: 0 <= i < |artifacts| ==>
         artifacts[i].source.Regular? && Nameable(artifacts[i].name) && Clear(artifacts[i].name, artifacts)
  }

  function NamesOf(artifacts: seq<Artifact>): (names: seq<string>)
    ensures |names| == |artifacts| && forall i :: 0 <= i < |names| ==> names[i] == artifacts[i].name
  {
    seq(|artifacts|, i requires 0 <= i < |artifacts| => artifacts[i].name)
  }

  /** The tree's files are the artifacts and its manifest, its directories what those need. */
  ghost predicate Holds(tree: Tree, artifacts: seq<Artifact>) {
    && Files(tree) == NameSet(NamesOf(artifacts)) + {MANIFEST}
    && Directories(tree) == AllAbove(NameSet(NamesOf(artifacts)))
    && (forall n :: n in tree.nodes ==> !tree.nodes[n].Special?)
    && AllCopied(artifacts, tree.nodes)
  }

  ghost predicate Copied(artifact: Artifact, nodes: map<string, Node>) {
    && artifact.source.Regular? && artifact.name in nodes
    && nodes[artifact.name] == File(artifact.source.content, artifact.source.executable, true)
  }

  function Line(entry: Entry): string {
    Record(entry) + "\n"
  }

  /** The manifest of a list of entries. */
  function Text(entries: seq<Entry>): string {
    if entries == [] then "" else Line(entries[0]) + Text(entries[1..])
  }

  lemma {:induction false} TextGrows(entries: seq<Entry>, entry: Entry)
    ensures Text(entries + [entry]) == Text(entries) + Line(entry)
  {
    if entries == [] {
      assert entries + [entry] == [entry];
      assert [entry][1..] == [];
    } else {
      var first, rest := Line(entries[0]), Text(entries[1..]);
      assert (entries + [entry])[1..] == entries[1..] + [entry];
      TextGrows(entries[1..], entry);
      assert first + (rest + Line(entry)) == (first + rest) + Line(entry);
    }
  }

  lemma OneLineConcat(a: string, b: string)
    requires OneLine(a) && OneLine(b)
    ensures OneLine(a + b)
  {
  }

  lemma RecordOneLine(entry: Entry)
    requires Identity(entry.digest) && OneLine(entry.name)
    ensures OneLine(Record(entry))
  {
    assert forall i :: 0 <= i < 64 ==> HexDigit(entry.digest[i]) && !Separator(entry.digest[i]);
    OneLineConcat(Mode(entry) + "  ", entry.name);
    OneLineConcat(entry.digest + "  ", Mode(entry) + "  " + entry.name);
  }

  lemma FirstLine(line: string, rest: string)
    requires OneLine(line)
    ensures Lines(line + "\n" + rest) == [line] + Lines(rest)
  {
    var text := line + "\n" + rest;
    var n := LineEnd(text);
    assert text[|line|] == '\n';
    assert forall i :: 0 <= i < |line| ==> text[i] == line[i];
    assert forall i :: 0 <= i < n ==> text[..n][i] == text[i];
    assert text[..n] == line && text[n + 1..] == rest;
  }

  lemma ParseFirst(entry: Entry, lines: seq<string>, entries: seq<Entry>)
    requires Identity(entry.digest) && ParseLines(lines) == Some(entries)
    ensures ParseLines([Record(entry)] + lines) == Some([entry] + entries)
  {
    ParseRecord(entry);
    var all := [Record(entry)] + lines;
    assert all[1..] == lines;
  }

  /** A manifest reads back as the entries it was written from. */
  lemma {:induction false} ParseText(entries: seq<Entry>)
    requires forall i :: 0 <= i < |entries| ==> Identity(entries[i].digest) && OneLine(entries[i].name)
    ensures ParseLines(Lines(Text(entries))) == Some(entries)
  {
    if entries != [] {
      var first, rest := entries[0], entries[1..];
      RecordOneLine(first);
      FirstLine(Record(first), Text(rest));
      ParseText(rest);
      ParseFirst(first, Lines(Text(rest)), rest);
      assert [first] + rest == entries;
    }
  }

  lemma AsciiConcat(a: string, b: string)
    ensures Ascii(a + b) <==> Ascii(a) && Ascii(b)
  {
    var ab := a + b;
    if Ascii(ab) {
      assert forall i :: 0 <= i < |a| ==> a[i] == ab[i];
      assert forall i :: 0 <= i < |b| ==> b[i] == ab[|a| + i];
    }
  }

  lemma {:induction false} AsciiText(entries: seq<Entry>)
    requires forall i :: 0 <= i < |entries| ==> Identity(entries[i].digest)
    ensures Ascii(Text(entries)) <==> forall i :: 0 <= i < |entries| ==> Ascii(entries[i].name)
  {
    if entries != [] {
      var e, rest := entries[0], Text(entries[1..]);
      AsciiText(entries[1..]);
      AsciiConcat(Mode(e) + "  ", e.name);
      AsciiConcat(e.digest + "  ", Mode(e) + "  " + e.name);
      AsciiConcat(Record(e), "\n");
      AsciiConcat(Line(e), rest);
      forall i | 0 <= i < |e.digest| ensures e.digest[i] as int < 128 {
        assert HexDigit(e.digest[i]);
      }
      assert forall i :: 1 <= i < |entries| ==> entries[i] == entries[1..][i - 1];
    }
  }

  lemma {:induction false} AsciiLines(text: string)
    requires Ascii(text)
    ensures forall i :: 0 <= i < |Lines(text)| ==> Ascii(Lines(text)[i])
    decreases |text|
  {
    var n := LineEnd(text);
    if text != "" && n < |text| {
      AsciiLines(text[NextLine(text, n)..]);
    }
  }

  /** What a manifest's entries are made of: ASCII names and digests that look like identities. */
  lemma ParsedEntries(data: Bytes)
    requires Parse(data).Some?
    ensures forall i :: 0 <= i < |Parse(data).value| ==>
              && Ascii(Parse(data).value[i].name) && OneLine(Parse(data).value[i].name)
              && Identity(Parse(data).value[i].digest)
              && Lines(data)[i] == Record(Parse(data).value[i])
  {
    var lines, entries := Lines(data), Parse(data).value;
    AsciiLines(data);
    forall i | 0 <= i < |entries| ensures Ascii(entries[i].name) && OneLine(entries[i].name)
                                         && Identity(entries[i].digest) && lines[i] == Record(entries[i])
    {
      assert ParseLine(lines[i]) == Some(entries[i]);
      RecordOfParsed(lines[i]);
      TailOf(entries[i].digest + "  " , Mode(entries[i]) + "  " + entries[i].name);
      TailOf(Mode(entries[i]) + "  ", entries[i].name);
    }
  }

  lemma TailOf(head: string, tail: string)
    ensures Ascii(head + tail) ==> Ascii(tail)
    ensures OneLine(head + tail) ==> OneLine(tail)
  {
    assert forall i :: 0 <= i < |tail| ==> tail[i] == (head + tail)[|head| + i];
  }

  /** No name a manifest can be read to list holds a line separator. */
  lemma ParsedNames(data: Bytes)
    requires Parse(data).Some?
    ensures forall n :: n in NameSet(Names(Parse(data).value)) ==> OneLine(n)
  {
    ParsedEntries(data);
  }

  // ----- create, step by step --------------------------------------------------------------

  function Insert(x: Artifact, s: seq<Artifact>): (r: seq<Artifact>)
    ensures multiset(r) == multiset(s) + multiset{x}
    ensures r != [] && (r[0] == x || (s != [] && r[0] == s[0]))
  {
    if s == [] then [x]
    else if Below(x.name, s[0].name) then [x] + s
    else
      assert s == [s[0]] + s[1..];
      [s[0]] + Insert(x, s[1..])
  }

  /** sorted(mappings): by name, since names differ. */
  function SortByName(s: seq<Artifact>): (r: seq<Artifact>)
    ensures multiset(r) == multiset(s)
  {
    if s == [] then []
    else
      assert s == [s[0]] + s[1..];
      Insert(s[0], SortByName(s[1..]))
  }

  /** A name below the first of an increasing list may go in front of it. */
  lemma IncreasingFrom(x: Artifact, s: seq<Artifact>)
    requires Increasing(NamesOf(s)) && (s == [] || Below(x.name, s[0].name))
    ensures Increasing(NamesOf([x] + s))
  {
    var names, more := NamesOf(s), NamesOf([x] + s);
    forall i | 0 < i < |more| ensures InOrder(more, i) {
      assert more[i] == names[i - 1];
      if i > 1 {
        assert more[i - 1] == names[i - 2];
        assert InOrder(names, i - 1);
      }
    }
  }

  lemma IncreasingRest(s: seq<Artifact>)
    requires s != [] && Increasing(NamesOf(s))
    ensures Increasing(NamesOf(s[1..])) && (|s| > 1 ==> Below(s[0].name, s[1].name))
  {
    var names, rest := NamesOf(s), NamesOf(s[1..]);
    assert |s| > 1 ==> InOrder(names, 1);
    forall i | 0 < i < |rest| ensures InOrder(rest, i) {
      assert rest[i] == names[i + 1] && rest[i - 1] == names[i];
      assert InOrder(names, i + 1);
    }
  }

  lemma {:induction false} InsertOrders(x: Artifact, s: seq<Artifact>)
    requires Increasing(NamesOf(s)) && forall a :: a in s ==> a.name != x.name
    ensures Increasing(NamesOf(Insert(x, s)))
  {
    if s == [] || Below(x.name, s[0].name) {
      IncreasingFrom(x, s);
    } else {
      BelowTotal(x.name, s[0].name);
      assert s[0] in s;
      IncreasingRest(s);
      InsertOrders(x, s[1..]);
      IncreasingFrom(s[0], Insert(x, s[1..]));
    }
  }

  lemma {:induction false} SortOrders(s: seq<Artifact>)
    requires Distinct(s)
    ensures Increasing(NamesOf(SortByName(s)))
  {
    if s != [] {
      SortOrders(s[1..]);
      forall a | a in SortByName(s[1..]) ensures a.name != s[0].name {
        assert a in multiset(s[1..]);
      }
      InsertOrders(s[0], SortByName(s[1..]));
    }
  }

  /** Only one order of these artifacts has increasing names. */
  lemma {:induction false} NameOrderUnique(s: seq<Artifact>, r: seq<Artifact>)
    requires multiset(s) == multiset(r) && Increasing(NamesOf(s)) && Increasing(NamesOf(r))
    ensures s == r
  {
    assert |s| == |multiset(s)| == |multiset(r)| == |r|;
    if s != [] {
      FirstIsLeast(s, r);
      IncreasingRest(s);
      IncreasingRest(r);
      SameRest(s, r);
      NameOrderUnique(s[1..], r[1..]);
    }
  }

  lemma SameRest(s: seq<Artifact>, r: seq<Artifact>)
    requires s != [] && r != [] && s[0] == r[0] && multiset(s) == multiset(r)
    ensures multiset(s[1..]) == multiset(r[1..]) && (s[1..] == r[1..] ==> s == r)
  {
    assert s == [s[0]] + s[1..] && r == [r[0]] + r[1..];
    assert multiset(s[1..]) == multiset(s) - multiset{s[0]};
    assert multiset(r[1..]) == multiset(r) - multiset{r[0]};
  }

  lemma FirstIsLeast(s: seq<Artifact>, r: seq<Artifact>)
    requires multiset(s) == multiset(r) && s != [] && r != [] && Increasing(NamesOf(s)) && Increasing(NamesOf(r))
    ensures s[0] == r[0]
  {
    assert s[0] in multiset(r) && r[0] in multiset(s);
    var i :| 0 <= i < |r| && r[i] == s[0];
    var j :| 0 <= j < |s| && s[j] == r[0];
    if i > 0 && j > 0 {
      IncreasingApart(NamesOf(r), 0, i);
      IncreasingApart(NamesOf(s), 0, j);
      BelowTransitive(s[0].name, r[0].name, s[0].name);
      BelowStrict(s[0].name, s[0].name);
    }
  }

  lemma SameMembers(s: seq<Artifact>, r: seq<Artifact>)
    requires multiset(r) == multiset(s)
    ensures |r| == |s| && NameSet(NamesOf(s)) == NameSet(NamesOf(r))
    ensures forall a :: a in s <==> a in r
  {
    assert |multiset(r)| == |r| && |multiset(s)| == |s|;
    forall a ensures a in s <==> a in r {
      assert a in multiset(s) <==> a in multiset(r);
    }
    SubNames(s, r);
    SubNames(r, s);
  }

  lemma SubNames(s: seq<Artifact>, r: seq<Artifact>)
    requires forall a :: a in s ==> a in r
    ensures NameSet(NamesOf(s)) <= NameSet(NamesOf(r))
  {
    forall i | 0 <= i < |s| ensures s[i].name in NameSet(NamesOf(r)) {
      assert s[i] in r;
      var j :| 0 <= j < |r| && r[j] == s[i];
      assert NamesOf(r)[j] == s[i].name;
    }
  }

  /** mkdir(parents=True, exist_ok=True) */
  function MakeDirectories(nodes: map<string, Node>, path: string): Option<map<string, Node>>
    decreases |path|
  {
    if path == "" then Some(nodes)
    else if path in nodes then (if nodes[path].Directory? then Some(nodes) else None)
    else
      var above := MakeDirectories(nodes, Parent(path));
      if above.Some? then Some(above.value[path := Directory(true)]) else None
  }

  /** What lies in a tree lies in a directory of it. */
  ghost predicate Closed(nodes: map<string, Node>) {
    forall n {:trigger Rooted(nodes, n)} :: n in nodes ==> Rooted(nodes, n)
  }

  ghost predicate Rooted(nodes: map<string, Node>, n: string) {
    forall a :: a in Above(n) ==> a in nodes && nodes[a].Directory?
  }

  lemma {:induction false} DirectoriesMade(nodes: map<string, Node>, path: string)
    requires Closed(nodes)
    ensures var made := MakeDirectories(nodes, path);
            && (made.Some? <==> forall a :: a in Chain(path) && a in nodes ==> nodes[a].Directory?)
            && (made.Some? ==>
                  && made.value.Keys == nodes.Keys + Chain(path)
                  && forall n :: n in made.value ==> made.value[n] == if n in nodes then nodes[n] else Directory(true))
    decreases |path|
  {
    if path != "" {
      if path in nodes {
        assert Rooted(nodes, path);
      } else {
        DirectoriesMade(nodes, Parent(path));
      }
    }
  }

  /** The tree under construction, once the artifacts so far are in it. */
  ghost predicate Placed(nodes: map<string, Node>, artifacts: seq<Artifact>) {
    var tree := Tree(nodes, true);
    && Files(tree) == NameSet(NamesOf(artifacts))
    && Directories(tree) == AllAbove(NameSet(NamesOf(artifacts)))
    && (forall n :: n in nodes ==> !nodes[n].Special?)
    && AllCopied(artifacts, nodes)
  }

  lemma PlacedClosed(nodes: map<string, Node>, artifacts: seq<Artifact>)
    requires Placed(nodes, artifacts)
    ensures Closed(nodes)
  {
    var names := NameSet(NamesOf(artifacts));
    var tree := Tree(nodes, true);
    forall n, a | n in nodes && a in Above(n) ensures a in nodes && nodes[a].Directory? {
      if nodes[n].File? {
        assert n in Files(tree);
        assert a in AllAbove(names);
      } else {
        assert n in Directories(tree);
        var m :| m in names && n in Above(m);
        ChainIsDownward(Parent(m), n);
        assert a in Above(m);
      }
      assert a in Directories(tree);
    }
  }

  /** One artifact more: its directories, then the file itself. */
  function Place(nodes: map<string, Node>, artifact: Artifact): Option<map<string, Node>>
    requires artifact.source.Regular?
  {
    var made := MakeDirectories(nodes, Parent(artifact.name));
    if artifact.name == "." || '\0' in artifact.name || made.None? then None
    else if artifact.name in made.value && !made.value[artifact.name].File? then None
    else Some(made.value[artifact.name := File(artifact.source.content, artifact.source.executable, true)])
  }

  lemma PlaceOne(nodes: map<string, Node>, artifacts: seq<Artifact>, k: nat)
    requires k < |artifacts| && Placed(nodes, artifacts[..k]) && Distinct(artifacts)
    requires artifacts[k].source.Regular? && artifacts[k].name != ""
    ensures var placed := Place(nodes, artifacts[k]);
            && (placed.Some? ==> Placed(placed.value, artifacts[..k + 1]))
            && (placed.None? ==> !Creatable(artifacts))
  {
    var a, done := artifacts[k], artifacts[..k];
    var names := NamesOf(done);
    PlacedClosed(nodes, done);
    DirectoriesMade(nodes, Parent(a.name));
    var made := MakeDirectories(nodes, Parent(a.name));
    var placed := Place(nodes, a);
    if placed.None? {
      if made.None? {
        var p :| p in Above(a.name) && p in nodes && !nodes[p].Directory?;
        assert p in Files(Tree(nodes, true));
        var i :| 0 <= i < |names| && names[i] == p;
        assert artifacts[i].name in Above(artifacts[k].name);
      } else if a.name != "." && '\0' !in a.name {
        if a.name in nodes {
          assert a.name in Directories(Tree(nodes, true));
          var m :| m in NameSet(names) && a.name in Above(m);
          var i :| 0 <= i < |names| && names[i] == m;
          assert artifacts[k].name in Above(artifacts[i].name);
        } else {
          ChainIsDownward(Parent(a.name), a.name);
        }
      }
    } else {
      PlacedMore(nodes, artifacts, k, placed.value);
    }
  }

  /** What placing one file, with the directories above it, does to a tree. */
  ghost predicate PlacedInto(nodes: map<string, Node>, placed: map<string, Node>, name: string) {
    && placed.Keys == nodes.Keys + Above(name) + {name}
    && (name in nodes ==> nodes[name].File?) && name !in Above(name) && placed[name].File?
    && (forall a :: a in Above(name) && a in nodes ==> nodes[a].Directory?)
    && forall n :: n in placed && n != name ==> placed[n] == if n in nodes then nodes[n] else Directory(true)
  }

  lemma TreeGrows(nodes: map<string, Node>, placed: map<string, Node>, name: string)
    requires PlacedInto(nodes, placed, name)
    ensures Files(Tree(placed, true)) == Files(Tree(nodes, true)) + {name}
    ensures Directories(Tree(placed, true)) == Directories(Tree(nodes, true)) + Above(name)
  {
  }

  lemma NamesGrow(artifacts: seq<Artifact>, k: nat)
    requires k < |artifacts|
    ensures NameSet(NamesOf(artifacts[..k + 1])) == NameSet(NamesOf(artifacts[..k])) + {artifacts[k].name}
  {
    var names := NamesOf(artifacts);
    assert NamesOf(artifacts[..k]) == names[..k] && NamesOf(artifacts[..k + 1]) == names[..k + 1];
    NameSetGrows(names, k);
  }

  ghost predicate AllCopied(artifacts: seq<Artifact>, nodes: map<string, Node>) {
    forall i :: 0 <= i < |artifacts| ==> Copied(artifacts[i], nodes)
  }

  lemma CopiedMore(nodes: map<string, Node>, artifacts: seq<Artifact>, k: nat, placed: map<string, Node>)
    requires k < |artifacts| && AllCopied(artifacts[..k], nodes) && Distinct(artifacts)
    requires PlacedInto(nodes, placed, artifacts[k].name) && Copied(artifacts[k], placed)
    ensures AllCopied(artifacts[..k + 1], placed)
  {
    var done, more := artifacts[..k], artifacts[..k + 1];
    forall i | 0 <= i < |more| ensures Copied(more[i], placed) {
      if i < k {
        assert more[i] == done[i] && Copied(done[i], nodes);
        assert artifacts[i].name != artifacts[k].name;
      }
    }
  }

  lemma PlacedMore(nodes: map<string, Node>, artifacts: seq<Artifact>, k: nat, placed: map<string, Node>)
    requires k < |artifacts| && Placed(nodes, artifacts[..k]) && Distinct(artifacts)
    requires PlacedInto(nodes, placed, artifacts[k].name) && Copied(artifacts[k], placed)
    ensures Placed(placed, artifacts[..k + 1])
  {
    NamesGrow(artifacts, k);
    AllAboveGrows(NameSet(NamesOf(artifacts[..k])), artifacts[k].name);
    TreeGrows(nodes, placed, artifacts[k].name);
    CopiedMore(nodes, artifacts, k, placed);
  }

  /** The files and directories, copied in order; the manifest's text builds up beside them. */
  method AddArtifact(nodes: map<string, Node>, text: string, artifacts: seq<Artifact>, k: nat, digest: Digest)
    returns (made: Option<(map<string, Node>, string)>)
    requires Distinct(artifacts) && k < |artifacts|
    requires forall i :: 0 <= i < |artifacts| ==> artifacts[i].source.Regular? && artifacts[i].name != ""
    requires Placed(nodes, artifacts[..k]) && text == Text(Entries(artifacts, digest)[..k])
    ensures made.None? ==> !Creatable(artifacts)
    ensures made.Some? ==>
              && Placed(made.value.0, artifacts[..k + 1]) && made.value.1 == Text(Entries(artifacts, digest)[..k + 1])
              && artifacts[k].name != "." && '\0' !in artifacts[k].name
  {
    var artifact := artifacts[k];
    ghost var entries := Entries(artifacts, digest);
    PlaceOne(nodes, artifacts, k);
    var placed := Place(nodes, artifact);
    if placed.None? {
      return None;
    }
    var node := placed.value[artifact.name];
    TextGrows(entries[..k], entries[k]);
    assert entries[..k + 1] == entries[..k] + [entries[k]];
    return Some((placed.value, text + Line(Entry(artifact.name, digest(node.content), node.executable))));
  }

  method Populate(artifacts: seq<Artifact>, digest: Digest)
    returns (made: Option<(map<string, Node>, string)>)
    requires Distinct(artifacts)
    requires forall i :: 0 <= i < |artifacts| ==> artifacts[i].source.Regular? && artifacts[i].name != ""
    ensures made.None? ==> !Creatable(artifacts)
    ensures made.Some? ==> Placed(made.value.0, artifacts) && made.value.1 == Text(Entries(artifacts, digest))
    ensures made.Some? ==> forall i :: 0 <= i < |artifacts| ==> artifacts[i].name != "." && '\0' !in artifacts[i].name
  {
    var nodes: map<string, Node> := map[];
    var text := "";
    ghost var entries := Entries(artifacts, digest);
    for k := 0 to |artifacts|
      invariant Placed(nodes, artifacts[..k]) && text == Text(entries[..k])
      invariant forall i :: 0 <= i < k ==> artifacts[i].name != "." && '\0' !in artifacts[i].name
    {
      var added := AddArtifact(nodes, text, artifacts, k, digest);
      if added.None? {
        return None;
      }
      nodes, text := added.value.0, added.value.1;
    }
    assert artifacts[..|artifacts|] == artifacts && entries[..|artifacts|] == entries;
    return Some((nodes, text));
  }

  function Entries(artifacts: seq<Artifact>, digest: Digest): (entries: seq<Entry>)
    requires forall i :: 0 <= i < |artifacts| ==> artifacts[i].source.Regular?
    ensures |entries| == |artifacts|
    ensures forall i :: 0 <= i < |entries| ==>
              entries[i] == Entry(artifacts[i].name, digest(artifacts[i].source.content),
                                  artifacts[i].source.executable)
  {
    seq(|artifacts|, i requires 0 <= i < |artifacts| =>
      Entry(artifacts[i].name, digest(artifacts[i].source.content), artifacts[i].source.executable))
  }

  /** The finished tree: the artifacts and the manifest that lists them. */
  function Finished(nodes: map<string, Node>, text: Bytes): Tree {
    Tree(nodes[MANIFEST := File(text, false, true)], true)
  }

  lemma FinishedHolds(nodes: map<string, Node>, artifacts: seq<Artifact>, text: Bytes)
    requires Placed(nodes, artifacts) && MANIFEST !in nodes
    ensures Holds(Finished(nodes, text), artifacts)
  {
    var tree := Finished(nodes, text);
    ManifestAdded(nodes, tree.nodes[MANIFEST]);
    forall i | 0 <= i < |artifacts| ensures Copied(artifacts[i], tree.nodes) {
      assert Copied(artifacts[i], nodes);
    }
  }

  lemma FinishedIsExact(nodes: map<string, Node>, artifacts: seq<Artifact>, digest: Digest, text: Bytes)
    requires HexDigest(digest) && artifacts != [] && Increasing(NamesOf(artifacts))
    requires Placed(nodes, artifacts) && MANIFEST !in nodes
    requires forall i :: 0 <= i < |artifacts| ==> RelativePath(artifacts[i].name) && OneLine(artifacts[i].name)
    requires text == Text(Entries(artifacts, digest)) && Ascii(text)
    ensures Exact(Finished(nodes, text), digest)
  {
    var entries, tree := Entries(artifacts, digest), Finished(nodes, text);
    FinishedHolds(nodes, artifacts, text);
    ParseText(entries);
    assert Names(entries) == NamesOf(artifacts);
    RecordedEntries(tree, artifacts, digest);
    assert Describes(entries, tree, digest);
  }

  lemma RecordedEntries(tree: Tree, artifacts: seq<Artifact>, digest: Digest)
    requires Holds(tree, artifacts)
    ensures forall i :: 0 <= i < |artifacts| ==> Recorded(Entries(artifacts, digest)[i], tree, digest)
  {
    forall i | 0 <= i < |artifacts| ensures Recorded(Entries(artifacts, digest)[i], tree, digest) {
      assert Copied(artifacts[i], tree.nodes);
    }
  }

  lemma ManifestAdded(nodes: map<string, Node>, manifest: Node)
    requires manifest.File? && MANIFEST !in nodes
    ensures Files(Tree(nodes[MANIFEST := manifest], true)) == Files(Tree(nodes, true)) + {MANIFEST}
    ensures Directories(Tree(nodes[MANIFEST := manifest], true)) == Directories(Tree(nodes, true))
  {
  }

  /** A release verify accepts holds no file with a line separator in its name. */
  lemma ExactNames(tree: Tree, digest: Digest, name: string)
    requires Exact(tree, digest) && name in Files(tree) && name != MANIFEST
    ensures OneLine(name)
  {
    ParsedNames(tree.nodes[MANIFEST].content);
  }

  /** No file of the tree lies above another: the tree has it as a directory then. */
  lemma PlacedClear(nodes: map<string, Node>, artifacts: seq<Artifact>)
    requires Placed(nodes, artifacts) && MANIFEST !in nodes
    ensures forall i :: 0 <= i < |artifacts| ==> Clear(artifacts[i].name, artifacts)
  {
    var tree, names := Tree(nodes, true), NamesOf(artifacts);
    forall i | 0 <= i < |artifacts| ensures Clear(artifacts[i].name, artifacts) {
      assert names[i] in NameSet(names);
      assert Above(names[i]) <= Directories(tree);
      forall j | 0 <= j < |artifacts| ensures artifacts[j].name in Files(tree) {
        assert names[j] in NameSet(names);
      }
    }
  }

  lemma CreatableOfSorted(artifacts: seq<Artifact>, order: seq<Artifact>)
    requires multiset(order) == multiset(artifacts) && Distinct(artifacts) && Distinct(order)
    ensures Creatable(artifacts) <==> Creatable(order)
  {
    SameMembers(artifacts, order);
    if Creatable(artifacts) {
      CreatableMembers(artifacts, order);
    }
    if Creatable(order) {
      CreatableMembers(order, artifacts);
    }
  }

  lemma CreatableMembers(s: seq<Artifact>, r: seq<Artifact>)
    requires Creatable(s) && Distinct(r) && |r| == |s| && forall a :: a in s <==> a in r
    ensures Creatable(r)
  {
    forall i | 0 <= i < |r| ensures r[i].source.Regular? && Nameable(r[i].name) && Clear(r[i].name, r) {
      assert r[i] in s;
      var k :| 0 <= k < |s| && s[k] == r[i];
      forall j | 0 <= j < |r| ensures r[j].name !in Above(r[i].name) {
        assert r[j] in s;
        var m :| 0 <= m < |s| && s[m] == r[j];
        assert s[m].name !in Above(s[k].name);
      }
    }
  }

  lemma IncreasingDistinct(artifacts: seq<Artifact>)
    requires Increasing(NamesOf(artifacts))
    ensures Distinct(artifacts)
  {
    forall i, j | 0 <= i < j < |artifacts| ensures artifacts[i].name != artifacts[j].name {
      IncreasingApart(NamesOf(artifacts), i, j);
      BelowStrict(artifacts[i].name, artifacts[j].name);
    }
  }

  /** The manifest is written and the tree verified. */
  method Finish(nodes: map<string, Node>, text: string, order: seq<Artifact>, digest: Digest)
    returns (made: Option<Release>)
    requires HexDigest(digest) && order != [] && Increasing(NamesOf(order)) && Placed(nodes, order)
    requires forall i :: 0 <= i < |order| ==> RelativePath(order[i].name)
    requires text == Text(Entries(order, digest))
    ensures made.Some? <==> MANIFEST !in nodes && Ascii(text) && forall i :: 0 <= i < |order| ==> OneLine(order[i].name)
    ensures made.Some? ==> Verified(made.value, order, digest)
    ensures made.Some? ==> made.value.tree.nodes[MANIFEST] == File(text, false, true)
  {
    if !Ascii(text) || MANIFEST in nodes {
      return None;
    }
    var tree := Finished(nodes, text);
    var identity := Verify(tree, digest, false);
    FinishedHolds(nodes, order, text);
    if forall i :: 0 <= i < |order| ==> OneLine(order[i].name) {
      FinishedIsExact(nodes, order, digest, text);
    }
    if identity.None? {
      return None;
    }
    forall i | 0 <= i < |order| ensures OneLine(order[i].name) {
      assert NamesOf(order)[i] in NameSet(NamesOf(order));
      ExactNames(tree, digest, order[i].name);
    }
    return Some(Release(tree, identity.value));
  }

  /** A release of these artifacts that verify accepts, under its identity. */
  ghost predicate Verified(release: Release, artifacts: seq<Artifact>, digest: Digest) {
    && Exact(release.tree, digest) && Holds(release.tree, artifacts)
    && release.identity == digest(release.tree.nodes[MANIFEST].content)
  }

  /** create, from the names in order to a verified tree. */
  method Build(order: seq<Artifact>, digest: Digest) returns (made: Option<Release>)
    requires HexDigest(digest) && order != [] && Increasing(NamesOf(order))
    requires forall i :: 0 <= i < |order| ==> order[i].source.Regular? && RelativePath(order[i].name)
    ensures made.Some? <==> Creatable(order)
    ensures made.Some? ==> Verified(made.value, order, digest)
    ensures made.Some? ==> made.value.tree.nodes[MANIFEST].content == Text(Entries(order, digest))
  {
    IncreasingDistinct(order);
    var populated := Populate(order, digest);
    if populated.None? {
      return None;
    }
    var (nodes, text) := populated.value;
    AsciiNames(order, digest);
    ManifestPlace(nodes, order);
    if MANIFEST !in nodes {
      PlacedClear(nodes, order);
    }
    made := Finish(nodes, text, order, digest);
  }

  lemma AsciiNames(artifacts: seq<Artifact>, digest: Digest)
    requires HexDigest(digest)
    requires forall i :: 0 <= i < |artifacts| ==> artifacts[i].source.Regular?
    ensures Ascii(Text(Entries(artifacts, digest))) <==> forall i :: 0 <= i < |artifacts| ==> Ascii(artifacts[i].name)
  {
    var entries := Entries(artifacts, digest);
    AsciiText(entries);
    assert forall i :: 0 <= i < |artifacts| ==> entries[i].name == artifacts[i].name;
  }

  /** The manifest's name is taken only by a directory some artifact needs. */
  lemma ManifestPlace(nodes: map<string, Node>, artifacts: seq<Artifact>)
    requires Placed(nodes, artifacts)
    requires forall i :: 0 <= i < |artifacts| ==> RelativePath(artifacts[i].name)
    ensures MANIFEST in nodes ==> !Creatable(artifacts)
  {
    var names := NamesOf(artifacts);
    if MANIFEST in nodes {
      assert MANIFEST !in NameSet(names);
      assert MANIFEST in Files(Tree(nodes, true)) || MANIFEST in Directories(Tree(nodes, true));
      var m :| m in NameSet(names) && MANIFEST in Above(m);
      var i :| 0 <= i < |names| && names[i] == m;
      assert !Clear(artifacts[i].name, artifacts);
    }
  }

  /** This is the manifest of the artifacts in name order, and there is one such order. */
  ghost predicate ManifestLists(content: string, artifacts: seq<Artifact>, digest: Digest) {
    exists order :: ByName(order, artifacts) && AllRegular(order) && content == Text(Entries(order, digest))
      && forall other :: ByName(other, artifacts) ==> other == order
  }

  ghost predicate ByName(order: seq<Artifact>, artifacts: seq<Artifact>) {
    multiset(order) == multiset(artifacts) && Increasing(NamesOf(order))
  }

  ghost predicate AllRegular(artifacts: seq<Artifact>) {
    forall i :: 0 <= i < |artifacts| ==> artifacts[i].source.Regular?
  }

  lemma OnlyManifest(artifacts: seq<Artifact>, order: seq<Artifact>, digest: Digest)
    requires ByName(order, artifacts) && AllRegular(order)
    ensures ManifestLists(Text(Entries(order, digest)), artifacts, digest)
  {
    forall other | ByName(other, artifacts) ensures other == order {
      NameOrderUnique(other, order);
    }
  }

  /**
   create makes a release exactly when the names allow one, and the release holds exactly the
   artifacts asked for, under a manifest that verify accepts: their records, in name order.
   */
  method Create(artifacts: seq<Artifact>, digest: Digest) returns (made: Option<Release>)
    requires HexDigest(digest)
    ensures made.Some? <==> Creatable(artifacts)
    ensures made.Some? ==> Verified(made.value, artifacts, digest)
    ensures made.Some? ==> ManifestLists(made.value.tree.nodes[MANIFEST].content, artifacts, digest)
  {
    for k := 0 to |artifacts|
      invariant forall i :: 0 <= i < k ==> artifacts[i].source.Regular? && RelativePath(artifacts[i].name)
    {
      if !RelativePath(artifacts[k].name) || !artifacts[k].source.Regular? {
        return None;
      }
    }
    if artifacts == [] || !Distinct(artifacts) {
      return None;
    }
    var order := SortByName(artifacts);
    SortedByName(artifacts);
    made := Build(order, digest);
    if made.Some? {
      VerifiedInAnyOrder(made.value, order, artifacts, digest);
      OnlyManifest(artifacts, order, digest);
    }
  }

  lemma SortedByName(artifacts: seq<Artifact>)
    requires artifacts != [] && Distinct(artifacts) && AllRegular(artifacts)
    requires forall i :: 0 <= i < |artifacts| ==> RelativePath(artifacts[i].name)
    ensures var order := SortByName(artifacts);
            && ByName(order, artifacts) && order != [] && AllRegular(order)
            && (forall i :: 0 <= i < |order| ==> RelativePath(order[i].name))
            && (Creatable(order) <==> Creatable(artifacts))
  {
    var order := SortByName(artifacts);
    SortOrders(artifacts);
    SameMembers(artifacts, order);
    IncreasingDistinct(order);
    CreatableOfSorted(artifacts, order);
    assert forall i :: 0 <= i < |order| ==> order[i] in artifacts;
  }

  lemma VerifiedInAnyOrder(release: Release, order: seq<Artifact>, artifacts: seq<Artifact>, digest: Digest)
    requires ByName(order, artifacts) && Verified(release, order, digest)
    ensures Verified(release, artifacts, digest)
  {
    SameMembers(artifacts, order);
    forall i | 0 <= i < |artifacts| ensures Copied(artifacts[i], release.tree.nodes) {
      assert artifacts[i] in order;
      var j :| 0 <= j < |order| && order[j] == artifacts[i];
      assert Copied(order[j], release.tree.nodes);
    }
  }

  /** A path below the manifest's name needs it as a directory. */
  lemma {:induction false} BelowNeedsDirectory(name: string)
    requires PathText(name) && MANIFEST + "/" <= name
    ensures MANIFEST in Above(name)
    decreases |name|
  {
    var parent := Parent(name);
    assert name[16] == '/' && name[..16] == MANIFEST;
    SlashPast(name, 16);
    if SlashAfter(name) > 17 {
      assert MANIFEST + "/" <= parent;
      BelowNeedsDirectory(parent);
    } else {
      assert parent == MANIFEST;
    }
  }

  /** Valid, unique and prefix-free names are not enough: those below the manifest are refused. */
  lemma BelowManifestRefused(artifacts: seq<Artifact>, k: nat)
    requires k < |artifacts| && PathText(artifacts[k].name) && MANIFEST + "/" <= artifacts[k].name
    ensures RelativePath(artifacts[k].name) && !Creatable(artifacts)
  {
    BelowNeedsDirectory(artifacts[k].name);
    assert !Clear(artifacts[k].name, artifacts);
    assert |artifacts[k].name| > |MANIFEST|;
  }

  /** Releases of one identity were created from the same artifacts, unless the digest collides on them. */
  lemma IdentityNamesArtifacts(a: Tree, b: Tree, digest: Digest, made: seq<Artifact>, again: seq<Artifact>)
    requires Exact(a, digest) && Exact(b, digest) && Holds(a, made) && Holds(b, again)
    requires digest(a.nodes[MANIFEST].content) == digest(b.nodes[MANIFEST].content)
    requires Creatable(made) && Creatable(again)
    ensures (forall x :: x in made <==> x in again) || Collides(digest, Contents(a) + Contents(b))
  {
    if !Collides(digest, Contents(a) + Contents(b)) {
      IdentityNamesTree(a, b, digest);
      SameArtifacts(a, b, made, again);
      SameArtifacts(b, a, again, made);
    }
  }

  lemma SameArtifacts(a: Tree, b: Tree, made: seq<Artifact>, again: seq<Artifact>)
    requires Holds(a, made) && Holds(b, again) && Creatable(made)
    requires SameTree(a, b) || SameTree(b, a)
    ensures forall x :: x in made ==> x in again
  {
    var names := NamesOf(again);
    forall x | x in made ensures x in again {
      var i :| 0 <= i < |made| && made[i] == x;
      assert Copied(made[i], a.nodes);
      assert x.name in Files(a) && x.name != MANIFEST;
      assert x.name in NameSet(names);
      var j :| 0 <= j < |names| && names[j] == x.name;
      assert Copied(again[j], b.nodes);
      assert again[j] == x;
    }
  }
}
