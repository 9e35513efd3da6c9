/**
 Scanline reconstruction in read_png of tools/aicon.py: 8-bit samples, filter types 0 to 4 of
 section 6 of RFC 2083, undone in place one byte at a time.

 The filters are stated from the encoder's side, as the standard states them; the loops are
 proved to invert them.
 */
module PngFilter {
  import opened Prelude

  // ----- the standard's side -----------------------------------------------------------

  /** The Paeth predictor of section 6.6: nearest of left, above, upper left, in that order. */
  function Paeth(left: byte, up: byte, corner: byte): byte {
    var guess := left as int + up as int - corner as int;
    var toLeft, toUp, toCorner := Abs(guess - left as int), Abs(guess - up as int), Abs(guess - corner as int);
    if toLeft <= toUp && toLeft <= toCorner then left
    else if toUp <= toCorner then up
    else corner
  }

  /** What each filter type subtracts from a byte (sections 6.2 to 6.6). */
  function Prediction(kind: byte, left: byte, up: byte, corner: byte): byte {
    match kind
    case 1 => left
    case 2 => up
    case 3 => ((left as int + up as int) / 2) as byte
    case 4 => Paeth(left, up, corner)
    case _ => 0
  }

  /** The byte `channels` places before `x`, or 0 off the left edge. */
  function Before(line: seq<byte>, x: nat, channels: nat): byte
    requires x <= |line|
  {
    if x >= channels > 0 then line[x - channels] else 0
  }

  function FilteredByte(kind: byte, line: seq<byte>, previous: seq<byte>, channels: nat, x: nat): byte
    requires x < |line| == |previous|
  {
    var p := Prediction(kind, Before(line, x, channels), previous[x], Before(previous, x, channels));
    ((line[x] as int - p as int) % 256) as byte
  }

  /** One scanline as an encoder writes it with filter `kind`. */
  function Filtered(kind: byte, line: seq<byte>, previous: seq<byte>, channels: nat): (out: seq<byte>)
    requires |line| == |previous|
    ensures |out| == |line|
  {
    seq(|line|, x requires 0 <= x < |line| => FilteredByte(kind, line, previous, channels, x))
  }

  function Blank(stride: nat): (line: seq<byte>)
    ensures |line| == stride
  {
    seq(stride, _ => 0)
  }

  ghost predicate Image(rows: seq<seq<byte>>, kinds: seq<byte>, stride: nat) {
    && |rows| == |kinds|
    && (forall y :: 0 <= y < |rows| ==> |rows[y]| == stride)
    && (forall y :: 0 <= y < |kinds| ==> kinds[y] <= 4)
  }

  /** The line above row `y`; a blank one above the first. */
  function Above(rows: seq<seq<byte>>, y: nat, stride: nat): seq<byte>
    requires y <= |rows|
  {
    if y == 0 then Blank(stride) else rows[y - 1]
  }

  /** Where row `y` of a stream starts: each row before it takes a filter byte and a scanline. */
  function Offset(y: nat, stride: nat): nat {
    if y == 0 then 0 else Offset(y - 1, stride) + stride + 1
  }

  lemma {:induction false} OffsetGrows(y: nat, k: nat, stride: nat)
    requires y <= k
    ensures Offset(y, stride) + (k - y) <= Offset(k, stride)
  {
    if y < k {
      OffsetGrows(y, k - 1, stride);
    }
  }

  lemma {:induction false} OffsetIsProduct(y: nat, stride: nat)
    ensures Offset(y, stride) == y * (stride + 1)
  {
    if y > 0 {
      OffsetIsProduct(y - 1, stride);
      assert y * (stride + 1) == (y - 1) * (stride + 1) + (stride + 1);
    }
  }

  /** The whole filtered stream: each row's filter type, then its filtered bytes. */
  function Stream(rows: seq<seq<byte>>, kinds: seq<byte>, stride: nat, channels: nat): (raw: seq<byte>)
    requires |rows| == |kinds| && forall y :: 0 <= y < |rows| ==> |rows[y]| == stride
    ensures |raw| == Offset(|rows|, stride)
  {
    if rows == [] then []
    else
      var last := |rows| - 1;
      Stream(rows[..last], kinds[..last], stride, channels)
      + [kinds[last]] + Filtered(kinds[last], rows[last], Above(rows, last, stride), channels)
  }

  // ----- inversion ---------------------------------------------------------------------

  /** Python's min over the three (distance, position) pairs. */
  function Nearest(toLeft: nat, toUp: nat, toCorner: nat): (near: nat)
  {
    var first := if toUp < toLeft then (toUp, 1) else (toLeft, 0);
    if toCorner < first.0 then 2 else first.1
  }

  /** Choosing by the smallest (distance, position) pair is the standard's predictor. */
  lemma NearestIsPaeth(left: byte, up: byte, corner: byte)
    ensures var guess := left as int + up as int - corner as int;
            var near := Nearest(Abs(guess - left as int), Abs(guess - up as int), Abs(guess - corner as int));
            near < 3 && [left, up, corner][near] == Paeth(left, up, corner)
  {
  }

  /** A filtered scanline determines the scanline, given the line above it. */
  lemma {:induction false} FilteredInjective(kind: byte, a: seq<byte>, b: seq<byte>, previous: seq<byte>,
                                             channels: nat, n: nat)
    requires |a| == |b| == |previous| && n <= |a|
    requires Filtered(kind, a, previous, channels) == Filtered(kind, b, previous, channels)
    ensures a[..n] == b[..n]
  {
    if n > 0 {
      FilteredInjective(kind, a, b, previous, channels, n - 1);
      var x := n - 1;
      assert Before(a, x, channels) == Before(b, x, channels) by {
        assert x >= channels > 0 ==> a[..x][x - channels] == b[..x][x - channels];
      }
      assert Filtered(kind, a, previous, channels)[x] == Filtered(kind, b, previous, channels)[x];
      assert a[..n] == a[..x] + [a[x]];
      assert b[..n] == b[..x] + [b[x]];
    }
  }

  lemma SameParts(a: seq<byte>, b: byte, c: seq<byte>, a': seq<byte>, b': byte, c': seq<byte>)
    requires |a| == |a'| && a + [b] + c == a' + [b'] + c'
    ensures a == a' && b == b' && c == c'
  {
    var s, s' := a + [b] + c, a' + [b'] + c';
    assert s[..|a|] == a && s'[..|a|] == a';
    assert s[|a|] == b && s'[|a|] == b';
    assert s[|a| + 1..] == c && s'[|a| + 1..] == c';
  }

  /** The last row of a stream, after the rows before it. */
  lemma StreamParts(rows: seq<seq<byte>>, kinds: seq<byte>, stride: nat, channels: nat)
    requires Image(rows, kinds, stride) && rows != []
    ensures var last := |rows| - 1;
            && Image(rows[..last], kinds[..last], stride)
            && Stream(rows, kinds, stride, channels)
               == Stream(rows[..last], kinds[..last], stride, channels) + [kinds[last]]
                  + Filtered(kinds[last], rows[last], Above(rows[..last], last, stride), channels)
  {
    var last := |rows| - 1;
    assert Above(rows, last, stride) == Above(rows[..last], last, stride);
  }

  lemma SameEnds<T>(a: seq<T>, b: seq<T>)
    requires |a| == |b| > 0 && a[..|a| - 1] == b[..|b| - 1] && a[|a| - 1] == b[|b| - 1]
    ensures a == b
  {
    assert a == a[..|a| - 1] + [a[|a| - 1]] && b == b[..|b| - 1] + [b[|b| - 1]];
  }

  /** A stream determines its filter types and its rows. */
  lemma {:induction false} StreamInjective(
    rows: seq<seq<byte>>, kinds: seq<byte>, rows': seq<seq<byte>>, kinds': seq<byte>, stride: nat, channels: nat)
    requires Image(rows, kinds, stride) && Image(rows', kinds', stride) && |rows| == |rows'|
    requires Stream(rows, kinds, stride, channels) == Stream(rows', kinds', stride, channels)
    ensures rows == rows' && kinds == kinds'
  {
    if rows != [] {
      var last := |rows| - 1;
      var front, front' := rows[..last], rows'[..last];
      StreamParts(rows, kinds, stride, channels);
      StreamParts(rows', kinds', stride, channels);
      SameParts(Stream(front, kinds[..last], stride, channels), kinds[last],
                Filtered(kinds[last], rows[last], Above(front, last, stride), channels),
                Stream(front', kinds'[..last], stride, channels), kinds'[last],
                Filtered(kinds'[last], rows'[last], Above(front', last, stride), channels));
      StreamInjective(front, kinds[..last], front', kinds'[..last], stride, channels);
      SameRow(kinds[last], rows[last], rows'[last], Above(front, last, stride), channels);
      SameEnds(rows, rows');
      SameEnds(kinds, kinds');
    }
  }

  lemma SameRow(kind: byte, a: seq<byte>, b: seq<byte>, previous: seq<byte>, channels: nat)
    requires |a| == |b| == |previous|
    requires Filtered(kind, a, previous, channels) == Filtered(kind, b, previous, channels)
    ensures a == b
  {
    FilteredInjective(kind, a, b, previous, channels, |a|);
    assert a[..|a|] == a && b[..|a|] == b;
  }

  // ----- the loops ---------------------------------------------------------------------

  /** What the decoder adds back at one byte, spelled as the program spells it. */
  method Predict(kind: byte, left: byte, up: byte, corner: byte) returns (ok: bool, p: byte)
    ensures ok <==> kind <= 4
    ensures ok ==> p == Prediction(kind, left, up, corner)
  {
    if kind == 1 {
      return true, left;
    } else if kind == 2 {
      return true, up;
    } else if kind == 3 {
      return true, ((left as int + up as int) / 2) as byte;
    } else if kind == 4 {
      var guess := left as int + up as int - corner as int;
      var near := Nearest(Abs(guess - left as int), Abs(guess - up as int), Abs(guess - corner as int));
      NearestIsPaeth(left, up, corner);
      return true, [left, up, corner][near];
    }
    return kind == 0, 0;
  }

  datatype LineEnd = Undone | Undefined | Short

  /**
   The loop runs over a whole scanline.  It reads the byte `channels` back even of an unfiltered
   one, so of those one that lacks only its last bytes gets through.
   */
  predicate TooShort(kind: byte, length: nat, stride: nat, channels: nat) {
    length < stride && (kind != 0 || length + channels < stride)
  }

  /** Adding the prediction back to one byte undoes its filter and leaves the bytes before it alone. */
  lemma UndoneByte(kind: byte, before: seq<byte>, after: seq<byte>, previous: seq<byte>, channels: nat, x: nat, p: byte)
    requires x < |before| == |previous| && channels > 0
    requires after == before[x := ((before[x] as int + p as int) % 256) as byte]
    requires p == Prediction(kind, Before(before, x, channels), previous[x], Before(previous, x, channels))
    ensures FilteredByte(kind, after, previous, channels, x) == before[x]
    ensures forall k :: 0 <= k < x ==>
              FilteredByte(kind, after, previous, channels, k) == FilteredByte(kind, before, previous, channels, k)
  {
    assert forall k :: 0 <= k <= x ==> Before(after, k, channels) == Before(before, k, channels);
  }

  /** One scanline undone in place: filtering the result again gives what was there. */
  method UnfilterLine(kind: byte, line: array<byte>, previous: seq<byte>, channels: nat) returns (end: LineEnd)
    requires line.Length <= |previous| && channels > 0
    modifies line
    ensures end.Undefined? <==> kind > 4 && |previous| > 0
    ensures end.Short? <==> kind <= 4 && TooShort(kind, line.Length, |previous|, channels)
    ensures end.Undone? && line.Length == |previous| ==> Filtered(kind, line[..], previous, channels) == old(line[..])
    ensures end.Undone? && line.Length < |previous| ==> line[..] == old(line[..])
  {
    ghost var raw := line[..];
    var x := 0;
    while x < |previous|
      invariant x <= |previous| && x <= line.Length + channels
      invariant x > 0 ==> kind <= 4
      invariant if kind == 0 then line[..] == raw else x <= line.Length
      invariant forall k :: x <= k < line.Length ==> line[k] == raw[k]
      invariant line.Length == |previous| ==>
                  forall k :: 0 <= k < x ==> FilteredByte(kind, line[..], previous, channels, k) == raw[k]
    {
      if x >= line.Length + channels {
        return Short;
      }
      var left := if x >= channels then line[x - channels] else 0;
      var up := previous[x];
      var corner := if x >= channels then previous[x - channels] else 0;
      var ok, p := Predict(kind, left, up, corner);
      if !ok {
        return Undefined;
      }
      if kind != 0 {
        if x >= line.Length {
          return Short;
        }
        ghost var before := line[..];
        line[x] := ((line[x] as int + p as int) % 256) as byte;
        if line.Length == |previous| {
          UndoneByte(kind, before, line[..], previous, channels, x, p);
        }
      }
      x := x + 1;
    }
    assert line.Length == |previous| ==> Filtered(kind, line[..], previous, channels) == raw;
    return Undone;
  }

  datatype Rows = Rows(rows: seq<seq<byte>>) | BadFilter | Truncated

  /** Row `y` of a stream has at least its filter type. */
  predicate Begins(raw: seq<byte>, y: nat, stride: nat) {
    Offset(y, stride) < |raw|
  }

  /** Row `y` of a stream is complete. */
  predicate Present(raw: seq<byte>, y: nat, stride: nat) {
    Offset(y + 1, stride) <= |raw|
  }

  function KindAt(raw: seq<byte>, y: nat, stride: nat): byte
    requires Begins(raw, y, stride)
  {
    raw[Offset(y, stride)]
  }

  /** The filter types of the first `height` rows. */
  function Kinds(raw: seq<byte>, height: nat, stride: nat): (kinds: seq<byte>)
    requires Offset(height, stride) <= |raw|
    ensures |kinds| == height
  {
    if height == 0 then [] else Kinds(raw, height - 1, stride) + [KindAt(raw, height - 1, stride)]
  }

  /** Some row of the stream names a filter the standard does not define. */
  ghost predicate HasBadFilter(raw: seq<byte>, height: nat, stride: nat) {
    stride > 0 && exists y: nat :: y < height && Begins(raw, y, stride) && KindAt(raw, y, stride) > 4
  }

  /** The stream ends in its last row, which is not filtered and lacks at most its last pixel. */
  predicate EndsInLastPixel(raw: seq<byte>, height: nat, stride: nat, channels: nat) {
    && height > 0 && Begins(raw, height - 1, stride) && |raw| < Offset(height, stride)
    && KindAt(raw, height - 1, stride) == 0 && Offset(height, stride) <= |raw| + channels
  }

  /** `rows` filtered with the stream's own filter types give the stream back. */
  ghost predicate Undoes(rows: seq<seq<byte>>, raw: seq<byte>, height: nat, stride: nat, channels: nat) {
    && |rows| == height && Offset(height, stride) <= |raw|
    && (forall y :: 0 <= y < height ==> |rows[y]| == stride)
    && Stream(rows, Kinds(raw, height, stride), stride, channels) == raw[..Offset(height, stride)]
  }

  lemma {:induction false} StreamKinds(rows: seq<seq<byte>>, kinds: seq<byte>, stride: nat, channels: nat, height: nat)
    requires Image(rows, kinds, stride) && height <= |rows|
    ensures Offset(height, stride) <= |Stream(rows, kinds, stride, channels)|
    ensures Kinds(Stream(rows, kinds, stride, channels), height, stride) == kinds[..height]
  {
    if height > 0 {
      StreamKinds(rows, kinds, stride, channels, height - 1);
      StreamKind(rows, kinds, stride, channels, height - 1);
      assert kinds[..height] == kinds[..height - 1] + [kinds[height - 1]];
    }
  }

  lemma {:induction false} StreamKind(rows: seq<seq<byte>>, kinds: seq<byte>, stride: nat, channels: nat, y: nat)
    requires Image(rows, kinds, stride) && y < |rows|
    ensures Present(Stream(rows, kinds, stride, channels), y, stride)
    ensures KindAt(Stream(rows, kinds, stride, channels), y, stride) == kinds[y]
  {
    var last := |rows| - 1;
    var raw := Stream(rows, kinds, stride, channels);
    var head := Stream(rows[..last], kinds[..last], stride, channels);
    RowBounds(raw, y, |rows|, stride);
    if y < last {
      StreamKind(rows[..last], kinds[..last], stride, channels, y);
      RowBounds(head, y, last, stride);
      assert raw[Offset(y, stride)] == head[Offset(y, stride)];
    } else {
      assert raw[|head|] == kinds[last];
    }
  }

  /** One more row appended to an undone prefix. */
  lemma UndoesOne(rows: seq<seq<byte>>, row: seq<byte>, raw: seq<byte>, y: nat, stride: nat, channels: nat)
    requires Undoes(rows, raw, y, stride, channels) && Present(raw, y, stride) && |row| == stride
    requires Filtered(KindAt(raw, y, stride), row, Above(rows, y, stride), channels)
             == raw[Offset(y, stride) + 1..Offset(y + 1, stride)]
    ensures Undoes(rows + [row], raw, y + 1, stride, channels)
  {
    var kinds := Kinds(raw, y + 1, stride);
    assert (rows + [row])[..y] == rows && kinds[..y] == Kinds(raw, y, stride);
    assert Above(rows + [row], y, stride) == Above(rows, y, stride);
    var at := Offset(y, stride);
    assert raw[..Offset(y + 1, stride)] == raw[..at] + [raw[at]] + raw[at + 1..Offset(y + 1, stride)];
  }

  /** Nothing begins after an incomplete row. */
  lemma RowBounds(raw: seq<byte>, y: nat, height: nat, stride: nat)
    requires y < height
    ensures Offset(y, stride) + stride + 1 == Offset(y + 1, stride)
    ensures !Present(raw, y, stride) ==>
              |raw| < Offset(height, stride) && forall k: nat :: k > y ==> !Begins(raw, k, stride)
    ensures !Begins(raw, y, stride) ==> forall k: nat :: k >= y ==> !Begins(raw, k, stride)
  {
    OffsetGrows(y + 1, height, stride);
    forall k: nat | k > y ensures Offset(k, stride) >= Offset(y + 1, stride) {
      OffsetGrows(y + 1, k, stride);
    }
  }

  /** One row of the stream, undone; of a stream that ends in it, what there is. */
  method UnfilterRow(raw: seq<byte>, y: nat, previous: seq<byte>, stride: nat, channels: nat)
    returns (end: LineEnd, row: seq<byte>)
    requires channels > 0 && Begins(raw, y, stride) && |previous| == stride
    requires Offset(y, stride) + stride + 1 == Offset(y + 1, stride)
    ensures end.Undefined? <==> KindAt(raw, y, stride) > 4 && stride > 0
    ensures end.Short? <==> !Present(raw, y, stride) && KindAt(raw, y, stride) <= 4
                            && (KindAt(raw, y, stride) != 0 || |raw| + channels < Offset(y + 1, stride))
    ensures end.Undone? && Present(raw, y, stride) ==>
              |row| == stride && Filtered(KindAt(raw, y, stride), row, previous, channels)
                                 == raw[Offset(y, stride) + 1..Offset(y + 1, stride)]
    ensures end.Undone? && !Present(raw, y, stride) ==> row == raw[Offset(y, stride) + 1..]
  {
    var at := Offset(y, stride) + 1;
    var length := if at + stride <= |raw| then stride else |raw| - at;
    var line := new byte[length](i requires 0 <= i < length => raw[at + i]);
    assert line[..] == raw[at..at + length];
    end := UnfilterLine(raw[at - 1], line, previous, channels);
    row := line[..];
  }

  /** What the rows returned for a stream are. */
  ghost predicate Decoded(rows: seq<seq<byte>>, raw: seq<byte>, height: nat, stride: nat, channels: nat) {
    if Offset(height, stride) <= |raw| then
      Undoes(rows, raw, height, stride, channels)
    else
      && height > 0 && |rows| == height && Undoes(rows[..height - 1], raw, height - 1, stride, channels)
      && Begins(raw, height - 1, stride) && rows[height - 1] == raw[Offset(height - 1, stride) + 1..]
  }

  // ----- every byte, from the stream -----------------------------------------------------

  /** The first least of three distances. */
  ghost predicate FirstLeast(far: seq<int>, i: nat) {
    && |far| == 3 && i < 3
    && (forall j :: 0 <= j < i ==> far[i] < far[j])
    && (forall j :: i <= j < 3 ==> far[i] <= far[j])
  }

  /** The nearest to left + up - corner, in this order where two are as near. */
  ghost predicate FirstNearest(left: int, up: int, corner: int, p: int) {
    var guess := left + up - corner;
    exists i: nat :: FirstLeast([Abs(guess - left), Abs(guess - up), Abs(guess - corner)], i)
      && p == [left, up, corner][i]
  }

  lemma LeastOfThree(a: int, b: int, c: int)
    ensures FirstLeast([a, b, c], if a <= b && a <= c then 0 else if b <= c then 1 else 2)
  {
  }

  lemma PaethIsFirstNearest(left: byte, up: byte, corner: byte)
    ensures FirstNearest(left as int, up as int, corner as int, Paeth(left, up, corner) as int)
  {
    var guess := left as int + up as int - corner as int;
    var a, b, c := Abs(guess - left as int), Abs(guess - up as int), Abs(guess - corner as int);
    LeastOfThree(a, b, c);
    var i := if a <= b && a <= c then 0 else if b <= c then 1 else 2;
    assert [left as int, up as int, corner as int][i] == Paeth(left, up, corner) as int;
  }

  /** A byte from what is stored for it and its neighbours. */
  ghost predicate Gives(kind: byte, stored: int, left: int, up: int, corner: int, value: int) {
    match kind
    case 0 => value == stored
    case 1 => value == (stored + left) % 256
    case 2 => value == (stored + up) % 256
    case 3 => value == (stored + (left + up) / 2) % 256
    case 4 => exists p :: FirstNearest(left, up, corner, p) && value == (stored + p) % 256
    case _ => false
  }

  /** Adding a prediction back gives the byte it was taken from. */
  lemma PredictionGives(kind: byte, stored: byte, left: byte, up: byte, corner: byte, value: byte)
    requires kind <= 4 && stored as int == (value as int - Prediction(kind, left, up, corner) as int) % 256
    ensures Gives(kind, stored as int, left as int, up as int, corner as int, value as int)
  {
    AddedBack(value as int, Prediction(kind, left, up, corner) as int, stored as int);
    if kind == 4 {
      PaethIsFirstNearest(left, up, corner);
    }
  }

  lemma AddedBack(value: int, p: int, stored: int)
    requires 0 <= value < 256 && stored == (value - p) % 256
    ensures value == (stored + p) % 256
  {
  }

  /**
   Byte `x` of row `y` is the stored byte plus, by the row's filter type, nothing, its left
   neighbour, the one above, the mean of these, or the nearest of three; outside the picture
   neighbours are 0.
   */
  ghost predicate Reconstructs(rows: seq<seq<byte>>, raw: seq<byte>, stride: nat, channels: nat, y: nat, x: nat)
    requires y < |rows| && x < |rows[y]|
  {
    var at := y * (stride + 1);
    at + 1 + x < |raw| &&
    var stored, value := raw[at + 1 + x] as int, rows[y][x] as int;
    var left := if x >= channels then rows[y][x - channels] as int else 0;
    var up := if y > 0 && x < |rows[y - 1]| then rows[y - 1][x] as int else 0;
    var corner := if y > 0 && channels <= x < |rows[y - 1]| then rows[y - 1][x - channels] as int else 0;
    Gives(raw[at], stored, left, up, corner, value)
  }

  lemma {:induction false} KindsAt(raw: seq<byte>, height: nat, stride: nat, y: nat)
    requires y < height && Offset(height, stride) <= |raw|
    ensures Begins(raw, y, stride) && Kinds(raw, height, stride)[y] == KindAt(raw, y, stride)
  {
    RowBounds(raw, y, height, stride);
    if y < height - 1 {
      KindsAt(raw, height - 1, stride, y);
    }
  }

  lemma {:induction false} StreamByte(
    rows: seq<seq<byte>>, kinds: seq<byte>, stride: nat, channels: nat, y: nat, x: nat)
    requires |rows| == |kinds| && forall k :: 0 <= k < |rows| ==> |rows[k]| == stride
    requires y < |rows| && x < stride
    ensures Offset(y, stride) + 1 + x < |Stream(rows, kinds, stride, channels)|
    ensures Stream(rows, kinds, stride, channels)[Offset(y, stride) + 1 + x]
            == FilteredByte(kinds[y], rows[y], Above(rows, y, stride), channels, x)
  {
    var last := |rows| - 1;
    var head := Stream(rows[..last], kinds[..last], stride, channels);
    var line := Filtered(kinds[last], rows[last], Above(rows, last, stride), channels);
    var all := Stream(rows, kinds, stride, channels);
    assert all == head + [kinds[last]] + line;
    if y < last {
      StreamByte(rows[..last], kinds[..last], stride, channels, y, x);
      assert Above(rows[..last], y, stride) == Above(rows, y, stride);
    } else {
      assert all[|head| + 1 + x] == line[x];
    }
  }

  lemma UndoneByteReconstructs(
    rows: seq<seq<byte>>, raw: seq<byte>, height: nat, stride: nat, channels: nat, y: nat, x: nat)
    requires Undoes(rows, raw, height, stride, channels) && channels > 0 && y < height && x < stride
    requires Begins(raw, y, stride) && KindAt(raw, y, stride) <= 4
    ensures Reconstructs(rows, raw, stride, channels, y, x)
  {
    var kinds := Kinds(raw, height, stride);
    OffsetIsProduct(y, stride);
    KindsAt(raw, height, stride, y);
    StreamByte(rows, kinds, stride, channels, y, x);
    var at := Offset(y, stride);
    assert raw[at + 1 + x] == raw[..Offset(height, stride)][at + 1 + x];
    var above := Above(rows, y, stride);
    var left, up, corner := Before(rows[y], x, channels), above[x], Before(above, x, channels);
    PredictionGives(kinds[y], raw[at + 1 + x], left, up, corner, rows[y][x]);
  }

  lemma WholeReconstructs(rows: seq<seq<byte>>, raw: seq<byte>, height: nat, stride: nat, channels: nat, y: nat, x: nat)
    requires Undoes(rows, raw, height, stride, channels) && channels > 0 && y < height && x < stride
    requires DefinedBefore(raw, height, stride)
    ensures Reconstructs(rows, raw, stride, channels, y, x)
  {
    KindsAt(raw, height, stride, y);
    UndoneByteReconstructs(rows, raw, height, stride, channels, y, x);
  }

  /** The last row, where the stream ends in it. */
  lemma ShortReconstructs(rows: seq<seq<byte>>, raw: seq<byte>, height: nat, stride: nat, channels: nat, x: nat)
    requires height > 0 && |rows| == height && EndsInLastPixel(raw, height, stride, channels)
    requires rows[height - 1] == raw[Offset(height - 1, stride) + 1..] && x < |rows[height - 1]|
    ensures Reconstructs(rows, raw, stride, channels, height - 1, x)
  {
    OffsetIsProduct(height - 1, stride);
  }

  lemma FrontReconstructs(rows: seq<seq<byte>>, front: seq<seq<byte>>, raw: seq<byte>, stride: nat, channels: nat,
                          y: nat, x: nat)
    requires |front| <= |rows| && front == rows[..|front|] && y < |front| && x < |front[y]|
    requires Reconstructs(front, raw, stride, channels, y, x)
    ensures Reconstructs(rows, raw, stride, channels, y, x)
  {
    assert front[y] == rows[y] && (y > 0 ==> front[y - 1] == rows[y - 1]);
  }

  /** Every byte of every row returned, the short one included. */
  lemma DecodedReconstructs(rows: seq<seq<byte>>, raw: seq<byte>, height: nat, stride: nat, channels: nat)
    requires Decoded(rows, raw, height, stride, channels) && channels > 0 && DefinedBefore(raw, height, stride)
    requires Offset(height, stride) <= |raw| || EndsInLastPixel(raw, height, stride, channels)
    ensures |rows| == height
    ensures forall y, x :: 0 <= y < height && 0 <= x < |rows[y]| ==> Reconstructs(rows, raw, stride, channels, y, x)
  {
    forall y: nat, x: nat | y < height && x < |rows[y]| ensures Reconstructs(rows, raw, stride, channels, y, x) {
      if Offset(height, stride) <= |raw| {
        WholeReconstructs(rows, raw, height, stride, channels, y, x);
      } else if y < height - 1 {
        var front := rows[..height - 1];
        assert front[y] == rows[y];
        WholeReconstructs(front, raw, height - 1, stride, channels, y, x);
        FrontReconstructs(rows, front, raw, stride, channels, y, x);
      } else {
        ShortReconstructs(rows, raw, height, stride, channels, x);
      }
    }
  }

  /** All rows of the stream that begin before this one have defined filters. */
  ghost predicate DefinedBefore(raw: seq<byte>, y: nat, stride: nat) {
    stride > 0 ==> forall k: nat :: k < y && Begins(raw, k, stride) ==> KindAt(raw, k, stride) <= 4
  }

  /** A stream that gives out in a row, and not in the last pixel of its last. */
  lemma GivesOut(raw: seq<byte>, y: nat, height: nat, stride: nat, channels: nat)
    requires y < height && !Present(raw, y, stride) && DefinedBefore(raw, y + 1, stride)
    requires || !Begins(raw, y, stride) || y + 1 < height || KindAt(raw, y, stride) != 0
             || |raw| + channels < Offset(y + 1, stride)
    ensures |raw| < Offset(height, stride) && !HasBadFilter(raw, height, stride)
    ensures !EndsInLastPixel(raw, height, stride, channels)
  {
    RowBounds(raw, y, height, stride);
  }

  /** A stream that gives out in the last pixel of its last row. */
  lemma EndsHere(rows: seq<seq<byte>>, row: seq<byte>, raw: seq<byte>, y: nat, stride: nat, channels: nat)
    requires Begins(raw, y, stride) && !Present(raw, y, stride) && DefinedBefore(raw, y + 1, stride)
    requires Undoes(rows, raw, y, stride, channels) && row == raw[Offset(y, stride) + 1..]
    ensures |raw| < Offset(y + 1, stride) && !HasBadFilter(raw, y + 1, stride)
    ensures Decoded(rows + [row], raw, y + 1, stride, channels)
  {
    assert (rows + [row])[..y] == rows;
  }

  /**
   Every scanline of an inflated stream.  It stops at the first undefined filter and at the
   first incomplete row, but for a last one that only lacks bytes of its last pixel.  The rows it
   returns filter back to the stream.
   */
  method Unfilter(raw: seq<byte>, height: nat, stride: nat, channels: nat) returns (result: Rows)
    requires channels > 0
    ensures result.BadFilter? <==> HasBadFilter(raw, height, stride)
    ensures result.Truncated? <==>
              && !HasBadFilter(raw, height, stride) && |raw| < Offset(height, stride)
              && !EndsInLastPixel(raw, height, stride, channels)
    ensures result.Rows? ==> Decoded(result.rows, raw, height, stride, channels)
    ensures result.Rows? ==>
              |result.rows| == height && forall y, x :: 0 <= y < height && 0 <= x < |result.rows[y]| ==>
                Reconstructs(result.rows, raw, stride, channels, y, x)
    ensures Offset(height, stride) == height * (stride + 1)
  {
    OffsetIsProduct(height, stride);
    var previous := Blank(stride);
    var rows := [];
    var y := 0;
    while y < height
      invariant y <= height
      invariant Undoes(rows, raw, y, stride, channels)
      invariant previous == Above(rows, y, stride)
      invariant DefinedBefore(raw, y, stride)
    {
      RowBounds(raw, y, height, stride);
      if Offset(y, stride) >= |raw| {
        GivesOut(raw, y, height, stride, channels);
        return Truncated;
      }
      var end, row := UnfilterRow(raw, y, previous, stride, channels);
      if end.Undefined? {
        assert HasBadFilter(raw, height, stride);
        return BadFilter;
      }
      assert DefinedBefore(raw, y + 1, stride);
      if end.Short? {
        GivesOut(raw, y, height, stride, channels);
        return Truncated;
      }
      if !Present(raw, y, stride) {
        if y + 1 < height { // the next row's filter type lies past the end
          GivesOut(raw, y, height, stride, channels);
          return Truncated;
        }
        EndsHere(rows, row, raw, y, stride, channels);
        DecodedReconstructs(rows + [row], raw, height, stride, channels);
        return Rows(rows + [row]);
      }
      UndoesOne(rows, row, raw, y, stride, channels);
      rows := rows + [row];
      previous := row;
      y := y + 1;
    }
    DecodedReconstructs(rows, raw, height, stride, channels);
    return Rows(rows);
  }

  /**
   Reconstruction inverts filtering: for every image and every choice of filter types, the
   only rows the decoder can return for the encoder's stream are the image's own.
   */
  lemma DecodeInvertsEncode(
    rows: seq<seq<byte>>, kinds: seq<byte>, stride: nat, channels: nat, decoded: seq<seq<byte>>)
    requires Image(rows, kinds, stride)
    ensures !HasBadFilter(Stream(rows, kinds, stride, channels), |rows|, stride)
    ensures Undoes(decoded, Stream(rows, kinds, stride, channels), |rows|, stride, channels) <==> decoded == rows
  {
    var raw := Stream(rows, kinds, stride, channels);
    forall y: nat | y < |rows| ensures Begins(raw, y, stride) && KindAt(raw, y, stride) <= 4 {
      StreamKind(rows, kinds, stride, channels, y);
    }
    StreamKinds(rows, kinds, stride, channels, |rows|);
    assert raw[..Offset(|rows|, stride)] == raw && kinds[..|rows|] == kinds;
    if Undoes(decoded, raw, |rows|, stride, channels) {
      StreamInjective(decoded, kinds, rows, kinds, stride, channels);
    }
  }
}
