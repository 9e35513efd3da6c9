/**
 reduce_colors of tools/aicon.py: k-means over the colours of a picture, weighted by use,
 seeded with the most used colours, with every centre rounded to whole channels.

 Means are exact rationals rounded half to even; colours are triples of whole numbers.
 */
module ColorReduction {
  import opened Arithmetic
  import opened Prelude

  datatype Color = Color(r: int, g: int, b: int)
  datatype Item = Item(color: Color, uses: nat)

  // ----- distances ---------------------------------------------------------------------

  function Square(x: int): nat {
    x * x
  }

  function Distance(a: Color, b: Color): nat {
    Square(a.r - b.r) + Square(a.g - b.g) + Square(a.b - b.b)
  }

  /** The first centre no other centre is closer than. */
  function Nearest(color: Color, centers: seq<Color>): (index: nat)
    requires centers != []
    ensures index < |centers|
    ensures forall j :: 0 <= j < |centers| ==> Distance(color, centers[index]) <= Distance(color, centers[j])
    ensures forall j :: 0 <= j < index ==> Distance(color, centers[index]) < Distance(color, centers[j])
  {
    if |centers| == 1 then 0
    else
      var last := |centers| - 1;
      var best := Nearest(color, centers[..last]);
      if Distance(color, centers[last]) < Distance(color, centers[best]) then last else best
  }

  /** Total squared distance, weighted by use, from every colour to its nearest centre. */
  function Distortion(items: seq<Item>, centers: seq<Color>): nat
    requires centers != []
  {
    if items == [] then 0
    else items[0].uses * Distance(items[0].color, centers[Nearest(items[0].color, centers)])
         + Distortion(items[1..], centers)
  }

  // ----- groups and means --------------------------------------------------------------

  /** The items whose nearest centre is number `index`, in order. */
  function Group(items: seq<Item>, centers: seq<Color>, index: nat): (group: seq<Item>)
    requires centers != []
    ensures forall x :: x in group ==> x in items
  {
    if items == [] then []
    else if Nearest(items[0].color, centers) == index then [items[0]] + Group(items[1..], centers, index)
    else Group(items[1..], centers, index)
  }

  function Uses(group: seq<Item>): nat {
    if group == [] then 0 else group[0].uses + Uses(group[1..])
  }

  /** One channel of every colour, times its uses, added up. */
  function Weighted(group: seq<Item>, channel: Color -> int): int {
    if group == [] then 0 else channel(group[0].color) * group[0].uses + Weighted(group[1..], channel)
  }

  /** Python's round of the exact quotient: nearest whole number, halves to the even one. */
  function RoundHalfEven(numerator: int, denominator: int): (rounded: int)
    requires denominator > 0
    ensures -denominator <= 2 * (denominator * rounded - numerator) <= denominator
    ensures 2 * (denominator * rounded - numerator) in {-denominator, denominator} ==> rounded % 2 == 0
  {
    var floor := numerator / denominator;
    var rest := numerator % denominator;
    assert numerator == denominator * floor + rest;
    assert denominator * (floor + 1) == denominator * floor + denominator;
    if 2 * rest < denominator then floor
    else if 2 * rest > denominator then floor + 1
    else if floor % 2 == 0 then floor else floor + 1
  }

  const RED := (c: Color) => c.r
  const GREEN := (c: Color) => c.g
  const BLUE := (c: Color) => c.b

  /** The rounded mean colour of a group. */
  function Mean(group: seq<Item>): Color
    requires Uses(group) > 0
  {
    Color(RoundHalfEven(Weighted(group, RED), Uses(group)),
          RoundHalfEven(Weighted(group, GREEN), Uses(group)),
          RoundHalfEven(Weighted(group, BLUE), Uses(group)))
  }

  /** One centre after a round: the mean of its group, or itself if nothing came to it. */
  function Moved(items: seq<Item>, centers: seq<Color>, index: nat): Color
    requires index < |centers|
    requires forall x :: x in items ==> x.uses > 0
  {
    var group := Group(items, centers, index);
    if group == [] then centers[index] else Mean(group)
  }

  /** One round over all centres. */
  function Round(items: seq<Item>, centers: seq<Color>): (moved: seq<Color>)
    requires forall x :: x in items ==> x.uses > 0
    ensures |moved| == |centers|
    ensures forall j :: 0 <= j < |centers| ==> moved[j] == Moved(items, centers, j)
  {
    seq(|centers|, j requires 0 <= j < |centers| => Moved(items, centers, j))
  }

  // ----- the rounded mean is the best whole centre ---------------------------------------

  /** Weighted squared distance of a group from one value of one channel. */
  function Spread(group: seq<Item>, channel: Color -> int, value: int): nat {
    if group == [] then 0
    else group[0].uses * Square(channel(group[0].color) - value) + Spread(group[1..], channel, value)
  }

  /** Moving the value changes the spread by a formula in the two sums alone. */
  lemma {:induction false} SpreadShift(group: seq<Item>, channel: Color -> int, from: int, to: int)
    ensures Spread(group, channel, to) - Spread(group, channel, from)
            == (to - from) * (Uses(group) * (to + from) - 2 * Weighted(group, channel))
  {
    if group != [] {
      SpreadShift(group[1..], channel, from, to);
      var x, u := channel(group[0].color), group[0].uses;
      assert Square(x - to) - Square(x - from) == (to - from) * (to + from - 2 * x);
      var w, s := Uses(group[1..]), Weighted(group[1..], channel);
      ShiftStep(u, x, w, s, from, to);
    }
  }

  lemma ShiftStep(u: int, x: int, w: int, s: int, from: int, to: int)
    ensures u * ((to - from) * (to + from - 2 * x)) + (to - from) * (w * (to + from) - 2 * s)
            == (to - from) * ((u + w) * (to + from) - 2 * (x * u + s))
  {
    var a, b := to - from, to + from;
    assert u * (a * (b - 2 * x)) == a * (u * b - 2 * (x * u));
  }

  /** No whole number is a better value for a channel than the rounded mean. */
  lemma MeanIsBest(group: seq<Item>, channel: Color -> int, value: int)
    requires Uses(group) > 0
    ensures Spread(group, channel, RoundHalfEven(Weighted(group, channel), Uses(group)))
            <= Spread(group, channel, value)
  {
    var w, s := Uses(group), Weighted(group, channel);
    var m := RoundHalfEven(s, w);
    SpreadShift(group, channel, m, value);
    var d := value - m;
    ScaledOffset(w, m, d, s);
    if d > 0 {
      AtLeastOnce(w, d);
    } else if d < 0 {
      AtLeastOnce(w, 0 - d);
      Negated(w, d);
    }
    SameSign(d, w * (value + m) - 2 * s);
  }

  lemma ScaledOffset(w: int, m: int, d: int, s: int)
    ensures w * (m + d + m) - 2 * s == w * d + 2 * (w * m - s)
  {
  }

  lemma AtLeastOnce(w: int, d: int)
    requires w >= 0 && d > 0
    ensures w * d >= w
  {
    SameSign(w, d - 1);
    assert w * (d - 1) == w * d - w;
  }

  lemma Negated(w: int, d: int)
    ensures w * (0 - d) == 0 - w * d
  {
  }

  lemma SameSign(d: int, y: int)
    requires (d > 0 ==> y >= 0) && (d < 0 ==> y <= 0)
    ensures d * y >= 0
  {
  }

  // ----- a round never makes the picture worse -------------------------------------------

  /** Weighted squared distance of a group from one colour. */
  function GroupCost(group: seq<Item>, center: Color): nat {
    if group == [] then 0 else group[0].uses * Distance(group[0].color, center) + GroupCost(group[1..], center)
  }

  lemma {:induction false} GroupCostIsSpread(group: seq<Item>, center: Color)
    ensures GroupCost(group, center)
            == Spread(group, RED, center.r) + Spread(group, GREEN, center.g) + Spread(group, BLUE, center.b)
  {
    if group != [] {
      GroupCostIsSpread(group[1..], center);
      var c, u := group[0].color, group[0].uses;
      Distribute(u, Square(c.r - center.r), Square(c.g - center.g), Square(c.b - center.b));
    }
  }

  lemma Distribute(u: nat, a: nat, b: nat, c: nat)
    ensures u * (a + b + c) == u * a + u * b + u * c
  {
  }

  /** The mean colour serves its group at least as well as any other colour. */
  lemma MeanServesBest(group: seq<Item>, other: Color)
    requires Uses(group) > 0
    ensures GroupCost(group, Mean(group)) <= GroupCost(group, other)
  {
    GroupCostIsSpread(group, Mean(group));
    GroupCostIsSpread(group, other);
    MeanIsBest(group, RED, other.r);
    MeanIsBest(group, GREEN, other.g);
    MeanIsBest(group, BLUE, other.b);
  }

  lemma {:induction false} GroupHasUses(items: seq<Item>, centers: seq<Color>, index: nat)
    requires centers != []
    requires forall x :: x in items ==> x.uses > 0
    ensures Group(items, centers, index) != [] ==> Uses(Group(items, centers, index)) > 0
  {
    var group := Group(items, centers, index);
    if group != [] {
      assert group[0] in items;
    }
  }

  /** Total distance when each colour stays with the centre it chose among `chosen`. */
  function Committed(items: seq<Item>, chosen: seq<Color>, centers: seq<Color>): nat
    requires chosen != [] && |centers| == |chosen|
  {
    if items == [] then 0
    else items[0].uses * Distance(items[0].color, centers[Nearest(items[0].color, chosen)])
         + Committed(items[1..], chosen, centers)
  }

  lemma {:induction false} CommittedToOwn(items: seq<Item>, centers: seq<Color>)
    requires centers != []
    ensures Committed(items, centers, centers) == Distortion(items, centers)
  {
    if items != [] {
      CommittedToOwn(items[1..], centers);
    }
  }

  /** Replacing one centre changes the total by what its own group gains or loses. */
  lemma {:induction false} ReplaceOne(items: seq<Item>, chosen: seq<Color>, centers: seq<Color>, j: nat, c: Color)
    requires chosen != [] && |centers| == |chosen| && j < |centers|
    ensures Committed(items, chosen, centers[j := c]) + GroupCost(Group(items, chosen, j), centers[j])
            == Committed(items, chosen, centers) + GroupCost(Group(items, chosen, j), c)
  {
    if items != [] {
      ReplaceOne(items[1..], chosen, centers, j, c);
      if Nearest(items[0].color, chosen) == j {
        assert Group(items, chosen, j)[1..] == Group(items[1..], chosen, j);
      }
    }
  }

  lemma MovedServesGroup(items: seq<Item>, centers: seq<Color>, j: nat)
    requires j < |centers|
    requires forall x :: x in items ==> x.uses > 0
    ensures GroupCost(Group(items, centers, j), Moved(items, centers, j))
              <= GroupCost(Group(items, centers, j), centers[j])
  {
    GroupHasUses(items, centers, j);
    if Group(items, centers, j) != [] {
      MeanServesBest(Group(items, centers, j), centers[j]);
    }
  }

  /** Replacing the first `k` centres by their moved ones does not raise the total. */
  lemma {:induction false} ReplaceMany(items: seq<Item>, centers: seq<Color>, k: nat)
    requires centers != [] && k <= |centers|
    requires forall x :: x in items ==> x.uses > 0
    ensures Committed(items, centers, Round(items, centers)[..k] + centers[k..])
            <= Committed(items, centers, centers)
  {
    var moved := Round(items, centers);
    if k == 0 {
      assert moved[..0] + centers[0..] == centers;
    } else {
      var j := k - 1;
      ReplaceMany(items, centers, j);
      var before := moved[..j] + centers[j..];
      ReplaceOne(items, centers, before, j, moved[j]);
      MovedServesGroup(items, centers, j);
      assert before[j := moved[j]] == moved[..k] + centers[k..];
    }
  }

  /** Choosing afresh is never worse than staying. */
  lemma {:induction false} ChoosingHelps(items: seq<Item>, chosen: seq<Color>, centers: seq<Color>)
    requires chosen != [] && |centers| == |chosen|
    ensures Distortion(items, centers) <= Committed(items, chosen, centers)
  {
    if items != [] {
      ChoosingHelps(items[1..], chosen, centers);
      TimesMonotone(items[0].uses, Distance(items[0].color, centers[Nearest(items[0].color, centers)]),
                    Distance(items[0].color, centers[Nearest(items[0].color, chosen)]));
    }
  }

  lemma TimesMonotone(u: nat, a: nat, b: nat)
    requires a <= b
    ensures u * a <= u * b
  {
  }

  /** No round raises the total weighted squared distance to the nearest centre. */
  lemma RoundNeverWorsens(items: seq<Item>, centers: seq<Color>)
    requires centers != []
    requires forall x :: x in items ==> x.uses > 0
    ensures Distortion(items, Round(items, centers)) <= Distortion(items, centers)
  {
    var moved := Round(items, centers);
    ReplaceMany(items, centers, |centers|);
    assert moved[..|centers|] + centers[|centers|..] == moved;
    CommittedToOwn(items, centers);
    ChoosingHelps(items, centers, moved);
  }

  // ----- channels stay in range ----------------------------------------------------------

  predicate Between(lo: int, color: Color, hi: int) {
    lo <= color.r <= hi && lo <= color.g <= hi && lo <= color.b <= hi
  }

  lemma {:induction false} WeightedRange(group: seq<Item>, channel: Color -> int, lo: int, hi: int)
    requires forall x :: x in group ==> lo <= channel(x.color) <= hi
    ensures lo * Uses(group) <= Weighted(group, channel) <= hi * Uses(group)
  {
    if group != [] {
      WeightedRange(group[1..], channel, lo, hi);
      ScaledRange(group[0].uses, lo, channel(group[0].color), hi);
      var w := Uses(group[1..]);
      assert lo * (group[0].uses + w) == lo * group[0].uses + lo * w;
      assert hi * (group[0].uses + w) == hi * group[0].uses + hi * w;
    }
  }

  lemma ScaledRange(u: nat, lo: int, x: int, hi: int)
    requires lo <= x <= hi
    ensures lo * u <= x * u <= hi * u
  {
  }

  lemma RoundedRange(numerator: int, denominator: int, lo: int, hi: int)
    requires denominator > 0 && lo * denominator <= numerator <= hi * denominator
    ensures lo <= RoundHalfEven(numerator, denominator) <= hi
  {
    var m := RoundHalfEven(numerator, denominator);
    var scaled := denominator * m;
    assert 2 * scaled >= 2 * numerator - denominator && 2 * scaled <= 2 * numerator + denominator;
    Doubled(lo, denominator, -1);
    Doubled(hi, denominator, 1);
    Doubled(m, denominator, 0);
    CancelAtMost(2 * lo - 1, 2 * m, denominator);
    CancelAtMost(2 * m, 2 * hi + 1, denominator);
  }

  lemma Doubled(x: int, denominator: int, more: int)
    ensures (2 * x + more) * denominator == 2 * (x * denominator) + more * denominator
    ensures x * denominator == denominator * x
  {
  }

  lemma MeanRange(group: seq<Item>, lo: int, hi: int)
    requires Uses(group) > 0
    requires forall x :: x in group ==> Between(lo, x.color, hi)
    ensures Between(lo, Mean(group), hi)
  {
    WeightedRange(group, RED, lo, hi);
    WeightedRange(group, GREEN, lo, hi);
    WeightedRange(group, BLUE, lo, hi);
    RoundedRange(Weighted(group, RED), Uses(group), lo, hi);
    RoundedRange(Weighted(group, GREEN), Uses(group), lo, hi);
    RoundedRange(Weighted(group, BLUE), Uses(group), lo, hi);
  }

  lemma RoundRange(items: seq<Item>, centers: seq<Color>, lo: int, hi: int)
    requires forall x :: x in items ==> x.uses > 0 && Between(lo, x.color, hi)
    requires forall c :: c in centers ==> Between(lo, c, hi)
    ensures forall c :: c in Round(items, centers) ==> Between(lo, c, hi)
  {
    forall j | 0 <= j < |centers| ensures Between(lo, Round(items, centers)[j], hi) {
      GroupHasUses(items, centers, j);
      if Group(items, centers, j) != [] {
        MeanRange(Group(items, centers, j), lo, hi);
      }
    }
  }

  // ----- orders --------------------------------------------------------------------------

  /** Python's order on colour tuples. */
  predicate Less(a: Color, b: Color) {
    a.r < b.r || (a.r == b.r && (a.g < b.g || (a.g == b.g && a.b < b.b)))
  }

  ghost predicate StrictlySorted(colors: seq<Color>) {
    forall i, j :: 0 <= i < j < |colors| ==> Less(colors[i], colors[j])
  }

  function Insert(color: Color, colors: seq<Color>): (r: seq<Color>)
    requires StrictlySorted(colors)
    ensures StrictlySorted(r) && |r| <= |colors| + 1
    ensures forall c :: c in r <==> c == color || c in colors
  {
    if colors == [] then [color]
    else if color == colors[0] then colors
    else if Less(color, colors[0]) then [color] + colors
    else
      var rest := Insert(color, colors[1..]);
      assert forall j :: 0 <= j < |rest| ==> rest[j] in rest;
      assert forall c :: c in colors[1..] ==> Less(colors[0], c);
      [colors[0]] + rest
  }

  /** sorted(set(colors)). */
  function SortedSet(colors: seq<Color>): (r: seq<Color>)
    ensures StrictlySorted(r) && |r| <= |colors|
    ensures forall c :: c in r <==> c in colors
  {
    if colors == [] then [] else Insert(colors[0], SortedSet(colors[1..]))
  }

  /** Most used first; equal uses in colour order. */
  predicate Before(a: Item, b: Item) {
    a.uses > b.uses || (a.uses == b.uses && (a.color == b.color || Less(a.color, b.color)))
  }

  ghost predicate Ranked(items: seq<Item>) {
    forall i, j :: 0 <= i < j < |items| ==> Before(items[i], items[j])
  }

  function InsertItem(item: Item, items: seq<Item>): (r: seq<Item>)
    ensures |r| == |items| + 1
    ensures forall x :: x in r <==> x == item || x in items
  {
    if items == [] then [item]
    else if Before(item, items[0]) then [item] + items
    else [items[0]] + InsertItem(item, items[1..])
  }

  lemma {:induction false} InsertRanked(item: Item, items: seq<Item>)
    requires Ranked(items)
    ensures Ranked(InsertItem(item, items))
  {
    if items != [] {
      if Before(item, items[0]) {
        assert forall j :: 0 <= j < |items| ==> Before(items[0], items[j]);
      } else {
        InsertRanked(item, items[1..]);
        var rest := InsertItem(item, items[1..]);
        forall j | 0 <= j < |rest| ensures Before(items[0], rest[j]) {
          assert rest[j] in rest;
          assert rest[j] == item || rest[j] in items[1..];
        }
      }
    }
  }

  lemma {:induction false} InsertMultiset(item: Item, items: seq<Item>)
    ensures multiset(InsertItem(item, items)) == multiset(items) + multiset{item}
  {
    if items != [] {
      assert items == [items[0]] + items[1..];
      InsertMultiset(item, items[1..]);
    }
  }

  /** sorted(counts.items(), key=lambda item: (-item[1], item[0])). */
  function Rank(items: seq<Item>): (r: seq<Item>)
    ensures |r| == |items|
    ensures forall x :: x in r <==> x in items
  {
    if items == [] then [] else InsertItem(items[0], Rank(items[1..]))
  }

  /** The listing is ordered and keeps every item as often as it occurs. */
  lemma {:induction false} RankSorts(items: seq<Item>)
    ensures Ranked(Rank(items)) && multiset(Rank(items)) == multiset(items)
  {
    if items != [] {
      assert items == [items[0]] + items[1..];
      RankSorts(items[1..]);
      InsertRanked(items[0], Rank(items[1..]));
      InsertMultiset(items[0], Rank(items[1..]));
    }
  }

  lemma {:induction false} InsertDistortion(item: Item, items: seq<Item>, centers: seq<Color>)
    requires centers != []
    ensures Distortion(InsertItem(item, items), centers) == Distortion([item] + items, centers)
  {
    assert ([item] + items)[1..] == items;
    if items != [] && !Before(item, items[0]) {
      InsertDistortion(item, items[1..], centers);
      assert ([item] + items[1..])[1..] == items[1..];
      assert InsertItem(item, items)[1..] == InsertItem(item, items[1..]);
    }
  }

  lemma {:induction false} RankDistortion(items: seq<Item>, centers: seq<Color>)
    requires centers != []
    ensures Distortion(Rank(items), centers) == Distortion(items, centers)
  {
    if items != [] {
      RankDistortion(items[1..], centers);
      InsertDistortion(items[0], Rank(items[1..]), centers);
      assert ([items[0]] + Rank(items[1..]))[1..] == Rank(items[1..]);
    }
  }

  /** More centres to choose from never cost more. */
  lemma {:induction false} MoreCentersHelp(items: seq<Item>, more: seq<Color>, fewer: seq<Color>)
    requires more != [] && fewer != [] && forall c :: c in fewer ==> c in more
    ensures Distortion(items, more) <= Distortion(items, fewer)
  {
    if items != [] {
      MoreCentersHelp(items[1..], more, fewer);
      var color := items[0].color;
      var chosen := fewer[Nearest(color, fewer)];
      assert chosen in more;
      TimesMonotone(items[0].uses, Distance(color, more[Nearest(color, more)]), Distance(color, chosen));
    }
  }

  // ----- what the answer should be -------------------------------------------------------

  function Channels(color: Color): seq<int> {
    [color.r, color.g, color.b]
  }

  /** Python compares tuples at the first place where they differ. */
  lemma LessIsTupleOrder(a: Color, b: Color)
    ensures Less(a, b) <==>
            exists k :: 0 <= k < 3 && Channels(a)[k] < Channels(b)[k] && Channels(a)[..k] == Channels(b)[..k]
  {
    if Less(a, b) {
      var k := if a.r != b.r then 0 else if a.g != b.g then 1 else 2;
      assert Channels(a)[k] < Channels(b)[k] && Channels(a)[..k] == Channels(b)[..k];
    }
    if k :| 0 <= k < 3 && Channels(a)[k] < Channels(b)[k] && Channels(a)[..k] == Channels(b)[..k] {
      if k > 0 {
        assert Channels(a)[..k][0] == a.r && Channels(b)[..k][0] == b.r;
      }
      if k > 1 {
        assert Channels(a)[..k][1] == a.g && Channels(b)[..k][1] == b.g;
      }
    }
  }

  /** All the items, the most used first and equally used ones in the order of their colours. */
  ghost predicate Listing(counts: seq<Item>, order: seq<Item>) {
    && multiset(order) == multiset(counts)
    && forall i, j :: 0 <= i < j < |order| ==>
         || order[i].uses > order[j].uses
         || (order[i].uses == order[j].uses
             && (order[i].color == order[j].color || Less(order[i].color, order[j].color)))
  }

  lemma RankLists(counts: seq<Item>)
    ensures Listing(counts, Rank(counts))
  {
    RankSorts(counts);
    var order := Rank(counts);
    assert forall i, j :: 0 <= i < j < |order| ==> Before(order[i], order[j]);
  }

  /** What comes first is in every listing before whatever else there is. */
  lemma SameFirst(a: seq<Item>, b: seq<Item>)
    requires Listing(a, a) && Listing(b, b) && multiset(a) == multiset(b) && a != [] && b != []
    ensures a[0] == b[0]
  {
    assert a[0] in multiset(b) && b[0] in multiset(a);
    var i :| 0 <= i < |b| && b[i] == a[0];
    var j :| 0 <= j < |a| && a[j] == b[0];
  }

  lemma ListingRest(a: seq<Item>)
    requires Listing(a, a) && a != []
    ensures Listing(a[1..], a[1..]) && multiset(a[1..]) == multiset(a) - multiset{a[0]}
  {
    assert a == [a[0]] + a[1..];
  }

  /** There is only one such listing. */
  lemma {:induction false} ListingUnique(a: seq<Item>, b: seq<Item>)
    requires Listing(a, a) && Listing(b, b) && multiset(a) == multiset(b)
    ensures a == b
  {
    assert |a| == |multiset(a)| == |multiset(b)| == |b|;
    if a != [] {
      SameFirst(a, b);
      ListingRest(a);
      ListingRest(b);
      ListingUnique(a[1..], b[1..]);
      assert a == [a[0]] + a[1..] && b == [b[0]] + b[1..];
    }
  }

  function Colors(items: seq<Item>): (colors: seq<Color>)
    ensures |colors| == |items|
    ensures forall i :: 0 <= i < |items| ==> colors[i] == items[i].color
  {
    seq(|items|, i requires 0 <= i < |items| => items[i].color)
  }

  /** The first of these colours, at most `limit` of them: items[:limit]. */
  function Leading(order: seq<Item>, limit: nat): (seeds: seq<Color>)
    ensures |seeds| <= limit && |seeds| <= |order|
    ensures |seeds| == limit || |seeds| == |order|
    ensures forall i :: 0 <= i < |seeds| ==> seeds[i] == order[i].color
  {
    if limit < |order| then Colors(order)[..limit] else Colors(order)
  }

  lemma LeftOutIsLater(order: seq<Item>, limit: nat, j: nat)
    requires j < |order| && order[j].color !in Leading(order, limit)
    ensures j >= |Leading(order, limit)|
  {
    var seeds := Leading(order, limit);
    assert forall i :: 0 <= i < |seeds| ==> seeds[i] in seeds && seeds[i] == order[i].color;
  }

  /** `a` is used more than `b`, or as much and comes before it. */
  ghost predicate Ahead(counts: seq<Item>, a: Color, b: Color) {
    forall x, y :: x in counts && y in counts && x.color == a && y.color == b ==>
      x.uses > y.uses || (x.uses == y.uses && Less(a, b))
  }

  /** The colours of a picture are the keys of a dictionary. */
  ghost predicate Keyed(counts: seq<Item>) {
    forall i, j :: 0 <= i < j < |counts| ==> counts[i].color != counts[j].color
  }

  /** Among different colours an earlier item of a listing is ahead of a later one. */
  lemma EarlierIsAhead(counts: seq<Item>, order: seq<Item>, i: nat, j: nat)
    requires Keyed(counts) && Listing(counts, order) && i < j < |order|
    ensures order[i].color != order[j].color && Ahead(counts, order[i].color, order[j].color)
  {
    assert order[i] in multiset(counts) && order[j] in multiset(counts);
    var a :| 0 <= a < |counts| && counts[a] == order[i];
    var b :| 0 <= b < |counts| && counts[b] == order[j];
    if order[i] == order[j] {
      KeyedOnce(counts, a);
      ListedTwice(order, i, j);
      assert false;
    }
  }

  lemma ListedTwice(order: seq<Item>, i: nat, j: nat)
    requires i < j < |order| && order[i] == order[j]
    ensures multiset(order)[order[i]] >= 2
  {
    assert order == order[..i] + [order[i]] + order[i + 1..j] + [order[j]] + order[j + 1..];
  }

  lemma KeyedOnce(counts: seq<Item>, a: nat)
    requires Keyed(counts) && a < |counts|
    ensures multiset(counts)[counts[a]] == 1
  {
    assert counts == counts[..a] + [counts[a]] + counts[a + 1..];
    assert counts[a] !in counts[..a] && counts[a] !in counts[a + 1..];
  }

  /**
   The seeds are the most used colours: each is ahead of those after it, and all are ahead of
   every colour left out, which there is only when the limit is reached.
   */
  lemma LeadingAreMostUsed(counts: seq<Item>, order: seq<Item>, limit: nat)
    requires Keyed(counts) && Listing(counts, order)
    ensures var seeds := Leading(order, limit);
            && (forall i, j :: 0 <= i < j < |seeds| ==> seeds[i] != seeds[j] && Ahead(counts, seeds[i], seeds[j]))
            && (forall i :: 0 <= i < |seeds| ==> exists x :: x in counts && x.color == seeds[i])
            && (forall x, i :: x in counts && x.color !in seeds && 0 <= i < |seeds| ==>
                  |seeds| == limit && Ahead(counts, seeds[i], x.color))
            && (|seeds| < limit ==> forall x :: x in counts ==> x.color in seeds)
  {
    var seeds := Leading(order, limit);
    assert |order| == |multiset(order)| == |multiset(counts)| == |counts|;
    forall i, j | 0 <= i < j < |seeds| ensures seeds[i] != seeds[j] && Ahead(counts, seeds[i], seeds[j]) {
      EarlierIsAhead(counts, order, i, j);
    }
    forall i | 0 <= i < |seeds| ensures exists x :: x in counts && x.color == seeds[i] {
      assert order[i] in multiset(counts);
    }
    forall x | x in counts && x.color !in seeds
      ensures |seeds| == limit && forall i :: 0 <= i < |seeds| ==> Ahead(counts, seeds[i], x.color)
    {
      assert x in multiset(order);
      var j :| 0 <= j < |order| && order[j] == x;
      LeftOutIsLater(order, limit, j);
      forall i | 0 <= i < |seeds| ensures Ahead(counts, seeds[i], x.color) {
        EarlierIsAhead(counts, order, i, j);
      }
    }
  }

  /** Every item is in the group of its nearest centre, as often as it is listed, and in no other. */
  lemma {:induction false} GroupHolds(items: seq<Item>, centers: seq<Color>, j: nat, x: Item)
    requires centers != []
    ensures multiset(Group(items, centers, j))[x]
            == if Nearest(x.color, centers) == j then multiset(items)[x] else 0
  {
    if items != [] {
      assert items == [items[0]] + items[1..];
      GroupHolds(items[1..], centers, j, x);
    }
  }

  /** The whole number nearest to a quotient; of two, the even one. */
  ghost predicate IsRounded(mean: int, total: int, uses: int) {
    && -uses <= 2 * (uses * mean - total) <= uses
    && (2 * (uses * mean - total) in {-uses, uses} ==> mean % 2 == 0)
  }

  /** A centre goes to the rounded mean of the colours nearest to it; without any it stays. */
  ghost predicate Settles(items: seq<Item>, centers: seq<Color>, j: nat, to: Color)
    requires j < |centers|
  {
    var group := Group(items, centers, j);
    if group == [] then to == centers[j]
    else
      && IsRounded(to.r, Weighted(group, RED), Uses(group))
      && IsRounded(to.g, Weighted(group, GREEN), Uses(group))
      && IsRounded(to.b, Weighted(group, BLUE), Uses(group))
  }

  /** Every moved centre is the rounded mean of its group and the best whole colour for it. */
  lemma MovedSettles(items: seq<Item>, centers: seq<Color>, j: nat, other: Color)
    requires j < |centers|
    requires forall x :: x in items ==> x.uses > 0
    ensures Settles(items, centers, j, Moved(items, centers, j))
    ensures GroupCost(Group(items, centers, j), Moved(items, centers, j))
            <= GroupCost(Group(items, centers, j), other)
  {
    GroupHasUses(items, centers, j);
    if Group(items, centers, j) != [] {
      MeanServesBest(Group(items, centers, j), other);
    }
  }

  /** Centres before the first round and after each so far. */
  ghost predicate Trail(order: seq<Item>, trail: seq<seq<Color>>) {
    trail != [] && forall n :: 0 <= n < |trail| - 1 ==> Follows(order, trail[n], trail[n + 1])
  }

  lemma TrailGrows(order: seq<Item>, trail: seq<seq<Color>>)
    requires Trail(order, trail) && forall x :: x in order ==> x.uses > 0
    ensures Trail(order, trail + [Round(order, trail[|trail| - 1])])
  {
    RoundFollows(order, trail[|trail| - 1]);
    var more := trail + [Round(order, trail[|trail| - 1])];
    forall n | 0 <= n < |more| - 1 ensures Follows(order, more[n], more[n + 1]) {
      if n < |trail| - 1 {
        assert Follows(order, trail[n], trail[n + 1]);
      }
    }
  }

  /** The most used colours, where sixteen rounds bring them, and nothing else. */
  ghost predicate Palette(counts: seq<Item>, limit: nat, palette: seq<Color>) {
    exists order, trail ::
      Listing(counts, order) && Trail(order, trail) && |trail| == 17 && trail[0] == Leading(order, limit)
      && forall c :: c in palette <==> c in trail[16]
  }

  ghost predicate Follows(order: seq<Item>, centers: seq<Color>, next: seq<Color>) {
    |next| == |centers| && forall j :: 0 <= j < |centers| ==> Settles(order, centers, j, next[j])
  }

  lemma RoundFollows(order: seq<Item>, centers: seq<Color>)
    requires forall x :: x in order ==> x.uses > 0
    ensures Follows(order, centers, Round(order, centers))
  {
    forall j | 0 <= j < |centers| ensures Settles(order, centers, j, Round(order, centers)[j]) {
      MovedSettles(order, centers, j, centers[j]);
    }
  }

  // ----- the program ---------------------------------------------------------------------

  const ROUNDS: nat := 16

  function Rounds(items: seq<Item>, seeds: seq<Color>, n: nat): (centers: seq<Color>)
    requires forall x :: x in items ==> x.uses > 0
    ensures |centers| == |seeds|
  {
    if n == 0 then seeds else Round(items, Rounds(items, seeds, n - 1))
  }

  ghost predicate Within(lo: int, colors: seq<Color>, hi: int) {
    forall c :: c in colors ==> Between(lo, c, hi)
  }

  /** Any number of rounds: the picture gets no worse. */
  lemma {:induction false} RoundsImprove(items: seq<Item>, seeds: seq<Color>, n: nat)
    requires seeds != []
    requires forall x :: x in items ==> x.uses > 0
    ensures Distortion(items, Rounds(items, seeds, n)) <= Distortion(items, seeds)
  {
    if n > 0 {
      RoundsImprove(items, seeds, n - 1);
      RoundNeverWorsens(items, Rounds(items, seeds, n - 1));
    }
  }

  /** And no channel leaves the range of the picture's. */
  lemma {:induction false} RoundsRange(items: seq<Item>, seeds: seq<Color>, n: nat, lo: int, hi: int)
    requires forall x :: x in items ==> x.uses > 0
    requires Within(lo, Colors(items), hi) && Within(lo, seeds, hi)
    ensures Within(lo, Rounds(items, seeds, n), hi)
  {
    if n > 0 {
      RoundsRange(items, seeds, n - 1, lo, hi);
      forall x | x in items ensures Between(lo, x.color, hi) {
        var i :| 0 <= i < |items| && items[i] == x;
        assert Colors(items)[i] in Colors(items);
      }
      RoundRange(items, Rounds(items, seeds, n - 1), lo, hi);
    }
  }

  /**
   At most `limit` colours for a picture: the sorted centres after sixteen rounds from its most
   used colours, which they serve no worse than.  There is no answer only when there is
   something to place and no centre to place it at.
   */
  method ReduceColors(counts: seq<Item>, limit: nat) returns (result: Option<seq<Color>>)
    requires forall x :: x in counts ==> x.uses > 0
    ensures result.None? <==> counts != [] && limit == 0
    ensures result.Some? ==> Palette(counts, limit, result.value)
    ensures result.Some? ==> |result.value| <= limit && StrictlySorted(result.value)
    ensures result.Some? && counts != [] ==>
              result.value != [] && forall order :: Listing(counts, order) ==>
                Leading(order, limit) != []
                && Distortion(counts, result.value) <= Distortion(counts, Leading(order, limit))
    ensures result.Some? ==> forall lo, hi :: Within(lo, Colors(counts), hi) ==> Within(lo, result.value, hi)
  {
    var items := Rank(counts);
    RankLists(counts);
    var seeds := Leading(items, limit);
    var centers := seeds;
    if items != [] && centers == [] {
      return None;
    }
    ghost var trail := [centers];
    for n := 0 to ROUNDS
      invariant Trail(items, trail) && |trail| == n + 1 && trail[0] == seeds && trail[n] == centers
      invariant centers == Rounds(items, seeds, |trail| - 1)
    {
      TrailGrows(items, trail);
      centers := Round(items, centers);
      trail := trail + [centers];
    }
    assert Palette(counts, limit, SortedSet(centers)) by {
      assert trail[16] == centers;
    }
    PaletteAnswers(counts, limit, |trail| - 1);
    return Some(SortedSet(centers));
  }

  /** Few colours, in strict order, no worse for the picture than its most used colours. */
  lemma PaletteServes(counts: seq<Item>, limit: nat, order: seq<Item>, n: nat)
    requires forall x :: x in counts ==> x.uses > 0
    requires counts != [] ==> limit > 0
    requires Listing(counts, order)
    ensures forall x :: x in order ==> x in counts
    ensures var palette := SortedSet(Rounds(order, Leading(order, limit), n));
            && |palette| <= limit && StrictlySorted(palette)
            && (counts != [] ==>
                 palette != [] && Leading(order, limit) != []
                 && Distortion(counts, palette) <= Distortion(counts, Leading(order, limit)))
  {
    RankLists(counts);
    ListingUnique(order, Rank(counts));
    var seeds := Leading(order, limit);
    var centers := Rounds(order, seeds, n);
    var palette := SortedSet(centers);
    if counts != [] {
      RoundsImprove(order, seeds, n);
      RankDistortion(counts, centers);
      RankDistortion(counts, seeds);
      assert centers[0] in palette;
      MoreCentersHelp(counts, palette, centers);
    }
  }

  /** And inside the range of the picture's own channels. */
  lemma PaletteQuality(counts: seq<Item>, limit: nat, order: seq<Item>, n: nat, lo: int, hi: int)
    requires forall x :: x in counts ==> x.uses > 0
    requires counts != [] ==> limit > 0
    requires Listing(counts, order) && Within(lo, Colors(counts), hi)
    ensures forall x :: x in order ==> x in counts
    ensures var palette := SortedSet(Rounds(order, Leading(order, limit), n));
            && |palette| <= limit && StrictlySorted(palette)
            && Within(lo, palette, hi)
            && (counts != [] ==>
                 palette != [] && Leading(order, limit) != []
                 && Distortion(counts, palette) <= Distortion(counts, Leading(order, limit)))
  {
    PaletteServes(counts, limit, order, n);
    forall c | c in Colors(order) ensures Between(lo, c, hi) {
      var i :| 0 <= i < |order| && Colors(order)[i] == c;
      assert order[i] in counts;
      var k :| 0 <= k < |counts| && counts[k] == order[i];
      assert Colors(counts)[k] in Colors(counts);
    }
    forall c | c in Leading(order, limit) ensures c in Colors(order) {
      var i :| 0 <= i < |Leading(order, limit)| && Leading(order, limit)[i] == c;
      assert Colors(order)[i] == c;
    }
    RoundsRange(order, Leading(order, limit), n, lo, hi);
  }

  /** So whatever listing of the picture's colours the most used ones are taken from. */
  lemma PaletteAnswers(counts: seq<Item>, limit: nat, n: nat)
    requires forall x :: x in counts ==> x.uses > 0
    requires counts != [] ==> limit > 0
    ensures var palette := SortedSet(Rounds(Rank(counts), Leading(Rank(counts), limit), n));
            && |palette| <= limit && StrictlySorted(palette)
            && (counts != [] ==> palette != [])
            && (counts != [] ==> forall order :: Listing(counts, order) ==>
                  Leading(order, limit) != []
                  && Distortion(counts, palette) <= Distortion(counts, Leading(order, limit)))
            && forall lo, hi :: Within(lo, Colors(counts), hi) ==> Within(lo, palette, hi)
  {
    var items := Rank(counts);
    RankLists(counts);
    PaletteServes(counts, limit, items, n);
    forall order | Listing(counts, order) ensures order == items {
      ListingUnique(order, items);
    }
    var palette := SortedSet(Rounds(items, Leading(items, limit), n));
    forall lo, hi | Within(lo, Colors(counts), hi) ensures Within(lo, palette, hi) {
      PaletteQuality(counts, limit, items, n, lo, hi);
    }
  }
}
