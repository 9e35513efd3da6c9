/**
 The command ring of emu/qemu/benchmark-host-channel-raw.c: 32-bit unsigned positions, slots
 chosen by masking, and one unsigned comparison that decides whether the position a host
 reports can be believed.

 The host is adversarial: each read of its position and of a command's status may give
 anything.  `stalls` bounds how often it may report no progress on outstanding commands.
 */
module HostRing {
  import opened Prelude
  import opened Arithmetic

  /** Unsigned addition wraps round the number circle, and so does subtraction. */
  function Add32(a: u32, b: u32): u32 {
    if a + b < WORD then a + b else a + b - WORD
  }

  function Sub32(a: u32, b: u32): u32 {
    if a >= b then a - b else a - b + WORD
  }

  // ----- masks ---------------------------------------------------------------------------

  /** Bitwise and of two naturals. */
  function And(a: nat, b: nat): (r: nat)
    ensures r <= a && r <= b
  {
    if a == 0 || b == 0 then 0 else 2 * And(a / 2, b / 2) + if a % 2 == 1 && b % 2 == 1 then 1 else 0
  }

  function Pow2(k: nat): (p: nat)
    ensures p > 0
  {
    if k == 0 then 1 else 2 * Pow2(k - 1)
  }

  lemma {:induction false} AndSelf(a: nat)
    ensures And(a, a) == a
  {
    if a > 0 {
      AndSelf(a / 2);
    }
  }

  lemma {:induction false} PowerFound(c: nat) returns (k: nat)
    requires c > 0
    ensures And(c, c - 1) == 0 ==> c == Pow2(k)
  {
    if c == 1 {
      k := 0;
    } else if c % 2 == 0 {
      k := PowerFound(c / 2);
      assert (c - 1) / 2 == c / 2 - 1;
      k := k + 1;
    } else {
      assert (c - 1) / 2 == c / 2;
      AndSelf(c / 2);
      k := 0;
    }
  }

  lemma {:induction false} PowersPassTest(k: nat)
    ensures And(Pow2(k), Pow2(k) - 1) == 0
  {
    if k > 0 {
      PowersPassTest(k - 1);
      var p := Pow2(k - 1);
      assert 2 * p / 2 == p && (2 * p - 1) / 2 == p - 1 && 2 * p % 2 == 0;
      assert And(2 * p, 2 * p - 1) == 2 * And(p, p - 1);
    }
  }

  /** The test `c & (c - 1)` finds exactly the powers of two. */
  lemma PowerOfTwoTest(c: nat) returns (k: nat)
    requires c > 0
    ensures And(c, c - 1) == 0 <==> exists j: nat :: c == Pow2(j)
    ensures And(c, c - 1) == 0 ==> c == Pow2(k)
  {
    k := PowerFound(c);
    if j: nat :| c == Pow2(j) {
      PowersPassTest(j);
    }
  }

  /** Masking with a power of two less one is the remainder. */
  lemma {:induction false} MaskIsRemainder(x: nat, k: nat)
    ensures And(x, Pow2(k) - 1) == x % Pow2(k)
  {
    if k > 0 {
      var p, m := Pow2(k - 1), Pow2(k);
      MaskIsRemainder(x / 2, k - 1);
      HalvesRemainder(x, p, m);
      AndOdd(x, m - 1, p - 1);
    }
  }

  /** The lowest bit of an odd mask lets the lowest bit through. */
  lemma AndOdd(a: nat, b: nat, half: nat)
    requires b == 2 * half + 1
    ensures And(a, b) == 2 * And(a / 2, half) + a % 2
  {
    assert b / 2 == half && b % 2 == 1;
  }

  lemma HalvesRemainder(x: nat, p: nat, m: nat)
    requires p > 0 && m == 2 * p
    ensures x % m == 2 * ((x / 2) % p) + x % 2
  {
    var q, r := (x / 2) / p, (x / 2) % p;
    assert x / 2 == q * p + r;
    assert q * m == 2 * (q * p);
    RemainderUnique(x, m, q, 2 * r + x % 2);
  }

  // ----- the window ----------------------------------------------------------------------

  /** `position` is one the host could have reached: at most `outstanding` past `consumer`. */
  ghost predicate InWindow(position: u32, consumer: u32, producer: u32) {
    exists k: u32 :: k <= Sub32(producer, consumer) && position == Add32(consumer, k)
  }

  /**
   The single unsigned comparison rejects exactly the positions outside the outstanding
   window, wherever in the number circle the window lies.
   */
  lemma WindowTest(position: u32, consumer: u32, producer: u32)
    ensures Sub32(position, consumer) > Sub32(producer, consumer) <==> !InWindow(position, consumer, producer)
  {
    if Sub32(position, consumer) <= Sub32(producer, consumer) {
      assert position == Add32(consumer, Sub32(position, consumer));
    }
  }

  lemma {:induction false} PowerDividesWord(k: nat)
    requires Pow2(k) <= WORD
    ensures k <= 32 && WORD == Pow2(32 - k) * Pow2(k)
  {
    assert Pow2(32) == WORD by {
      assert Pow2(8) == 256;
      assert Pow2(16) == 0x1_0000;
      assert Pow2(24) == 0x100_0000;
    }
    if k > 32 {
      PowGrows(32, k);
    } else {
      PowSum(32 - k, k);
    }
  }

  lemma {:induction false} PowSum(a: nat, b: nat)
    ensures Pow2(a + b) == Pow2(a) * Pow2(b)
  {
    if a > 0 {
      PowSum(a - 1, b);
    }
  }

  lemma {:induction false} PowGrows(a: nat, b: nat)
    requires a < b
    ensures Pow2(a) < Pow2(b)
  {
    if a + 1 < b {
      PowGrows(a, b - 1);
    }
  }

  /** Wrapping round the number circle does not move a position's slot. */
  lemma WrapKeepsSlot(a: u32, b: u32, p: nat, m: nat)
    requires p > 0 && WORD == m * p
    ensures Add32(a, b) % p == (a + b) % p
  {
    if a + b >= WORD {
      var x := Add32(a, b);
      var q := x / p;
      ShiftedQuotient(x, q, m, p);
    }
  }

  lemma ShiftedQuotient(x: nat, q: nat, m: nat, p: nat)
    requires p > 0 && q == x / p
    ensures (x + m * p) % p == x % p
  {
    assert x + m * p == (q + m) * p + x % p;
    RemainderUnique(x + m * p, p, q + m, x % p);
  }

  function Slot(position: u32, capacity: nat): nat
    requires capacity > 0
  {
    And(position, capacity - 1)
  }

  lemma SlotIsRemainder(consumer: u32, i: nat, capacity: nat, k: nat)
    requires 0 < capacity < WORD && capacity == Pow2(k) && i < capacity
    ensures Slot(Add32(consumer, i), capacity) == (consumer + i) % capacity
  {
    PowerDividesWord(k);
    MaskIsRemainder(Add32(consumer, i), k);
    WrapKeepsSlot(consumer, i, capacity, Pow2(32 - k));
  }

  /** Commands outstanding together never share a slot, wherever the window lies. */
  lemma SlotsDistinct(consumer: u32, capacity: nat, i: nat, j: nat)
    requires 0 < capacity < WORD && And(capacity, capacity - 1) == 0
    requires i < j < capacity
    ensures Slot(Add32(consumer, i), capacity) != Slot(Add32(consumer, j), capacity)
    ensures Slot(Add32(consumer, i), capacity) < capacity
  {
    var k := PowerOfTwoTest(capacity);
    SlotIsRemainder(consumer, i, capacity, k);
    SlotIsRemainder(consumer, j, capacity, k);
    NearbyRemainders(consumer + i, consumer + j, capacity);
  }

  // ----- the loop ------------------------------------------------------------------------

  /** A producer position given to the host, and how many statuses had been checked by then. */
  datatype Doorbell = Doorbell(producer: u32, done: nat)

  /**
   The host's side of the channel and what has passed over it.  `trusted` says every reading
   so far was one an honest host could give; `expected` that every status was the expected one.
   */
  class Host {
    var stalls: nat
    var published: seq<Doorbell>
    var checked: seq<nat>
    var trusted: bool
    var expected: bool

    constructor (stalls: nat)
      ensures this.stalls == stalls && published == [] && checked == [] && trusted && expected
    {
      this.stalls, published, checked, trusted, expected := stalls, [], [], true, true;
    }

    /** Reads the consumer position and the transport status. */
    method Observe(consumer: u32, producer: u32) returns (position: u32, transportOk: bool)
      modifies this`stalls, this`trusted
      ensures trusted == (old(trusted) && transportOk && InWindow(position, consumer, producer))
      ensures if position == consumer != producer && transportOk then stalls < old(stalls) else stalls == old(stalls)
    {
      position := *;
      transportOk := *;
      if position == consumer != producer && transportOk {
        if stalls > 0 {
          stalls := stalls - 1;
        } else {
          position := Add32(consumer, 1);
        }
      }
      WindowTest(position, consumer, producer);
      trusted := trusted && transportOk && Sub32(position, consumer) <= Sub32(producer, consumer);
    }

    /** Reads one command's status and says whether it is the expected one. */
    method Status(slot: nat) returns (ok: bool)
      modifies this`checked, this`expected
      ensures checked == old(checked) + [slot] && expected == (old(expected) && ok)
    {
      ok := *;
      checked := checked + [slot];
      expected := expected && ok;
    }

    /** Stores the producer position and rings the doorbell. */
    method Publish(producer: u32)
      modifies this`published
      ensures published == old(published) + [Doorbell(producer, |checked|)]
    {
      published := published + [Doorbell(producer, |checked|)];
    }
  }

  datatype Outcome = Pass | BadConfiguration | BadTransport | BadStatus

  /** The slots of the first `count` commands, in order. */
  function SlotsInOrder(count: u32, capacity: nat): (slots: seq<nat>)
    requires capacity > 0
    ensures |slots| == count
    ensures forall i :: 0 <= i < count ==> slots[i] == Slot(i, capacity)
  {
    seq(count, i requires 0 <= i < count => Slot(i, capacity))
  }

  /** Command `i` has slot `i` modulo the capacity. */
  lemma SlotsAreRemainders(count: u32, capacity: nat)
    requires capacity > 0 && And(capacity, capacity - 1) == 0
    ensures forall i :: 0 <= i < count ==> SlotsInOrder(count, capacity)[i] == i % capacity
  {
    var k := PowerOfTwoTest(capacity);
    forall i | 0 <= i < count ensures SlotsInOrder(count, capacity)[i] == i % capacity {
      MaskIsRemainder(i, k);
    }
  }

  /**
   Each doorbell offers new commands and fills the ring: everything that remains, or as much
   as keeps no more than `capacity` outstanding.
   */
  ghost predicate Paced(published: seq<Doorbell>, iterations: nat, capacity: nat) {
    && (forall i, j :: 0 <= i < j < |published| ==> published[i].producer < published[j].producer)
    && (forall i :: 0 <= i < |published| ==>
          published[i].producer == Smaller(iterations, published[i].done + capacity))
  }

  function Smaller(a: nat, b: nat): nat {
    if a < b then a else b
  }

  /** The inner loop: every command the host says it finished has its status checked. */
  method CheckStatuses(host: Host, consumer: u32, observed: u32, capacity: nat) returns (ok: bool)
    requires 0 < capacity && consumer <= observed
    requires host.checked == SlotsInOrder(consumer, capacity) && host.expected
    modifies host`checked, host`expected
    ensures ok == host.expected
    ensures ok ==> host.checked == SlotsInOrder(observed, capacity)
    ensures !ok ==> exists n: u32 :: consumer < n <= observed && host.checked == SlotsInOrder(n, capacity)
  {
    var at := consumer;
    while at != observed
      invariant consumer <= at <= observed
      invariant host.checked == SlotsInOrder(at, capacity) && host.expected
    {
      ok := host.Status(Slot(at, capacity));
      assert SlotsInOrder(at + 1, capacity) == SlotsInOrder(at, capacity) + [Slot(at, capacity)];
      if !ok {
        return;
      }
      at := at + 1;
    }
    return true;
  }

  lemma InWindowOrder(position: u32, consumer: u32, producer: u32)
    requires InWindow(position, consumer, producer) && consumer <= producer
    ensures consumer <= position <= producer
  {
  }

  /** Publishes whatever fits, if anything does. */
  method Refill(host: Host, consumer: u32, producer: u32, iterations: u32, capacity: u32) returns (next: u32)
    requires consumer <= producer <= iterations && producer <= consumer + capacity && |host.checked| == consumer
    requires Paced(host.published, iterations, capacity) && producer == LastPublished(host.published)
    modifies host`published
    ensures Paced(host.published, iterations, capacity) && next == LastPublished(host.published)
    ensures next == Smaller(iterations, consumer + capacity)
  {
    next := producer;
    if producer != iterations && Sub32(producer, consumer) < capacity {
      var available := capacity - Sub32(producer, consumer);
      var remaining := Sub32(iterations, producer);
      next := Add32(producer, if remaining < available then remaining else available);
      host.Publish(next);
    }
  }

  function LastPublished(published: seq<Doorbell>): u32 {
    if published == [] then 0 else published[|published| - 1].producer
  }

  /**
   The benchmark's command loop.  It passes only after checking exactly one status per
   iteration, in order; it gives up exactly when the host could no longer be believed or a
   status was wrong; and the host is never given more than `capacity` commands at once.
   */
  method Run(host: Host, iterations: u32, capacity: u32) returns (outcome: Outcome)
    requires host.published == [] && host.checked == [] && host.trusted && host.expected
    modifies host
    ensures outcome == BadConfiguration <==>
              iterations == 0 || capacity == 0 || And(capacity, capacity - 1) != 0
    ensures outcome == BadTransport <==> !host.trusted
    ensures outcome == BadStatus <==> !host.expected
    ensures outcome == Pass ==> |host.checked| == iterations
    ensures |host.checked| <= iterations && forall i :: 0 <= i < |host.checked| ==>
              capacity > 0 && host.checked[i] == i % capacity
    ensures Paced(host.published, iterations, capacity)
  {
    if iterations == 0 || capacity == 0 || And(capacity, capacity - 1) != 0 {
      return BadConfiguration;
    }
    var consumer: u32, producer: u32 := 0, 0;
    while consumer != iterations
      invariant consumer <= iterations
      invariant host.trusted && host.expected
      invariant host.checked == SlotsInOrder(consumer, capacity)
      invariant Paced(host.published, iterations, capacity)
      invariant producer == LastPublished(host.published)
      invariant consumer <= producer <= iterations && producer <= consumer + capacity
      decreases iterations - consumer, iterations - producer, host.stalls
    {
      var observed, transportOk := host.Observe(consumer, producer);
      WindowTest(observed, consumer, producer);
      if !transportOk || Sub32(observed, consumer) > Sub32(producer, consumer) {
        SlotsAreRemainders(consumer, capacity);
        return BadTransport;
      }
      InWindowOrder(observed, consumer, producer);
      var ok := CheckStatuses(host, consumer, observed, capacity);
      if !ok {
        ghost var n: u32 :| consumer < n <= observed && host.checked == SlotsInOrder(n, capacity);
        SlotsAreRemainders(n, capacity);
        return BadStatus;
      }
      consumer := observed;
      producer := Refill(host, consumer, producer, iterations, capacity);
    }
    SlotsAreRemainders(iterations, capacity);
    return Pass;
  }
}
