/**
 wait_ready of tools/measure-terminal-text.py: a host polls the trace ring of a running machine
 for the first record with a given message, reading one header or one slot at a time while the
 machine goes on writing between reads.

 The deadline is a number of polls.  A slot is what the machine's memory holds at the moment it
 is read; its fields are found by the offsets the program uses.
 */
module TraceReader {
  import opened Prelude
  import opened Arithmetic
  import opened TraceRing

  /** Numbers run from 1 to 2^32 - 1 and then start again. */
  const CYCLE: nat := WORD - 1

  function Cyclic(first: u32, k: nat): u32
    requires first > 0
  {
    1 + (first - 1 + k) % CYCLE
  }

  /** The reader's counter and the writer's are the same function of how many slots were written. */
  lemma {:induction false} SequenceIsCyclic(first: u32, k: nat)
    requires first > 0
    ensures SequenceAt(first, k) == Cyclic(first, k)
  {
    if k == 0 {
      RemainderUnique(first - 1, CYCLE, 0, first - 1);
    } else {
      SequenceIsCyclic(first, k - 1);
      NextRemainder(first - 1 + k - 1, CYCLE);
    }
  }

  /** Fewer than 2^32 - 1 writes apart, different writes have different numbers. */
  lemma SequenceTells(first: u32, j: nat, k: nat)
    requires first > 0 && j <= k < j + CYCLE
    ensures SequenceAt(first, j) == SequenceAt(first, k) <==> j == k
  {
    SequenceIsCyclic(first, j);
    SequenceIsCyclic(first, k);
    if j < k {
      NearbyRemainders(first - 1 + j, first - 1 + k, CYCLE);
    }
  }

  /** The fields wait_ready compares, at the offsets it reads them from. */
  predicate Matches(raw: Slot, message: u32) {
    U16(raw, 12) == EVENT_USER && U32(raw, 20) == message
  }

  function TicksOf(raw: Slot): nat {
    Ticks(U32(raw, 4), U32(raw, 8))
  }

  /** In bytes: a user event's type, its message, and the two halves of its time. */
  lemma MatchMeans(raw: Slot, message: u32)
    ensures Matches(raw, message) <==> BigEndian(raw[12..14]) == 0xE000 && BigEndian(raw[20..24]) == message
    ensures TicksOf(raw) / 0x1_0000_0000 == BigEndian(raw[4..8])
    ensures TicksOf(raw) % 0x1_0000_0000 == BigEndian(raw[8..12])
  {
    SlotWords(raw);
    SlotHalves(raw);
    TicksParts(U32(raw, 4), U32(raw, 8));
  }

  /** The slot of a user event matches its own message and no other, and has the event's time. */
  lemma UserEventMatches(entry: Entry, sequence: u32, message: u32)
    requires !entry.Tail? && entry.event.UserEvent? && EventOk(entry.event)
    ensures Matches(Encode(entry, sequence), message) <==> entry.event.message == message
    ensures TicksOf(Encode(entry, sequence)) / 0x1_0000_0000 == entry.event.high
    ensures TicksOf(Encode(entry, sequence)) % 0x1_0000_0000 == entry.event.low
  {
    UserSlot(entry, sequence);
    MatchMeans(Encode(entry, sequence), message);
  }

  /** A kernel event never matches, unless it has the type of a user event. */
  lemma KernelEventMatches(event: Event, sequence: u32, message: u32)
    requires event.KernelEvent?
    ensures Matches(Encode(Whole(event), sequence), message) <==> event.code == 0xE000 && event.a1 == message
  {
    KernelSlot(event, sequence);
    MatchMeans(Encode(Whole(event), sequence), message);
  }

  /**
   A payload slot is taken for a user event exactly when the payload has that type in its bytes
   4 and 5 and the message in its bytes 12 to 15.
   */
  lemma PayloadMatches(event: Event, sequence: u32, message: u32)
    requires event.UserEvent? && |event.payload| <= 24
    ensures var payload := event.payload + seq(24 - |event.payload|, _ => 0);
            Matches(Encode(Tail(event), sequence), message)
            <==> BigEndian(payload[4..6]) == 0xE000 && BigEndian(payload[12..16]) == message
  {
    var payload: seq<byte> := event.payload + seq(24 - |event.payload|, _ => 0);
    var s := Encode(Tail(event), sequence);
    PayloadSlot(event, sequence);
    MatchMeans(s, message);
    forall i | 0 <= i < 24 ensures s[8 + i] == payload[i] {
      if i < |event.payload| {
        assert s[8..8 + |event.payload|][i] == event.payload[i];
      }
    }
    assert s[12..14] == payload[4..6] && s[20..24] == payload[12..16];
  }

  datatype Position = Position(sequence: u32, index: nat, capacity: nat)

  /**
   The machine.  `written` is every slot its writer has ever filled, numbered from `first`;
   the ring holds the last `capacity` of them.  The writer fills fewer than 2^32 - 1 in all.
   It takes the number out of a slot before it refills it, and puts the new one in before the
   header says so; while it is `refilling`, the slot that comes next has neither its old number
   nor a place in what the header covers.
   `headers` is the number of slots filled whenever the header was read.
   */
  class Machine {
    var written: seq<Slot>
    var refilling: bool
    ghost var headers: seq<nat>
    const capacity: nat
    const first: u32

    ghost predicate Valid()
      reads this
    {
      && capacity > 0 && first > 0 && |written| < CYCLE
      && forall k :: 0 <= k < |written| ==> U32(written[k], 0) == SequenceAt(first, k)
    }

    /** How many slots have been filled or are about to be. */
    ghost function Begun(): nat
      reads this
    {
      |written| + if refilling then 1 else 0
    }

    constructor (capacity: nat, first: u32)
      requires capacity > 0 && first > 0
      ensures Valid() && written == [] && !refilling && headers == [] && this.capacity == capacity
                && this.first == first
    {
      this.capacity, this.first, written, refilling, headers := capacity, first, [], false, [];
    }

    /** The writer runs for a while. */
    method Advance()
      requires Valid()
      modifies `written, `refilling
      ensures Valid() && old(written) <= written
    {
      var go: bool := *;
      while go && |written| + 1 < CYCLE
        invariant Valid() && old(written) <= written
        decreases CYCLE - |written|, !refilling
      {
        if !refilling {
          refilling := true;
        } else {
          var anything := new byte[RECORD_SIZE];
          var slot: Slot := anything[..];
          if U32(slot, 0) != SequenceAt(first, |written|) {
            break;
          }
          written, refilling := written + [slot], false;
        }
        go := *;
      }
    }

    /** The header, read after the writer has run on. */
    method TracePosition() returns (position: Position)
      requires Valid()
      modifies this
      ensures Valid() && old(written) <= written
      ensures position == Position(SequenceAt(first, |written|), |written| % capacity, capacity)
      ensures headers == old(headers) + [|written|]
    {
      Advance();
      headers := headers + [|written|];
      position := Position(SequenceAt(first, |written|), |written| % capacity, capacity);
    }

    /** One slot, read after the writer has run on. */
    method Words(index: nat) returns (raw: Slot)
      requires Valid() && index < capacity && index < |written|
      modifies `written, `refilling
      ensures Valid() && old(written) <= written && index < |written|
      ensures if refilling && index == |written| % capacity
              then U32(raw, 0) == 0 || U32(raw, 0) == SequenceAt(first, |written|)
              else raw == written[Latest(|written|, capacity, index)]
    {
      Advance();
      if refilling && index == |written| % capacity {
        var anything := new byte[RECORD_SIZE];
        raw := anything[..];
        if U32(raw, 0) != SequenceAt(first, |written|) {
          raw := EMPTY_SLOT;
        }
      } else {
        raw := written[Latest(|written|, capacity, index)];
      }
    }
  }

  datatype Outcome = Ready(ticks: nat) | Overwritten | TimedOut

  /** No write from `from` up to `to` matches. */
  ghost predicate NoMatch(written: seq<Slot>, message: u32, from: nat, to: nat) {
    forall k :: from <= k < to && k < |written| ==> !Matches(written[k], message)
  }

  /** The first matching write at or after `start`, with its time. */
  ghost predicate FirstMatch(written: seq<Slot>, message: u32, start: nat, ticks: nat) {
    exists k :: start <= k < |written| && Matches(written[k], message) && NoMatch(written, message, start, k)
                && ticks / 0x1_0000_0000 == BigEndian(written[k][4..8])
                && ticks % 0x1_0000_0000 == BigEndian(written[k][8..12])
  }

  /**
   Some write from `start` on was overwritten, or was being overwritten, before the reader, having
   found no match, got to it.
   */
  ghost predicate Lost(written: seq<Slot>, begun: nat, message: u32, start: nat, capacity: nat) {
    exists k :: start <= k && k + capacity < begun && NoMatch(written, message, start, k)
  }

  lemma SlotOfWrite(k: nat, d: nat)
    requires d > 0
    ensures k % d < d && k % d <= k
  {
    assert k == (k / d) * d + k % d;
    assert (k / d) * d >= 0;
  }

  /**
   What a slot read tells: its number is the expected one exactly when it is the expected
   write, and otherwise that write has been overwritten.
   */
  lemma ReadTells(machine: Machine, k: nat)
    requires machine.Valid() && k < |machine.written|
    ensures k % machine.capacity < machine.capacity && k % machine.capacity < |machine.written|
    ensures var raw := machine.written[Latest(|machine.written|, machine.capacity, k % machine.capacity)];
            && (U32(raw, 0) == SequenceAt(machine.first, k) <==> |machine.written| <= k + machine.capacity)
            && (U32(raw, 0) == SequenceAt(machine.first, k) ==> raw == machine.written[k])
  {
    var n, d := |machine.written|, machine.capacity;
    SlotOfWrite(k, d);
    var l := Latest(n, d, k % d);
    if n <= k + d {
      LatestInverse(n, d, k);
    } else {
      SequenceTells(machine.first, k, l);
    }
  }

  /** The slot that is being refilled tells that the write it held is lost. */
  lemma RefilledTells(machine: Machine, k: nat)
    requires machine.Valid() && k < |machine.written| && machine.refilling
    requires k % machine.capacity == |machine.written| % machine.capacity
    ensures SequenceAt(machine.first, |machine.written|) != SequenceAt(machine.first, k)
    ensures k + machine.capacity < machine.Begun()
  {
    var n := |machine.written|;
    SequenceTells(machine.first, k, n);
    if n < k + machine.capacity {
      NearbyRemainders(k, n, machine.capacity);
    }
  }

  /** One slot, read where write `k` went. */
  method Look(machine: Machine, index: nat, sequence: u32, ghost k: nat) returns (raw: Slot)
    requires machine.Valid() && k < |machine.written|
    requires sequence == SequenceAt(machine.first, k) && index == k % machine.capacity
    modifies machine`written, machine`refilling
    ensures machine.Valid() && old(machine.written) <= machine.written
    ensures U32(raw, 0) == sequence ==> raw == machine.written[k]
    ensures U32(raw, 0) != sequence ==> k + machine.capacity < machine.Begun()
  {
    ReadTells(machine, k);
    raw := machine.Words(index);
    ReadTells(machine, k);
    if machine.refilling && index == |machine.written| % machine.capacity {
      RefilledTells(machine, k);
    }
  }

  /** Writes that did not match still do not once the writer has run on. */
  lemma NoMatchGrows(old': seq<Slot>, written: seq<Slot>, message: u32, from: nat, to: nat)
    requires old' <= written && to <= |old'| && NoMatch(old', message, from, to)
    ensures NoMatch(written, message, from, to)
  {
    forall k | from <= k < to ensures !Matches(written[k], message) {
      assert written[k] == old'[k];
    }
  }

  /** What was found from `at` on was found from `start` on, when there was nothing in between. */
  lemma FoundSince(written: seq<Slot>, begun: nat, message: u32, start: nat, at: nat, capacity: nat, outcome: Outcome)
    requires start <= at && NoMatch(written, message, start, at) && !outcome.TimedOut?
    requires outcome.Ready? ==> FirstMatch(written, message, at, outcome.ticks)
    requires outcome.Overwritten? ==> Lost(written, begun, message, at, capacity)
    ensures outcome.Ready? ==> FirstMatch(written, message, start, outcome.ticks)
    ensures outcome.Overwritten? ==> Lost(written, begun, message, start, capacity)
  {
    if outcome.Ready? {
      var k :| at <= k < |written| && Matches(written[k], message) && NoMatch(written, message, at, k)
               && outcome.ticks / 0x1_0000_0000 == BigEndian(written[k][4..8])
               && outcome.ticks % 0x1_0000_0000 == BigEndian(written[k][8..12]);
      assert NoMatch(written, message, start, k);
    } else {
      var k :| at <= k && k + capacity < begun && NoMatch(written, message, at, k);
      assert NoMatch(written, message, start, k);
    }
  }

  /**
   One poll's scan from write `at`: up to the header's position, a match, or a loss.
   */
  method Scan(machine: Machine, message: u32, sequence: u32, index: nat, current: u32, ghost at: nat, ghost end: nat)
    returns (outcome: Option<Outcome>, sequence': u32, index': nat)
    requires machine.Valid() && at <= end <= |machine.written|
    requires sequence == SequenceAt(machine.first, at) && index == at % machine.capacity
    requires current == SequenceAt(machine.first, end)
    modifies machine`written, machine`refilling
    ensures machine.Valid() && old(machine.written) <= machine.written
    ensures outcome.None? ==> sequence' == current && index' == end % machine.capacity
                              && NoMatch(machine.written, message, at, end)
    ensures outcome.Some? ==> !outcome.value.TimedOut?
    ensures outcome.Some? && outcome.value.Ready? ==>
              FirstMatch(machine.written, message, at, outcome.value.ticks)
    ensures outcome.Some? && outcome.value.Overwritten? ==>
              Lost(machine.written, machine.Begun(), message, at, machine.capacity)
  {
    sequence', index' := sequence, index;
    var scanned := 0;
    ghost var k := at;
    SequenceTells(machine.first, k, end);
    while sequence' != current && scanned < machine.capacity
      invariant machine.Valid() && old(machine.written) <= machine.written
      invariant at <= k <= end && scanned == k - at
      invariant sequence' == SequenceAt(machine.first, k) && index' == k % machine.capacity
      invariant sequence' == current <==> k == end
      invariant NoMatch(machine.written, message, at, k)
      decreases machine.capacity - scanned
    {
      ghost var before := machine.written;
      var raw := Look(machine, index', sequence', k);
      NoMatchGrows(before, machine.written, message, at, k);
      if U32(raw, 0) != sequence' {
        return Some(Overwritten), sequence', index';
      }
      if Matches(raw, message) {
        MatchMeans(raw, message);
        return Some(Ready(TicksOf(raw))), sequence', index';
      }
      sequence' := NextSequence(sequence');
      NextRemainder(k, machine.capacity);
      index' := (index' + 1) % machine.capacity;
      scanned := scanned + 1;
      k := k + 1;
      SequenceTells(machine.first, k, end);
    }
    if sequence' != current {
      assert NoMatch(machine.written, message, at, at);
      return Some(Overwritten), sequence', index';
    }
    return None, sequence', index';
  }

  /**
   The polling loop.  It reports the first matching write at or after `prior`, or that a write
   it had still to look at was overwritten, or that the deadline passed with no match up to the
   last header it read.  It never skips a match and never takes one from before `prior`.
   */
  method WaitReady(machine: Machine, prior: Position, message: u32, polls: nat, ghost start: nat)
    returns (outcome: Outcome)
    requires machine.Valid() && start <= |machine.written|
    requires prior == Position(SequenceAt(machine.first, start), start % machine.capacity, machine.capacity)
    modifies machine
    ensures machine.Valid() && old(machine.written) <= machine.written
    ensures outcome.Ready? ==> FirstMatch(machine.written, message, start, outcome.ticks)
    ensures outcome.Overwritten? ==> Lost(machine.written, machine.Begun(), message, start, machine.capacity)
    ensures outcome.TimedOut? ==>
              && |machine.headers| == |old(machine.headers)| + polls + 1
              && |old(machine.written)| <= machine.headers[|machine.headers| - 1] <= |machine.written|
              && NoMatch(machine.written, message, start, machine.headers[|machine.headers| - 1])
  {
    var sequence, index := prior.sequence, prior.index;
    var poll := 0;
    ghost var k := start;
    while true
      invariant machine.Valid() && old(machine.written) <= machine.written
      invariant poll <= polls && start <= k <= |machine.written|
      invariant sequence == SequenceAt(machine.first, k) && index == k % machine.capacity
      invariant NoMatch(machine.written, message, start, k)
      invariant |machine.headers| == |old(machine.headers)| + poll
      decreases polls - poll
    {
      ghost var before := machine.written;
      var position := machine.TracePosition();
      ghost var end := |machine.written|;
      var found;
      found, sequence, index := Scan(machine, message, sequence, index, position.sequence, k, end);
      NoMatchGrows(before, machine.written, message, start, k);
      if found.Some? {
        FoundSince(machine.written, machine.Begun(), message, start, k, machine.capacity, found.value);
        return found.value;
      }
      k := end;
      if poll == polls {
        return TimedOut;
      }
      poll := poll + 1;
    }
  }
}
