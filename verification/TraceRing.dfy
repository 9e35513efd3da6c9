/**
 The trace ring: the kernel writer of sw/kernel/trace.c and the decoder of
 tools/trace_decode.py, joined by the 32-byte slots between them.

 A slot is big-endian bytes.  An event takes one slot, or two when it carries a payload: the
 second holds the payload and has no type field where other slots have theirs, so the decoder
 can only find it by position.
 */
module TraceRing {
  import opened Prelude
  import opened Arithmetic

  const RECORD_SIZE: nat := 32
  const EVENT_USER: u16 := 0xE000
  const EVENT_USER_ARGUMENTS: u16 := 0xE001
  const ARGUMENT_BYTES: nat := 24

  type Slot = s: seq<byte> | |s| == RECORD_SIZE witness seq(RECORD_SIZE, _ => 0)

  // ----- big-endian fields -----------------------------------------------------------------

  function B16(v: u16): (b: seq<byte>)
    ensures |b| == 2
  {
    [(v / 256) as byte, (v % 256) as byte]
  }

  function B32(v: u32): (b: seq<byte>)
    ensures |b| == 4
  {
    B16(v / 0x1_0000) + B16(v % 0x1_0000)
  }

  function U16(raw: seq<byte>, at: nat): u16
    requires at + 2 <= |raw|
  {
    raw[at] as nat * 256 + raw[at + 1] as nat
  }

  function U32(raw: seq<byte>, at: nat): u32
    requires at + 4 <= |raw|
  {
    U16(raw, at) * 0x1_0000 + U16(raw, at + 2)
  }

  /** Words one after the other. */
  function Pack(words: seq<u32>): (b: seq<byte>)
    ensures |b| == 4 * |words|
  {
    if words == [] then [] else Pack(words[..|words| - 1]) + B32(words[|words| - 1])
  }

  lemma ReadWord(raw: seq<byte>, at: nat, v: u32)
    requires at + 4 <= |raw| && raw[at..at + 4] == B32(v)
    ensures U32(raw, at) == v && U16(raw, at) == v / 0x1_0000 && U16(raw, at + 2) == v % 0x1_0000
  {
    var b := B32(v);
    assert raw[at] == b[0] && raw[at + 1] == b[1] && raw[at + 2] == b[2] && raw[at + 3] == b[3] by {
      assert raw[at..at + 4][0] == raw[at] && raw[at..at + 4][1] == raw[at + 1];
      assert raw[at..at + 4][2] == raw[at + 2] && raw[at..at + 4][3] == raw[at + 3];
    }
  }

  /** A word reads back from its place, as a whole and by halves. */
  lemma {:induction false} PackedWord(words: seq<u32>, tail: seq<byte>, i: nat)
    requires i < |words|
    ensures var raw := Pack(words) + tail;
            && U32(raw, 4 * i) == words[i]
            && U16(raw, 4 * i) == words[i] / 0x1_0000 && U16(raw, 4 * i + 2) == words[i] % 0x1_0000
  {
    var last := |words| - 1;
    var raw := Pack(words) + tail;
    if i == last {
      assert raw[4 * i..4 * i + 4] == B32(words[i]);
      ReadWord(raw, 4 * i, words[i]);
    } else {
      PackedWord(words[..last], B32(words[last]) + tail, i);
      assert raw == Pack(words[..last]) + (B32(words[last]) + tail);
    }
  }

  /** Two 16-bit fields of one word. */
  function Pair(high: u16, low: u16): (v: u32)
    ensures v / 0x1_0000 == high && v % 0x1_0000 == low
  {
    high * 0x1_0000 + low
  }

  /** A number from its bytes, the most significant first. */
  function BigEndian(bytes: seq<byte>): nat {
    if bytes == [] then 0 else BigEndian(bytes[..|bytes| - 1]) * 256 + bytes[|bytes| - 1] as nat
  }

  lemma OneMoreByte(front: seq<byte>, last: byte)
    ensures BigEndian(front + [last]) == BigEndian(front) * 256 + last as nat
  {
    assert (front + [last])[..|front|] == front;
  }

  lemma FieldIsBigEndian(raw: seq<byte>, at: nat)
    requires at + 2 <= |raw|
    ensures BigEndian(raw[at..at + 2]) == U16(raw, at)
    ensures at + 4 <= |raw| ==> BigEndian(raw[at..at + 4]) == U32(raw, at)
  {
    OneMoreByte([], raw[at]);
    OneMoreByte([raw[at]], raw[at + 1]);
    assert [] + [raw[at]] == [raw[at]] && raw[at..at + 2] == [raw[at]] + [raw[at + 1]];
    if at + 4 <= |raw| {
      OneMoreByte(raw[at..at + 2], raw[at + 2]);
      OneMoreByte(raw[at..at + 3], raw[at + 3]);
      assert raw[at..at + 3] == raw[at..at + 2] + [raw[at + 2]];
      assert raw[at..at + 4] == raw[at..at + 3] + [raw[at + 3]];
    }
  }

  lemma SlotWords(s: Slot)
    ensures U32(s, 0) == BigEndian(s[0..4]) && U32(s, 4) == BigEndian(s[4..8]) && U32(s, 8) == BigEndian(s[8..12])
    ensures U32(s, 16) == BigEndian(s[16..20]) && U32(s, 20) == BigEndian(s[20..24])
    ensures U32(s, 24) == BigEndian(s[24..28]) && U32(s, 28) == BigEndian(s[28..32])
  {
    FieldIsBigEndian(s, 0);
    FieldIsBigEndian(s, 4);
    FieldIsBigEndian(s, 8);
    FieldIsBigEndian(s, 16);
    FieldIsBigEndian(s, 20);
    FieldIsBigEndian(s, 24);
    FieldIsBigEndian(s, 28);
  }

  lemma SlotHalves(s: Slot)
    ensures U16(s, 12) == BigEndian(s[12..14]) && U16(s, 14) == BigEndian(s[14..16])
    ensures U16(s, 28) == BigEndian(s[28..30]) && U16(s, 30) == BigEndian(s[30..32])
  {
    FieldIsBigEndian(s, 12);
    FieldIsBigEndian(s, 14);
    FieldIsBigEndian(s, 28);
    FieldIsBigEndian(s, 30);
  }

  // ----- events and the slots they fill ----------------------------------------------------

  datatype Event =
    | KernelEvent(high: u32, low: u32, code: u16, flags: u16, a0: u32, a1: u32, a2: u32, a3: u32)
    | UserEvent(high: u32, low: u32, flags: u16, process: u32, message: u32, activity: u32, thread: u16,
                payload: seq<byte>)

  /** A slot of the log: an event's only slot, its first of two, or its second. */
  datatype Entry = Whole(event: Event) | Head(event: Event) | Tail(event: Event)

  function Padded(payload: seq<byte>): (b: seq<byte>)
    requires |payload| <= ARGUMENT_BYTES
    ensures |b| == ARGUMENT_BYTES && b[..|payload|] == payload
  {
    payload + seq(ARGUMENT_BYTES - |payload|, _ => 0)
  }

  predicate EventOk(event: Event) {
    event.UserEvent? ==> |event.payload| <= ARGUMENT_BYTES
  }

  predicate Encodable(entry: Entry) {
    EventOk(entry.event) && (entry.Tail? ==> entry.event.UserEvent?)
  }

  /** The eight words of an event's first or only slot. */
  function Words(e: Event, sequence: u32): (words: seq<u32>)
    requires EventOk(e)
    ensures |words| == 8
  {
    match e
    case KernelEvent(high, low, code, flags, a0, a1, a2, a3) =>
      [sequence, high, low, Pair(code, flags), a0, a1, a2, a3]
    case UserEvent(high, low, flags, process, message, activity, thread, payload) =>
      [sequence, high, low, Pair(EVENT_USER, flags), process, message, activity, Pair(thread, |payload|)]
  }

  function Encode(entry: Entry, sequence: u32): (slot: Slot)
    requires Encodable(entry)
  {
    if entry.Tail? then Pack([sequence, Pair(EVENT_USER_ARGUMENTS, 0)]) + Padded(entry.event.payload)
    else Pack(Words(entry.event, sequence)) + []
  }

  lemma KernelFields(e: Event, sequence: u32)
    requires e.KernelEvent?
    ensures var s := Encode(Whole(e), sequence);
            && U32(s, 0) == sequence && U32(s, 4) == e.high && U32(s, 8) == e.low
            && U16(s, 12) == e.code && U16(s, 14) == e.flags
            && U32(s, 16) == e.a0 && U32(s, 20) == e.a1 && U32(s, 24) == e.a2 && U32(s, 28) == e.a3
  {
    var words := Words(e, sequence);
    PackedWord(words, [], 0);
    PackedWord(words, [], 1);
    PackedWord(words, [], 2);
    PackedWord(words, [], 3);
    PackedWord(words, [], 4);
    PackedWord(words, [], 5);
    PackedWord(words, [], 6);
    PackedWord(words, [], 7);
  }

  lemma UserFields(entry: Entry, sequence: u32)
    requires !entry.Tail? && entry.event.UserEvent? && EventOk(entry.event)
    ensures var s, e := Encode(entry, sequence), entry.event;
            && U32(s, 0) == sequence && U32(s, 4) == e.high && U32(s, 8) == e.low
            && U16(s, 12) == EVENT_USER && U16(s, 14) == e.flags
            && U32(s, 16) == e.process && U32(s, 20) == e.message && U32(s, 24) == e.activity
            && U16(s, 28) == e.thread && U16(s, 30) == |e.payload|
  {
    var words := Words(entry.event, sequence);
    PackedWord(words, [], 0);
    PackedWord(words, [], 1);
    PackedWord(words, [], 2);
    PackedWord(words, [], 3);
    PackedWord(words, [], 4);
    PackedWord(words, [], 5);
    PackedWord(words, [], 6);
    PackedWord(words, [], 7);
  }

  lemma ArgumentFields(e: Event, sequence: u32)
    requires e.UserEvent? && EventOk(e)
    ensures var s := Encode(Tail(e), sequence);
            && U32(s, 0) == sequence && U16(s, 4) == EVENT_USER_ARGUMENTS
            && s[8..8 + |e.payload|] == e.payload
  {
    var words: seq<u32> := [sequence, Pair(EVENT_USER_ARGUMENTS, 0)];
    PackedWord(words, Padded(e.payload), 0);
    PackedWord(words, Padded(e.payload), 1);
    var s := Encode(Tail(e), sequence);
    assert s[8..] == Padded(e.payload);
    assert s[8..8 + |e.payload|] == s[8..][..|e.payload|];
  }

  /** The bytes of a kernel event's slot. */
  lemma KernelSlot(e: Event, sequence: u32)
    requires e.KernelEvent?
    ensures var s := Encode(Whole(e), sequence);
            && BigEndian(s[0..4]) == sequence && BigEndian(s[4..8]) == e.high && BigEndian(s[8..12]) == e.low
            && BigEndian(s[12..14]) == e.code && BigEndian(s[14..16]) == e.flags
            && BigEndian(s[16..20]) == e.a0 && BigEndian(s[20..24]) == e.a1
            && BigEndian(s[24..28]) == e.a2 && BigEndian(s[28..32]) == e.a3
  {
    KernelFields(e, sequence);
    SlotWords(Encode(Whole(e), sequence));
    SlotHalves(Encode(Whole(e), sequence));
  }

  /** The bytes of a user event's first or only slot. */
  lemma UserSlot(entry: Entry, sequence: u32)
    requires !entry.Tail? && entry.event.UserEvent? && EventOk(entry.event)
    ensures var s, e := Encode(entry, sequence), entry.event;
            && BigEndian(s[0..4]) == sequence && BigEndian(s[4..8]) == e.high && BigEndian(s[8..12]) == e.low
            && BigEndian(s[12..14]) == 0xE000 && BigEndian(s[14..16]) == e.flags
            && BigEndian(s[16..20]) == e.process && BigEndian(s[20..24]) == e.message
            && BigEndian(s[24..28]) == e.activity && BigEndian(s[28..30]) == e.thread
            && BigEndian(s[30..32]) == |e.payload|
  {
    UserFields(entry, sequence);
    SlotWords(Encode(entry, sequence));
    SlotHalves(Encode(entry, sequence));
  }

  lemma PayloadBytes(e: Event, sequence: u32)
    requires e.UserEvent? && |e.payload| <= 24
    ensures var s := Encode(Tail(e), sequence);
            && s[8..8 + |e.payload|] == e.payload && forall i :: 8 + |e.payload| <= i < 32 ==> s[i] == 0
  {
    var s, padded := Encode(Tail(e), sequence), Padded(e.payload);
    ArgumentFields(e, sequence);
    assert |Pack([sequence, Pair(EVENT_USER_ARGUMENTS, 0)])| == 8;
    forall i | 8 <= i < 32 ensures s[i] == padded[i - 8] {
    }
  }

  /** The bytes of a payload slot: what the payload does not fill is zero. */
  lemma PayloadSlot(e: Event, sequence: u32)
    requires e.UserEvent? && |e.payload| <= 24
    ensures var s := Encode(Tail(e), sequence);
            && BigEndian(s[0..4]) == sequence && BigEndian(s[4..6]) == 0xE001 && BigEndian(s[6..8]) == 0
            && s[8..8 + |e.payload|] == e.payload
            && forall i :: 8 + |e.payload| <= i < 32 ==> s[i] == 0
  {
    var words: seq<u32> := [sequence, Pair(EVENT_USER_ARGUMENTS, 0)];
    PackedWord(words, Padded(e.payload), 0);
    PackedWord(words, Padded(e.payload), 1);
    PayloadBytes(e, sequence);
    FieldIsBigEndian(Encode(Tail(e), sequence), 0);
    FieldIsBigEndian(Encode(Tail(e), sequence), 4);
    FieldIsBigEndian(Encode(Tail(e), sequence), 6);
  }

  lemma HighHalf(s: Slot)
    ensures U16(s, 4) == U32(s, 4) / 0x1_0000
  {
  }

  // ----- the ring --------------------------------------------------------------------------

  /** The counter after `sequence`: 32 bits, and zero is skipped because it marks an empty slot. */
  function NextSequence(sequence: u32): u32 {
    if sequence + 1 == WORD then 1 else sequence + 1
  }

  /** The sequence number of write `k` when the first write has number `first`. */
  function SequenceAt(first: u32, k: nat): (sequence: u32)
    requires first > 0
    ensures sequence > 0
  {
    if k == 0 then first else NextSequence(SequenceAt(first, k - 1))
  }

  lemma {:induction false} PlainSequence(first: u32, k: nat)
    requires first > 0 && first + k < WORD
    ensures SequenceAt(first, k) == first + k
  {
    if k > 0 {
      PlainSequence(first, k - 1);
    }
  }

  /** Two-slot events occupy neighbouring entries, and nothing else does. */
  ghost predicate LogOk(log: seq<Entry>) {
    forall k :: 0 <= k < |log| ==> EntryOk(log, k)
  }

  ghost predicate EntryOk(log: seq<Entry>, k: nat)
    requires k < |log|
  {
    && EventOk(log[k].event)
    && (log[k].Whole? && log[k].event.UserEvent? ==> log[k].event.payload == [])
    && (log[k].Head? ==> log[k].event.UserEvent? && log[k].event.payload != []
                         && k + 1 < |log| && log[k + 1] == Tail(log[k].event))
    && (log[k].Tail? ==> log[k].event.UserEvent? && k > 0 && log[k - 1] == Head(log[k].event))
  }

  /** What a ring of `|slots|` slots holds after the writes of `log`. */
  ghost predicate Holds(slots: seq<Slot>, log: seq<Entry>, first: u32)
    requires first > 0 && |slots| > 0
  {
    forall i :: 0 <= i < |slots| ==> SlotHolds(slots, log, first, i)
  }

  ghost predicate SlotHolds(slots: seq<Slot>, log: seq<Entry>, first: u32, i: nat)
    requires first > 0 && i < |slots|
  {
    if i < |log| then
      var k := Latest(|log|, |slots|, i);
      Encodable(log[k]) && slots[i] == Encode(log[k], SequenceAt(first, k))
    else U32(slots[i], 0) == 0
  }

  /** The oldest write still in the ring. */
  function Oldest(log: seq<Entry>, capacity: nat): (lo: nat)
    ensures lo <= |log|
  {
    if |log| > capacity then |log| - capacity else 0
  }

  lemma HeldEntry(slots: seq<Slot>, log: seq<Entry>, first: u32, k: nat)
    requires first > 0 && |slots| > 0 && Holds(slots, log, first)
    requires Oldest(log, |slots|) <= k < |log|
    ensures k % |slots| < |slots| && Encodable(log[k])
    ensures slots[k % |slots|] == Encode(log[k], SequenceAt(first, k))
  {
    LatestInverse(|log|, |slots|, k);
    assert SlotHolds(slots, log, first, k % |slots|);
  }

  // ----- the decoder, as functions ---------------------------------------------------------

  datatype Found = Found(commit: u32, index: nat, raw: Slot)

  /** _argument_slot_of: the slot that holds this record's payload, found by position. */
  function ArgumentSlotOf(slots: seq<Slot>, index: nat, commit: u32, raw: Slot): Option<nat>
    requires |slots| > 0
  {
    if U16(raw, 12) != EVENT_USER then None
    else if U16(raw, 30) == 0 then None
    else
      var following := (index + 1) % |slots|;
      if U32(slots[following], 0) == commit + 1 && U16(slots[following], 4) == EVENT_USER_ARGUMENTS
      then Some(following) else None
  }

  datatype Report =
    | KernelReport(sequence: u32, ticks: nat, event: u16, flags: u16, a0: u32, a1: u32, a2: u32, a3: u32)
    | UserReport(sequence: u32, ticks: nat, process: u32, thread: u16, activity: u32, message: u32, flags: u16,
                 payload: Option<seq<byte>>)

  function Ticks(high: u32, low: u32): nat {
    high * WORD + low
  }

  /** decode_user. */
  function DecodeUser(slots: seq<Slot>, index: nat, raw: Slot): Report
    requires |slots| > 0
  {
    var length := U16(raw, 30);
    var payload :=
      if length == 0 then Some([])
      else match ArgumentSlotOf(slots, index, U32(raw, 0), raw)
        case None => None
        case Some(following) => Some(Cut(slots[following], 8, length));
    UserReport(U32(raw, 0), Ticks(U32(raw, 4), U32(raw, 8)), U32(raw, 16), U16(raw, 28), U32(raw, 24), U32(raw, 20),
               U16(raw, 14), payload)
  }

  /** A Python slice: it stops at the end of what it slices. */
  function Cut(s: seq<byte>, at: nat, length: nat): (r: seq<byte>)
    requires at <= |s|
    ensures |r| <= |s| - at && r == s[at..at + |r|]
    ensures |r| == length || (|r| < length && |r| == |s| - at)
  {
    if at + length <= |s| then s[at..at + length] else s[at..]
  }

  /** decode_kernel. */
  function DecodeKernel(raw: Slot): Report {
    KernelReport(U32(raw, 0), Ticks(U32(raw, 4), U32(raw, 8)), U16(raw, 12), U16(raw, 14),
                 U32(raw, 16), U32(raw, 20), U32(raw, 24), U32(raw, 28))
  }

  function DecodeOne(slots: seq<Slot>, found: Found): Report
    requires |slots| > 0
  {
    if U16(found.raw, 12) == EVENT_USER then DecodeUser(slots, found.index, found.raw) else DecodeKernel(found.raw)
  }

  /** The committed slots among the first `n`, in slot order. */
  function Committed(slots: seq<Slot>, n: nat): seq<Found>
    requires n <= |slots|
  {
    if n == 0 then []
    else if U32(slots[n - 1], 0) == 0 then Committed(slots, n - 1)
    else Committed(slots, n - 1) + [Found(U32(slots[n - 1], 0), n - 1, slots[n - 1])]
  }

  /** The slot that slot `i` claims as its payload. */
  function ClaimAt(slots: seq<Slot>, i: nat): Option<nat>
    requires i < |slots|
  {
    if U32(slots[i], 0) == 0 then None else ArgumentSlotOf(slots, i, U32(slots[i], 0), slots[i])
  }

  /** The slots that one of the first `n` claims as its payload. */
  function Claimed(slots: seq<Slot>, n: nat): set<nat>
    requires n <= |slots|
  {
    if n == 0 then {}
    else Claimed(slots, n - 1) + match ClaimAt(slots, n - 1) case None => {} case Some(following) => {following}
  }

  function Unclaimed(found: seq<Found>, claimed: set<nat>): (r: seq<Found>)
    ensures forall f :: f in r <==> f in found && f.index !in claimed
  {
    if found == [] then []
    else if found[0].index in claimed then Unclaimed(found[1..], claimed)
    else [found[0]] + Unclaimed(found[1..], claimed)
  }

  function InsertFound(f: Found, sorted: seq<Found>): (r: seq<Found>)
    ensures forall x :: x in r <==> x == f || x in sorted
    ensures |r| == |sorted| + 1
  {
    if sorted == [] then [f]
    else if f.commit < sorted[0].commit then [f] + sorted
    else [sorted[0]] + InsertFound(f, sorted[1..])
  }

  /** found.sort by commit. */
  function SortFound(found: seq<Found>): (r: seq<Found>)
    ensures forall x :: x in r <==> x in found
    ensures |r| == |found|
  {
    if found == [] then [] else InsertFound(found[|found| - 1], SortFound(found[..|found| - 1]))
  }

  /** records: every committed slot in sequence order, payload slots left out. */
  function Records(slots: seq<Slot>): seq<Found> {
    SortFound(Unclaimed(Committed(slots, |slots|), Claimed(slots, |slots|)))
  }

  function DecodeAll(slots: seq<Slot>, found: seq<Found>): (reports: seq<Report>)
    requires |slots| > 0
    ensures |reports| == |found|
    ensures forall i :: 0 <= i < |found| ==> reports[i] == DecodeOne(slots, found[i])
  {
    seq(|found|, i requires 0 <= i < |found| => DecodeOne(slots, found[i]))
  }

  // ----- decoding inverts writing ----------------------------------------------------------

  /** An event the decoder can tell from a payload slot and, if the kernel's, from a user's. */
  predicate Readable(event: Event) {
    && event.high / 0x1_0000 != EVENT_USER_ARGUMENTS
    && (event.KernelEvent? ==> event.code != EVENT_USER)
  }

  /** A dump taken after complete events, before the sequence number wraps. */
  ghost predicate Snapshot(slots: seq<Slot>, log: seq<Entry>, first: u32) {
    && first > 0 && |slots| > 0 && first + |log| <= WORD
    && Holds(slots, log, first) && LogOk(log)
    && forall k :: 0 <= k < |log| ==> Readable(log[k].event)
  }

  /** The first eight bytes of a slot say its number, and whether it is a payload slot. */
  lemma EntryKind(entry: Entry, sequence: u32)
    requires Encodable(entry) && Readable(entry.event)
    ensures U32(Encode(entry, sequence), 0) == sequence
    ensures U16(Encode(entry, sequence), 4) == EVENT_USER_ARGUMENTS <==> entry.Tail?
  {
    var e := entry.event;
    if entry.Tail? {
      ArgumentFields(e, sequence);
    } else {
      HighHalf(Encode(entry, sequence));
      if e.UserEvent? {
        UserFields(entry, sequence);
      } else {
        KernelFields(e, sequence);
      }
    }
  }

  lemma EntryFields(slots: seq<Slot>, log: seq<Entry>, first: u32, k: nat)
    requires Snapshot(slots, log, first) && Oldest(log, |slots|) <= k < |log|
    ensures k % |slots| < |slots| && Encodable(log[k]) && EntryOk(log, k)
    ensures slots[k % |slots|] == Encode(log[k], first + k)
    ensures U32(slots[k % |slots|], 0) == first + k
    ensures U16(slots[k % |slots|], 4) == EVENT_USER_ARGUMENTS <==> log[k].Tail?
  {
    HeldEntry(slots, log, first, k);
    PlainSequence(first, k);
    SlotKind(slots[k % |slots|], log[k], first + k);
  }

  lemma SlotKind(slot: Slot, entry: Entry, sequence: u32)
    requires Encodable(entry) && Readable(entry.event) && slot == Encode(entry, sequence)
    ensures U32(slot, 0) == sequence && (U16(slot, 4) == EVENT_USER_ARGUMENTS <==> entry.Tail?)
  {
    EntryKind(entry, sequence);
  }

  /** After the newest write comes an empty slot or the oldest one, never the next number. */
  lemma NothingFollows(slots: seq<Slot>, log: seq<Entry>, first: u32)
    requires Snapshot(slots, log, first)
    ensures |log| % |slots| < |slots|
    ensures U32(slots[|log| % |slots|], 0) != first + |log|
  {
    var n, d := |log|, |slots|;
    if n < d {
      SmallRemainder(n, d);
      assert SlotHolds(slots, log, first, n);
    } else {
      WrapAround(n, d);
      EntryFields(slots, log, first, n - d);
    }
  }

  /** Position finds the payload of exactly the events that have one. */
  lemma ClaimOf(slots: seq<Slot>, log: seq<Entry>, first: u32, k: nat)
    requires Snapshot(slots, log, first) && Oldest(log, |slots|) <= k < |log|
    ensures k % |slots| < |slots|
    ensures ClaimAt(slots, k % |slots|) == if log[k].Head? then Some((k + 1) % |slots|) else None
  {
    EntryFields(slots, log, first, k);
    NextRemainder(k, |slots|);
    NextKind(slots, log, first, k);
    FirstSlotLength(log[k], first + k);
    ClaimByKind(slots, log, first, k, k % |slots|, (k + 1) % |slots|);
  }

  /** The slot after a write's holds the next number and no type exactly when a payload comes next. */
  lemma NextKind(slots: seq<Slot>, log: seq<Entry>, first: u32, k: nat)
    requires Snapshot(slots, log, first) && Oldest(log, |slots|) <= k < |log|
    ensures (k + 1) % |slots| < |slots|
    ensures var next := slots[(k + 1) % |slots|];
            (U32(next, 0) == first + k + 1 && U16(next, 4) == EVENT_USER_ARGUMENTS <==>
             k + 1 < |log| && log[k + 1].Tail?)
  {
    if k + 1 < |log| {
      EntryFields(slots, log, first, k + 1);
    } else {
      NothingFollows(slots, log, first);
    }
  }

  lemma ClaimByKind(slots: seq<Slot>, log: seq<Entry>, first: u32, k: nat, i: nat, j: nat)
    requires i < |slots| && j < |slots| && j == (i + 1) % |slots| && k < |log| && first > 0 && first + k < WORD
    requires Encodable(log[k]) && EntryOk(log, k) && slots[i] == Encode(log[k], first + k)
               && U32(slots[i], 0) == first + k
    requires k + 1 < |log| ==> EntryOk(log, k + 1)
    requires U16(slots[i], 4) == EVENT_USER_ARGUMENTS <==> log[k].Tail?
    requires U32(slots[j], 0) == first + k + 1 && U16(slots[j], 4) == EVENT_USER_ARGUMENTS <==>
             k + 1 < |log| && log[k + 1].Tail?
    requires !log[k].Tail? ==>
               ((U16(slots[i], 12) == EVENT_USER && U16(slots[i], 30) != 0)
                <==> log[k].event.UserEvent? && log[k].event.payload != [])
    ensures ClaimAt(slots, i) == if log[k].Head? then Some(j) else None
  {
  }

  /** Only the first slot of a two-slot event looks like a user event with a payload. */
  lemma FirstSlotLength(entry: Entry, sequence: u32)
    requires Encodable(entry) && Readable(entry.event)
    ensures !entry.Tail? ==>
              ((U16(Encode(entry, sequence), 12) == EVENT_USER && U16(Encode(entry, sequence), 30) != 0)
               <==> entry.event.UserEvent? && entry.event.payload != [])
  {
    if !entry.Tail? {
      if entry.event.UserEvent? {
        UserFields(entry, sequence);
      } else {
        KernelFields(entry.event, sequence);
      }
    }
  }

  lemma {:induction false} ClaimedMeans(slots: seq<Slot>, n: nat, j: nat)
    requires n <= |slots|
    ensures j in Claimed(slots, n) <==> exists i :: 0 <= i < n && ClaimAt(slots, i) == Some(j)
  {
    if n > 0 {
      ClaimedMeans(slots, n - 1, j);
    }
  }

  lemma {:induction false} CommittedMeans(slots: seq<Slot>, n: nat, f: Found)
    requires n <= |slots|
    ensures f in Committed(slots, n) <==>
              f.index < n && f.commit != 0 && f == Found(U32(slots[f.index], 0), f.index, slots[f.index])
  {
    if n > 0 {
      CommittedMeans(slots, n - 1, f);
    }
  }

  /** Every committed slot is the place of one surviving write. */
  lemma WriteAtSlot(slots: seq<Slot>, log: seq<Entry>, first: u32, i: nat) returns (k: nat)
    requires Snapshot(slots, log, first) && i < |slots| && U32(slots[i], 0) != 0
    ensures Oldest(log, |slots|) <= k < |log| && k % |slots| == i
  {
    assert SlotHolds(slots, log, first, i);
    k := Latest(|log|, |slots|, i);
    LatestSlot(|log|, |slots|, i);
  }

  /** The entry is the payload of a surviving event. */
  predicate Paired(log: seq<Entry>, capacity: nat, k: nat)
    requires k < |log|
  {
    log[k].Tail? && k > Oldest(log, capacity)
  }

  lemma PairedIsClaimed(slots: seq<Slot>, log: seq<Entry>, first: u32, k: nat)
    requires Snapshot(slots, log, first) && k < |log| && Paired(log, |slots|, k)
    ensures k % |slots| in Claimed(slots, |slots|)
  {
    var owner := k - 1;
    assert EntryOk(log, k);
    assert log[owner].Head?;
    ClaimOf(slots, log, first, owner);
    assert owner + 1 == k;
    var i := owner % |slots|;
    assert ClaimAt(slots, i) == Some(k % |slots|);
    ClaimedMeans(slots, |slots|, k % |slots|);
  }

  /** A slot that is claimed is the second one of a surviving event. */
  lemma ClaimedByOwner(slots: seq<Slot>, log: seq<Entry>, first: u32, j: nat) returns (owner: nat)
    requires Snapshot(slots, log, first) && j in Claimed(slots, |slots|)
    ensures Oldest(log, |slots|) <= owner && owner + 1 < |log|
    ensures log[owner + 1].Tail? && (owner + 1) % |slots| == j
  {
    ClaimedMeans(slots, |slots|, j);
    var i :| 0 <= i < |slots| && ClaimAt(slots, i) == Some(j);
    owner := WriteAtSlot(slots, log, first, i);
    ClaimOf(slots, log, first, owner);
    assert EntryOk(log, owner);
  }

  /** Of the writes still in the ring, each has its own slot. */
  lemma SameSlot(n: nat, d: nat, a: nat, b: nat)
    requires d > 0 && a < n <= a + d && b < n <= b + d && a % d == b % d
    ensures a == b
  {
    LatestInverse(n, d, a);
    LatestInverse(n, d, b);
  }

  lemma ClaimedIsPaired(slots: seq<Slot>, log: seq<Entry>, first: u32, k: nat)
    requires Snapshot(slots, log, first) && Oldest(log, |slots|) <= k < |log|
    requires k % |slots| in Claimed(slots, |slots|)
    ensures Paired(log, |slots|, k)
  {
    var owner := ClaimedByOwner(slots, log, first, k % |slots|);
    PairedBehind(log, |slots|, owner, k);
  }

  lemma PairedBehind(log: seq<Entry>, d: nat, owner: nat, k: nat)
    requires d > 0 && Oldest(log, d) <= owner && owner + 1 < |log| && Oldest(log, d) <= k < |log|
    requires log[owner + 1].Tail? && (owner + 1) % d == k % d
    ensures Paired(log, d, k)
  {
    SameSlot(|log|, d, owner + 1, k);
  }

  function FoundAt(log: seq<Entry>, first: u32, capacity: nat, k: nat): Found
    requires k < |log| && capacity > 0 && first + k < WORD
    requires Encodable(log[k])
  {
    Found(first + k, k % capacity, Encode(log[k], first + k))
  }

  /** The surviving write that is a record of its own. */
  ghost predicate Standing(log: seq<Entry>, capacity: nat, k: nat) {
    Oldest(log, capacity) <= k < |log| && !Paired(log, capacity, k)
  }

  lemma RecordIsStanding(slots: seq<Slot>, log: seq<Entry>, first: u32, f: Found)
    requires Snapshot(slots, log, first) && f in Records(slots)
    ensures f.commit >= first && Standing(log, |slots|, f.commit - first) && Encodable(log[f.commit - first])
    ensures f.index == (f.commit - first) % |slots| && f == FoundAt(log, first, |slots|, f.commit - first)
  {
    CommittedMeans(slots, |slots|, f);
    var k := WriteAtSlot(slots, log, first, f.index);
    EntryFields(slots, log, first, k);
    if Paired(log, |slots|, k) {
      PairedIsClaimed(slots, log, first, k);
    }
  }

  lemma StandingIsRecord(slots: seq<Slot>, log: seq<Entry>, first: u32, k: nat)
    requires Snapshot(slots, log, first) && Standing(log, |slots|, k)
    ensures Encodable(log[k]) && FoundAt(log, first, |slots|, k) in Records(slots)
  {
    EntryFields(slots, log, first, k);
    CommittedMeans(slots, |slots|, FoundAt(log, first, |slots|, k));
    if k % |slots| in Claimed(slots, |slots|) {
      ClaimedIsPaired(slots, log, first, k);
    }
  }

  // ----- the order -------------------------------------------------------------------------

  ghost predicate Ordered(found: seq<Found>) {
    forall i, j :: 0 <= i < j < |found| ==> found[i].commit < found[j].commit
  }

  lemma {:induction false} InsertOrdered(f: Found, sorted: seq<Found>)
    requires Ordered(sorted) && forall x :: x in sorted ==> x.commit != f.commit
    ensures Ordered(InsertFound(f, sorted))
  {
    if sorted != [] && f.commit >= sorted[0].commit {
      InsertOrdered(f, sorted[1..]);
      var rest := InsertFound(f, sorted[1..]);
      assert sorted[0] in sorted;
      forall j | 0 <= j < |rest| ensures sorted[0].commit < rest[j].commit {
        assert rest[j] in rest;
      }
    }
  }

  ghost predicate DistinctNumbers(found: seq<Found>) {
    forall i, j :: 0 <= i < j < |found| ==> found[i].commit != found[j].commit
  }

  /** Sorting found slots with different numbers puts them in order. */
  lemma {:induction false} SortOrders(found: seq<Found>)
    requires DistinctNumbers(found)
    ensures Ordered(SortFound(found))
  {
    if found != [] {
      var last := |found| - 1;
      SortOrders(found[..last]);
      forall x | x in SortFound(found[..last]) ensures x.commit != found[last].commit {
        assert x in found[..last];
      }
      InsertOrdered(found[last], SortFound(found[..last]));
    }
  }

  /** An ordered list is determined by what is in it. */
  lemma {:induction false} OrderedUnique(a: seq<Found>, b: seq<Found>)
    requires Ordered(a) && Ordered(b)
    requires forall x :: x in a <==> x in b
    ensures a == b
  {
    if a != [] {
      assert a[0] in b && b != [];
      assert b[0] in a;
      assert a[0] == b[0];
      forall x ensures x in a[1..] <==> x in b[1..] {
        if x in a[1..] {
          assert x in b && x != a[0];
        }
        if x in b[1..] {
          assert x in a && x != b[0];
        }
      }
      OrderedUnique(a[1..], b[1..]);
    } else {
      NothingIn(b);
    }
  }

  // ----- the theorem -----------------------------------------------------------------------

  ghost predicate AllEncodable(log: seq<Entry>, first: u32) {
    first + |log| <= WORD && forall k :: 0 <= k < |log| ==> Encodable(log[k])
  }

  /** Of the first `n` writes, those that are records of their own, in order. */
  function StandingWrites(log: seq<Entry>, capacity: nat, n: nat): (writes: seq<nat>)
    requires n <= |log|
    ensures forall i :: 0 <= i < |writes| ==> writes[i] < n
  {
    if n == 0 then []
    else StandingWrites(log, capacity, n - 1)
         + if Oldest(log, capacity) <= n - 1 && !Paired(log, capacity, n - 1) then [n - 1] else []
  }

  lemma {:induction false} StandingMeans(log: seq<Entry>, capacity: nat, n: nat)
    requires n <= |log|
    ensures forall k: nat :: k in StandingWrites(log, capacity, n) <==> k < n && Standing(log, capacity, k)
    ensures Increasing(StandingWrites(log, capacity, n))
  {
    if n > 0 {
      StandingMeans(log, capacity, n - 1);
    }
  }

  ghost predicate Increasing(writes: seq<nat>) {
    forall i, j :: 0 <= i < j < |writes| ==> writes[i] < writes[j]
  }

  /** The records of the ring, in the order they were made. */
  function InOrder(log: seq<Entry>, first: u32, capacity: nat): (found: seq<Found>)
    requires capacity > 0 && AllEncodable(log, first)
    ensures |found| == |StandingWrites(log, capacity, |log|)|
    ensures forall i :: 0 <= i < |found| ==>
              found[i] == FoundAt(log, first, capacity, StandingWrites(log, capacity, |log|)[i])
  {
    var writes := StandingWrites(log, capacity, |log|);
    seq(|writes|, i requires 0 <= i < |writes| => FoundAt(log, first, capacity, writes[i]))
  }

  lemma InOrderStands(log: seq<Entry>, first: u32, capacity: nat, f: Found)
    requires capacity > 0 && AllEncodable(log, first) && f in InOrder(log, first, capacity)
    ensures first <= f.commit < first + |log| && Standing(log, capacity, f.commit - first)
    ensures f == FoundAt(log, first, capacity, f.commit - first)
  {
    var i :| 0 <= i < |InOrder(log, first, capacity)| && InOrder(log, first, capacity)[i] == f;
    StandsAt(log, capacity, i);
    var k := StandingWrites(log, capacity, |log|)[i];
    assert f == FoundAt(log, first, capacity, k);
    StandsAs(log, first, capacity, f, k);
  }

  lemma StandsAs(log: seq<Entry>, first: u32, capacity: nat, f: Found, k: nat)
    requires capacity > 0 && AllEncodable(log, first) && Standing(log, capacity, k)
    requires f == FoundAt(log, first, capacity, k)
    ensures first <= f.commit < first + |log| && f.commit - first == k
  {
  }

  lemma StandsAt(log: seq<Entry>, capacity: nat, i: nat)
    requires i < |StandingWrites(log, capacity, |log|)|
    ensures Standing(log, capacity, StandingWrites(log, capacity, |log|)[i])
  {
    var writes := StandingWrites(log, capacity, |log|);
    StandingMeans(log, capacity, |log|);
    assert writes[i] in writes;
  }

  lemma StandingInOrder(log: seq<Entry>, first: u32, capacity: nat, k: nat)
    requires capacity > 0 && AllEncodable(log, first) && Standing(log, capacity, k)
    ensures FoundAt(log, first, capacity, k) in InOrder(log, first, capacity)
  {
    var writes := StandingWrites(log, capacity, |log|);
    StandingMeans(log, capacity, |log|);
    var i :| 0 <= i < |writes| && writes[i] == k;
    assert InOrder(log, first, capacity)[i] == FoundAt(log, first, capacity, k);
  }

  lemma InOrderOrdered(log: seq<Entry>, first: u32, capacity: nat)
    requires capacity > 0 && AllEncodable(log, first)
    ensures Ordered(InOrder(log, first, capacity))
  {
    StandingMeans(log, capacity, |log|);
  }

  ghost predicate InSlotOrder(found: seq<Found>) {
    forall i, j :: 0 <= i < j < |found| ==> found[i].index < found[j].index
  }

  lemma {:induction false} UnclaimedIndexes(found: seq<Found>, claimed: set<nat>)
    requires InSlotOrder(found)
    ensures InSlotOrder(Unclaimed(found, claimed))
  {
    if found != [] {
      UnclaimedIndexes(found[1..], claimed);
      var rest := Unclaimed(found[1..], claimed);
      forall x | x in found[1..] ensures found[0].index < x.index {
        var j :| 0 <= j < |found[1..]| && found[1..][j] == x;
        assert found[j + 1] == x;
      }
      forall j | 0 <= j < |rest| ensures found[0].index < rest[j].index {
        assert rest[j] in rest;
      }
    }
  }

  lemma {:induction false} CommittedIndexes(slots: seq<Slot>, n: nat)
    requires n <= |slots|
    ensures InSlotOrder(Committed(slots, n))
    ensures forall f :: f in Committed(slots, n) ==> f.index < n
  {
    if n > 0 {
      CommittedIndexes(slots, n - 1);
      var before := Committed(slots, n - 1);
      assert forall i :: 0 <= i < |before| ==> before[i] in before;
    }
  }

  lemma UnsortedDistinct(slots: seq<Slot>, log: seq<Entry>, first: u32)
    requires Snapshot(slots, log, first)
    ensures DistinctNumbers(Unclaimed(Committed(slots, |slots|), Claimed(slots, |slots|)))
  {
    var r := Unclaimed(Committed(slots, |slots|), Claimed(slots, |slots|));
    CommittedIndexes(slots, |slots|);
    UnclaimedIndexes(Committed(slots, |slots|), Claimed(slots, |slots|));
    forall i, j | 0 <= i < j < |r| ensures r[i].commit != r[j].commit {
      UnclaimedIsRecord(slots, r[i]);
      UnclaimedIsRecord(slots, r[j]);
      NumbersTellSlots(slots, log, first, r[i], r[j]);
    }
  }

  lemma UnclaimedIsRecord(slots: seq<Slot>, f: Found)
    ensures f in Records(slots) <==> f in Unclaimed(Committed(slots, |slots|), Claimed(slots, |slots|))
  {
  }

  /** Records with the same number are in the same slot. */
  lemma NumbersTellSlots(slots: seq<Slot>, log: seq<Entry>, first: u32, f: Found, g: Found)
    requires Snapshot(slots, log, first) && f in Records(slots) && g in Records(slots)
    ensures f.commit == g.commit ==> f.index == g.index
  {
    RecordSlot(slots, log, first, f);
    RecordSlot(slots, log, first, g);
  }

  function SlotOf(k: nat, d: nat): nat
    requires d > 0
  {
    k % d
  }

  lemma RecordSlot(slots: seq<Slot>, log: seq<Entry>, first: u32, f: Found)
    requires Snapshot(slots, log, first) && f in Records(slots)
    ensures f.commit >= first && f.index == SlotOf(f.commit - first, |slots|)
  {
    RecordIsStanding(slots, log, first, f);
  }

  lemma RecordsMeans(slots: seq<Slot>, log: seq<Entry>, first: u32, f: Found)
    requires Snapshot(slots, log, first) && AllEncodable(log, first)
    ensures f in Records(slots) <==> f in InOrder(log, first, |slots|)
  {
    if f in Records(slots) {
      RecordIsInOrder(slots, log, first, f);
    }
    if f in InOrder(log, first, |slots|) {
      InOrderIsRecord(slots, log, first, f);
    }
  }

  lemma RecordIsInOrder(slots: seq<Slot>, log: seq<Entry>, first: u32, f: Found)
    requires Snapshot(slots, log, first) && AllEncodable(log, first) && f in Records(slots)
    ensures f in InOrder(log, first, |slots|)
  {
    RecordIsStanding(slots, log, first, f);
    StandingInOrder(log, first, |slots|, f.commit - first);
  }

  lemma InOrderIsRecord(slots: seq<Slot>, log: seq<Entry>, first: u32, f: Found)
    requires Snapshot(slots, log, first) && AllEncodable(log, first) && f in InOrder(log, first, |slots|)
    ensures f in Records(slots)
  {
    InOrderStands(log, first, |slots|, f);
    StandingIsRecord(slots, log, first, f.commit - first);
  }

  lemma LogEncodable(slots: seq<Slot>, log: seq<Entry>, first: u32)
    requires Snapshot(slots, log, first)
    ensures AllEncodable(log, first)
  {
    forall k | 0 <= k < |log| ensures Encodable(log[k]) {
      assert EntryOk(log, k);
    }
  }

  lemma RecordsOrdered(slots: seq<Slot>, log: seq<Entry>, first: u32)
    requires Snapshot(slots, log, first)
    ensures Ordered(Records(slots))
  {
    UnsortedDistinct(slots, log, first);
    SortOrders(Unclaimed(Committed(slots, |slots|), Claimed(slots, |slots|)));
  }

  /** The decoder lists the standing records of the ring in the order they were written. */
  lemma RecordsInOrder(slots: seq<Slot>, log: seq<Entry>, first: u32)
    requires Snapshot(slots, log, first) && AllEncodable(log, first)
    ensures Records(slots) == InOrder(log, first, |slots|)
  {
    RecordsOrdered(slots, log, first);
    InOrderOrdered(log, first, |slots|);
    forall f ensures f in Records(slots) <==> f in InOrder(log, first, |slots|) {
      RecordsMeans(slots, log, first, f);
    }
    OrderedUnique(Records(slots), InOrder(log, first, |slots|));
  }

  /** What a decoder should say of an event written with this number. */
  function Reported(event: Event, sequence: u32): Report {
    match event
    case KernelEvent(high, low, code, flags, a0, a1, a2, a3) =>
      KernelReport(sequence, Ticks(high, low), code, flags, a0, a1, a2, a3)
    case UserEvent(high, low, flags, process, message, activity, thread, payload) =>
      UserReport(sequence, Ticks(high, low), process, thread, activity, message, flags, Some(payload))
  }

  /** Of the first `n` writes, those that are the first slot of an event and still in the ring. */
  function EventWrites(log: seq<Entry>, capacity: nat, n: nat): (writes: seq<nat>)
    requires n <= |log|
    ensures forall i :: 0 <= i < |writes| ==> writes[i] < n
  {
    if n == 0 then []
    else EventWrites(log, capacity, n - 1)
         + if Oldest(log, capacity) <= n - 1 && !log[n - 1].Tail? then [n - 1] else []
  }

  /** The events whose first slot is still in the ring, reported in the order they were emitted. */
  function Surviving(log: seq<Entry>, first: u32, capacity: nat): (reports: seq<Report>)
    requires first + |log| <= WORD
    ensures |reports| == |EventWrites(log, capacity, |log|)|
    ensures forall i :: 0 <= i < |reports| ==>
              var k := EventWrites(log, capacity, |log|)[i]; reports[i] == Reported(log[k].event, first + k)
  {
    var writes := EventWrites(log, capacity, |log|);
    seq(|writes|, i requires 0 <= i < |writes| => Reported(log[writes[i]].event, first + writes[i]))
  }

  lemma KernelReadsBack(e: Event, sequence: u32)
    requires e.KernelEvent? && Readable(e)
    ensures U16(Encode(Whole(e), sequence), 12) != EVENT_USER
    ensures DecodeKernel(Encode(Whole(e), sequence)) == Reported(e, sequence)
  {
    KernelFields(e, sequence);
  }

  lemma UserReadsBack(slots: seq<Slot>, log: seq<Entry>, first: u32, k: nat)
    requires Snapshot(slots, log, first) && Oldest(log, |slots|) <= k < |log|
    requires !log[k].Tail? && log[k].event.UserEvent? && Encodable(log[k])
    ensures DecodeUser(slots, k % |slots|, Encode(log[k], first + k)) == Reported(log[k].event, first + k)
  {
    var e := log[k].event;
    EntryFields(slots, log, first, k);
    UserFields(log[k], first + k);
    if e.payload != [] {
      PayloadReadsBack(slots, log, first, k);
    }
  }

  /** The slot found by position starts with the event's payload. */
  lemma PayloadReadsBack(slots: seq<Slot>, log: seq<Entry>, first: u32, k: nat)
    requires Snapshot(slots, log, first) && Oldest(log, |slots|) <= k < |log| && log[k].event.UserEvent?
    requires !log[k].Tail? && log[k].event.payload != []
    ensures k % |slots| < |slots|
    ensures ClaimAt(slots, k % |slots|).Some? && ClaimAt(slots, k % |slots|).value < |slots|
    ensures Cut(slots[ClaimAt(slots, k % |slots|).value], 8, |log[k].event.payload|) == log[k].event.payload
  {
    ClaimOf(slots, log, first, k);
    assert EntryOk(log, k);
    EntryFields(slots, log, first, k + 1);
    ArgumentFields(log[k].event, first + k + 1);
  }

  /** One record: the decoder reads back the event, payload and all. */
  lemma DecodeWritten(slots: seq<Slot>, log: seq<Entry>, first: u32, k: nat)
    requires Snapshot(slots, log, first) && Oldest(log, |slots|) <= k < |log| && !log[k].Tail?
    ensures Encodable(log[k])
    ensures DecodeOne(slots, FoundAt(log, first, |slots|, k)) == Reported(log[k].event, first + k)
  {
    EntryFields(slots, log, first, k);
    if log[k].event.KernelEvent? {
      WholeKernel(log[k], first + k);
    } else {
      UserCode(log[k], first + k);
      UserReadsBack(slots, log, first, k);
    }
  }

  lemma WholeKernel(entry: Entry, sequence: u32)
    requires entry.event.KernelEvent? && !entry.Tail? && Encodable(entry) && Readable(entry.event)
    ensures U16(Encode(entry, sequence), 12) != EVENT_USER
    ensures DecodeKernel(Encode(entry, sequence)) == Reported(entry.event, sequence)
  {
    KernelReadsBack(entry.event, sequence);
    assert Encode(entry, sequence) == Encode(Whole(entry.event), sequence);
  }

  lemma UserCode(entry: Entry, sequence: u32)
    requires !entry.Tail? && entry.event.UserEvent? && Encodable(entry)
    ensures U16(Encode(entry, sequence), 12) == EVENT_USER
  {
    UserFields(entry, sequence);
  }

  /** The ring has wrapped between the two slots of its oldest event. */
  ghost predicate Orphaned(log: seq<Entry>, capacity: nat) {
    Oldest(log, capacity) < |log| && log[Oldest(log, capacity)].Tail?
  }

  /** Unless the oldest is orphaned, the records are the events, one for one. */
  lemma {:induction false} StandingAreEvents(log: seq<Entry>, capacity: nat, n: nat)
    requires n <= |log| && !Orphaned(log, capacity)
    ensures StandingWrites(log, capacity, n) == EventWrites(log, capacity, n)
  {
    if n > 0 {
      StandingAreEvents(log, capacity, n - 1);
    }
  }

  /** An orphaned payload slot is one more record than there are events. */
  lemma {:induction false} OrphanCounts(log: seq<Entry>, capacity: nat, n: nat)
    requires n <= |log| && Orphaned(log, capacity)
    ensures |StandingWrites(log, capacity, n)|
            == |EventWrites(log, capacity, n)| + if Oldest(log, capacity) < n then 1 else 0
  {
    if n > 0 {
      OrphanCounts(log, capacity, n - 1);
    }
  }

  lemma DecodeInOrder(slots: seq<Slot>, log: seq<Entry>, first: u32)
    requires Snapshot(slots, log, first) && AllEncodable(log, first) && !Orphaned(log, |slots|)
    ensures DecodeAll(slots, InOrder(log, first, |slots|)) == Surviving(log, first, |slots|)
  {
    var writes := EventWrites(log, |slots|, |log|);
    StandingAreEvents(log, |slots|, |log|);
    EventMeans(log, |slots|, |log|);
    var decoded, events := DecodeAll(slots, InOrder(log, first, |slots|)), Surviving(log, first, |slots|);
    forall i | 0 <= i < |events| ensures decoded[i] == events[i] {
      DecodeWritten(slots, log, first, writes[i]);
    }
  }

  lemma {:induction false} EventMeans(log: seq<Entry>, capacity: nat, n: nat)
    requires n <= |log|
    ensures forall i :: 0 <= i < |EventWrites(log, capacity, n)| ==>
              var k := EventWrites(log, capacity, n)[i]; Oldest(log, capacity) <= k < |log| && !log[k].Tail?
  {
    if n > 0 {
      EventMeans(log, capacity, n - 1);
    }
  }

  /**
   Decoding a dump gives exactly the surviving events, in emission order and each with its own
   payload, if and only if the ring has not wrapped between the two slots of its oldest event.
   */
  lemma DecodeInvertsWrite(slots: seq<Slot>, log: seq<Entry>, first: u32)
    requires Snapshot(slots, log, first)
    ensures DecodeAll(slots, Records(slots)) == Surviving(log, first, |slots|)
            <==> !Orphaned(log, |slots|)
  {
    LogEncodable(slots, log, first);
    RecordsInOrder(slots, log, first);
    if Orphaned(log, |slots|) {
      OrphanCounts(log, |slots|, |log|);
    } else {
      DecodeInOrder(slots, log, first);
    }
  }

  /** What a report should say of an event, field by field. */
  ghost predicate Says(report: Report, event: Event, sequence: nat) {
    && report.sequence == sequence && report.flags == event.flags
    && report.ticks / 0x1_0000_0000 == event.high && report.ticks % 0x1_0000_0000 == event.low
    && match event
       case KernelEvent(_, _, code, _, a0, a1, a2, a3) =>
         report.KernelReport? && report.event == code
         && [report.a0, report.a1, report.a2, report.a3] == [a0, a1, a2, a3]
       case UserEvent(_, _, _, process, message, activity, thread, payload) =>
         report.UserReport? && report.payload == Some(payload) && report.thread == thread
         && [report.process, report.message, report.activity] == [process, message, activity]
  }

  ghost predicate Rising(writes: seq<nat>) {
    forall i, j :: 0 <= i < j < |writes| ==> writes[i] < writes[j]
  }

  /** These are the writes that begin an event and are among the last `capacity`, in order. */
  ghost predicate Beginnings(writes: seq<nat>, log: seq<Entry>, capacity: nat) {
    && Rising(writes)
    && (forall k: nat :: k in writes <==> k < |log| && |log| <= k + capacity && !log[k].Tail?)
  }

  /** One report for each event whose first slot is still there, in order, each saying what it should. */
  ghost predicate Narrates(reports: seq<Report>, log: seq<Entry>, first: nat, capacity: nat) {
    exists writes :: Beginnings(writes, log, capacity) && |writes| == |reports|
      && forall i :: 0 <= i < |writes| ==>
           writes[i] in writes && Says(reports[i], log[writes[i]].event, first + writes[i])
  }

  lemma RisingOneMore(writes: seq<nat>, k: nat)
    requires Rising(writes) && forall i :: 0 <= i < |writes| ==> writes[i] < k
    ensures Rising(writes + [k])
  {
  }

  lemma {:induction false} EventWritesRise(log: seq<Entry>, capacity: nat, n: nat)
    requires n <= |log|
    ensures Rising(EventWrites(log, capacity, n))
  {
    if n > 0 {
      EventWritesRise(log, capacity, n - 1);
      RisingOneMore(EventWrites(log, capacity, n - 1), n - 1);
      assert EventWrites(log, capacity, n - 1) + [] == EventWrites(log, capacity, n - 1);
    }
  }

  lemma {:induction false} EventWritesHold(log: seq<Entry>, capacity: nat, n: nat, k: nat)
    requires n <= |log|
    ensures k in EventWrites(log, capacity, n) <==> k < n && |log| <= k + capacity && !log[k].Tail?
  {
    if n > 0 {
      EventWritesHold(log, capacity, n - 1, k);
      var more := if Oldest(log, capacity) <= n - 1 && !log[n - 1].Tail? then [n - 1] else [];
      assert EventWrites(log, capacity, n) == EventWrites(log, capacity, n - 1) + more;
      assert k in more <==> k == n - 1 && |log| <= k + capacity && !log[k].Tail?;
    }
  }

  lemma EventWritesBegin(log: seq<Entry>, capacity: nat)
    ensures Beginnings(EventWrites(log, capacity, |log|), log, capacity)
  {
    EventWritesRise(log, capacity, |log|);
    forall k: nat
      ensures k in EventWrites(log, capacity, |log|) <==> k < |log| && |log| <= k + capacity && !log[k].Tail?
    {
      EventWritesHold(log, capacity, |log|, k);
    }
  }

  function Members(a: seq<nat>): set<nat> {
    set k | k in a
  }

  lemma {:induction false} RisingSize(a: seq<nat>)
    requires Rising(a)
    ensures |Members(a)| == |a|
  {
    if a == [] {
      assert Members(a) == {};
    } else {
      var front, last := a[..|a| - 1], a[|a| - 1];
      RisingSize(front);
      assert a == front + [last];
      assert last !in Members(front) && Members(a) == Members(front) + {last};
    }
  }

  lemma TwoBeginnings(a: seq<nat>, b: seq<nat>, log: seq<Entry>, capacity: nat)
    requires Beginnings(a, log, capacity) && Beginnings(b, log, capacity)
    ensures |a| == |b|
  {
    RisingSize(a);
    RisingSize(b);
    forall k: nat ensures k in Members(a) <==> k in Members(b) {
      assert k in a <==> k in b;
    }
    assert Members(a) == Members(b);
  }

  lemma ReportSays(event: Event, sequence: u32)
    ensures Says(Reported(event, sequence), event, sequence)
  {
    TicksParts(event.high, event.low);
  }

  lemma TicksParts(high: u32, low: u32)
    ensures Ticks(high, low) / 0x1_0000_0000 == high && Ticks(high, low) % 0x1_0000_0000 == low
  {
    RemainderUnique(Ticks(high, low), 0x1_0000_0000, high, low);
  }

  /**
   So a dump tells every surviving event, its time included, if and only if the ring has not
   wrapped between the two slots of its oldest event.
   */
  lemma DecodeTells(slots: seq<Slot>, log: seq<Entry>, first: u32)
    requires Snapshot(slots, log, first)
    ensures Narrates(DecodeAll(slots, Records(slots)), log, first, |slots|) <==> !Orphaned(log, |slots|)
  {
    if Orphaned(log, |slots|) {
      RecordCount(slots, log, first);
      if Narrates(DecodeAll(slots, Records(slots)), log, first, |slots|) {
        BeginningsCount(DecodeAll(slots, Records(slots)), log, first, |slots|);
        assert false;
      }
    } else {
      DecodeInvertsWrite(slots, log, first);
      SurvivingNarrates(log, first, |slots|);
    }
  }

  /** A telling has as many reports as there are events whose first slot is still there. */
  lemma BeginningsCount(reports: seq<Report>, log: seq<Entry>, first: u32, capacity: nat)
    requires Narrates(reports, log, first, capacity)
    ensures |reports| == |EventWrites(log, capacity, |log|)|
  {
    var writes :| Beginnings(writes, log, capacity) && |writes| == |reports|;
    EventWritesBegin(log, capacity);
    TwoBeginnings(writes, EventWrites(log, capacity, |log|), log, capacity);
  }

  lemma SurvivingNarrates(log: seq<Entry>, first: u32, capacity: nat)
    requires first + |log| <= WORD
    ensures Narrates(Surviving(log, first, capacity), log, first, capacity)
  {
    var reports, writes := Surviving(log, first, capacity), EventWrites(log, capacity, |log|);
    EventWritesBegin(log, capacity);
    forall i | 0 <= i < |writes| ensures Says(reports[i], log[writes[i]].event, first + writes[i]) {
      ReportSays(log[writes[i]].event, first + writes[i]);
    }
    assert Beginnings(writes, log, capacity);
  }

  /** A dump whose oldest event is split has one record too many. */
  lemma RecordCount(slots: seq<Slot>, log: seq<Entry>, first: u32)
    requires Snapshot(slots, log, first) && Orphaned(log, |slots|)
    ensures |Records(slots)| == |EventWrites(log, |slots|, |log|)| + 1
  {
    LogEncodable(slots, log, first);
    RecordsInOrder(slots, log, first);
    OrphanCounts(log, |slots|, |log|);
  }

  /** Whatever a slot holds, its report's number and time are the first twelve bytes. */
  lemma ReportTime(slots: seq<Slot>, found: Found)
    requires |slots| > 0
    ensures var report := DecodeOne(slots, found);
            && report.sequence == BigEndian(found.raw[0..4])
            && report.ticks / 0x1_0000_0000 == BigEndian(found.raw[4..8])
            && report.ticks % 0x1_0000_0000 == BigEndian(found.raw[8..12])
  {
    SlotWords(found.raw);
    TicksParts(U32(found.raw, 4), U32(found.raw, 8));
  }

  // ----- the decoder's loops ---------------------------------------------------------------

  /** The loop of records over the slots, then the filter and the sort. */
  method ReadRecords(slots: seq<Slot>) returns (found: seq<Found>)
    ensures found == Records(slots)
  {
    var committed: seq<Found> := [];
    var arguments: set<nat> := {};
    var index := 0;
    while index < |slots|
      invariant index <= |slots|
      invariant committed == Committed(slots, index) && arguments == Claimed(slots, index)
    {
      var raw := slots[index];
      var commit := U32(raw, 0);
      if commit != 0 {
        committed := committed + [Found(commit, index, raw)];
        var following := ArgumentSlotOf(slots, index, commit, raw);
        if following.Some? {
          arguments := arguments + {following.value};
        }
      }
      index := index + 1;
    }
    return SortFound(Unclaimed(committed, arguments));
  }

  method Decode(slots: seq<Slot>) returns (reports: seq<Report>)
    requires |slots| > 0
    ensures reports == DecodeAll(slots, Records(slots))
    ensures forall i :: 0 <= i < |reports| ==>
              var raw := Records(slots)[i].raw;
              && reports[i].sequence == BigEndian(raw[0..4])
              && reports[i].ticks / 0x1_0000_0000 == BigEndian(raw[4..8])
              && reports[i].ticks % 0x1_0000_0000 == BigEndian(raw[8..12])
  {
    var found := ReadRecords(slots);
    reports := DecodeFound(slots, found);
    forall i | 0 <= i < |reports| {
      ReportTime(slots, found[i]);
    }
  }

  method DecodeFound(slots: seq<Slot>, found: seq<Found>) returns (reports: seq<Report>)
    requires |slots| > 0
    ensures reports == DecodeAll(slots, found)
  {
    reports := [];
    for i := 0 to |found|
      invariant reports == DecodeAll(slots, found[..i])
    {
      reports := reports + [DecodeOne(slots, found[i])];
      DecodeOneMore(slots, found, i);
    }
    assert found[..|found|] == found;
  }

  lemma DecodeOneMore(slots: seq<Slot>, found: seq<Found>, i: nat)
    requires |slots| > 0 && i < |found|
    ensures DecodeAll(slots, found[..i + 1]) == DecodeAll(slots, found[..i]) + [DecodeOne(slots, found[i])]
  {
    var more, less := DecodeAll(slots, found[..i + 1]), DecodeAll(slots, found[..i]);
    forall j | 0 <= j < i ensures more[j] == less[j] {
      assert found[..i + 1][j] == found[..i][j];
    }
    assert found[..i + 1][i] == found[i];
  }

  // ----- the writer ------------------------------------------------------------------------

  const LAST: u32 := WORD - 1

  function Saturating(n: nat): u32 {
    if n < WORD then n else LAST
  }

  function SaturatingIncrement(value: u32): (r: u32)
    ensures forall n: nat :: value == Saturating(n) ==> r == Saturating(n + 1)
  {
    if value != LAST then value + 1 else value
  }

  const EMPTY_SLOT: Slot := seq(RECORD_SIZE, _ => 0)

  /**
   The kernel's side of the ring.  `log` is every slot written since the ring was cleared and
   `first` the number of the first of them.
   */
  class TraceWriter {
    var nextSequence: u32
    var writeIndex: nat
    var wrapCount: u32
    var droppedCount: u32
    const slots: array<Slot>
    ghost var log: seq<Entry>
    ghost const first: u32

    /** The header and the slots are what the writes so far make them. */
    ghost predicate Written()
      reads this, slots
    {
      && first > 0 && slots.Length > 0
      && nextSequence == SequenceAt(first, |log|)
      && writeIndex == |log| % slots.Length
      && wrapCount == Saturating(|log| / slots.Length)
      && droppedCount == Saturating(Oldest(log, slots.Length))
      && Holds(slots[..], log, first)
    }

    ghost predicate Valid()
      reads this, slots
    {
      Written() && LogOk(log)
    }

    constructor (capacity: nat)
      requires capacity > 0
      ensures Valid() && fresh(slots) && slots.Length == capacity && log == [] && first == 1
    {
      nextSequence, writeIndex, wrapCount, droppedCount := 1, 0, 0, 0;
      log, first := [], 1;
      slots := new Slot[capacity](_ => EMPTY_SLOT);
    }

    /** Claims the slot at the write index, counts what it displaces, fills it, and steps on. */
    method WriteSlot(entry: Entry)
      requires Written() && Encodable(entry)
      modifies this, slots
      ensures Written() && log == old(log) + [entry]
    {
      NextRemainder(|log|, slots.Length);
      NextQuotient(|log|, slots.Length);
      HoldsNext(slots[..], log, first, entry);
      ghost var before := slots[..];
      if wrapCount != 0 && U32(slots[writeIndex], 0) != 0 {
        droppedCount := SaturatingIncrement(droppedCount);
      }
      slots[writeIndex] := Encode(entry, nextSequence);
      assert slots[..] == before[writeIndex := Encode(entry, nextSequence)];
      log := log + [entry];
      nextSequence := NextSequence(nextSequence);
      writeIndex := writeIndex + 1;
      if writeIndex == slots.Length {
        writeIndex := 0;
        wrapCount := SaturatingIncrement(wrapCount);
      }
    }

    /** kernel_trace_write_at. */
    method WriteKernel(event: Event) returns (ok: bool)
      requires Valid() && event.KernelEvent?
      modifies this, slots
      ensures Valid()
      ensures ok <==> event.code != 0
      ensures log == if ok then old(log) + [Whole(event)] else old(log)
    {
      if event.code == 0 {
        return false;
      }
      WriteSlot(Whole(event));
      AppendWhole(old(log), event);
      return true;
    }

    /** kernel_trace_write_user: the first slot and then the payload's. */
    method WriteUser(event: Event) returns (ok: bool)
      requires Valid() && event.UserEvent?
      modifies this, slots
      ensures Valid()
      ensures ok <==> event.message != 0 && event.flags % 8 <= 4 && event.flags < 64
                      && |event.payload| <= ARGUMENT_BYTES
      ensures log == old(log) + if !ok then [] else if event.payload == [] then [Whole(event)]
                                else [Head(event), Tail(event)]
    {
      if event.message == 0 || event.flags % 8 > 4 || event.flags >= 64 || |event.payload| > ARGUMENT_BYTES {
        return false;
      }
      if event.payload == [] {
        WriteSlot(Whole(event));
        AppendWhole(old(log), event);
      } else {
        WriteSlot(Head(event));
        WriteSlot(Tail(event));
        assert log == old(log) + [Head(event), Tail(event)];
        AppendPair(old(log), event);
      }
      return true;
    }
  }

  /** The next write goes to the slot of the oldest one, and every other slot keeps its own. */
  lemma HoldsNext(slots: seq<Slot>, log: seq<Entry>, first: u32, entry: Entry)
    requires first > 0 && |slots| > 0 && Holds(slots, log, first) && Encodable(entry)
    ensures |log| % |slots| < |slots|
    ensures U32(slots[|log| % |slots|], 0) != 0 <==> |log| >= |slots|
    ensures Holds(slots[|log| % |slots| := Encode(entry, SequenceAt(first, |log|))], log + [entry], first)
  {
    var n, d := |log|, |slots|;
    var at := n % d;
    NextRemainder(n, d);
    DisplacedSlot(slots, log, first);
    var slots', log' := slots[at := Encode(entry, SequenceAt(first, n))], log + [entry];
    forall i | 0 <= i < d ensures SlotHolds(slots', log', first, i) {
      SlotHoldsNext(slots, log, first, entry, i);
    }
  }

  lemma SlotHoldsNext(slots: seq<Slot>, log: seq<Entry>, first: u32, entry: Entry, i: nat)
    requires first > 0 && i < |slots| && SlotHolds(slots, log, first, i) && Encodable(entry)
    requires |log| % |slots| < |slots|
    ensures SlotHolds(slots[|log| % |slots| := Encode(entry, SequenceAt(first, |log|))], log + [entry], first, i)
  {
    var n, d := |log|, |slots|;
    if i < n + 1 {
      LatestStep(n, d, i);
    } else {
      RemainderUnique(n, d, 0, n);
    }
  }

  /** The slot about to be written is empty until the ring is full. */
  lemma DisplacedSlot(slots: seq<Slot>, log: seq<Entry>, first: u32)
    requires first > 0 && |slots| > 0 && Holds(slots, log, first)
    ensures |log| % |slots| < |slots|
    ensures U32(slots[|log| % |slots|], 0) != 0 <==> |log| >= |slots|
  {
    var n, d := |log|, |slots|;
    var at := n % d;
    assert SlotHolds(slots, log, first, at);
    if n < d {
      RemainderUnique(n, d, 0, n);
    } else {
      var k := Latest(n, d, at);
      SlotNumber(log[k], SequenceAt(first, k));
    }
  }

  lemma SlotNumber(entry: Entry, sequence: u32)
    requires Encodable(entry)
    ensures U32(Encode(entry, sequence), 0) == sequence
  {
    if entry.Tail? {
      PackedWord([sequence, Pair(EVENT_USER_ARGUMENTS, 0)], Padded(entry.event.payload), 0);
    } else {
      PackedWord(Words(entry.event, sequence), [], 0);
    }
  }

  lemma AppendWhole(log: seq<Entry>, event: Event)
    requires LogOk(log) && EventOk(event) && (event.UserEvent? ==> event.payload == [])
    ensures LogOk(log + [Whole(event)])
  {
    forall k | 0 <= k < |log| ensures EntryOk(log + [Whole(event)], k) {
      assert EntryOk(log, k);
    }
  }

  lemma AppendPair(log: seq<Entry>, event: Event)
    requires LogOk(log) && EventOk(event) && event.UserEvent? && event.payload != []
    ensures LogOk(log + [Head(event), Tail(event)])
  {
    forall k | 0 <= k < |log| ensures EntryOk(log + [Head(event), Tail(event)], k) {
      assert EntryOk(log, k);
    }
  }

  /** A dump of a ring the kernel has only written to tells its events exactly, up to a split pair. */
  lemma DumpDecodes(writer: TraceWriter)
    requires writer.Valid() && writer.first + |writer.log| <= WORD
    requires forall k :: 0 <= k < |writer.log| ==> Readable(writer.log[k].event)
    ensures var slots := writer.slots[..];
            Narrates(DecodeAll(slots, Records(slots)), writer.log, writer.first, |slots|)
            <==> !Orphaned(writer.log, |slots|)
  {
    DecodeTells(writer.slots[..], writer.log, writer.first);
  }
}
