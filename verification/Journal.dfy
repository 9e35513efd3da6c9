/**
 The journal of emu/qemu/benchmark-hostfs-native.c: the record each operation writes
 (fill_record), the loop that pushes a buffer through short writes (write_all), and the
 bitmap checker that decides whether a finished file holds every record exactly once
 (verify_journal).

 A sequence number is a 64-bit unsigned value stored least significant byte first; the
 bitmap's bytes are `bv8`, because bits are set and tested in them.  `size_t` is 64 bits wide,
 so parse_operations bounds an operation count by MAX_OPERATIONS.
 */
module Journal {
  import opened Arithmetic
  import opened Prelude

  const RECORD_BYTES: nat := 256
  const SEQUENCE_BYTES: nat := 8
  const MAX_OPERATIONS: nat := 0xFFFF_FFFF_FFFF_FFFF / 256

  // ----- records -----------------------------------------------------------------------

  /** The bytes of `value`, least significant first. */
  function LittleEndian(value: nat, width: nat): (bytes: seq<byte>)
    ensures |bytes| == width
  {
    if width == 0 then [] else [(value % 256) as byte] + LittleEndian(value / 256, width - 1)
  }

  /** The number a byte string stands for, least significant byte first. */
  function FromLittleEndian(bytes: seq<byte>): nat {
    if bytes == [] then 0 else bytes[0] as nat + 256 * FromLittleEndian(bytes[1..])
  }

  function Pow256(n: nat): nat {
    if n == 0 then 1 else 256 * Pow256(n - 1)
  }

  lemma {:induction false} LittleEndianRoundTrip(value: nat, width: nat)
    requires value < Pow256(width)
    ensures FromLittleEndian(LittleEndian(value, width)) == value
  {
    if width == 0 {
    } else {
      LittleEndianRoundTrip(value / 256, width - 1);
      var rest := LittleEndian(value / 256, width - 1);
      assert LittleEndian(value, width)[1..] == rest;
      assert value == value % 256 + 256 * (value / 256);
    }
  }

  lemma SixtyFourBits()
    ensures Pow256(SEQUENCE_BYTES) == 0x1_0000_0000_0000_0000
  {
    assert Pow256(4) == 0x1_0000_0000;
    assert Pow256(6) == 0x1_0000_0000_0000;
  }

  /** The 256 bytes an operation with this sequence number puts in the journal. */
  function Record(sequence: nat): (record: seq<byte>)
    ensures |record| == RECORD_BYTES
  {
    LittleEndian(sequence, SEQUENCE_BYTES)
    + seq(RECORD_BYTES - SEQUENCE_BYTES, _ => (sequence % 256) as byte)
  }

  lemma DivideTwice(value: nat, a: nat, b: nat)
    requires a > 0 && b > 0
    ensures a * b > 0 && value / a / b == value / (a * b)
  {
    var q, r := value / a, value % a;
    var p, t := q / b, q % b;
    assert value == a * (b * p + t) + r;
    assert a * (b * p + t) == (a * b) * p + a * t;
    AtMostTimes(a, t, b - 1);
    assert a * (b - 1) == a * b - a;
    RemainderUnique(value, a * b, p, a * t + r);
  }

  lemma AtMostTimes(a: nat, t: nat, b: nat)
    requires t <= b
    ensures 0 <= a * t <= a * b
  {
  }

  lemma {:induction false} LittleEndianByte(value: nat, width: nat, k: nat)
    requires k < width
    ensures Pow256(k) > 0 && LittleEndian(value, width)[k] as nat == value / Pow256(k) % 256
  {
    if k > 0 {
      LittleEndianByte(value / 256, width - 1, k - 1);
      DivideTwice(value, 256, Pow256(k - 1));
    }
  }

  /** Byte `k` of the number in the first eight bytes, and the lowest byte in all the others. */
  lemma RecordBytes(sequence: nat, k: nat)
    requires k < 256
    ensures |Record(sequence)| == 256 && Pow256(k) > 0
    ensures Record(sequence)[k] as nat == if k < 8 then sequence / Pow256(k) % 256 else sequence % 256
  {
    PowPositive(k);
    if k < 8 {
      LittleEndianByte(sequence, 8, k);
    }
  }

  lemma {:induction false} PowPositive(n: nat)
    ensures Pow256(n) > 0
  {
    if n > 0 {
      PowPositive(n - 1);
    }
  }

  /** The sequence number in the first eight bytes of a record. */
  function SequenceOf(record: seq<byte>): nat
    requires |record| == RECORD_BYTES
  {
    FromLittleEndian(record[..SEQUENCE_BYTES])
  }

  /** Reading a record's number back gives the number it was filled with. */
  lemma RecordRoundTrip(sequence: nat)
    requires sequence < 0x1_0000_0000_0000_0000
    ensures SequenceOf(Record(sequence)) == sequence
  {
    SixtyFourBits();
    LittleEndianRoundTrip(sequence, SEQUENCE_BYTES);
    assert Record(sequence)[..SEQUENCE_BYTES] == LittleEndian(sequence, SEQUENCE_BYTES);
  }

  /** memset with the low byte, then memcpy of the number over the first eight bytes. */
  method FillRecord(record: array<byte>, sequence: nat)
    requires record.Length == RECORD_BYTES
    requires sequence < 0x1_0000_0000_0000_0000
    modifies record
    ensures record[..] == Record(sequence)
  {
    for i := 0 to RECORD_BYTES
      invariant forall k :: 0 <= k < i ==> record[k] == (sequence % 256) as byte
    {
      record[i] := (sequence % 256) as byte;
    }
    var bytes := LittleEndian(sequence, SEQUENCE_BYTES);
    for i := 0 to SEQUENCE_BYTES
      invariant forall k :: 0 <= k < i ==> record[k] == bytes[k]
      invariant forall k :: SEQUENCE_BYTES <= k < RECORD_BYTES ==> record[k] == (sequence % 256) as byte
    {
      record[i] := bytes[i];
    }
  }

  // ----- journals ----------------------------------------------------------------------

  /** The file a list of operations leaves behind when written in this order. */
  function Image(log: seq<nat>): (file: seq<byte>)
    ensures |file| == |log| * RECORD_BYTES
  {
    if log == [] then [] else Image(log[..|log| - 1]) + Record(log[|log| - 1])
  }

  /** Record `index` of a file of whole records. */
  function Slot(file: seq<byte>, index: nat): (record: seq<byte>)
    requires (index + 1) * RECORD_BYTES <= |file|
    ensures |record| == RECORD_BYTES
  {
    file[index * RECORD_BYTES..(index + 1) * RECORD_BYTES]
  }

  lemma {:induction false} ImageSlot(log: seq<nat>, index: nat)
    requires index < |log|
    ensures Slot(Image(log), index) == Record(log[index])
  {
    var last := |log| - 1;
    if index < last {
      ImageSlot(log[..last], index);
      assert Slot(Image(log), index) == Slot(Image(log[..last]), index);
    }
  }

  lemma {:induction false} ImageAppend(log: seq<nat>, more: seq<nat>)
    ensures Image(log + more) == Image(log) + Image(more)
  {
    if more == [] {
      assert log + more == log;
    } else {
      var last := |more| - 1;
      ImageAppend(log, more[..last]);
      assert log + more == (log + more[..last]) + [more[last]];
      ImageOneMore(log + more[..last], more[last]);
    }
  }

  ghost predicate Distinct(log: seq<nat>) {
    forall i, j :: 0 <= i < j < |log| ==> log[i] != log[j]
  }

  /** Every number below `operations`, once each, and nothing else. */
  ghost predicate Permutation(log: seq<nat>, operations: nat) {
    && |log| == operations
    && Distinct(log)
    && (forall i :: 0 <= i < |log| ==> log[i] < operations)
    && (forall n :: 0 <= n < operations ==> n in log)
  }

  /** What the checker must accept: the file of some ordering of all the operations. */
  ghost predicate Complete(file: seq<byte>, operations: nat) {
    exists log :: Permutation(log, operations) && file == Image(log)
  }

  function Numbers(n: nat): (s: set<nat>)
    ensures forall k: nat :: k in s <==> k < n
  {
    if n == 0 then {} else Numbers(n - 1) + {n - 1}
  }

  lemma {:induction false} NumbersSize(n: nat)
    ensures |Numbers(n)| == n
  {
    if n > 0 {
      NumbersSize(n - 1);
    }
  }

  function Elements(log: seq<nat>): set<nat> {
    set x | x in log
  }

  lemma {:induction false} DistinctSize(log: seq<nat>)
    requires Distinct(log)
    ensures |Elements(log)| == |log|
  {
    if log != [] {
      var last := |log| - 1;
      DistinctSize(log[..last]);
      assert Elements(log) == Elements(log[..last]) + {log[last]};
    }
  }

  lemma SubsetOfEqualSize(a: set<nat>, b: set<nat>)
    requires a <= b && |a| == |b|
    ensures a == b
  {
    if x :| x in b && x !in a {
      SubsetSize(a, b - {x});
    }
  }

  /** The pigeonhole step: as many distinct numbers below `n` as there are, so all of them. */
  lemma Pigeonhole(log: seq<nat>, n: nat)
    requires |log| == n && Distinct(log)
    requires forall i :: 0 <= i < |log| ==> log[i] < n
    ensures Permutation(log, n)
  {
    DistinctSize(log);
    NumbersSize(n);
    assert Elements(log) <= Numbers(n);
    SubsetOfEqualSize(Elements(log), Numbers(n));
    forall k | 0 <= k < n ensures k in log {
      assert k in Numbers(n);
    }
  }

  /** Distinct numbers that are exactly those below `n` number `n`. */
  lemma CoveringIsPermutation(log: seq<nat>, n: nat)
    requires Distinct(log)
    requires forall k: nat :: k < n <==> k in log
    ensures Permutation(log, n)
  {
    DistinctSize(log);
    NumbersSize(n);
    assert Elements(log) == Numbers(n);
    forall i | 0 <= i < |log| ensures log[i] < n {
      assert log[i] in log;
    }
  }

  // ----- the bitmap --------------------------------------------------------------------

  type bits = bv8

  function Bit(k: nat): bits
    requires k < 8
  {
    [1, 2, 4, 8, 16, 32, 64, 128][k]
  }

  predicate Marked(seen: seq<bits>, n: nat)
    requires n / 8 < |seen|
  {
    seen[n / 8] & Bit(n % 8) != 0
  }

  lemma OrBit(x: bits, i: nat, j: nat)
    requires i < 8 && j < 8
    ensures (x | Bit(i)) & Bit(j) != 0 <==> i == j || x & Bit(j) != 0
  {
    assert Bit(0) == 1 && Bit(1) == 2 && Bit(2) == 4 && Bit(3) == 8;
    assert Bit(4) == 16 && Bit(5) == 32 && Bit(6) == 64 && Bit(7) == 128;
  }

  /** Setting one bit of the packed map marks that number and no other. */
  lemma MarkOne(seen: seq<bits>, n: nat, m: nat)
    requires n / 8 < |seen| && m / 8 < |seen|
    ensures Marked(seen[n / 8 := seen[n / 8] | Bit(n % 8)], m) <==> m == n || Marked(seen, m)
  {
    if n / 8 == m / 8 {
      OrBit(seen[n / 8], n % 8, m % 8);
    }
  }

  /** The packed map marks exactly the numbers of `log`. */
  ghost predicate Tracks(seen: seq<bits>, log: seq<nat>, operations: nat) {
    && |seen| == (operations + 7) / 8
    && forall n: nat :: n < operations ==> (Marked(seen, n) <==> n in log)
  }

  lemma TracksOne(seen: seq<bits>, log: seq<nat>, operations: nat, n: nat)
    requires Tracks(seen, log, operations) && n < operations
    ensures Tracks(seen[n / 8 := seen[n / 8] | Bit(n % 8)], log + [n], operations)
  {
    forall m: nat | m < operations
      ensures Marked(seen[n / 8 := seen[n / 8] | Bit(n % 8)], m) <==> m in log + [n]
    {
      MarkOne(seen, n, m);
    }
  }

  method TestBit(seen: array<bits>, ghost log: seq<nat>, operations: nat, n: nat) returns (set_: bool)
    requires Tracks(seen[..], log, operations) && n < operations
    ensures set_ <==> n in log
  {
    assert Marked(seen[..], n) <==> n in log;
    set_ := seen[n / 8] & Bit(n % 8) != 0;
  }

  method SetBit(seen: array<bits>, ghost log: seq<nat>, operations: nat, n: nat)
    requires Tracks(seen[..], log, operations) && n < operations
    modifies seen
    ensures Tracks(seen[..], log + [n], operations)
  {
    TracksOne(seen[..], log, operations, n);
    seen[n / 8] := seen[n / 8] | Bit(n % 8);
    assert seen[..] == old(seen[..])[n / 8 := old(seen[..])[n / 8] | Bit(n % 8)];
  }

  // ----- the checker -------------------------------------------------------------------

  datatype Verdict = Accepted | BadSize | BadSequence | BadData

  /** The sequence numbers the first `count` records of a file claim. */
  function Claimed(file: seq<byte>, count: nat): (log: seq<nat>)
    requires count * RECORD_BYTES <= |file|
    ensures |log| == count
    ensures forall i :: 0 <= i < count ==> log[i] == SequenceOf(Slot(file, i))
  {
    if count == 0 then [] else Claimed(file, count - 1) + [SequenceOf(Slot(file, count - 1))]
  }

  /** The claimed number of record `i` is in range and no earlier record claims it. */
  ghost predicate FreshNumber(file: seq<byte>, operations: nat, i: nat)
    requires (i + 1) * RECORD_BYTES <= |file|
  {
    && SequenceOf(Slot(file, i)) < operations
    && forall j :: 0 <= j < i ==> SequenceOf(Slot(file, j)) != SequenceOf(Slot(file, i))
  }

  /** Record `i` is the record its claimed number is filled with. */
  ghost predicate FilledRecord(file: seq<byte>, i: nat)
    requires (i + 1) * RECORD_BYTES <= |file|
  {
    Slot(file, i) == Record(SequenceOf(Slot(file, i)))
  }

  ghost predicate SoundPrefix(file: seq<byte>, operations: nat, count: nat)
    requires count * RECORD_BYTES <= |file|
  {
    forall i :: 0 <= i < count ==> FreshNumber(file, operations, i) && FilledRecord(file, i)
  }

  lemma {:induction false} SoundPrefixImage(file: seq<byte>, operations: nat, count: nat)
    requires count * RECORD_BYTES <= |file|
    requires SoundPrefix(file, operations, count)
    ensures Image(Claimed(file, count)) == file[..count * RECORD_BYTES]
  {
    if count > 0 {
      var last := count - 1;
      SoundPrefixImage(file, operations, last);
      assert FilledRecord(file, last);
      ImageOneMore(Claimed(file, last), SequenceOf(Slot(file, last)));
      FileOneMore(file, last);
    }
  }

  lemma ImageOneMore(log: seq<nat>, n: nat)
    ensures Image(log + [n]) == Image(log) + Record(n)
  {
    assert (log + [n])[..|log|] == log;
  }

  lemma FileOneMore(file: seq<byte>, count: nat)
    requires (count + 1) * RECORD_BYTES <= |file|
    ensures file[..(count + 1) * RECORD_BYTES] == file[..count * RECORD_BYTES] + Slot(file, count)
  {
  }

  /** A file of the right size is complete exactly when every record in it is sound. */
  lemma SoundIsComplete(file: seq<byte>, operations: nat)
    requires |file| == operations * RECORD_BYTES && operations <= MAX_OPERATIONS
    ensures SoundPrefix(file, operations, operations) <==> Complete(file, operations)
  {
    if SoundPrefix(file, operations, operations) {
      var log := Claimed(file, operations);
      SoundPrefixImage(file, operations, operations);
      assert file[..operations * RECORD_BYTES] == file;
      forall i | 0 <= i < |log| ensures log[i] < operations {
        assert FreshNumber(file, operations, i);
      }
      forall i, j | 0 <= i < j < |log| ensures log[i] != log[j] {
        assert FreshNumber(file, operations, j);
      }
      Pigeonhole(log, operations);
    }
    if Complete(file, operations) {
      var log :| Permutation(log, operations) && file == Image(log);
      forall i | 0 <= i < operations ensures SequenceOf(Slot(file, i)) == log[i] && FilledRecord(file, i) {
        ImageSlot(log, i);
        RecordRoundTrip(log[i]);
      }
    }
  }

  lemma SoundPrefixStep(file: seq<byte>, operations: nat, index: nat)
    requires (index + 1) * RECORD_BYTES <= |file|
    requires SoundPrefix(file, operations, index)
    ensures SoundPrefix(file, operations, index + 1)
            <==> FreshNumber(file, operations, index) && FilledRecord(file, index)
    ensures FreshNumber(file, operations, index)
            <==> SequenceOf(Slot(file, index)) < operations
                 && SequenceOf(Slot(file, index)) !in Claimed(file, index)
  {
  }

  /**
   One turn of the checking loop: the record's claimed number is compared with the bitmap,
   its bytes with a record filled afresh, and only then is its bit set.
   */
  method CheckRecord(file: seq<byte>, operations: nat, index: nat, seen: array<bits>)
    returns (verdict: Verdict)
    requires index < operations && (index + 1) * RECORD_BYTES <= |file| && operations <= MAX_OPERATIONS
    requires SoundPrefix(file, operations, index)
    requires Tracks(seen[..], Claimed(file, index), operations)
    modifies seen
    ensures verdict != BadSize
    ensures verdict == BadSequence <==> !FreshNumber(file, operations, index)
    ensures verdict == Accepted <==> FreshNumber(file, operations, index) && FilledRecord(file, index)
    ensures verdict == Accepted ==> Tracks(seen[..], Claimed(file, index + 1), operations)
    ensures verdict != Accepted ==> seen[..] == old(seen[..])
  {
    SoundPrefixStep(file, operations, index);
    var actual := Slot(file, index);
    var sequence := SequenceOf(actual);
    if sequence >= operations {
      return BadSequence;
    }
    var claimed := TestBit(seen, Claimed(file, index), operations, sequence);
    if claimed {
      return BadSequence;
    }
    var expected := new byte[RECORD_BYTES];
    FillRecord(expected, sequence);
    if actual != expected[..] {
      return BadData;
    }
    SetBit(seen, Claimed(file, index), operations, sequence);
    return Accepted;
  }

  /**
   The checking loop.  A refusal names the first record that is wrong and says which way;
   acceptance is exactly completeness.
   */
  method VerifyJournal(file: seq<byte>, operations: nat) returns (verdict: Verdict, index: nat)
    requires 0 < operations <= MAX_OPERATIONS
    ensures verdict == BadSize <==> |file| != operations * RECORD_BYTES
    ensures verdict == Accepted <==> Complete(file, operations)
    ensures verdict == BadSequence || verdict == BadData ==>
              index < operations && SoundPrefix(file, operations, index)
    ensures verdict == BadSequence ==> !FreshNumber(file, operations, index)
    ensures verdict == BadData ==> FreshNumber(file, operations, index) && !FilledRecord(file, index)
  {
    index := 0;
    if |file| != operations * RECORD_BYTES {
      return BadSize, 0;
    }
    SoundIsComplete(file, operations);
    var seen := new bits[(operations + 7) / 8](_ => 0);
    while index < operations
      invariant index <= operations
      invariant SoundPrefix(file, operations, index)
      invariant Tracks(seen[..], Claimed(file, index), operations)
    {
      verdict := CheckRecord(file, operations, index, seen);
      if verdict != Accepted {
        return;
      }
      index := index + 1;
    }
    verdict := Accepted;
  }

  // ----- writing ----------------------------------------------------------------------

  datatype Moved = Bytes(count: nat) | Interrupted | Refused

  /**
   An open journal.  `contents` is what the file holds and the first `durable` bytes of it
   survive a crash.  `interrupts` bounds how many more times the kernel answers EINTR.  `synced`
   is how long the file was at each barrier that succeeded, and `refused` whether a call failed.
   */
  class JournalFile {
    var contents: seq<byte>
    var durable: nat
    var interrupts: nat
    ghost var synced: seq<nat>
    ghost var refused: bool

    constructor (interrupts: nat)
      ensures contents == [] && durable == 0 && this.interrupts == interrupts && synced == [] && !refused
    {
      contents, durable, this.interrupts, synced, refused := [], 0, interrupts, [], false;
    }

    /** One write system call: any non-empty prefix may be taken, or none at all. */
    method Write(bytes: seq<byte>) returns (moved: Moved)
      requires bytes != []
      modifies this
      ensures durable == old(durable) && synced == old(synced)
      ensures refused == (old(refused) || moved.Refused?)
      ensures moved.Bytes? ==> 0 < moved.count <= |bytes| && interrupts == old(interrupts)
      ensures moved.Interrupted? ==> interrupts < old(interrupts)
      ensures contents == old(contents) + if moved.Bytes? then bytes[..moved.count] else []
    {
      var count: nat := *;
      if 0 < count <= |bytes| {
        contents := contents + bytes[..count];
        return Bytes(count);
      } else if interrupts > 0 && count == 0 {
        interrupts := interrupts - 1;
        return Interrupted;
      }
      refused := true;
      return Refused;
    }

    /** fdatasync or syncfs. */
    method Barrier() returns (ok: bool)
      modifies this`durable, this`synced, this`refused
      ensures durable == if ok then |contents| else old(durable)
      ensures synced == if ok then old(synced) + [|contents|] else old(synced)
      ensures refused == (old(refused) || !ok)
    {
      ok := *;
      if ok {
        durable := |contents|;
        synced := synced + [|contents|];
      } else {
        refused := true;
      }
    }
  }

  /** The whole buffer reaches the file, unless a call fails: then a strict prefix does. */
  method WriteAll(file: JournalFile, buffer: seq<byte>) returns (ok: bool)
    modifies file
    ensures file.durable == old(file.durable) && file.synced == old(file.synced)
    ensures file.refused == (old(file.refused) || !ok)
    ensures ok ==> file.contents == old(file.contents) + buffer
    ensures !ok ==> exists k :: 0 <= k < |buffer| && file.contents == old(file.contents) + buffer[..k]
  {
    var at := 0;
    while at != |buffer|
      invariant at <= |buffer|
      invariant file.contents == old(file.contents) + buffer[..at]
      invariant file.durable == old(file.durable) && file.synced == old(file.synced)
      invariant file.refused == old(file.refused)
      decreases |buffer| - at, file.interrupts
    {
      var moved := file.Write(buffer[at..]);
      match moved
      case Interrupted =>
      case Refused =>
        return false;
      case Bytes(count) =>
        assert buffer[..at + count] == buffer[..at] + buffer[at..][..count];
        at := at + count;
    }
    return true;
  }

  /** The numbers [from, to) in order. */
  function Range(from: nat, to: nat): (log: seq<nat>)
    requires from <= to
    ensures |log| == to - from
    ensures forall i :: 0 <= i < |log| ==> log[i] == from + i
  {
    if from == to then [] else Range(from, to - 1) + [to - 1]
  }

  /** The one is the first bytes of the other. */
  ghost predicate Begins(contents: seq<byte>, all: seq<byte>) {
    |contents| <= |all| && contents == all[..|contents|]
  }

  /** One batch: its records written and made durable. */
  method CommitBatch(file: JournalFile, records: seq<byte>, from: nat, to: nat) returns (ok: bool)
    requires from < to <= |records| && file.contents == records[..from]
    modifies file
    ensures file.refused == (old(file.refused) || !ok)
    ensures Begins(file.contents, records)
    ensures ok ==> file.contents == records[..to] && file.durable == to && file.synced == old(file.synced) + [to]
    ensures !ok ==> file.durable == old(file.durable) && file.synced == old(file.synced)
  {
    ok := WriteAll(file, records[from..to]);
    if !ok {
      ghost var k :| 0 <= k < to - from && file.contents == records[..from] + records[from..to][..k];
      assert file.contents == records[..from + k];
      return;
    }
    assert records[..from] + records[from..to] == records[..to];
    ok := file.Barrier();
  }

  /** Where batch number `i` ends. */
  function BatchEnd(operations: nat, batch: nat, i: nat): nat {
    if (i + 1) * batch < operations then (i + 1) * batch else operations
  }

  /** After these barriers `at` records are written: one barrier at the end of each batch so far. */
  ghost predicate Batches(synced: seq<nat>, operations: nat, batch: nat, at: nat) {
    && at == (if |synced| * batch < operations then |synced| * batch else operations)
    && (synced != [] ==> (|synced| - 1) * batch < operations)
    && forall i :: 0 <= i < |synced| ==> synced[i] == BatchEnd(operations, batch, i) * 256
  }

  lemma NextBatch(synced: seq<nat>, operations: nat, batch: nat, at: nat, count: nat)
    requires Batches(synced, operations, batch, at) && at < operations && batch > 0
    requires count == if operations - at > batch then batch else operations - at
    ensures Batches(synced + [(at + count) * 256], operations, batch, at + count)
  {
    var n := |synced|;
    assert (n + 1) * batch == n * batch + batch;
  }

  /** The records of all the operations in order are a journal the checker accepts. */
  lemma InOrderIsComplete(operations: nat)
    ensures Complete(Image(Range(0, operations)), operations)
  {
    Pigeonhole(Range(0, operations), operations);
  }

  /**
   The single-threaded batched journal of benchmark_journal: the prepared records in order, and
   a barrier after every batch.  Unless a call fails the run leaves a durable file its own checker
   accepts; whatever happens, the file holds the first of the records, and up to the last barrier
   they are durable.
   */
  method BenchmarkJournal(file: JournalFile, operations: nat, batch: nat, records: seq<byte>) returns (ok: bool)
    requires 0 < operations <= MAX_OPERATIONS && 0 < batch && records == Image(Range(0, operations))
    requires file.contents == [] && file.durable == 0 && file.synced == [] && !file.refused
    modifies file
    ensures ok <==> !file.refused
    ensures ok ==> file.contents == records && Complete(file.contents, operations) && file.durable == |records|
    ensures ok ==> |file.synced| * batch >= operations > (|file.synced| - 1) * batch
    ensures forall i :: 0 <= i < |file.synced| ==> file.synced[i] == BatchEnd(operations, batch, i) * 256
    ensures Begins(file.contents, records)
    ensures file.durable == if file.synced == [] then 0 else file.synced[|file.synced| - 1]
  {
    InOrderIsComplete(operations);
    ok := WriteBatches(file, operations, batch, records);
    assert records[..|records|] == records;
  }

  /** The loop over the batches. */
  method WriteBatches(file: JournalFile, operations: nat, batch: nat, records: seq<byte>) returns (ok: bool)
    requires 0 < operations && 0 < batch && |records| == operations * 256
    requires file.contents == [] && file.durable == 0 && file.synced == [] && !file.refused
    modifies file
    ensures ok <==> !file.refused
    ensures ok ==> file.contents == records[..|records|] && file.durable == |records|
    ensures ok ==> Batches(file.synced, operations, batch, operations)
    ensures exists at :: Batches(file.synced, operations, batch, at)
    ensures Begins(file.contents, records)
    ensures file.durable == if file.synced == [] then 0 else file.synced[|file.synced| - 1]
  {
    var at := 0;
    while at != operations
      invariant at <= operations && !file.refused
      invariant file.contents == records[..at * 256] && file.durable == at * 256
      invariant Batches(file.synced, operations, batch, at)
      invariant file.durable == if file.synced == [] then 0 else file.synced[|file.synced| - 1]
    {
      var count := if operations - at > batch then batch else operations - at;
      NextBatch(file.synced, operations, batch, at, count);
      ok := CommitBatch(file, records, at * 256, (at + count) * 256);
      if !ok {
        return;
      }
      at := at + count;
    }
    return true;
  }
}
