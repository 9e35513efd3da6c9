/**
 The group-commit protocol of emu/qemu/benchmark-hostfs-native.c: producer threads, each
 owning one request node on its stack, feed a linked queue; one committer detaches the whole
 list, copies it without the lock, writes, synchronises, and publishes under the lock; the
 main thread starts everyone at a barrier, joins the producers, and stops the committer.

 The protocol is a state machine.  Every thread has a program counter, the mutex is a field
 naming its holder, a thread inside pthread_cond_wait is at a waiting program counter, and one
 step runs one thread between two of its program counters.  The lists are the real ones: `head`,
 `tail` and each node's `next`; a node is named by the producer that owns it.

 `queue`, `taken`, `cursor`, `owner`, `log` and `sizes` are history: no guard and no other field
 depends on them.
 */
module GroupCommit {
  import opened Journal
  import opened Prelude

  datatype Link = Nil | To(node: nat)

  datatype ProducerPc =
    | AtBarrier
    | Take      // atomic_fetch_add
    | Fill      // fill_record, next = NULL, committed = false
    | Lock
    | Push      // holds the mutex
    | Signal    // holds the mutex
    | Check     // holds the mutex: while (!request.committed)
    | Waiting   // asleep on `completed`
    | Woken     // returning from the wait, needs the mutex
    | Unlock    // holds the mutex
    | Done

  datatype Producer = Producer(
    pc: ProducerPc, left: nat, sequence: nat, record: seq<byte>, next: Link, committed: bool)

  datatype CommitterPc =
    | CLock
    | CCheck      // holds the mutex
    | CWaiting    // asleep on `available`
    | CWoken
    | CDetach     // holds the mutex
    | CUnlock     // holds the mutex
    | CCollect    // copies the detached list, unlocked
    | COverflow   // "commit batch exceeded producer count"
    | CWrite
    | CSync
    | CRelock
    | CPublish    // holds the mutex
    | CMark       // holds the mutex
    | CBroadcast  // holds the mutex
    | CRelease    // holds the mutex
    | CExit       // holds the mutex
    | CDone

  datatype MainPc =
    | MBarrier
    | MJoin
    | MFailed     // sequence != operations
    | MLock
    | MStop       // holds the mutex
    | MSignal     // holds the mutex
    | MUnlock     // holds the mutex
    | MJoinCommitter
    | MDone

  datatype Holder = Free | ByProducer(p: nat) | ByCommitter | ByMain

  datatype State = State(
    operations: nat,
    threads: nat,
    producers: seq<Producer>,
    counter: nat,
    holder: Holder,
    head: Link,
    tail: Link,
    stopping: bool,
    commits: nat,
    maxBatch: nat,
    cpc: CommitterPc,
    requests: Link,
    request: Link,
    count: nat,
    batch: seq<byte>,
    mpc: MainPc,
    journal: seq<byte>,
    durable: nat,
    queue: seq<nat>,
    taken: seq<nat>,
    cursor: nat,
    owner: seq<nat>,
    log: seq<nat>,
    sizes: seq<nat>)

  // ----- the program -------------------------------------------------------------------

  /** Thread `p` takes one more than an even share while `p` is below the remainder. */
  function Quota(operations: nat, threads: nat, p: nat): nat
    requires threads > 0
  {
    operations / threads + if p < operations % threads then 1 else 0
  }

  function Initial(operations: nat, threads: nat): State
    requires threads > 0
  {
    State(operations, threads,
          seq(threads, p requires 0 <= p < threads =>
              Producer(AtBarrier, Quota(operations, threads, p), 0, [], Nil, false)),
          0, Free, Nil, Nil, false, 0, 0, CLock, Nil, Nil, 0, [], MBarrier, [], 0, [], [], 0, [], [], [])
  }

  /** Where the for loop of producer_main goes next. */
  function LoopTop(left: nat): ProducerPc {
    if left > 0 then Take else Done
  }

  predicate ProducerEnabled(s: State, p: nat) {
    && p < |s.producers|
    && match s.producers[p].pc
       case AtBarrier | Waiting | Done => false
       case Lock | Woken => s.holder == Free
       case Take | Fill | Push | Signal | Check | Unlock => true
  }

  function At(s: State, p: nat, pc: ProducerPc): seq<Producer>
    requires p < |s.producers|
  {
    s.producers[p := s.producers[p].(pc := pc)]
  }

  /** pthread_cond_signal(&available): only the committer ever waits there. */
  function SignalAvailable(cpc: CommitterPc): CommitterPc {
    if cpc == CWaiting then CWoken else cpc
  }

  function ProducerStep(s: State, p: nat): State
    requires ProducerEnabled(s, p)
    requires s.tail.To? ==> s.tail.node < |s.producers|
  {
    var me := s.producers[p];
    match me.pc
    case Take =>
      s.(counter := s.counter + 1, owner := s.owner + [p],
         producers := s.producers[p := me.(pc := Fill, left := if me.left > 0 then me.left - 1 else 0,
                                           sequence := s.counter)])
    case Fill =>
      s.(producers := s.producers[p := me.(pc := Lock, record := Record(me.sequence), next := Nil, committed := false)])
    case Lock =>
      s.(holder := ByProducer(p), producers := At(s, p, Push))
    case Push =>
      var linked := At(s, p, Signal);
      var linked := if s.tail == Nil then linked
                    else linked[s.tail.node := linked[s.tail.node].(next := To(p))];
      s.(producers := linked, head := if s.tail == Nil then To(p) else s.head, tail := To(p),
         queue := s.queue + [p])
    case Signal =>
      s.(cpc := SignalAvailable(s.cpc), producers := At(s, p, Check))
    case Check =>
      if me.committed then s.(producers := At(s, p, Unlock))
      else s.(holder := Free, producers := At(s, p, Waiting))
    case Woken =>
      s.(holder := ByProducer(p), producers := At(s, p, Check))
    case _ => // Unlock
      s.(holder := Free, producers := At(s, p, LoopTop(me.left)))
  }

  predicate CommitterEnabled(s: State) {
    match s.cpc
    case CWaiting | CDone | COverflow => false
    case CLock | CWoken | CRelock => s.holder == Free
    case _ => true
  }

  /** pthread_cond_broadcast(&completed): every sleeping producer starts to return. */
  function WakeAll(producers: seq<Producer>): (woken: seq<Producer>)
    ensures |woken| == |producers|
    ensures forall p :: 0 <= p < |producers| ==>
              woken[p] == if producers[p].pc == Waiting then producers[p].(pc := Woken) else producers[p]
  {
    seq(|producers|, p requires 0 <= p < |producers| =>
      if producers[p].pc == Waiting then producers[p].(pc := Woken) else producers[p])
  }

  function CommitterStep(s: State): State
    requires CommitterEnabled(s)
    requires s.request.To? && s.cpc in {CCollect, CMark} ==> s.request.node < |s.producers|
  {
    match s.cpc
    case CLock => s.(holder := ByCommitter, cpc := CCheck)
    case CWoken => s.(holder := ByCommitter, cpc := CCheck)
    case CCheck =>
      if s.head == Nil && !s.stopping then s.(holder := Free, cpc := CWaiting)
      else if s.head == Nil then s.(cpc := CExit)
      else s.(cpc := CDetach)
    case CDetach =>
      s.(requests := s.head, head := Nil, tail := Nil, cpc := CUnlock, taken := s.queue, queue := [])
    case CUnlock =>
      s.(holder := Free, request := s.requests, count := 0, batch := [], cpc := CCollect, cursor := 0)
    case CCollect =>
      if s.request == Nil then s.(cpc := CWrite)
      else if s.count == s.threads then s.(cpc := COverflow)
      else s.(batch := s.batch + s.producers[s.request.node].record, count := s.count + 1,
              request := s.producers[s.request.node].next, cursor := s.cursor + 1)
    case CWrite =>
      s.(journal := s.journal + s.batch, cpc := CSync, log := s.log + Sequences(s.producers, s.taken))
    case CSync => s.(durable := |s.journal|, cpc := CRelock)
    case CRelock => s.(holder := ByCommitter, cpc := CPublish)
    case CPublish =>
      s.(commits := s.commits + 1, maxBatch := if s.count > s.maxBatch then s.count else s.maxBatch,
         request := s.requests, cpc := CMark, cursor := 0, sizes := s.sizes + [s.count])
    case CMark =>
      if s.request == Nil then s.(cpc := CBroadcast, taken := [])
      else
        var node := s.producers[s.request.node];
        s.(producers := s.producers[s.request.node := node.(committed := true)], request := node.next,
           cursor := s.cursor + 1)
    case CBroadcast => s.(producers := WakeAll(s.producers), cpc := CRelease)
    case CRelease => s.(holder := Free, cpc := CLock)
    case _ => s.(holder := Free, cpc := CDone) // CExit
  }

  predicate MainEnabled(s: State) {
    match s.mpc
    case MBarrier => forall p :: 0 <= p < |s.producers| ==> s.producers[p].pc == AtBarrier
    case MJoin => forall p :: 0 <= p < |s.producers| ==> s.producers[p].pc == Done
    case MFailed | MDone => false
    case MLock => s.holder == Free
    case MJoinCommitter => s.cpc == CDone
    case MStop | MSignal | MUnlock => true
  }

  /** The barrier lets all of its threads go at once. */
  function Released(producers: seq<Producer>): (released: seq<Producer>)
    ensures |released| == |producers|
    ensures forall p :: 0 <= p < |producers| ==>
              released[p] == producers[p].(pc := LoopTop(producers[p].left))
  {
    seq(|producers|, p requires 0 <= p < |producers| => producers[p].(pc := LoopTop(producers[p].left)))
  }

  function MainStep(s: State): State
    requires MainEnabled(s)
  {
    match s.mpc
    case MBarrier => s.(producers := Released(s.producers), mpc := MJoin)
    case MJoin => s.(mpc := if s.counter == s.operations then MLock else MFailed)
    case MLock => s.(holder := ByMain, mpc := MStop)
    case MStop => s.(stopping := true, mpc := MSignal)
    case MSignal => s.(cpc := SignalAvailable(s.cpc), mpc := MUnlock)
    case MUnlock => s.(holder := Free, mpc := MJoinCommitter)
    case _ => s.(mpc := MDone) // MJoinCommitter
  }

  datatype Step =
    | ByP(p: nat)
    | ByC
    | ByM
    | SpuriousP(p: nat)  // pthread_cond_wait may return unprompted
    | SpuriousC

  predicate Enabled(s: State, step: Step) {
    match step
    case ByP(p) => ProducerEnabled(s, p)
    case ByC => CommitterEnabled(s)
    case ByM => MainEnabled(s)
    case SpuriousP(p) => p < |s.producers| && s.producers[p].pc == Waiting
    case SpuriousC => s.cpc == CWaiting
  }

  /** The sequence numbers of a list of nodes. */
  function Sequences(producers: seq<Producer>, nodes: seq<nat>): (numbers: seq<nat>)
    ensures |numbers| == |nodes|
    ensures forall i :: 0 <= i < |nodes| && nodes[i] < |producers| ==> numbers[i] == producers[nodes[i]].sequence
  {
    seq(|nodes|, i requires 0 <= i < |nodes| =>
      if nodes[i] < |producers| then producers[nodes[i]].sequence else 0)
  }

  // ----- the invariant -----------------------------------------------------------------

  predicate ProducerHolds(pc: ProducerPc) {
    pc in {Push, Signal, Check, Unlock}
  }

  predicate CommitterHolds(cpc: CommitterPc) {
    cpc in {CCheck, CDetach, CUnlock, CPublish, CMark, CBroadcast, CRelease, CExit}
  }

  predicate MainHolds(mpc: MainPc) {
    mpc in {MStop, MSignal, MUnlock}
  }

  /** At most one thread is inside the mutex, and the mutex says which. */
  ghost predicate MutexOk(s: State) {
    && (s.holder.ByProducer? ==> s.holder.p < |s.producers|)
    && (forall p :: 0 <= p < |s.producers| ==> (ProducerHolds(s.producers[p].pc) <==> s.holder == ByProducer(p)))
    && (CommitterHolds(s.cpc) <==> s.holder == ByCommitter)
    && (MainHolds(s.mpc) <==> s.holder == ByMain)
  }

  /** The request of this producer is published to the committer. */
  predicate Submitted(pc: ProducerPc) {
    pc in {Signal, Check, Waiting, Woken}
  }

  /** What a producer's own node looks like at each of its program counters. */
  ghost predicate NodeOk(node: Producer) {
    && (node.pc == Take ==> node.left > 0)
    && (node.pc == Done ==> node.left == 0)
    && (node.pc in {Lock, Push, Unlock} || Submitted(node.pc) ==> node.record == Record(node.sequence))
    && (node.pc in {Lock, Push} ==> node.next == Nil && !node.committed)
    && (node.pc == Signal ==> !node.committed)
    && (node.pc == Unlock ==> node.committed)
  }

  ghost predicate ThreadsOk(s: State) {
    && |s.producers| == s.threads > 0
    && (forall p :: 0 <= p < |s.producers| ==> NodeOk(s.producers[p]))
    && (forall p :: 0 <= p < |s.producers| ==> (s.producers[p].pc == AtBarrier <==> s.mpc == MBarrier))
    && (s.mpc !in {MBarrier, MJoin} ==> forall p :: 0 <= p < |s.producers| ==> s.producers[p].pc == Done)
    && (s.stopping <==> s.mpc in {MSignal, MUnlock, MJoinCommitter, MDone})
    && (s.mpc == MDone ==> s.cpc == CDone)
    && (s.cpc in {CExit, CDone} ==> s.stopping)
  }

  /** The link to the node at position `i` of a list, or the end of it. */
  function LinkAt(list: seq<nat>, i: nat): Link {
    if i < |list| then To(list[i]) else Nil
  }

  /** Following `next` from `start` visits exactly `list` and then reaches NULL. */
  ghost predicate Chain(producers: seq<Producer>, start: Link, list: seq<nat>) {
    && start == LinkAt(list, 0)
    && (forall i :: 0 <= i < |list| ==> list[i] < |producers|)
    && (forall i {:trigger producers[list[i]]} :: 0 <= i < |list| ==> producers[list[i]].next == LinkAt(list, i + 1))
  }

  /** The committer owns a detached list. */
  predicate Owns(cpc: CommitterPc) {
    cpc in {CUnlock, CCollect, COverflow, CWrite, CSync, CRelock, CPublish, CMark}
  }

  /** Both lists are real, acyclic, NULL-terminated, and disjoint. */
  ghost predicate ListsOk(s: State) {
    && Chain(s.producers, s.head, s.queue)
    && s.tail == (if s.queue == [] then Nil else To(s.queue[|s.queue| - 1]))
    && Distinct(s.queue) && Distinct(s.taken)
    && (forall p :: p in s.queue ==> p !in s.taken)
    && (Owns(s.cpc) <==> s.taken != [])
    && (Owns(s.cpc) ==> Chain(s.producers, s.requests, s.taken))
    && (s.cpc == CDetach ==> s.queue != [])
    && (s.cpc in {CExit, CDone} ==> s.queue == [])
  }

  /** A node is on a list exactly while its producer has an unanswered request. */
  ghost predicate MembersOk(s: State) {
    && (forall p :: p in s.queue ==> p < |s.producers| && Submitted(s.producers[p].pc) && !s.producers[p].committed)
    && (forall p :: p in s.taken ==> p < |s.producers| && s.producers[p].pc in {Check, Waiting, Woken})
    && (forall p :: 0 <= p < |s.producers| && Submitted(s.producers[p].pc) && !s.producers[p].committed ==>
          p in s.queue || p in s.taken)
    && (forall i :: 0 <= i < |s.taken| && s.taken[i] < |s.producers| ==>
          (s.producers[s.taken[i]].committed <==> s.cpc == CMark && i < s.cursor))
  }

  /** The walks over the detached list, and the batch they build. */
  ghost predicate WalkOk(s: State) {
    && s.cpc != COverflow
    && (s.cpc in {CCollect, CWrite, CMark} ==> s.cursor <= |s.taken| && s.request == LinkAt(s.taken, s.cursor))
    && (s.cpc in {CCollect, CWrite} ==> s.count == s.cursor
                                        && s.batch == Image(Sequences(s.producers, s.taken[..s.cursor])))
    && (s.cpc == CWrite ==> s.cursor == |s.taken|)
    && (s.cpc in {CSync, CRelock, CPublish} ==> s.count == |s.taken|)
  }

  /** This producer's current number is not yet in the journal. */
  ghost predicate Holding(s: State, p: nat)
    requires p < |s.producers|
  {
    || s.producers[p].pc in {Fill, Lock, Push}
    || p in s.queue
    || (p in s.taken && s.cpc in {CUnlock, CCollect, CWrite})
  }

  /** The number this producer holds was handed to it and is not in the journal. */
  ghost predicate Owned(s: State, p: nat)
    requires p < |s.producers| && |s.owner| == s.counter
  {
    && s.producers[p].sequence < s.counter
    && s.owner[s.producers[p].sequence] == p
    && s.producers[p].sequence !in s.log
  }

  ghost predicate HeldByOwner(s: State, n: nat)
    requires n < |s.owner|
  {
    && s.owner[n] < |s.producers|
    && Holding(s, s.owner[n])
    && s.producers[s.owner[n]].sequence == n
  }

  /** How many journal records are synchronised. */
  function Synced(s: State): nat {
    if s.cpc == CSync && |s.taken| <= |s.log| then |s.log| - |s.taken| else |s.log|
  }

  /** Every number handed out is in the journal once or held by one producer. */
  ghost predicate NumbersOk(s: State) {
    && s.journal == Image(s.log)
    && s.durable == Synced(s) * RECORD_BYTES
    && Distinct(s.log)
    && (forall i :: 0 <= i < |s.log| ==> s.log[i] < s.counter)
    && |s.owner| == s.counter
    && (forall p :: 0 <= p < |s.producers| && Holding(s, p) ==> Owned(s, p))
    && (forall n :: 0 <= n < s.counter ==> n in s.log || HeldByOwner(s, n))
  }

  /** A request marked committed is in the synchronised part of the journal. */
  ghost predicate CommittedOk(s: State) {
    && (s.cpc in {CSync, CRelock, CPublish, CMark} ==>
          |s.taken| <= |s.log| && s.log[|s.log| - |s.taken|..] == Sequences(s.producers, s.taken))
    && (forall p :: 0 <= p < |s.producers| && (Submitted(s.producers[p].pc) || s.producers[p].pc == Unlock)
                    && s.producers[p].committed ==>
          s.producers[p].sequence in s.log[..Synced(s)])
  }

  /** Nobody sleeps through the event it waits for. */
  ghost predicate WakeupOk(s: State) {
    && (s.cpc == CWaiting ==>
          || (s.queue == [] && !s.stopping)
          || (s.holder.ByProducer? && s.holder.p < |s.producers| && s.producers[s.holder.p].pc == Signal)
          || s.mpc == MSignal)
    && (forall p :: 0 <= p < |s.producers| && s.producers[p].pc == Waiting && s.producers[p].committed ==>
          s.cpc in {CMark, CBroadcast})
  }

  /** Records whose commit is already counted. */
  function Counted(s: State): nat {
    if s.cpc in {CSync, CRelock, CPublish} && |s.taken| <= |s.log| then |s.log| - |s.taken| else |s.log|
  }

  function Total(numbers: seq<nat>): nat {
    if numbers == [] then 0 else Total(numbers[..|numbers| - 1]) + numbers[|numbers| - 1]
  }

  lemma TotalOneMore(numbers: seq<nat>, n: nat)
    ensures Total(numbers + [n]) == Total(numbers) + n
  {
    assert (numbers + [n])[..|numbers|] == numbers;
  }

  /** The sizes of the batches counted so far, which hold every counted record once. */
  ghost predicate SizesOk(s: State) {
    && |s.sizes| == s.commits && Total(s.sizes) == Counted(s)
    && forall i :: 0 <= i < |s.sizes| ==> 0 < s.sizes[i] <= s.maxBatch
  }

  function TotalLeft(producers: seq<Producer>): nat {
    if producers == [] then 0 else TotalLeft(producers[..|producers| - 1]) + producers[|producers| - 1].left
  }

  /** One thread's share of the total can be changed on its own. */
  lemma {:induction false} TotalLeftUpdate(producers: seq<Producer>, p: nat, node: Producer)
    requires p < |producers|
    ensures TotalLeft(producers[p := node]) + producers[p].left == TotalLeft(producers) + node.left
    ensures TotalLeft(producers) >= producers[p].left
  {
    var last := |producers| - 1;
    if p < last {
      TotalLeftUpdate(producers[..last], p, node);
      assert producers[p := node][..last] == producers[..last][p := node];
    } else {
      assert producers[p := node][..last] == producers[..last];
    }
  }

  ghost predicate TotalsOk(s: State) {
    && s.counter + TotalLeft(s.producers) == s.operations
    && s.commits <= Counted(s) && s.maxBatch <= s.threads && SizesOk(s)
    && (s.mpc !in {MBarrier, MJoin} ==> s.mpc != MFailed && s.counter == s.operations)
  }

  ghost predicate Inv(s: State) {
    && ThreadsOk(s) && MutexOk(s) && ListsOk(s) && MembersOk(s) && WalkOk(s)
    && NumbersOk(s) && CommittedOk(s) && WakeupOk(s) && TotalsOk(s)
  }

  /** The pointers a step may follow lead to nodes. */
  predicate LinksOk(s: State) {
    && (s.tail.To? ==> s.tail.node < |s.producers|)
    && (s.request.To? && s.cpc in {CCollect, CMark} ==> s.request.node < |s.producers|)
  }

  /** One step of the whole program. */
  function Next(s: State, step: Step): State
    requires Enabled(s, step) && LinksOk(s)
  {
    match step
    case ByP(p) => ProducerStep(s, p)
    case ByC => CommitterStep(s)
    case ByM => MainStep(s)
    case SpuriousP(p) => s.(producers := At(s, p, Woken))
    case SpuriousC => s.(cpc := CWoken)
  }

  lemma InvLinks(s: State)
    requires ListsOk(s) && WalkOk(s)
    ensures LinksOk(s)
  {
  }
}
