/**
 What every run of the group-commit protocol guarantees: durability, ownership, the journal at
 the end, no deadlock, and an end.
 */
module GroupCommitRuns {
  import opened Arithmetic
  import opened GroupCommit
  import opened GroupCommitSteps
  import opened Journal
  import opened Prelude

  // ----- what every run guarantees -----------------------------------------------------

  /** A run: any interleaving of enabled steps from the start, spurious wakeups included. */
  ghost predicate Run(trace: seq<State>, steps: seq<Step>, operations: nat, threads: nat) {
    && threads > 0
    && |trace| == |steps| + 1
    && trace[0] == Initial(operations, threads)
    && forall i :: 0 <= i < |steps| ==>
         LinksOk(trace[i]) && Enabled(trace[i], steps[i]) && trace[i + 1] == Next(trace[i], steps[i])
  }

  lemma StepConstants(s: State, step: Step)
    requires Enabled(s, step) && LinksOk(s)
    ensures Next(s, step).operations == s.operations && Next(s, step).threads == s.threads
  {
  }

  lemma {:induction false} RunInv(trace: seq<State>, steps: seq<Step>, operations: nat, threads: nat, i: nat)
    requires Run(trace, steps, operations, threads) && i < |trace|
    ensures Inv(trace[i]) && trace[i].operations == operations && trace[i].threads == threads
  {
    if i == 0 {
      InitialInv(operations, threads);
    } else {
      RunInv(trace, steps, operations, threads, i - 1);
      StepKeeps(trace[i - 1], steps[i - 1]);
      StepConstants(trace[i - 1], steps[i - 1]);
    }
  }

  /** The frame this node lies in cannot be given up: its producer is inside submit, or asleep there. */
  ghost predicate Alive(s: State, link: Link) {
    link.To? ==> link.node < |s.producers| && Submitted(s.producers[link.node].pc)
  }

  /** Nor can it be while the committer works on it: the producer is at or in its wait. */
  ghost predicate Awaits(s: State, link: Link) {
    link.To? ==> link.node < |s.producers| && s.producers[link.node].pc in {Check, Waiting, Woken}
  }

  /**
   The pointers a step follows are never wild, and the request each leads to is on the stack of
   a producer that has not returned from waiting for its answer.
   */
  lemma RunsNeverDangle(trace: seq<State>, steps: seq<Step>, operations: nat, threads: nat)
    requires Run(trace, steps, operations, threads)
    ensures var s := trace[|steps|];
            && LinksOk(s) && Alive(s, s.head) && Alive(s, s.tail)
            && (Owns(s.cpc) ==> Awaits(s, s.requests))
            && (s.cpc in {CCollect, CMark} ==> Awaits(s, s.request))
  {
    var s := trace[|steps|];
    RunInv(trace, steps, operations, threads, |steps|);
    InvLinks(s);
    if s.queue != [] {
      assert s.queue[0] in s.queue && s.queue[|s.queue| - 1] in s.queue;
    }
    if s.taken != [] {
      assert s.taken[0] in s.taken;
    }
    if s.cpc in {CCollect, CMark} && s.request.To? {
      assert s.taken[s.cursor] in s.taken;
    }
  }

  /** The bytes `record` are a whole record of the synchronised part of the journal. */
  ghost predicate Durable(s: State, record: seq<byte>) {
    exists i: nat :: (i + 1) * RECORD_BYTES <= s.durable <= |s.journal| && Slot(s.journal, i) == record
  }

  lemma DurableAt(s: State, n: nat)
    requires s.journal == Image(s.log) && s.durable == Synced(s) * RECORD_BYTES
    requires n in s.log[..Synced(s)]
    ensures Durable(s, Record(n))
  {
    var i :| 0 <= i < Synced(s) && s.log[i] == n;
    ImageSlot(s.log, i);
    assert (i + 1) * RECORD_BYTES <= Synced(s) * RECORD_BYTES <= |s.log| * RECORD_BYTES;
  }

  /**
   In every interleaving, a producer that has left its wait loop finds its own record, with
   the bytes it filled in, in the synchronised part of the journal.
   */
  lemma AnsweredIsDurable(trace: seq<State>, steps: seq<Step>, operations: nat, threads: nat, i: nat, p: nat)
    requires Run(trace, steps, operations, threads) && i < |trace| && p < |trace[i].producers|
    requires trace[i].producers[p].pc == Unlock
    ensures Durable(trace[i], trace[i].producers[p].record)
    ensures trace[i].producers[p].record == Record(trace[i].producers[p].sequence)
    ensures trace[i].producers[p].sequence < operations
  {
    RunInv(trace, steps, operations, threads, i);
    var s := trace[i];
    DurableAt(s, s.producers[p].sequence);
    assert s.producers[p].sequence in s.log;
  }

  /** What a producer filled in stays in its node from then until it has left its wait loop. */
  lemma AnsweredRecord(s: State, p: nat)
    requires Inv(s) && p < |s.producers|
    requires Submitted(s.producers[p].pc) || s.producers[p].pc in {Lock, Push, Unlock}
    ensures s.producers[p].record == Record(s.producers[p].sequence)
  {
  }

  /** At most one thread is inside the mutex in any reachable state. */
  lemma MutualExclusion(s: State, p: nat)
    requires Inv(s) && p < |s.producers|
    ensures ProducerHolds(s.producers[p].pc) ==>
              && (forall q :: 0 <= q < |s.producers| && q != p ==> !ProducerHolds(s.producers[q].pc))
              && !CommitterHolds(s.cpc) && !MainHolds(s.mpc)
    ensures !(CommitterHolds(s.cpc) && MainHolds(s.mpc))
  {
  }

  /**
   While the committer walks its detached list without the mutex, no step of any other thread
   changes a link or a record the walk still reads.
   */
  lemma DetachedListIsPrivate(s: State, step: Step, node: nat)
    requires Inv(s) && LinksOk(s) && Enabled(s, step) && step != ByC
    requires s.cpc == CCollect && node in s.taken
    ensures node < |s.producers| && node < |Next(s, step).producers|
    ensures Next(s, step).producers[node].next == s.producers[node].next
    ensures Next(s, step).producers[node].record == s.producers[node].record
    ensures Next(s, step).taken == s.taken && Next(s, step).request == s.request
  {
    assert s.mpc != MBarrier;
    if step.ByP? {
      if s.producers[step.p].pc == Push {
        PushStep(s, step.p);
      } else {
        PrivateStep(s, step.p);
      }
    }
  }

  /** The exit for a batch larger than the number of producers is never taken. */
  lemma BatchNeverOverflows(trace: seq<State>, steps: seq<Step>, operations: nat, threads: nat, i: nat)
    requires Run(trace, steps, operations, threads) && i < |trace|
    ensures trace[i].cpc != COverflow && trace[i].mpc != MFailed
    ensures trace[i].cpc in {CCollect, CWrite} ==> trace[i].count <= threads
  {
    RunInv(trace, steps, operations, threads, i);
    NodesFit(trace[i].taken, threads);
  }

  /** No number is left outside the journal once every producer is done. */
  lemma FinishedLog(s: State)
    requires Inv(s) && s.mpc !in {MBarrier, MJoin}
    ensures Permutation(s.log, s.operations) && s.queue == []
  {
    forall k: nat | k < s.operations ensures k in s.log {
      assert k in s.log || HeldByOwner(s, k);
    }
    NothingIn(s.queue);
    CoveringIsPermutation(s.log, s.operations);
  }

  /** One size for each commit, none above the largest batch, and together all the operations. */
  ghost predicate SizesAddUp(s: State, operations: nat) {
    && |s.sizes| == s.commits && Total(s.sizes) == operations
    && forall i :: 0 <= i < |s.sizes| ==> 0 < s.sizes[i] <= s.maxBatch
  }

  /**
   A run that reaches its last join leaves a synchronised journal the checker accepts, after
   at least one commit per full batch and at most one per operation.
   */
  lemma FinishedJournal(trace: seq<State>, steps: seq<Step>, operations: nat, threads: nat)
    requires Run(trace, steps, operations, threads) && trace[|steps|].mpc == MDone
    ensures Complete(trace[|steps|].journal, operations)
    ensures trace[|steps|].durable == |trace[|steps|].journal|
    ensures trace[|steps|].commits <= operations <= trace[|steps|].commits * trace[|steps|].maxBatch
    ensures trace[|steps|].maxBatch <= threads
    ensures SizesAddUp(trace[|steps|], operations)
    ensures (operations + threads - 1) / threads <= trace[|steps|].commits
  {
    RunInv(trace, steps, operations, threads, |steps|);
    FinishedState(trace[|steps|], operations, threads);
  }

  lemma FinishedState(s: State, operations: nat, threads: nat)
    requires Inv(s) && s.mpc == MDone && s.operations == operations && s.threads == threads
    ensures Complete(s.journal, operations) && s.durable == |s.journal|
    ensures s.commits <= operations <= s.commits * s.maxBatch && s.maxBatch <= threads
    ensures (operations + threads - 1) / threads <= s.commits && SizesAddUp(s, operations)
  {
    FinishedLog(s);
    TotalAtMost(s.sizes, s.maxBatch);
    FullBatches(s.commits, s.maxBatch, threads);
    CeilingBound(operations, threads, s.commits);
  }

  lemma {:induction false} TotalAtMost(numbers: seq<nat>, bound: nat)
    requires forall i :: 0 <= i < |numbers| ==> numbers[i] <= bound
    ensures Total(numbers) <= |numbers| * bound
  {
    if numbers != [] {
      TotalAtMost(numbers[..|numbers| - 1], bound);
      assert |numbers| * bound == (|numbers| - 1) * bound + bound;
    }
  }

  lemma FullBatches(commits: nat, maxBatch: nat, threads: nat)
    requires maxBatch <= threads
    ensures commits * maxBatch <= commits * threads
  {
  }

  lemma CeilingBound(operations: nat, threads: nat, commits: nat)
    requires threads > 0 && operations <= commits * threads
    ensures (operations + threads - 1) / threads <= commits
  {
    var c := (operations + threads - 1) / threads;
    assert (c - 1) * threads < commits * threads;
    Cancel(c - 1, commits, threads);
  }

  // ----- progress ----------------------------------------------------------------------

  /** A step that is not a spurious wakeup. */
  predicate Prompted(step: Step) {
    step.ByP? || step.ByC? || step.ByM?
  }

  lemma HolderMoves(s: State) returns (step: Step)
    requires Inv(s) && s.holder != Free
    ensures Enabled(s, step) && Prompted(step)
  {
    match s.holder
    case ByProducer(p) => step := ByP(p);
    case ByCommitter => step := ByC;
    case ByMain => step := ByM;
  }

  /** No lost wakeup: with the mutex free and the committer idle, no unfinished producer is stuck. */
  lemma UnfinishedProducerMoves(s: State, p: nat)
    requires Inv(s) && s.holder == Free && s.mpc != MBarrier && !CommitterEnabled(s)
    requires p < |s.producers| && s.producers[p].pc != Done
    ensures ProducerEnabled(s, p)
  {
    assert s.queue == [] && s.taken == [];
    assert !Unanswered(s.producers[p]);
  }

  /** No deadlock: until the main thread is done some thread can take a prompted step. */
  lemma SomeThreadMoves(s: State) returns (step: Step)
    requires Inv(s) && s.mpc != MDone
    ensures Enabled(s, step) && Prompted(step)
  {
    if s.holder != Free {
      step := HolderMoves(s);
    } else if CommitterEnabled(s) {
      step := ByC;
    } else if MainEnabled(s) {
      step := ByM;
    } else {
      assert s.mpc in {MJoin, MJoinCommitter};
      assert s.mpc != MJoinCommitter;
      var p :| 0 <= p < |s.producers| && s.producers[p].pc != Done;
      UnfinishedProducerMoves(s, p);
      step := ByP(p);
    }
  }

  // ----- every fair run ends -----------------------------------------------------------

  /** Falls when a batch is counted and again when its producers are woken. */
  function Backlog(s: State): int {
    2 * (s.operations - s.commits) + if s.cpc in {CMark, CBroadcast} then 1 else 0
  }

  function Rank(pc: ProducerPc): nat {
    match pc
    case AtBarrier => 10
    case Fill => 9
    case Lock => 8
    case Push => 7
    case Signal => 6
    case Woken => 5
    case Check => 4
    case Unlock => 3
    case Take => 2
    case Waiting => 1
    case Done => 0
  }

  function TotalRank(producers: seq<Producer>): nat {
    if producers == [] then 0 else TotalRank(producers[..|producers| - 1]) + Rank(producers[|producers| - 1].pc)
  }

  function MainRank(mpc: MainPc): nat {
    match mpc
    case MBarrier => 7
    case MJoin => 6
    case MLock => 5
    case MStop => 4
    case MSignal => 3
    case MUnlock => 2
    case MJoinCommitter => 1
    case MFailed | MDone => 0
  }

  function Phase(cpc: CommitterPc): nat {
    match cpc
    case CRelease => 16
    case CLock => 15
    case CWoken => 14
    case CCheck => 13
    case CWaiting => 12
    case CDetach => 11
    case CUnlock => 10
    case CCollect => 9
    case CWrite => 8
    case CSync => 7
    case CRelock => 6
    case CPublish => 5
    case CMark => 4
    case CBroadcast => 3
    case CExit => 2
    case COverflow | CDone => 0
  }

  /** Nodes the committer's current walk has still to visit. */
  function Remaining(s: State): nat {
    if s.cpc in {CCollect, CMark} && s.cursor <= |s.taken| then |s.taken| - s.cursor else 0
  }

  lemma {:induction false} RankUpdate(a: seq<Producer>, b: seq<Producer>, p: nat)
    requires p < |a| == |b|
    requires forall q :: 0 <= q < |a| && q != p ==> a[q].pc == b[q].pc
    ensures TotalRank(b) + Rank(a[p].pc) == TotalRank(a) + Rank(b[p].pc)
  {
    var last := |a| - 1;
    if p < last {
      RankUpdate(a[..last], b[..last], p);
    } else {
      SameRank(a[..last], b[..last]);
    }
  }

  lemma {:induction false} SameRank(a: seq<Producer>, b: seq<Producer>)
    requires |a| == |b| && forall q :: 0 <= q < |a| ==> Rank(a[q].pc) >= Rank(b[q].pc)
    ensures TotalRank(a) >= TotalRank(b)
    ensures (forall q :: 0 <= q < |a| ==> a[q].pc == b[q].pc) ==> TotalRank(a) == TotalRank(b)
  {
    if a != [] {
      SameRank(a[..|a| - 1], b[..|b| - 1]);
    }
  }

  /** Lexicographic descent of the five parts of the measure. */
  ghost predicate Descends(s: State, t: State) {
    || Backlog(t) < Backlog(s)
    || (Backlog(t) == Backlog(s) && TotalLeft(t.producers) < TotalLeft(s.producers))
    || (Backlog(t) == Backlog(s) && TotalLeft(t.producers) == TotalLeft(s.producers)
        && TotalRank(t.producers) < TotalRank(s.producers))
    || (Backlog(t) == Backlog(s) && TotalLeft(t.producers) == TotalLeft(s.producers)
        && TotalRank(t.producers) == TotalRank(s.producers)
        && (|| MainRank(t.mpc) < MainRank(s.mpc)
            || (MainRank(t.mpc) == MainRank(s.mpc) && Phase(t.cpc) < Phase(s.cpc))
            || (MainRank(t.mpc) == MainRank(s.mpc) && Phase(t.cpc) == Phase(s.cpc) && Remaining(t) < Remaining(s))))
  }

  lemma BacklogBound(s: State)
    requires Inv(s)
    ensures s.commits <= s.operations
  {
    NodesFit(s.log, s.counter);
  }

  lemma PushDescends(s: State, t: State, p: nat)
    requires Pushed(s, t, p)
    ensures Descends(s, t)
  {
    SameLeft(s.producers, t.producers);
    RankUpdate(s.producers, t.producers, p);
  }

  lemma PrivateDescends(s: State, p: nat)
    requires ProducerEnabled(s, p) && LinksOk(s) && s.producers[p].pc != Push && NodeOk(s.producers[p])
    ensures Descends(s, ProducerStep(s, p))
  {
    var t := ProducerStep(s, p);
    TotalLeftUpdate(s.producers, p, t.producers[p]);
    RankUpdate(s.producers, t.producers, p);
    PrivateRank(s, p);
    assert Backlog(t) == Backlog(s);
  }

  /** A producer that works on its own takes a number or moves down its own list of stages. */
  lemma PrivateRank(s: State, p: nat)
    requires ProducerEnabled(s, p) && LinksOk(s) && s.producers[p].pc != Push && NodeOk(s.producers[p])
    ensures var me, next := s.producers[p], ProducerStep(s, p).producers[p];
            next.left < me.left || (next.left == me.left && Rank(next.pc) < Rank(me.pc))
  {
  }

  lemma MarkDescends(s: State)
    requires s.cpc == CMark && LinksOk(s) && WalkOk(s)
    ensures Descends(s, CommitterStep(s))
  {
    var t := CommitterStep(s);
    SameLeft(s.producers, t.producers);
    SameRank(s.producers, t.producers);
  }

  lemma CollectDescends(s: State)
    requires s.cpc == CCollect && LinksOk(s) && WalkOk(s) && CommitterStep(s).cpc != COverflow
    ensures Descends(s, CommitterStep(s))
  {
  }

  lemma CommitterDescends(s: State)
    requires CommitterEnabled(s) && LinksOk(s) && s.cpc !in {CMark, CCollect}
    ensures Descends(s, CommitterStep(s))
  {
  }

  lemma MainDescends(s: State)
    requires MainEnabled(s)
    ensures Descends(s, MainStep(s))
  {
    if s.mpc == MBarrier {
      SameLeft(s.producers, MainStep(s).producers);
      SameRank(s.producers, MainStep(s).producers);
    }
  }

  /** Every step that is not a spurious wakeup brings the end nearer. */
  lemma StepDescends(s: State, step: Step)
    requires Inv(s) && Enabled(s, step) && LinksOk(s) && Prompted(step)
    ensures Descends(s, Next(s, step))
  {
    match step
    case ByP(p) =>
      if s.producers[p].pc == Push {
        PushStep(s, p);
        PushDescends(s, Next(s, step), p);
      } else {
        PrivateDescends(s, p);
      }
    case ByC =>
      if s.cpc == CMark {
        MarkDescends(s);
      } else if s.cpc == CCollect {
        CollectWalk(s);
        CollectDescends(s);
      } else {
        CommitterDescends(s);
      }
    case ByM => MainDescends(s);
  }

  /**
   However the threads are scheduled, an endless run in which from some point on no thread
   is woken spuriously has by then, or will have, reached the end of the main thread.
   */
  lemma RunReachesEnd(trace: nat -> State, steps: nat -> Step, i: nat) returns (end: nat)
    requires Inv(trace(i))
    requires forall j: nat :: i <= j && trace(j).mpc != MDone ==>
               LinksOk(trace(j)) && Enabled(trace(j), steps(j)) && Prompted(steps(j))
               && trace(j + 1) == Next(trace(j), steps(j))
    ensures i <= end && trace(end).mpc == MDone && Inv(trace(end))
    decreases Backlog(trace(i)), TotalLeft(trace(i).producers), TotalRank(trace(i).producers),
              MainRank(trace(i).mpc), Phase(trace(i).cpc), Remaining(trace(i))
  {
    if trace(i).mpc == MDone {
      end := i;
    } else {
      BacklogBound(trace(i));
      StepKeeps(trace(i), steps(i));
      StepDescends(trace(i), steps(i));
      end := RunReachesEnd(trace, steps, i + 1);
    }
  }
}
