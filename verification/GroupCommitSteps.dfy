/** Every step of the group-commit protocol keeps its invariant, step by step and clause by clause. */
module GroupCommitSteps {
  import opened GroupCommit
  import opened Journal
  import opened Prelude

  // ----- steps that leave both lists alone ---------------------------------------------

  /** Everything but the producers, the mutex, the counter and the committer's sleep. */
  ghost predicate SameRest(s: State, t: State) {
    && t == s.(producers := t.producers, holder := t.holder, counter := t.counter, owner := t.owner, cpc := t.cpc)
    && (t.cpc == s.cpc || (s.cpc == CWaiting && t.cpc == CWoken))
  }

  /** Waiting for an answer. */
  predicate Unanswered(node: Producer) {
    Submitted(node.pc) && !node.committed
  }

  /**
   A step of producer `p` other than Push: it rewrites `p`'s own node, and neither the list
   it is on nor what the committer reads of it.
   */
  ghost predicate Private(s: State, t: State, p: nat) {
    && SameRest(s, t)
    && p < |s.producers| == |t.producers|
    && t.producers == s.producers[p := t.producers[p]]
    && (Unanswered(t.producers[p]) <==> Unanswered(s.producers[p]))
    && (p in s.queue || p in s.taken ==>
          t.producers[p] == s.producers[p].(pc := t.producers[p].pc)
          && Submitted(t.producers[p].pc) && t.producers[p].pc != Signal)
  }

  lemma PrivateStep(s: State, p: nat)
    requires ProducerEnabled(s, p) && LinksOk(s) && s.producers[p].pc != Push
    requires ThreadsOk(s) && MutexOk(s) && MembersOk(s)
    ensures Private(s, ProducerStep(s, p), p)
  {
    if p in s.taken {
      var i :| 0 <= i < |s.taken| && s.taken[i] == p;
    }
  }

  lemma PrivateLists(s: State, t: State, p: nat)
    requires Private(s, t, p) && ListsOk(s)
    ensures ListsOk(t)
  {
  }

  lemma PrivateMembers(s: State, t: State, p: nat)
    requires Private(s, t, p) && MembersOk(s)
    ensures MembersOk(t)
  {
  }

  lemma PrivateWalk(s: State, t: State, p: nat)
    requires Private(s, t, p) && WalkOk(s)
    ensures WalkOk(t)
  {
    if s.cpc in {CCollect, CWrite} {
      forall i | 0 <= i < s.cursor
        ensures Sequences(t.producers, s.taken[..s.cursor])[i] == Sequences(s.producers, s.taken[..s.cursor])[i]
      {
        assert s.taken[i] in s.taken;
      }
      assert Sequences(t.producers, s.taken[..s.cursor]) == Sequences(s.producers, s.taken[..s.cursor]);
    }
  }

  lemma PrivateThreads(s: State, p: nat)
    requires ProducerEnabled(s, p) && LinksOk(s) && s.producers[p].pc != Push
    requires ThreadsOk(s)
    ensures ThreadsOk(ProducerStep(s, p))
  {
  }

  lemma PrivateMutex(s: State, p: nat)
    requires ProducerEnabled(s, p) && LinksOk(s) && s.producers[p].pc != Push
    requires MutexOk(s)
    ensures MutexOk(ProducerStep(s, p))
  {
  }

  lemma PrivateCommitted(s: State, p: nat)
    requires ProducerEnabled(s, p) && LinksOk(s) && s.producers[p].pc != Push
    requires ThreadsOk(s) && MembersOk(s) && CommittedOk(s)
    requires Private(s, ProducerStep(s, p), p)
    ensures CommittedOk(ProducerStep(s, p))
  {
    PrivateSequences(s, p);
    PrivateAnswers(s, p);
    CommittedStill(s, ProducerStep(s, p));
  }

  predicate Answered(node: Producer) {
    (Submitted(node.pc) || node.pc == Unlock) && node.committed
  }

  /** Who has an answer after this step had it before. */
  ghost predicate SameAnswers(s: State, t: State) {
    && |t.producers| == |s.producers|
    && forall q :: 0 <= q < |s.producers| && Answered(t.producers[q]) ==>
         Answered(s.producers[q]) && t.producers[q].sequence == s.producers[q].sequence
  }

  /** A step that leaves the journal and the detached list alone. */
  ghost predicate SameBatch(s: State, t: State) {
    && t.log == s.log && t.taken == s.taken && Synced(t) == Synced(s)
    && Sequences(t.producers, t.taken) == Sequences(s.producers, s.taken)
    && (t.cpc in {CSync, CRelock, CPublish, CMark} ==> s.cpc == t.cpc)
  }

  lemma CommittedStill(s: State, t: State)
    requires CommittedOk(s) && SameBatch(s, t) && SameAnswers(s, t)
    ensures CommittedOk(t)
  {
    forall q | 0 <= q < |t.producers| && Answered(t.producers[q])
      ensures t.producers[q].sequence in t.log[..Synced(t)]
    {
      assert Answered(s.producers[q]);
    }
  }

  lemma PrivateSequences(s: State, p: nat)
    requires ProducerEnabled(s, p) && LinksOk(s) && s.producers[p].pc != Push
    requires MembersOk(s) && Private(s, ProducerStep(s, p), p)
    ensures SameBatch(s, ProducerStep(s, p))
  {
    var t := ProducerStep(s, p);
    forall i | 0 <= i < |s.taken|
      ensures s.taken[i] < |s.producers| == |t.producers|
      ensures t.producers[s.taken[i]].sequence == s.producers[s.taken[i]].sequence
    {
      assert s.taken[i] in s.taken;
    }
  }

  lemma PrivateAnswers(s: State, p: nat)
    requires ProducerEnabled(s, p) && LinksOk(s) && s.producers[p].pc != Push && ThreadsOk(s)
    ensures SameAnswers(s, ProducerStep(s, p))
  {
    assert NodeOk(s.producers[p]);
  }

  lemma PrivateWakeup(s: State, p: nat)
    requires ProducerEnabled(s, p) && LinksOk(s) && s.producers[p].pc != Push
    requires ThreadsOk(s) && MutexOk(s) && WakeupOk(s)
    ensures WakeupOk(ProducerStep(s, p))
  {
  }

  lemma TakeNumbers(s: State, p: nat)
    requires ProducerEnabled(s, p) && LinksOk(s) && s.producers[p].pc == Take
    requires ThreadsOk(s) && MembersOk(s) && NumbersOk(s)
    ensures NumbersOk(ProducerStep(s, p))
  {
    var t := ProducerStep(s, p);
    forall q | 0 <= q < |t.producers| && Holding(t, q) ensures Owned(t, q) {
      if q != p {
        assert Holding(s, q);
      }
    }
    forall n | 0 <= n < t.counter ensures n in t.log || HeldByOwner(t, n) {
      if n < s.counter {
        assert n in s.log || HeldByOwner(s, n);
      }
    }
  }

  lemma PrivateNumbers(s: State, p: nat)
    requires ProducerEnabled(s, p) && LinksOk(s) && s.producers[p].pc !in {Take, Push}
    requires ThreadsOk(s) && MembersOk(s) && NumbersOk(s)
    requires Private(s, ProducerStep(s, p), p)
    ensures NumbersOk(ProducerStep(s, p))
  {
    var t := ProducerStep(s, p);
    forall q | 0 <= q < |t.producers| && Holding(t, q) ensures Owned(t, q) {
      assert Holding(s, q);
    }
    forall n | 0 <= n < t.counter ensures n in t.log || HeldByOwner(t, n) {
      assert n in s.log || HeldByOwner(s, n);
    }
  }

  lemma PrivateTotals(s: State, p: nat)
    requires ProducerEnabled(s, p) && LinksOk(s) && s.producers[p].pc != Push
    requires ThreadsOk(s) && TotalsOk(s)
    ensures TotalsOk(ProducerStep(s, p))
  {
    TotalLeftUpdate(s.producers, p, ProducerStep(s, p).producers[p]);
  }

  // ----- appending to the shared list --------------------------------------------------

  lemma PushLists(s: State, p: nat)
    requires ProducerEnabled(s, p) && LinksOk(s) && s.producers[p].pc == Push
    requires ThreadsOk(s) && MutexOk(s) && ListsOk(s) && MembersOk(s)
    ensures ListsOk(ProducerStep(s, p))
  {
    var t := ProducerStep(s, p);
    assert p !in s.queue && p !in s.taken;
    forall i | 0 <= i < |t.queue| ensures t.producers[t.queue[i]].next == LinkAt(t.queue, i + 1) {
      if i < |s.queue| {
        assert t.queue[i] == s.queue[i];
        assert i < |s.queue| - 1 ==> s.queue[i] != s.queue[|s.queue| - 1];
        assert s.producers[s.queue[i]].next == LinkAt(s.queue, i + 1);
      }
    }
    if Owns(s.cpc) {
      forall i | 0 <= i < |s.taken| ensures t.producers[s.taken[i]].next == LinkAt(s.taken, i + 1) {
        assert s.taken[i] in s.taken;
        assert s.taken[i] !in s.queue;
        assert s.producers[s.taken[i]].next == LinkAt(s.taken, i + 1);
      }
    }
  }

  /** Push changes no node but its own, except the link of the last one queued. */
  ghost predicate Pushed(s: State, t: State, p: nat) {
    && p < |s.producers| == |t.producers|
    && s.producers[p].pc == Push
    && t == s.(producers := t.producers, head := t.head, tail := t.tail, queue := s.queue + [p])
    && (forall q :: 0 <= q < |s.producers| ==>
          t.producers[q] ==
            s.producers[q].(next := t.producers[q].next, pc := if q == p then Signal else s.producers[q].pc))
    && (forall q :: 0 <= q < |s.producers| && q !in s.queue ==> t.producers[q].next == s.producers[q].next)
  }

  lemma PushStep(s: State, p: nat)
    requires ProducerEnabled(s, p) && LinksOk(s) && s.producers[p].pc == Push
    requires ListsOk(s) && MembersOk(s)
    ensures Pushed(s, ProducerStep(s, p), p)
  {
  }

  lemma PushThreads(s: State, t: State, p: nat)
    requires Pushed(s, t, p) && ThreadsOk(s) && MembersOk(s)
    ensures ThreadsOk(t)
  {
  }

  lemma PushMutex(s: State, t: State, p: nat)
    requires Pushed(s, t, p) && MutexOk(s)
    ensures MutexOk(t)
  {
  }

  lemma PushMembers(s: State, t: State, p: nat)
    requires Pushed(s, t, p) && ThreadsOk(s) && MembersOk(s)
    ensures MembersOk(t)
  {
  }

  lemma PushWalk(s: State, t: State, p: nat)
    requires Pushed(s, t, p) && MembersOk(s) && WalkOk(s)
    ensures WalkOk(t)
  {
    assert forall i :: 0 <= i < |s.taken| ==> s.taken[i] in s.taken;
    if s.cpc in {CCollect, CWrite} {
      assert Sequences(t.producers, s.taken[..s.cursor]) == Sequences(s.producers, s.taken[..s.cursor]);
    }
  }

  lemma PushNumbers(s: State, t: State, p: nat)
    requires Pushed(s, t, p) && MembersOk(s) && NumbersOk(s)
    ensures NumbersOk(t)
  {
    forall q | 0 <= q < |t.producers| && Holding(t, q) ensures Owned(t, q) {
      assert Holding(s, q);
    }
    forall n | 0 <= n < t.counter ensures n in t.log || HeldByOwner(t, n) {
      assert n in s.log || HeldByOwner(s, n);
    }
  }

  lemma PushCommitted(s: State, t: State, p: nat)
    requires Pushed(s, t, p) && ThreadsOk(s) && MembersOk(s) && CommittedOk(s)
    ensures CommittedOk(t)
  {
    PushedSequences(s, t, p);
    forall q | 0 <= q < |t.producers| && (Submitted(t.producers[q].pc) || t.producers[q].pc == Unlock)
               && t.producers[q].committed
      ensures t.producers[q].sequence in t.log[..Synced(t)]
    {
      assert q != p && s.producers[q].committed;
    }
  }

  lemma PushedSequences(s: State, t: State, p: nat)
    requires Pushed(s, t, p)
    ensures Sequences(t.producers, s.taken) == Sequences(s.producers, s.taken)
  {
  }

  lemma PushWakeup(s: State, t: State, p: nat)
    requires Pushed(s, t, p) && MutexOk(s) && WakeupOk(s)
    ensures WakeupOk(t)
  {
  }

  lemma PushTotals(s: State, t: State, p: nat)
    requires Pushed(s, t, p) && TotalsOk(s)
    ensures TotalsOk(t)
  {
    SameLeft(s.producers, t.producers);
  }

  lemma {:induction false} SameLeft(a: seq<Producer>, b: seq<Producer>)
    requires |a| == |b| && forall i :: 0 <= i < |a| ==> a[i].left == b[i].left
    ensures TotalLeft(a) == TotalLeft(b)
  {
    if a != [] {
      SameLeft(a[..|a| - 1], b[..|b| - 1]);
    }
  }

  lemma ProducerKeeps(s: State, p: nat)
    requires Inv(s) && ProducerEnabled(s, p) && LinksOk(s)
    ensures Inv(ProducerStep(s, p))
  {
    var t := ProducerStep(s, p);
    if s.producers[p].pc == Push {
      PushStep(s, p);
      PushThreads(s, t, p);
      PushMutex(s, t, p);
      PushLists(s, p);
      PushMembers(s, t, p);
      PushWalk(s, t, p);
      PushNumbers(s, t, p);
      PushCommitted(s, t, p);
      PushWakeup(s, t, p);
      PushTotals(s, t, p);
    } else {
      PrivateStep(s, p);
      PrivateThreads(s, p);
      PrivateMutex(s, p);
      PrivateLists(s, t, p);
      PrivateMembers(s, t, p);
      PrivateWalk(s, t, p);
      if s.producers[p].pc == Take {
        TakeNumbers(s, p);
      } else {
        PrivateNumbers(s, p);
      }
      PrivateCommitted(s, p);
      PrivateWakeup(s, p);
      PrivateTotals(s, p);
    }
  }

  // ----- the committer -----------------------------------------------------------------

  /** Steps that only move the committer and the mutex. */
  predicate Moving(cpc: CommitterPc) {
    cpc !in {CDetach, CUnlock, CCollect, CWrite, CSync, CPublish, CMark, CBroadcast}
  }

  /** The committer moves and everything the lists and the journal are made of stays. */
  ghost predicate Moved(s: State, t: State) {
    && t == s.(holder := t.holder, cpc := t.cpc)
    && (Owns(s.cpc) <==> Owns(t.cpc))
    && (t.cpc !in {CCollect, CWrite, CSync, CMark} && s.cpc !in {CCollect, CWrite, CSync, CMark})
  }

  lemma MovingStep(s: State)
    requires CommitterEnabled(s) && LinksOk(s) && Moving(s.cpc)
    ensures Moved(s, CommitterStep(s))
  {
  }

  lemma MovingShape(s: State)
    requires CommitterEnabled(s) && LinksOk(s) && Moving(s.cpc)
    requires ThreadsOk(s) && MutexOk(s) && ListsOk(s)
    ensures ThreadsOk(CommitterStep(s)) && MutexOk(CommitterStep(s)) && ListsOk(CommitterStep(s))
  {
  }

  lemma MovingMembers(s: State, t: State)
    requires Moved(s, t) && ListsOk(s) && MembersOk(s)
    ensures MembersOk(t)
  {
  }

  lemma MovingWalk(s: State)
    requires CommitterEnabled(s) && LinksOk(s) && Moving(s.cpc) && WalkOk(s)
    ensures WalkOk(CommitterStep(s))
  {
  }

  lemma MovingNumbers(s: State, t: State)
    requires Moved(s, t) && NumbersOk(s)
    requires s.cpc != CUnlock && t.cpc != CUnlock
    ensures NumbersOk(t)
  {
    HoldersUnmoved(s, t);
  }

  /** The journal and its holders do not notice a step that touches neither. */
  lemma HoldersUnmoved(s: State, t: State)
    requires NumbersOk(s)
    requires s.producers == t.producers && s.counter == t.counter && s.owner == t.owner && s.log == t.log
    requires s.journal == t.journal && t.durable == Synced(t) * RECORD_BYTES
    requires forall p :: 0 <= p < |s.producers| ==> (Holding(s, p) <==> Holding(t, p))
    ensures NumbersOk(t)
  {
    forall q | 0 <= q < |t.producers| && Holding(t, q) ensures Owned(t, q) {
      assert Holding(s, q);
    }
    forall n | 0 <= n < t.counter ensures n in t.log || HeldByOwner(t, n) {
      assert n in s.log || HeldByOwner(s, n);
    }
  }

  lemma MovingCommitted(s: State, t: State)
    requires Moved(s, t) && CommittedOk(s)
    requires s.cpc in {CRelock, CPublish} || t.cpc !in {CRelock, CPublish}
    ensures CommittedOk(t)
  {
    assert Synced(t) == Synced(s) == |s.log|;
    forall p | 0 <= p < |t.producers| && (Submitted(t.producers[p].pc) || t.producers[p].pc == Unlock)
        && t.producers[p].committed
      ensures t.producers[p].sequence in t.log[..Synced(t)]
    {
      assert s.producers[p].sequence in s.log[..Synced(s)];
    }
  }

  lemma MovingWakeup(s: State)
    requires CommitterEnabled(s) && LinksOk(s) && Moving(s.cpc)
    requires ThreadsOk(s) && MutexOk(s) && ListsOk(s) && WakeupOk(s)
    ensures WakeupOk(CommitterStep(s))
  {
  }

  lemma MovingTotals(s: State)
    requires CommitterEnabled(s) && LinksOk(s) && Moving(s.cpc) && TotalsOk(s)
    ensures TotalsOk(CommitterStep(s))
  {
    MovingStep(s);
    MovedTotals(s, CommitterStep(s));
  }

  lemma MovedTotals(s: State, t: State)
    requires Moved(s, t) && Counted(t) == Counted(s) && TotalsOk(s)
    ensures TotalsOk(t)
  {
  }

  // ----- detaching the list ------------------------------------------------------------

  lemma DetachKeeps(s: State)
    requires s.cpc in {CDetach, CUnlock} && LinksOk(s)
    requires ThreadsOk(s) && MutexOk(s) && ListsOk(s) && MembersOk(s) && WalkOk(s)
    ensures ThreadsOk(CommitterStep(s)) && MutexOk(CommitterStep(s)) && ListsOk(CommitterStep(s))
    ensures WalkOk(CommitterStep(s))
  {
    DetachThreads(s);
    DetachLists(s);
    DetachWalk(s);
  }

  lemma DetachThreads(s: State)
    requires s.cpc in {CDetach, CUnlock} && LinksOk(s) && ThreadsOk(s) && MutexOk(s)
    ensures ThreadsOk(CommitterStep(s)) && MutexOk(CommitterStep(s))
  {
  }

  lemma DetachLists(s: State)
    requires s.cpc in {CDetach, CUnlock} && LinksOk(s) && ListsOk(s)
    ensures ListsOk(CommitterStep(s))
  {
  }

  lemma DetachWalk(s: State)
    requires s.cpc in {CDetach, CUnlock} && LinksOk(s) && ListsOk(s) && WalkOk(s)
    ensures WalkOk(CommitterStep(s))
  {
  }

  lemma DetachMembers(s: State)
    requires s.cpc in {CDetach, CUnlock} && LinksOk(s)
    requires ThreadsOk(s) && MutexOk(s) && ListsOk(s) && MembersOk(s)
    ensures MembersOk(CommitterStep(s))
  {
    if s.cpc == CDetach {
      forall p | p in s.queue ensures p < |s.producers| && s.producers[p].pc in {Check, Waiting, Woken} {
        assert s.holder != ByProducer(p);
      }
      DetachedMembers(s);
    }
  }

  lemma DetachedMembers(s: State)
    requires s.cpc == CDetach && LinksOk(s) && s.taken == [] && MembersOk(s)
    requires forall p :: p in s.queue ==> p < |s.producers| && s.producers[p].pc in {Check, Waiting, Woken}
    ensures MembersOk(CommitterStep(s))
  {
    var t := CommitterStep(s);
    forall i | 0 <= i < |t.taken| && t.taken[i] < |t.producers|
      ensures t.producers[t.taken[i]].committed <==> t.cpc == CMark && i < t.cursor
    {
      assert t.taken[i] in s.queue;
    }
  }

  lemma DetachNumbers(s: State)
    requires s.cpc in {CDetach, CUnlock} && LinksOk(s)
    requires ListsOk(s) && NumbersOk(s)
    ensures NumbersOk(CommitterStep(s))
  {
    HoldersUnmoved(s, CommitterStep(s));
  }

  lemma DetachRest(s: State)
    requires s.cpc in {CDetach, CUnlock} && LinksOk(s)
    requires CommittedOk(s) && WakeupOk(s) && TotalsOk(s)
    ensures CommittedOk(CommitterStep(s)) && WakeupOk(CommitterStep(s)) && TotalsOk(CommitterStep(s))
  {
    DetachCommitted(s);
    DetachWakeup(s);
    DetachTotals(s);
  }

  lemma DetachCommitted(s: State)
    requires s.cpc in {CDetach, CUnlock} && LinksOk(s) && CommittedOk(s)
    ensures CommittedOk(CommitterStep(s))
  {
    assert Synced(CommitterStep(s)) == Synced(s) == |s.log|;
  }

  lemma DetachWakeup(s: State)
    requires s.cpc in {CDetach, CUnlock} && LinksOk(s) && WakeupOk(s)
    ensures WakeupOk(CommitterStep(s))
  {
  }

  lemma DetachTotals(s: State)
    requires s.cpc in {CDetach, CUnlock} && LinksOk(s) && TotalsOk(s)
    ensures TotalsOk(CommitterStep(s))
  {
    assert Counted(CommitterStep(s)) == Counted(s);
  }

  // ----- copying the batch -------------------------------------------------------------

  /** Distinct thread numbers number no more than the threads. */
  lemma NodesFit(nodes: seq<nat>, threads: nat)
    requires Distinct(nodes) && forall i :: 0 <= i < |nodes| ==> nodes[i] < threads
    ensures |nodes| <= threads
  {
    DistinctSize(nodes);
    NumbersSize(threads);
    SubsetSize(Elements(nodes), Numbers(threads));
  }

  lemma SequencesOne(producers: seq<Producer>, nodes: seq<nat>, i: nat)
    requires i < |nodes| && nodes[i] < |producers|
    ensures Sequences(producers, nodes[..i + 1]) == Sequences(producers, nodes[..i]) + [producers[nodes[i]].sequence]
  {
  }

  /** The next node of the detached list, while there is one. */
  lemma CollectNode(s: State)
    requires s.cpc == CCollect && s.request != Nil
    requires ThreadsOk(s) && ListsOk(s) && MembersOk(s) && WalkOk(s)
    ensures s.cursor < |s.taken| <= s.threads && s.request == To(s.taken[s.cursor]) && s.taken[s.cursor] < |s.producers|
    ensures s.producers[s.taken[s.cursor]].record == Record(s.producers[s.taken[s.cursor]].sequence)
    ensures s.producers[s.taken[s.cursor]].next == LinkAt(s.taken, s.cursor + 1)
  {
    NodesFit(s.taken, s.threads);
    assert s.taken[s.cursor] in s.taken;
  }

  /** The overflow exit is unreachable, and the batch is the records of the nodes passed. */
  lemma CollectWalk(s: State)
    requires s.cpc == CCollect && LinksOk(s)
    requires ThreadsOk(s) && ListsOk(s) && MembersOk(s) && WalkOk(s)
    ensures WalkOk(CommitterStep(s))
    ensures CommitterStep(s).cpc in {CCollect, CWrite}
  {
    if s.request != Nil {
      CollectNode(s);
      CollectBatch(s);
    } else {
      assert s.cursor == |s.taken|;
    }
  }

  /** One more record in the batch. */
  lemma CollectBatch(s: State)
    requires s.cpc == CCollect && s.request != Nil && WalkOk(s) && s.cursor < |s.taken|
    requires s.taken[s.cursor] < |s.producers|
    ensures s.batch + Record(s.producers[s.taken[s.cursor]].sequence)
            == Image(Sequences(s.producers, s.taken[..s.cursor + 1]))
  {
    SequencesOne(s.producers, s.taken, s.cursor);
    ImageOneMore(Sequences(s.producers, s.taken[..s.cursor]), s.producers[s.taken[s.cursor]].sequence);
  }

  /** Copying, writing and synchronising change no thread and no list. */
  ghost predicate Unlocked(s: State, t: State) {
    && t == s.(cpc := t.cpc, request := t.request, count := t.count, batch := t.batch, cursor := t.cursor,
               journal := t.journal, durable := t.durable, log := t.log)
    && s.cpc in {CCollect, CWrite, CSync}
    && t.cpc in {CCollect, CWrite, CSync, CRelock}
  }

  lemma CollectStep(s: State)
    requires s.cpc == CCollect && LinksOk(s) && CommitterStep(s).cpc in {CCollect, CWrite}
    ensures Unlocked(s, CommitterStep(s))
  {
  }

  lemma UnlockedThreads(s: State, t: State)
    requires Unlocked(s, t) && ThreadsOk(s) && MutexOk(s) && WakeupOk(s)
    ensures ThreadsOk(t) && MutexOk(t) && WakeupOk(t)
  {
  }

  lemma UnlockedLists(s: State, t: State)
    requires Unlocked(s, t) && ListsOk(s)
    ensures ListsOk(t)
  {
  }

  lemma UnlockedMembers(s: State, t: State)
    requires Unlocked(s, t) && MembersOk(s)
    ensures MembersOk(t)
  {
  }

  lemma UnlockedAll(s: State, t: State)
    requires Unlocked(s, t) && ThreadsOk(s) && MutexOk(s) && WakeupOk(s) && ListsOk(s) && MembersOk(s)
    ensures ThreadsOk(t) && MutexOk(t) && WakeupOk(t) && ListsOk(t) && MembersOk(t)
  {
    UnlockedThreads(s, t);
    UnlockedLists(s, t);
    UnlockedMembers(s, t);
  }

  lemma CollectNumbers(s: State)
    requires s.cpc == CCollect && LinksOk(s)
    requires CommitterStep(s).cpc in {CCollect, CWrite} && NumbersOk(s)
    ensures NumbersOk(CommitterStep(s))
  {
    HoldersUnmoved(s, CommitterStep(s));
  }

  lemma UnwrittenCommitted(s: State, t: State)
    requires Unlocked(s, t) && s.cpc == CCollect && t.cpc in {CCollect, CWrite} && t.log == s.log && CommittedOk(s)
    ensures CommittedOk(t)
  {
    assert Synced(t) == Synced(s);
  }

  lemma CollectTotals(s: State)
    requires s.cpc == CCollect && LinksOk(s)
    requires CommitterStep(s).cpc in {CCollect, CWrite} && TotalsOk(s)
    ensures TotalsOk(CommitterStep(s))
  {
    assert Counted(CommitterStep(s)) == Counted(s);
  }

  lemma CollectRest(s: State)
    requires s.cpc == CCollect && LinksOk(s) && CommitterStep(s).cpc in {CCollect, CWrite}
    requires CommittedOk(s) && TotalsOk(s) && NumbersOk(s)
    ensures CommittedOk(CommitterStep(s)) && TotalsOk(CommitterStep(s)) && NumbersOk(CommitterStep(s))
  {
    CollectStep(s);
    CollectNumbers(s);
    UnwrittenCommitted(s, CommitterStep(s));
    CollectTotals(s);
  }

  // ----- writing and synchronising -----------------------------------------------------

  /** The numbers of the detached nodes are held, distinct, and new to the journal. */
  lemma BatchNumbers(s: State)
    requires s.cpc == CWrite
    requires ThreadsOk(s) && ListsOk(s) && MembersOk(s) && NumbersOk(s)
    ensures Distinct(s.log + Sequences(s.producers, s.taken))
    ensures forall n :: n in s.log + Sequences(s.producers, s.taken) ==> n < s.counter
  {
    var new_ := Sequences(s.producers, s.taken);
    forall i | 0 <= i < |s.taken| ensures s.taken[i] < |s.producers| && Owned(s, s.taken[i]) {
      assert s.taken[i] in s.taken;
      assert Holding(s, s.taken[i]);
    }
    forall i, j | 0 <= i < j < |new_| ensures new_[i] != new_[j] {
      assert s.taken[i] != s.taken[j];
    }
    forall n | n in new_ ensures n !in s.log && n < s.counter {
      var i :| 0 <= i < |new_| && new_[i] == n;
      assert Owned(s, s.taken[i]);
    }
    DistinctAppend(s.log, new_);
  }

  lemma DistinctAppend(a: seq<nat>, b: seq<nat>)
    requires Distinct(a) && Distinct(b) && forall n :: n in b ==> n !in a
    ensures Distinct(a + b)
  {
    var all := a + b;
    forall i, j | 0 <= i < j < |all| ensures all[i] != all[j] {
      if i < |a| <= j {
        assert all[j] in b && all[i] in a;
      }
    }
  }

  lemma WriteHolders(s: State, t: State, q: nat)
    requires s.cpc == CWrite && LinksOk(s) && t == CommitterStep(s)
    requires ListsOk(s) && MembersOk(s) && NumbersOk(s)
    requires q < |s.producers| && Holding(t, q)
    ensures Owned(t, q)
  {
    var new_ := Sequences(s.producers, s.taken);
    assert Holding(s, q) && Owned(s, q);
    assert q !in s.taken;
    forall i | 0 <= i < |new_| ensures new_[i] != s.producers[q].sequence {
      assert s.taken[i] in s.taken;
      assert Holding(s, s.taken[i]) && Owned(s, s.taken[i]);
    }
  }

  lemma WriteFound(s: State, t: State, n: nat)
    requires s.cpc == CWrite && LinksOk(s) && t == CommitterStep(s)
    requires NumbersOk(s) && n < s.counter
    ensures n in t.log || HeldByOwner(t, n)
  {
    assert n in s.log || HeldByOwner(s, n);
    if n !in s.log && s.owner[n] in s.taken {
      var i :| 0 <= i < |s.taken| && s.taken[i] == s.owner[n];
      assert Sequences(s.producers, s.taken)[i] == n;
    }
  }

  lemma WriteImage(s: State, t: State)
    requires s.cpc == CWrite && LinksOk(s) && t == CommitterStep(s)
    requires WalkOk(s) && s.journal == Image(s.log) && s.durable == Synced(s) * RECORD_BYTES
    ensures t.journal == Image(t.log) && t.durable == Synced(t) * RECORD_BYTES
  {
    assert s.taken[..s.cursor] == s.taken;
    ImageAppend(s.log, Sequences(s.producers, s.taken));
    WriteStep(s);
    assert Synced(t) == Synced(s);
  }

  lemma WriteStep(s: State)
    requires s.cpc == CWrite && LinksOk(s)
    ensures CommitterStep(s) ==
              s.(journal := s.journal + s.batch, cpc := CSync, log := s.log + Sequences(s.producers, s.taken))
  {
  }

  lemma WriteNumbers(s: State)
    requires s.cpc == CWrite && LinksOk(s)
    requires ThreadsOk(s) && ListsOk(s) && MembersOk(s) && WalkOk(s) && NumbersOk(s)
    ensures NumbersOk(CommitterStep(s))
  {
    var t := CommitterStep(s);
    WriteImage(s, t);
    BatchNumbers(s);
    forall i | 0 <= i < |t.log| ensures t.log[i] < t.counter {
      assert t.log[i] in t.log;
    }
    forall q | 0 <= q < |t.producers| && Holding(t, q) ensures Owned(t, q) {
      WriteHolders(s, t, q);
    }
    forall n | 0 <= n < t.counter ensures n in t.log || HeldByOwner(t, n) {
      WriteFound(s, t, n);
    }
  }

  lemma WriteCommitted(s: State)
    requires s.cpc == CWrite && LinksOk(s)
    requires CommittedOk(s)
    ensures CommittedOk(CommitterStep(s))
  {
    var t := CommitterStep(s);
    assert t.log[|t.log| - |t.taken|..] == Sequences(s.producers, s.taken);
    assert t.log[..Synced(t)] == s.log[..Synced(s)];
  }

  lemma SyncKeeps(s: State)
    requires s.cpc == CSync && LinksOk(s)
    requires NumbersOk(s) && CommittedOk(s)
    ensures NumbersOk(CommitterStep(s)) && CommittedOk(CommitterStep(s))
  {
    SyncNumbers(s);
    SyncCommitted(s);
  }

  lemma SyncNumbers(s: State)
    requires s.cpc == CSync && LinksOk(s) && NumbersOk(s)
    ensures NumbersOk(CommitterStep(s))
  {
    HoldersUnmoved(s, CommitterStep(s));
  }

  lemma SyncCommitted(s: State)
    requires s.cpc == CSync && LinksOk(s) && CommittedOk(s)
    ensures CommittedOk(CommitterStep(s))
  {
    var t := CommitterStep(s);
    assert Synced(t) == |s.log|;
    assert forall n :: n in s.log[..Synced(s)] ==> n in t.log[..Synced(t)];
  }

  lemma WriteRest(s: State)
    requires s.cpc in {CWrite, CSync} && LinksOk(s)
    requires WalkOk(s) && TotalsOk(s)
    ensures WalkOk(CommitterStep(s)) && TotalsOk(CommitterStep(s))
  {
  }

  // ----- publishing --------------------------------------------------------------------

  lemma BatchFits(s: State)
    requires s.cpc == CPublish
    requires ThreadsOk(s) && ListsOk(s) && WalkOk(s)
    ensures 0 < s.count <= s.threads
  {
    NodesFit(s.taken, s.threads);
  }

  /** What publishing does to the totals. */
  lemma PublishStep(s: State)
    requires s.cpc == CPublish && LinksOk(s)
    ensures var t := CommitterStep(s);
            && t == s.(cpc := t.cpc, request := t.request, cursor := t.cursor, commits := t.commits,
                       maxBatch := t.maxBatch, sizes := t.sizes)
            && t.cpc == CMark && t.commits == s.commits + 1 && t.sizes == s.sizes + [s.count]
            && s.count <= t.maxBatch && s.maxBatch <= t.maxBatch && (t.maxBatch == s.count || t.maxBatch == s.maxBatch)
  {
  }

  lemma PublishTotals(s: State)
    requires s.cpc == CPublish && LinksOk(s)
    requires 0 < s.count <= s.threads && s.count == |s.taken|
    requires |s.taken| <= |s.log| && TotalsOk(s)
    ensures TotalsOk(CommitterStep(s))
  {
    PublishStep(s);
    PublishedTotals(s, CommitterStep(s));
  }

  lemma PublishedTotals(s: State, t: State)
    requires TotalsOk(s) && s.cpc == CPublish && 0 < s.count <= s.threads && s.count == |s.taken| <= |s.log|
    requires t == s.(cpc := t.cpc, request := t.request, cursor := t.cursor, commits := t.commits,
                     maxBatch := t.maxBatch, sizes := t.sizes)
    requires t.cpc == CMark && t.commits == s.commits + 1 && t.sizes == s.sizes + [s.count]
    requires s.count <= t.maxBatch && s.maxBatch <= t.maxBatch && (t.maxBatch == s.count || t.maxBatch == s.maxBatch)
    ensures TotalsOk(t)
  {
    TotalOneMore(s.sizes, s.count);
    assert Counted(t) == Counted(s) + s.count;
  }

  lemma PublishShape(s: State)
    requires s.cpc == CPublish && LinksOk(s)
    requires ThreadsOk(s) && MutexOk(s) && ListsOk(s) && MembersOk(s) && WalkOk(s)
    ensures ThreadsOk(CommitterStep(s)) && MutexOk(CommitterStep(s)) && ListsOk(CommitterStep(s))
    ensures MembersOk(CommitterStep(s)) && WalkOk(CommitterStep(s))
  {
    PublishThreads(s);
    PublishMembers(s);
    PublishWalk(s);
  }

  lemma PublishThreads(s: State)
    requires s.cpc == CPublish && LinksOk(s) && ThreadsOk(s) && MutexOk(s)
    ensures ThreadsOk(CommitterStep(s)) && MutexOk(CommitterStep(s))
  {
    PublishStep(s);
  }

  lemma PublishWalk(s: State)
    requires s.cpc == CPublish && LinksOk(s) && ListsOk(s) && WalkOk(s)
    ensures ListsOk(CommitterStep(s)) && WalkOk(CommitterStep(s))
  {
  }

  lemma PublishMembers(s: State)
    requires s.cpc == CPublish && LinksOk(s) && MembersOk(s)
    ensures MembersOk(CommitterStep(s))
  {
  }

  lemma PublishRest(s: State)
    requires s.cpc == CPublish && LinksOk(s)
    requires NumbersOk(s) && CommittedOk(s) && WakeupOk(s)
    ensures NumbersOk(CommitterStep(s)) && CommittedOk(CommitterStep(s)) && WakeupOk(CommitterStep(s))
  {
    HoldersUnmoved(s, CommitterStep(s));
  }

  // ----- marking the requests ----------------------------------------------------------

  /** One turn of the marking loop on the node at the cursor. */
  lemma MarkNode(s: State)
    requires s.cpc == CMark && s.request != Nil
    requires ListsOk(s) && WalkOk(s) && MembersOk(s)
    ensures s.cursor < |s.taken| && s.request == To(s.taken[s.cursor]) && s.taken[s.cursor] < |s.producers|
    ensures s.producers[s.taken[s.cursor]].next == LinkAt(s.taken, s.cursor + 1)
    ensures s.producers[s.taken[s.cursor]].pc in {Check, Waiting, Woken}
    ensures s.taken[s.cursor] in s.taken && s.taken[s.cursor] !in s.queue
  {
    assert s.taken[s.cursor] in s.taken;
  }

  lemma MarkThreads(s: State)
    requires s.cpc == CMark && LinksOk(s)
    requires ThreadsOk(s) && MutexOk(s) && ListsOk(s) && MembersOk(s) && WalkOk(s)
    ensures ThreadsOk(CommitterStep(s)) && MutexOk(CommitterStep(s))
  {
    if s.request != Nil {
      MarkNode(s);
      MarkedThreads(s, CommitterStep(s), s.taken[s.cursor]);
    } else {
      MarkingEnds(s, CommitterStep(s));
    }
  }

  lemma MarkedThreads(s: State, t: State, node: nat)
    requires s.cpc == CMark && ThreadsOk(s) && MutexOk(s)
    requires node < |s.producers| && s.producers[node].pc in {Check, Waiting, Woken}
    requires t == s.(producers := s.producers[node := s.producers[node].(committed := true)],
                     request := t.request, cursor := t.cursor)
    ensures ThreadsOk(t) && MutexOk(t)
  {
  }

  lemma MarkingEnds(s: State, t: State)
    requires s.cpc == CMark && ThreadsOk(s) && MutexOk(s) && t == s.(cpc := CBroadcast, taken := [])
    ensures ThreadsOk(t) && MutexOk(t)
  {
  }

  lemma MarkLists(s: State)
    requires s.cpc == CMark && LinksOk(s)
    requires ListsOk(s) && WalkOk(s)
    ensures ListsOk(CommitterStep(s))
  {
  }

  lemma MarkWalk(s: State)
    requires s.cpc == CMark && LinksOk(s)
    requires ListsOk(s) && MembersOk(s) && WalkOk(s)
    ensures WalkOk(CommitterStep(s))
  {
    if s.request != Nil {
      MarkNode(s);
    }
  }

  lemma MarkMembers(s: State)
    requires s.cpc == CMark && LinksOk(s)
    requires ThreadsOk(s) && MutexOk(s) && ListsOk(s) && MembersOk(s) && WalkOk(s)
    ensures MembersOk(CommitterStep(s))
  {
    if s.request != Nil {
      MarkNode(s);
      MarkOneMember(s);
    } else {
      MarkLastMember(s);
    }
  }

  lemma MarkOneMember(s: State)
    requires s.cpc == CMark && s.request != Nil && LinksOk(s)
    requires Distinct(s.taken) && MembersOk(s)
    requires s.cursor < |s.taken| && s.request == To(s.taken[s.cursor]) && s.taken[s.cursor] !in s.queue
    ensures MembersOk(CommitterStep(s))
  {
    var t, node := CommitterStep(s), s.taken[s.cursor];
    assert t.producers == s.producers[node := s.producers[node].(committed := true)];
    assert node in s.taken;
    forall p | p in t.queue ensures p < |t.producers| && Submitted(t.producers[p].pc) && !t.producers[p].committed {
      assert p != node;
    }
    forall i | 0 <= i < |t.taken| && t.taken[i] < |t.producers|
      ensures t.producers[t.taken[i]].committed <==> t.cpc == CMark && i < t.cursor
    {
      if i != s.cursor {
        assert s.taken[i] != node;
      }
    }
  }

  lemma MarkLastMember(s: State)
    requires s.cpc == CMark && s.request == Nil && LinksOk(s)
    requires ListsOk(s) && MembersOk(s) && WalkOk(s)
    ensures MembersOk(CommitterStep(s))
  {
    forall p | p in s.taken ensures p < |s.producers| && s.producers[p].committed {
      var i :| 0 <= i < |s.taken| && s.taken[i] == p;
      assert i < s.cursor;
    }
    MarkedAway(s, CommitterStep(s));
  }

  lemma MarkedAway(s: State, t: State)
    requires MembersOk(s) && t == s.(cpc := CBroadcast, taken := [])
    requires forall p :: p in s.taken ==> p < |s.producers| && s.producers[p].committed
    ensures MembersOk(t)
  {
  }

  lemma MarkNumbers(s: State)
    requires s.cpc == CMark && LinksOk(s) && NumbersOk(s)
    ensures NumbersOk(CommitterStep(s))
  {
    var t := CommitterStep(s);
    forall q | 0 <= q < |t.producers| && Holding(t, q) ensures Owned(t, q) {
      assert Holding(s, q);
    }
    forall n | 0 <= n < t.counter ensures n in t.log || HeldByOwner(t, n) {
      assert n in s.log || HeldByOwner(s, n);
    }
  }

  lemma MarkCommitted(s: State)
    requires s.cpc == CMark && LinksOk(s)
    requires ListsOk(s) && MembersOk(s) && WalkOk(s) && CommittedOk(s)
    ensures CommittedOk(CommitterStep(s))
  {
    if s.request != Nil {
      MarkNode(s);
      MarkOneCommitted(s, CommitterStep(s), s.taken[s.cursor]);
    } else {
      MarkedAll(s);
    }
  }

  lemma MarkedAll(s: State)
    requires s.cpc == CMark && s.request == Nil && LinksOk(s) && CommittedOk(s)
    ensures CommittedOk(CommitterStep(s))
  {
    assert s.log[..Synced(s)] == s.log;
  }

  lemma MarkOneCommitted(s: State, t: State, node: nat)
    requires s.cpc == CMark && s.cursor < |s.taken| && node == s.taken[s.cursor] < |s.producers|
    requires t == s.(producers := s.producers[node := s.producers[node].(committed := true)],
                     request := t.request, cursor := t.cursor)
    requires CommittedOk(s)
    ensures CommittedOk(t)
  {
    assert Sequences(t.producers, s.taken) == Sequences(s.producers, s.taken);
    assert s.log[..Synced(s)] == s.log && t.log[..Synced(t)] == s.log;
    InLogTail(s.log, |s.log| - |s.taken|, s.cursor, s.producers[node].sequence);
    forall p | 0 <= p < |t.producers| && (Submitted(t.producers[p].pc) || t.producers[p].pc == Unlock)
               && t.producers[p].committed
      ensures t.producers[p].sequence in s.log
    {
      if p != node {
        assert t.producers[p] == s.producers[p];
      }
    }
  }

  lemma InLogTail(log: seq<nat>, from: nat, i: nat, n: nat)
    requires from + i < |log| && log[from..][i] == n
    ensures n in log
  {
    assert log[from + i] == n;
  }

  lemma MarkRest(s: State)
    requires s.cpc == CMark && LinksOk(s) && WakeupOk(s) && MutexOk(s) && TotalsOk(s)
    ensures WakeupOk(CommitterStep(s)) && TotalsOk(CommitterStep(s))
  {
    SameLeft(s.producers, CommitterStep(s).producers);
  }

  // ----- waking the producers ----------------------------------------------------------

  lemma BroadcastShape(s: State)
    requires s.cpc == CBroadcast && LinksOk(s)
    requires ThreadsOk(s) && MutexOk(s) && WalkOk(s)
    ensures ThreadsOk(CommitterStep(s)) && MutexOk(CommitterStep(s)) && WalkOk(CommitterStep(s))
  {
  }

  lemma BroadcastLists(s: State)
    requires s.cpc == CBroadcast && LinksOk(s)
    requires ListsOk(s) && MembersOk(s)
    ensures ListsOk(CommitterStep(s)) && MembersOk(CommitterStep(s))
  {
  }

  lemma BroadcastRest(s: State)
    requires s.cpc == CBroadcast && LinksOk(s)
    requires NumbersOk(s) && CommittedOk(s) && WakeupOk(s) && TotalsOk(s) && MutexOk(s)
    ensures NumbersOk(CommitterStep(s)) && CommittedOk(CommitterStep(s))
    ensures WakeupOk(CommitterStep(s)) && TotalsOk(CommitterStep(s))
  {
    SameLeft(s.producers, CommitterStep(s).producers);
    BroadcastNumbers(s);
    BroadcastCommitted(s);
  }

  lemma BroadcastCommitted(s: State)
    requires s.cpc == CBroadcast && LinksOk(s) && CommittedOk(s)
    ensures CommittedOk(CommitterStep(s))
  {
  }

  lemma BroadcastNumbers(s: State)
    requires s.cpc == CBroadcast && LinksOk(s) && NumbersOk(s)
    ensures NumbersOk(CommitterStep(s))
  {
    var t := CommitterStep(s);
    forall q | 0 <= q < |t.producers| && Holding(t, q) ensures Owned(t, q) {
      assert Holding(s, q);
    }
    forall n | 0 <= n < t.counter ensures n in t.log || HeldByOwner(t, n) {
      assert n in s.log || HeldByOwner(s, n);
    }
  }

  lemma DetachInv(s: State)
    requires Inv(s) && s.cpc in {CDetach, CUnlock} && LinksOk(s)
    ensures Inv(CommitterStep(s))
  {
    DetachKeeps(s);
    DetachMembers(s);
    DetachNumbers(s);
    DetachRest(s);
  }

  lemma CollectInv(s: State)
    requires Inv(s) && s.cpc == CCollect && LinksOk(s)
    ensures Inv(CommitterStep(s))
  {
    var t := CommitterStep(s);
    CollectWalk(s);
    CollectStep(s);
    CollectRest(s);
    UnlockedAll(s, t);
  }

  lemma WriteInv(s: State)
    requires Inv(s) && s.cpc in {CWrite, CSync} && LinksOk(s)
    ensures Inv(CommitterStep(s))
  {
    var t := CommitterStep(s);
    UnlockedAll(s, t);
    WriteRest(s);
    if s.cpc == CWrite {
      WriteNumbers(s);
      WriteCommitted(s);
    } else {
      SyncKeeps(s);
    }
  }

  lemma PublishInv(s: State)
    requires Inv(s) && s.cpc == CPublish && LinksOk(s)
    ensures Inv(CommitterStep(s))
  {
    PublishShape(s);
    PublishRest(s);
    BatchFits(s);
    PublishTotals(s);
  }

  lemma MarkInv(s: State)
    requires Inv(s) && s.cpc == CMark && LinksOk(s)
    ensures Inv(CommitterStep(s))
  {
    MarkThreads(s);
    MarkLists(s);
    MarkWalk(s);
    MarkMembers(s);
    MarkNumbers(s);
    MarkCommitted(s);
    MarkRest(s);
  }

  lemma BroadcastInv(s: State)
    requires Inv(s) && s.cpc == CBroadcast && LinksOk(s)
    ensures Inv(CommitterStep(s))
  {
    BroadcastShape(s);
    BroadcastLists(s);
    BroadcastRest(s);
  }

  lemma MovingInv(s: State)
    requires Inv(s) && CommitterEnabled(s) && LinksOk(s) && Moving(s.cpc)
    ensures Inv(CommitterStep(s))
  {
    var t := CommitterStep(s);
    MovingStep(s);
    MovingShape(s);
    MovingMembers(s, t);
    MovingWalk(s);
    MovingNumbers(s, t);
    MovingCommitted(s, t);
    MovingWakeup(s);
    MovingTotals(s);
  }

  lemma CommitterKeeps(s: State)
    requires Inv(s) && CommitterEnabled(s) && LinksOk(s)
    ensures Inv(CommitterStep(s))
  {
    if Moving(s.cpc) {
      MovingInv(s);
    } else if s.cpc in {CDetach, CUnlock} {
      DetachInv(s);
    } else if s.cpc == CCollect {
      CollectInv(s);
    } else if s.cpc in {CWrite, CSync} {
      WriteInv(s);
    } else if s.cpc == CPublish {
      PublishInv(s);
    } else if s.cpc == CMark {
      MarkInv(s);
    } else {
      BroadcastInv(s);
    }
  }

  // ----- the main thread ---------------------------------------------------------------

  lemma BarrierKeeps(s: State)
    requires Inv(s) && s.mpc == MBarrier && MainEnabled(s)
    ensures Inv(MainStep(s))
  {
    BarrierLists(s);
    BarrierNumbers(s);
    BarrierRest(s);
  }

  /** Before the barrier opens nobody has submitted anything. */
  lemma BarrierLists(s: State)
    requires s.mpc == MBarrier && MainEnabled(s)
    requires ThreadsOk(s) && MutexOk(s) && ListsOk(s) && MembersOk(s) && WalkOk(s)
    ensures ThreadsOk(MainStep(s)) && MutexOk(MainStep(s)) && ListsOk(MainStep(s)) && MembersOk(MainStep(s))
    ensures WalkOk(MainStep(s)) && s.queue == [] && s.taken == []
  {
    NothingIn(s.queue);
    NothingIn(s.taken);
  }

  lemma BarrierNumbers(s: State)
    requires s.mpc == MBarrier && MainEnabled(s) && s.queue == [] && s.taken == []
    requires NumbersOk(s)
    ensures NumbersOk(MainStep(s))
  {
    var t := MainStep(s);
    forall n | 0 <= n < t.counter ensures n in t.log || HeldByOwner(t, n) {
      assert n in s.log;
    }
  }

  lemma BarrierRest(s: State)
    requires s.mpc == MBarrier && MainEnabled(s) && s.taken == []
    requires CommittedOk(s) && WakeupOk(s) && TotalsOk(s)
    ensures CommittedOk(MainStep(s)) && WakeupOk(MainStep(s)) && TotalsOk(MainStep(s))
  {
    SameLeft(s.producers, MainStep(s).producers);
  }

  /** Once every producer is done the counter has reached the number of operations. */
  lemma {:induction false} DoneLeavesNothing(producers: seq<Producer>)
    requires forall p :: 0 <= p < |producers| ==> producers[p].left == 0
    ensures TotalLeft(producers) == 0
  {
    if producers != [] {
      DoneLeavesNothing(producers[..|producers| - 1]);
    }
  }

  lemma StopShape(s: State)
    requires s.mpc != MBarrier && MainEnabled(s)
    requires ThreadsOk(s) && MutexOk(s) && ListsOk(s)
    ensures ThreadsOk(MainStep(s)) && MutexOk(MainStep(s)) && ListsOk(MainStep(s))
  {
  }

  lemma StopMembers(s: State)
    requires s.mpc != MBarrier && MainEnabled(s)
    requires MembersOk(s) && WalkOk(s)
    ensures MembersOk(MainStep(s)) && WalkOk(MainStep(s))
  {
  }

  lemma StopNumbers(s: State)
    requires s.mpc != MBarrier && MainEnabled(s)
    requires NumbersOk(s)
    ensures NumbersOk(MainStep(s))
  {
    HoldersUnmoved(s, MainStep(s));
  }

  lemma StopCommitted(s: State)
    requires s.mpc != MBarrier && MainEnabled(s)
    requires CommittedOk(s)
    ensures CommittedOk(MainStep(s))
  {
  }

  lemma StopWakeup(s: State)
    requires s.mpc != MBarrier && MainEnabled(s)
    requires ThreadsOk(s) && MutexOk(s) && WakeupOk(s)
    ensures WakeupOk(MainStep(s))
  {
  }

  lemma StopTotals(s: State)
    requires s.mpc != MBarrier && MainEnabled(s)
    requires ThreadsOk(s) && TotalsOk(s)
    ensures TotalsOk(MainStep(s))
  {
    if s.mpc == MJoin {
      DoneLeavesNothing(s.producers);
    }
  }

  lemma MainKeeps(s: State)
    requires Inv(s) && MainEnabled(s)
    ensures Inv(MainStep(s))
  {
    if s.mpc == MBarrier {
      BarrierKeeps(s);
    } else {
      StopShape(s);
      StopMembers(s);
      StopNumbers(s);
      StopCommitted(s);
      StopWakeup(s);
      StopTotals(s);
    }
  }

  // ----- spurious wakeups --------------------------------------------------------------

  lemma SpuriousProducerKeeps(s: State, p: nat)
    requires Inv(s) && p < |s.producers| && s.producers[p].pc == Waiting
    ensures Inv(s.(producers := At(s, p, Woken)))
  {
    var t := s.(producers := At(s, p, Woken));
    PrivateLists(s, t, p);
    PrivateMembers(s, t, p);
    PrivateWalk(s, t, p);
    SpuriousProducerRest(s, p);
    SpuriousProducerNumbers(s, p);
  }

  lemma SpuriousProducerRest(s: State, p: nat)
    requires p < |s.producers| && s.producers[p].pc == Waiting
    requires ThreadsOk(s) && MutexOk(s) && WakeupOk(s) && TotalsOk(s)
    ensures ThreadsOk(s.(producers := At(s, p, Woken))) && MutexOk(s.(producers := At(s, p, Woken)))
    ensures WakeupOk(s.(producers := At(s, p, Woken))) && TotalsOk(s.(producers := At(s, p, Woken)))
  {
    SameLeft(s.producers, At(s, p, Woken));
  }

  lemma SpuriousProducerNumbers(s: State, p: nat)
    requires p < |s.producers| && s.producers[p].pc == Waiting
    requires NumbersOk(s) && CommittedOk(s)
    ensures NumbersOk(s.(producers := At(s, p, Woken))) && CommittedOk(s.(producers := At(s, p, Woken)))
  {
    var t := s.(producers := At(s, p, Woken));
    assert Sequences(t.producers, s.taken) == Sequences(s.producers, s.taken);
    forall q | 0 <= q < |t.producers| && Holding(t, q) ensures Owned(t, q) {
      assert Holding(s, q);
    }
    forall n | 0 <= n < t.counter ensures n in t.log || HeldByOwner(t, n) {
      assert n in s.log || HeldByOwner(s, n);
    }
  }

  lemma SpuriousCommitterKeeps(s: State)
    requires Inv(s) && s.cpc == CWaiting
    ensures Inv(s.(cpc := CWoken))
  {
    var t := s.(cpc := CWoken);
    assert Moved(s, t);
    MovingMembers(s, t);
    MovingNumbers(s, t);
    MovingCommitted(s, t);
    assert ThreadsOk(t) && MutexOk(t) && ListsOk(t) && WalkOk(t) && WakeupOk(t) && TotalsOk(t);
  }

  /** Every step of every thread keeps the invariant. */
  lemma StepKeeps(s: State, step: Step)
    requires Inv(s) && Enabled(s, step) && LinksOk(s)
    ensures Inv(Next(s, step))
  {
    match step
    case ByP(p) => ProducerKeeps(s, p);
    case ByC => CommitterKeeps(s);
    case ByM => MainKeeps(s);
    case SpuriousP(p) => SpuriousProducerKeeps(s, p);
    case SpuriousC => SpuriousCommitterKeeps(s);
  }

  /** The quotas of the producers add up to the operations asked for. */
  lemma {:induction false} QuotasAddUp(operations: nat, threads: nat, producers: seq<Producer>)
    requires threads > 0 && |producers| <= threads
    requires forall p :: 0 <= p < |producers| ==> producers[p].left == Quota(operations, threads, p)
    ensures var n, r := |producers|, operations % threads;
            TotalLeft(producers) == n * (operations / threads) + (if n < r then n else r)
  {
    if producers != [] {
      var last := |producers| - 1;
      QuotasAddUp(operations, threads, producers[..last]);
      assert (last + 1) * (operations / threads) == last * (operations / threads) + operations / threads;
    }
  }

  lemma InitialInv(operations: nat, threads: nat)
    requires threads > 0
    ensures Inv(Initial(operations, threads))
  {
    var s := Initial(operations, threads);
    QuotasAddUp(operations, threads, s.producers);
    assert operations == threads * (operations / threads) + operations % threads;
    assert ThreadsOk(s) && MutexOk(s) && ListsOk(s) && MembersOk(s) && WalkOk(s);
    assert NumbersOk(s) && CommittedOk(s) && WakeupOk(s) && TotalsOk(s);
  }
}
