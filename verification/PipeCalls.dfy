/**
What the calls on the pipe answer, in terms of the byte queue: which calls the test under the lock
lets through, how many bytes they move, and how a call can end.
*/
module PipeCalls {
  import opened Kernel
  import opened PipeProtocol
  import Ring

  /** There is something to read for a reader, or room for a byte for a writer. */
  predicate CanBeServed(s: State, t: Tid)
    requires RangeOk(s) && t in s.threads
  {
    if s.threads[t].role == Reader then Queue(s) != [] else |Queue(s)| < |s.buf| - 1
  }

  /** The test under the lock lets a call through exactly if it can be served. */
  lemma TestAnswers(s: State, t: Tid)
    requires RingInv(s) && At(s, t, Testing)
    ensures Apply(s, Test(t)).threads[t].pc == if CanBeServed(s, t) then CanMove else MustWait
  {
    assert s.lock == Some(t);
    Ring.SpaceFreeComplementsContents(s.buf, s.rp, s.wp);
  }

  /** A read moves what is asked for, what is queued or what is left of the buffer, whichever is least. */
  lemma ReadMoves(s: State, t: Tid)
    requires RingInv(s) && At(s, t, CanMove) && s.threads[t].role == Reader && Defined(s, Move(t))
    ensures RangeOk(Apply(s, Move(t)))
    ensures
      var s' := Apply(s, Move(t));
      var k := Min(s.threads[t].count, Min(|Queue(s)|, |s.buf| - s.rp));
      && s'.delivered == s.delivered + Queue(s)[..k] && s'.accepted == s.accepted
      && Queue(s') == Queue(s)[k..]
      && (s.threads[t].count > 0 ==> k > 0)
  {
    assert s.lock == Some(t);
    MoveStaysInRange(s, t);
    FrontIsTaken(s, t);
  }

  lemma FrontIsTaken(s: State, t: Tid)
    requires s.rp < |s.buf| && s.wp < |s.buf| && s.rp != s.wp
    requires At(s, t, CanMove) && s.threads[t].role == Reader && Defined(s, Move(t))
    ensures
      var s', queue := Apply(s, Move(t)), Ring.Contents(s.buf, s.rp, s.wp);
      var k := Min(s.threads[t].count, Min(|queue|, |s.buf| - s.rp));
      && s'.buf == s.buf && s'.wp == s.wp && s'.rp == s.rp + k && s'.rp <= |s.buf|
      && s'.delivered == s.delivered + queue[..k] && s'.accepted == s.accepted
      && Ring.Contents(s.buf, Ring.Wrap(|s.buf|, s'.rp), s.wp) == queue[k..]
      && (s.threads[t].count > 0 ==> k > 0)
  {
    Ring.ReadTakesFront(s.buf, s.rp, s.wp, s.threads[t].count);
  }

  /** A write moves what is offered, what fits or what is left of the buffer, whichever is least. */
  lemma WriteMoves(s: State, t: Tid)
    requires RingInv(s) && At(s, t, CanMove) && s.threads[t].role == Writer && Defined(s, Move(t))
    ensures RangeOk(Apply(s, Move(t))) && |Queue(s)| < |s.buf|
    ensures
      var s' := Apply(s, Move(t));
      var sent := s.threads[t].data[..Min(|s.threads[t].data|, Min(|s.buf| - 1 - |Queue(s)|, |s.buf| - s.wp))];
      && s'.accepted == s.accepted + sent && s'.delivered == s.delivered
      && Queue(s') == Queue(s) + sent
      && (s.threads[t].data != [] ==> sent != [])
  {
    assert s.lock == Some(t);
    MoveStaysInRange(s, t);
    Ring.SpaceFreeComplementsContents(s.buf, s.rp, s.wp);
    BackIsAdded(s, t);
  }

  lemma BackIsAdded(s: State, t: Tid)
    requires s.rp < |s.buf| && s.wp < |s.buf| && Ring.SpaceFree(|s.buf|, s.rp, s.wp) > 0
    requires At(s, t, CanMove) && s.threads[t].role == Writer
    ensures |Ring.Contents(s.buf, s.rp, s.wp)| < |s.buf|
    ensures
      var s', queue, data := Apply(s, Move(t)), Ring.Contents(s.buf, s.rp, s.wp), s.threads[t].data;
      var sent := data[..Min(|data|, Min(|s.buf| - 1 - |queue|, |s.buf| - s.wp))];
      && |s'.buf| == |s.buf| && s'.rp == s.rp && s'.wp == s.wp + |sent| && s'.wp <= |s.buf|
      && s'.accepted == s.accepted + sent && s'.delivered == s.delivered
      && Ring.Contents(s'.buf, s.rp, Ring.Wrap(|s.buf|, s'.wp)) == queue + sent
      && (data != [] ==> sent != [])
  {
    Ring.WriteCountIs(s.buf, s.rp, s.wp, |s.threads[t].data|);
    Ring.WriteOutcome(s.buf, s.rp, s.wp, s.threads[t].data);
  }

  /** A call ends by moving bytes and waking the others, by giving up, by a fault or by a signal. */
  lemma CallsEnd(s: State, a: Action, t: Tid)
    requires |s.buf| > 0 && Enabled(s, a) && Defined(s, a) && t in s.threads && t !in Apply(s, a).threads
    ensures a.t == t
    ensures
      var th := s.threads[t];
      || (a.Wake? && th.pc == Waking)
      || (a.GiveUp? && th.pc == Released && th.nonblock)
      || (a.Unlock? && (th.pc == Faulted || th.pc == ResetDone))
      || (a.Interrupt? && (th.pc == WantLock || th.pc.Waiting?))
  {
    if a.t != t {
      OthersKept(s, a, t);
    }
  }

  // Looking back in a run

  lemma RunStep(states: seq<State>, actions: seq<Action>, i: nat)
    requires IsRun(states, actions) && i < |actions|
    ensures RingInv(states[i]) && Enabled(states[i], actions[i]) && Defined(states[i], actions[i])
    ensures states[i + 1] == Apply(states[i], actions[i])
  {
    PathKeepsRing(states, actions, i);
    assert StepAt(states, actions, i);
    StepIsDefined(states[i], actions[i]);
  }

  /** What other threads do leaves a thread alone, except that they may wake it. */
  predicate SameUpToWaking(th: Thread, th': Thread) {
    th' == th || (th.pc.Waiting? && th'.pc.Waiting? && th' == th.(pc := th'.pc))
  }

  /** The last step of thread `t` itself, after which others may only have woken it. */
  lemma {:induction false} LastOwnStep(states: seq<State>, actions: seq<Action>, i: nat, t: Tid) returns (j: nat)
    requires IsRun(states, actions) && i < |states| && t in states[i].threads
    ensures j < i && actions[j].t == t && t in states[j + 1].threads
    ensures forall m :: j < m < i ==> actions[m].t != t
    ensures SameUpToWaking(states[j + 1].threads[t], states[i].threads[t])
  {
    RunStep(states, actions, i - 1);
    if actions[i - 1].t == t {
      j := i - 1;
    } else {
      OthersKept(states[i - 1], actions[i - 1], t);
      j := LastOwnStep(states, actions, i - 1, t);
    }
  }

  lemma JoinsQueue(s: State, a: Action)
    requires |s.buf| > 0 && Enabled(s, a) && Defined(s, a) && OnQueue(Apply(s, a), a.t)
    ensures a.t in s.threads && Apply(s, a).threads[a.t].nonblock == s.threads[a.t].nonblock
    ensures OnQueue(s, a.t) || !s.threads[a.t].nonblock
  {
  }

  /** Only blocking calls wait. */
  lemma {:induction false} OnlyBlockingCallsQueue(states: seq<State>, actions: seq<Action>, i: nat, t: Tid)
    requires IsRun(states, actions) && i < |states| && OnQueue(states[i], t)
    ensures !states[i].threads[t].nonblock
  {
    RunStep(states, actions, i - 1);
    if actions[i - 1].t == t {
      JoinsQueue(states[i - 1], actions[i - 1]);
    } else {
      OthersKept(states[i - 1], actions[i - 1], t);
    }
    if OnQueue(states[i - 1], t) {
      OnlyBlockingCallsQueue(states, actions, i - 1, t);
    }
  }

  lemma BecomesReleased(s: State, a: Action)
    requires |s.buf| > 0 && Enabled(s, a) && Defined(s, a) && At(Apply(s, a), a.t, Released)
    ensures a.t in s.threads && Apply(s, a).threads[a.t].nonblock == s.threads[a.t].nonblock
    ensures (a.Unlock? && At(s, a.t, MustWait)) || OnQueue(s, a.t)
  {
  }

  lemma BecomesRefused(s: State, a: Action)
    requires RingInv(s) && Enabled(s, a) && Defined(s, a) && At(Apply(s, a), a.t, MustWait)
    ensures a == Test(a.t) && a.t in s.threads && !CanBeServed(s, a.t)
  {
    assert a.Test?;
    TestAnswers(s, a.t);
  }

  lemma DroppedLockBefore(states: seq<State>, actions: seq<Action>, i: nat, t: Tid) returns (k: nat)
    requires IsRun(states, actions) && i < |states| && At(states[i], t, Released) && states[i].threads[t].nonblock
    ensures k < i && actions[k] == Unlock(t) && At(states[k], t, MustWait)
    ensures forall m :: k < m < i ==> actions[m].t != t
  {
    k := LastOwnStep(states, actions, i, t);
    RunStep(states, actions, k);
    BecomesReleased(states[k], actions[k]);
    if OnQueue(states[k], t) {
      OnlyBlockingCallsQueue(states, actions, k, t);
    }
  }

  lemma RefusedBefore(states: seq<State>, actions: seq<Action>, i: nat, t: Tid) returns (j: nat)
    requires IsRun(states, actions) && i < |states| && At(states[i], t, MustWait)
    ensures j < i && actions[j] == Test(t)
    ensures RangeOk(states[j]) && t in states[j].threads && !CanBeServed(states[j], t)
    ensures forall m :: j < m < i ==> actions[m].t != t
  {
    j := LastOwnStep(states, actions, i, t);
    RunStep(states, actions, j);
    BecomesRefused(states[j], actions[j]);
  }

  /**
  A call that gives up is a nonblocking one, and its last test found the queue empty, if it reads, or
  full, if it writes; since then it has only dropped the lock.
  */
  lemma GivesUpOnlyIfBlocked(states: seq<State>, actions: seq<Action>, i: nat) returns (j: nat)
    requires IsRun(states, actions) && i < |actions| && actions[i].GiveUp?
    ensures
      var t := actions[i].t;
      && t in states[i].threads && states[i].threads[t].nonblock
      && j < i && actions[j] == Test(t) && RangeOk(states[j]) && t in states[j].threads
      && (if states[j].threads[t].role == Reader then Queue(states[j]) == []
          else |Queue(states[j])| == |states[j].buf| - 1)
      && forall m :: j < m < i && actions[m].t == t ==> actions[m].Unlock?
  {
    var t := actions[i].t;
    RunStep(states, actions, i);
    var k := DroppedLockBefore(states, actions, i, t);
    j := RefusedBefore(states, actions, k, t);
    PipeIsFifo(states, actions, j);
  }

  lemma BecomesWaking(s: State, a: Action)
    requires |s.buf| > 0 && Enabled(s, a) && Defined(s, a) && At(Apply(s, a), a.t, Waking)
    ensures a == Unlock(a.t) && At(s, a.t, Wrapped)
  {
  }

  lemma BecomesWrapped(s: State, a: Action)
    requires |s.buf| > 0 && Enabled(s, a) && Defined(s, a) && At(Apply(s, a), a.t, Wrapped)
    ensures a == WrapPointer(a.t) && At(s, a.t, Moved)
  {
  }

  lemma BecomesMoved(s: State, a: Action)
    requires |s.buf| > 0 && Enabled(s, a) && Defined(s, a) && At(Apply(s, a), a.t, Moved)
    ensures a == Move(a.t) && At(s, a.t, CanMove)
  {
  }

  /** The step of thread `t` that led to where it stands on its way out. */
  lemma OwnStepBefore(states: seq<State>, actions: seq<Action>, i: nat, t: Tid) returns (j: nat)
    requires IsRun(states, actions) && i < |states| && t in states[i].threads
    requires var pc := states[i].threads[t].pc; pc.Waking? || pc.Wrapped? || pc.Moved?
    ensures j < i && forall m :: j < m < i ==> actions[m].t != t
    ensures At(states[i], t, Waking) ==> actions[j] == Unlock(t) && At(states[j], t, Wrapped)
    ensures At(states[i], t, Wrapped) ==> actions[j] == WrapPointer(t) && At(states[j], t, Moved)
    ensures At(states[i], t, Moved) ==> actions[j] == Move(t) && At(states[j], t, CanMove)
  {
    j := LastOwnStep(states, actions, i, t);
    RunStep(states, actions, j);
    if At(states[i], t, Waking) {
      BecomesWaking(states[j], actions[j]);
    } else if At(states[i], t, Wrapped) {
      BecomesWrapped(states[j], actions[j]);
    } else {
      BecomesMoved(states[j], actions[j]);
    }
  }

  /** A call that returns a count has moved bytes, and has since only wrapped the pointer and dropped the lock. */
  lemma ReturnsOnlyAfterMoving(states: seq<State>, actions: seq<Action>, i: nat) returns (j: nat)
    requires IsRun(states, actions) && i < |actions| && actions[i].Wake?
    ensures j < i && actions[j] == Move(actions[i].t) && At(states[j], actions[i].t, CanMove)
    ensures forall m :: j < m < i && actions[m].t == actions[i].t ==> actions[m].WrapPointer? || actions[m].Unlock?
  {
    var t := actions[i].t;
    RunStep(states, actions, i);
    var l := OwnStepBefore(states, actions, i, t);
    var k := OwnStepBefore(states, actions, l, t);
    j := OwnStepBefore(states, actions, k, t);
  }
}
