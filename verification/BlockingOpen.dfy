/**
The scullwuid device, whose open waits until the device is available to the caller, as a
transition system with any number of opening and closing threads.

The test before sleeping runs without the spinlock and is modelled load by load: the count,
the owner against the uid, the owner again against the euid, then the capability. Taking the
device sets the owner and bumps the count in two steps, which unlocked tests can tell apart.
*/
module BlockingOpen {
  import opened Kernel
  import opened UidOpen

  type Tid = nat

  type Handle = nat

  /** How far the unlocked test has come; each stage means the earlier tests all failed. */
  datatype Look = Nothing | SawBusy | NotUid | NotEuid

  datatype Pc =
    // open
    | WantLock
    | Testing                    // lock held
    | MustWait                   // lock held
    | Released
    | Waiting(woken: bool, look: Look, asleep: bool)
    | Granted                    // lock held; about to set the owner
    | Owning                     // lock held; about to bump the count
    | Opened                     // lock held; about to unlock
    // release
    | Closing(h: Handle)
    | InRelease(h: Handle)       // lock held; about to decrement
    | Decremented(last: bool)    // lock held
    | Waking                     // about to wake all waiters

  datatype Thread = Thread(cred: Cred, nonblock: bool, pc: Pc)

  datatype State = State(
    count: int, owner: nat, lock: Option<Tid>,
    threads: map<Tid, Thread>, handles: map<Handle, Cred>)

  datatype Action =
    | CallOpen(t: Tid, cred: Cred, nonblock: bool)
    | Acquire(t: Tid)
    | Test(t: Tid)
    | Unlock(t: Tid)
    | GiveUp(t: Tid)
    | Enqueue(t: Tid)
    | LookOn(t: Tid)
    | Resume(t: Tid)
    | Interrupt(t: Tid)
    | SetOwner(t: Tid)
    | Count(t: Tid, h: Handle)
    | CallRelease(t: Tid, h: Handle)
    | Decrement(t: Tid)
    | Wake(t: Tid)

  predicate IsInit(s: State) {
    s.count == 0 && s.lock == None && s.threads == map[] && s.handles == map[]
  }

  predicate At(s: State, t: Tid, pc: Pc) {
    t in s.threads && s.threads[t].pc == pc
  }

  predicate OnQueue(s: State, t: Tid) {
    t in s.threads && s.threads[t].pc.Waiting?
  }

  /** The handle a thread is releasing and that is still counted. */
  function Releasing(pc: Pc): Option<Handle> {
    if pc.Closing? || pc.InRelease? then Some(pc.h) else None
  }

  predicate Enabled(s: State, a: Action) {
    match a
    case CallOpen(t, _, _) => t !in s.threads
    case Acquire(t) => t in s.threads && (s.threads[t].pc == WantLock || s.threads[t].pc.Closing?) && s.lock == None
    case Test(t) => At(s, t, Testing)
    case Unlock(t) => At(s, t, MustWait) || At(s, t, Opened) || (t in s.threads && s.threads[t].pc.Decremented?)
    case GiveUp(t) => At(s, t, Released) && s.threads[t].nonblock
    case Enqueue(t) => At(s, t, Released) && !s.threads[t].nonblock
    case LookOn(t) => OnQueue(s, t) && !s.threads[t].pc.asleep
    case Resume(t) => OnQueue(s, t) && s.threads[t].pc.asleep && s.threads[t].pc.woken
    case Interrupt(t) => OnQueue(s, t)
    case SetOwner(t) => At(s, t, Granted)
    case Count(t, h) => At(s, t, Owning) && h !in s.handles
    case CallRelease(t, h) =>
      t !in s.threads && h in s.handles && forall u :: u in s.threads ==> Releasing(s.threads[u].pc) != Some(h)
    case Decrement(t) => t in s.threads && s.threads[t].pc.InRelease? && s.threads[t].pc.h in s.handles
    case Wake(t) => At(s, t, Waking)
  }

  function Goto(s: State, t: Tid, pc: Pc): State
    requires t in s.threads
  {
    s.(threads := s.threads[t := s.threads[t].(pc := pc)])
  }

  function Return(s: State, t: Tid): State {
    s.(threads := s.threads - {t})
  }

  /** One load of the unlocked test: pass and go for the lock, or one stage further towards sleep. */
  function LookFurther(s: State, c: Cred, pc: Pc): Pc
    requires pc.Waiting?
  {
    match pc.look
    case Nothing => if s.count == 0 then WantLock else pc.(look := SawBusy)
    case SawBusy => if s.owner == c.uid then WantLock else pc.(look := NotUid)
    case NotUid => if s.owner == c.euid then WantLock else pc.(look := NotEuid)
    case NotEuid => if c.override then WantLock else pc.(asleep := true)
  }

  function WakeAll(threads: map<Tid, Thread>): map<Tid, Thread> {
    map u | u in threads ::
      if threads[u].pc.Waiting? then threads[u].(pc := threads[u].pc.(woken := true)) else threads[u]
  }

  function Apply(s: State, a: Action): State
    requires Enabled(s, a)
  {
    match a
    case CallOpen(t, cred, nonblock) => s.(threads := s.threads[t := Thread(cred, nonblock, WantLock)])
    case Acquire(t) =>
      Goto(s, t, if s.threads[t].pc == WantLock then Testing else InRelease(s.threads[t].pc.h)).(lock := Some(t))
    case Test(t) => Goto(s, t, if Available(s.count, s.owner, s.threads[t].cred) then Granted else MustWait)
    case Unlock(t) =>
      match s.threads[t].pc {
        case MustWait => Goto(s, t, Released).(lock := None)
        case Decremented(last) => if last then Goto(s, t, Waking).(lock := None) else Return(s, t).(lock := None)
        case _ => Return(s, t).(lock := None)
      }
    case GiveUp(t) => Return(s, t)
    case Enqueue(t) => Goto(s, t, Waiting(false, Nothing, false))
    case LookOn(t) => Goto(s, t, LookFurther(s, s.threads[t].cred, s.threads[t].pc))
    case Resume(t) => Goto(s, t, Released)
    case Interrupt(t) => Return(s, t)
    case SetOwner(t) =>
      Goto(s, t, Owning).(owner := if s.count == 0 then s.threads[t].cred.uid else s.owner)
    case Count(t, h) =>
      Goto(s, t, Opened).(count := s.count + 1, handles := s.handles[h := s.threads[t].cred])
    case CallRelease(t, h) => s.(threads := s.threads[t := Thread(s.handles[h], false, Closing(h))])
    case Decrement(t) =>
      Goto(s, t, Decremented(s.count - 1 == 0)).(count := s.count - 1, handles := s.handles - {s.threads[t].pc.h})
    case Wake(t) => Return(s.(threads := WakeAll(s.threads)), t)
  }

  predicate Holds(pc: Pc) {
    pc.Testing? || pc.MustWait? || pc.Granted? || pc.Owning? || pc.Opened? || pc.InRelease? || pc.Decremented?
  }

  ghost predicate LockOk(s: State) {
    && (s.lock.Some? ==> s.lock.value in s.threads && Holds(s.threads[s.lock.value].pc))
    && (forall t :: t in s.threads && Holds(s.threads[t].pc) ==> s.lock == Some(t))
  }

  /** The count is the number of open handles, and each belongs to someone who may share. */
  ghost predicate HandlesOk(s: State) {
    && s.count == |s.handles|
    && (forall h :: h in s.handles ==> Shares(s.handles[h], s.owner))
  }

  /** Handles being released are open, and each is released by one thread only. */
  ghost predicate ReleasesOk(s: State) {
    && (forall t :: t in s.threads && Releasing(s.threads[t].pc).Some? ==> Releasing(s.threads[t].pc).value in s.handles)
    && (forall t, u :: t in s.threads && u in s.threads && t != u && Releasing(s.threads[t].pc).Some? ==>
          Releasing(s.threads[u].pc) != Releasing(s.threads[t].pc))
  }

  ghost predicate GrantsOk(s: State) {
    forall t :: t in s.threads ==>
      && (s.threads[t].pc == Granted ==> Available(s.count, s.owner, s.threads[t].cred))
      && (s.threads[t].pc == Owning ==> Shares(s.threads[t].cred, s.owner))
      && (s.threads[t].pc == Owning && s.count == 0 ==> s.owner == s.threads[t].cred.uid)
      && (s.threads[t].pc == Decremented(true) ==> s.count == 0)
  }

  /** Some release has made the device free and has yet to issue its wake-up. */
  predicate Owes(s: State, u: Tid) {
    u in s.threads && (s.threads[u].pc == Decremented(true) || s.threads[u].pc == Waking)
  }

  ghost predicate WakePending(s: State) {
    exists u :: Owes(s, u)
  }

  /** What the unlocked test has established is still so. */
  predicate LookOk(s: State, c: Cred, pc: Pc)
    requires pc.Waiting?
  {
    && (pc.look != Nothing ==> s.count > 0)
    && (pc.look in {NotUid, NotEuid} ==> s.owner != c.uid)
    && (pc.look == NotEuid ==> s.owner != c.euid)
  }

  ghost predicate QueuedOk(s: State, t: Tid)
    requires OnQueue(s, t)
  {
    var th := s.threads[t];
    && (th.pc.asleep ==> th.pc.look == NotEuid && !th.cred.override)
    && (!th.pc.woken ==> WakePending(s) || LookOk(s, th.cred, th.pc))
  }

  ghost predicate QueueOk(s: State) {
    forall t :: OnQueue(s, t) ==> QueuedOk(s, t)
  }

  ghost predicate Inv(s: State) {
    LockOk(s) && HandlesOk(s) && ReleasesOk(s) && GrantsOk(s) && QueueOk(s)
  }

  // Preservation

  lemma OthersHoldTheSame(s: State, a: Action, t: Tid)
    requires Enabled(s, a) && t != a.t
    ensures t in Apply(s, a).threads <==> t in s.threads
    ensures t in s.threads ==> Holds(Apply(s, a).threads[t].pc) == Holds(s.threads[t].pc)
  {
  }

  lemma LockHolderStays(s: State, a: Action)
    requires LockOk(s) && Enabled(s, a) && Apply(s, a).lock.Some? && Apply(s, a).lock.value != a.t
    ensures Apply(s, a).lock == s.lock
    ensures var t := s.lock.value; t in Apply(s, a).threads && Holds(Apply(s, a).threads[t].pc)
  {
    OthersHoldTheSame(s, a, Apply(s, a).lock.value);
  }

  lemma LockPreserved(s: State, a: Action)
    requires LockOk(s) && Enabled(s, a)
    ensures LockOk(Apply(s, a))
  {
    var s' := Apply(s, a);
    forall t | t in s'.threads && Holds(s'.threads[t].pc)
      ensures s'.lock == Some(t)
    {
      if t != a.t {
        OthersHoldTheSame(s, a, t);
      }
    }
    if s'.lock.Some? && s'.lock.value != a.t {
      LockHolderStays(s, a);
    }
  }

  lemma CountingAdds(s: State, t: Tid, h: Handle)
    requires HandlesOk(s) && GrantsOk(s) && Enabled(s, Count(t, h))
    ensures HandlesOk(Apply(s, Count(t, h)))
  {
    var s' := Apply(s, Count(t, h));
    assert s'.handles.Keys == s.handles.Keys + {h};
  }

  lemma DecrementRemoves(s: State, t: Tid)
    requires HandlesOk(s) && Enabled(s, Decrement(t))
    ensures HandlesOk(Apply(s, Decrement(t)))
  {
    var s' := Apply(s, Decrement(t));
    assert s.handles.Keys == s'.handles.Keys + {s.threads[t].pc.h};
  }

  lemma HandlesPreserved(s: State, a: Action)
    requires HandlesOk(s) && GrantsOk(s) && Enabled(s, a)
    ensures HandlesOk(Apply(s, a))
  {
    if a.Count? {
      CountingAdds(s, a.t, a.h);
    } else if a.Decrement? {
      DecrementRemoves(s, a.t);
    }
  }

  /** Only the thread that acts changes what it is releasing. */
  lemma OthersReleaseTheSame(s: State, a: Action, u: Tid)
    requires Enabled(s, a) && u in Apply(s, a).threads && u != a.t
    ensures u in s.threads && Releasing(Apply(s, a).threads[u].pc) == Releasing(s.threads[u].pc)
  {
  }

  /** The acting thread releases what it released before, or a handle nobody else releases. */
  lemma ActorReleases(s: State, a: Action)
    requires ReleasesOk(s) && Enabled(s, a) && a.t in Apply(s, a).threads
    requires Releasing(Apply(s, a).threads[a.t].pc).Some?
    ensures Releasing(Apply(s, a).threads[a.t].pc).value in Apply(s, a).handles
    ensures forall u :: u in s.threads && u != a.t ==>
      Releasing(s.threads[u].pc) != Releasing(Apply(s, a).threads[a.t].pc)
  {
  }

  /** A handle that another thread is releasing stays open. */
  lemma OthersHandlesStay(s: State, a: Action, u: Tid)
    requires ReleasesOk(s) && Enabled(s, a) && u in s.threads && u != a.t && Releasing(s.threads[u].pc).Some?
    ensures Releasing(s.threads[u].pc).value in Apply(s, a).handles
  {
    if a.Decrement? {
      assert Releasing(s.threads[a.t].pc) != Releasing(s.threads[u].pc);
    }
  }

  lemma ReleasesPreserved(s: State, a: Action)
    requires ReleasesOk(s) && Enabled(s, a)
    ensures ReleasesOk(Apply(s, a))
  {
    var s' := Apply(s, a);
    forall u | u in s'.threads && u != a.t
      ensures u in s.threads && Releasing(s'.threads[u].pc) == Releasing(s.threads[u].pc)
      ensures Releasing(s'.threads[u].pc).Some? ==> Releasing(s'.threads[u].pc).value in s'.handles
    {
      OthersReleaseTheSame(s, a, u);
      if Releasing(s.threads[u].pc).Some? {
        OthersHandlesStay(s, a, u);
      }
    }
    if a.t in s'.threads && Releasing(s'.threads[a.t].pc).Some? {
      ActorReleases(s, a);
    }
  }

  lemma GrantsPreserved(s: State, a: Action)
    requires LockOk(s) && GrantsOk(s) && Enabled(s, a)
    ensures GrantsOk(Apply(s, a))
  {
    var s' := Apply(s, a);
    forall t | t in s'.threads
      ensures s'.threads[t].pc == Granted ==> Available(s'.count, s'.owner, s'.threads[t].cred)
      ensures s'.threads[t].pc == Owning ==> Shares(s'.threads[t].cred, s'.owner)
      ensures s'.threads[t].pc == Decremented(true) ==> s'.count == 0
    {
      if t != a.t {
        assert t in s.threads;
      }
    }
  }

  lemma PendingKept(s: State, a: Action)
    requires WakePending(s) && Enabled(s, a) && !a.Wake?
    ensures WakePending(Apply(s, a))
  {
    var u :| Owes(s, u);
    assert Owes(Apply(s, a), u);
  }

  /** The next load of a thread's own test adds a fact that holds at that moment. */
  lemma OwnLookIsTrue(s: State, t: Tid)
    requires s.count >= 0 && QueueOk(s) && Enabled(s, LookOn(t)) && OnQueue(Apply(s, LookOn(t)), t)
    ensures QueuedOk(Apply(s, LookOn(t)), t)
  {
    assert QueuedOk(s, t);
    if WakePending(s) {
      PendingKept(s, LookOn(t));
    }
  }

  /** What a waiting thread saw stays true under other threads' steps, or a wake-up is on its way. */
  lemma OthersKeepLook(s: State, a: Action, t: Tid)
    requires QueueOk(s) && Enabled(s, a) && a.t != t && OnQueue(s, t) && OnQueue(Apply(s, a), t)
    ensures QueuedOk(Apply(s, a), t)
  {
    assert QueuedOk(s, t);
    if a.Decrement? && s.count == 1 {
      assert Owes(Apply(s, a), a.t);
    } else if WakePending(s) && !a.Wake? {
      PendingKept(s, a);
    }
  }

  lemma QueuedPreserved(s: State, a: Action, t: Tid)
    requires Inv(s) && Enabled(s, a) && OnQueue(Apply(s, a), t)
    ensures QueuedOk(Apply(s, a), t)
  {
    if a.t != t {
      OthersKeepLook(s, a, t);
    } else if a.LookOn? {
      OwnLookIsTrue(s, t);
    }
  }

  lemma InvPreserved(s: State, a: Action)
    requires Inv(s) && Enabled(s, a)
    ensures Inv(Apply(s, a))
  {
    LockPreserved(s, a);
    HandlesPreserved(s, a);
    ReleasesPreserved(s, a);
    GrantsPreserved(s, a);
    forall t | OnQueue(Apply(s, a), t)
      ensures QueuedOk(Apply(s, a), t)
    {
      QueuedPreserved(s, a, t);
    }
  }

  // Runs

  ghost predicate StepAt(states: seq<State>, actions: seq<Action>, i: nat)
    requires |states| == |actions| + 1 && i < |actions|
  {
    Enabled(states[i], actions[i]) && states[i + 1] == Apply(states[i], actions[i])
  }

  ghost predicate IsRun(states: seq<State>, actions: seq<Action>) {
    && |states| == |actions| + 1 && IsInit(states[0])
    && forall i: nat :: i < |actions| ==> StepAt(states, actions, i)
  }

  /**
  In every interleaving: the count is the number of open handles, and whoever holds a handle
  shares with the current owner.
  */
  lemma {:induction false} HandlesShareTheOwner(states: seq<State>, actions: seq<Action>, i: nat)
    requires IsRun(states, actions) && i < |states|
    ensures Inv(states[i])
    ensures states[i].count == |states[i].handles|
    ensures forall h :: h in states[i].handles ==> Shares(states[i].handles[h], states[i].owner)
  {
    if i > 0 {
      HandlesShareTheOwner(states, actions, i - 1);
      assert StepAt(states, actions, i - 1);
      InvPreserved(states[i - 1], actions[i - 1]);
    }
  }

  lemma OwnerKeptWhileOpen(s: State, a: Action)
    requires HandlesOk(s) && Enabled(s, a) && s.handles != map[]
    ensures Apply(s, a).owner == s.owner
  {
    var h :| h in s.handles;
    assert s.handles.Keys != {};
  }

  lemma StepKeepsOwner(states: seq<State>, actions: seq<Action>, j: nat)
    requires IsRun(states, actions) && j < |actions| && states[j].handles != map[]
    ensures states[j + 1].owner == states[j].owner
  {
    HandlesShareTheOwner(states, actions, j);
    assert StepAt(states, actions, j);
    OwnerKeptWhileOpen(states[j], actions[j]);
  }

  /** The owner does not change while some handle is open. */
  lemma {:induction false} OwnerIsConstantWhileOpen(states: seq<State>, actions: seq<Action>, i: nat, j: nat)
    requires IsRun(states, actions) && i <= j < |states|
    requires forall k :: i <= k < j ==> states[k].handles != map[]
    ensures states[j].owner == states[i].owner
    decreases j
  {
    if i < j {
      OwnerIsConstantWhileOpen(states, actions, i, j - 1);
      StepKeepsOwner(states, actions, j - 1);
    }
  }

  /** Who finds the device closed becomes its owner, by the real user id. */
  lemma FirstOpenerOwns(states: seq<State>, actions: seq<Action>, i: nat)
    requires IsRun(states, actions) && i < |actions| && actions[i].Count? && states[i].handles == map[]
    ensures
      var a := actions[i];
      && a.t in states[i].threads && states[i + 1].owner == states[i].threads[a.t].cred.uid
      && states[i + 1].handles == map[a.h := states[i].threads[a.t].cred]
  {
    HandlesShareTheOwner(states, actions, i);
    assert StepAt(states, actions, i);
  }

  // What the tests answer

  /** Nobody has the device open, or its owner is the caller's user or effective user, or root calls. */
  predicate MayOpen(s: State, c: Cred) {
    s.handles == map[] || s.owner == c.uid || s.owner == c.euid || c.override
  }

  /** The test under the lock lets a call through exactly if it may open the device. */
  lemma TestAnswers(s: State, t: Tid)
    requires HandlesOk(s) && At(s, t, Testing)
    ensures Apply(s, Test(t)).threads[t].pc == if MayOpen(s, s.threads[t].cred) then Granted else MustWait
  {
    assert s.handles == map[] <==> s.handles.Keys == {};
  }

  /** Four rounds of the unlocked test, as far as it gets. */
  function LookThrough(s: State, c: Cred, pc: Pc, rounds: nat): Pc
    decreases rounds
  {
    if rounds == 0 || !pc.Waiting? || pc.asleep then pc else LookThrough(s, c, LookFurther(s, c, pc), rounds - 1)
  }

  /** An unlocked test that nobody disturbs passes or puts the call to sleep, as the test under the lock would. */
  lemma UndisturbedLook(s: State, c: Cred, woken: bool)
    requires HandlesOk(s)
    ensures
      LookThrough(s, c, Waiting(woken, Nothing, false), 4) ==
      if MayOpen(s, c) then WantLock else Waiting(woken, NotEuid, true)
  {
    assert s.handles == map[] <==> s.handles.Keys == {};
    var pc := Waiting(woken, Nothing, false);
    LookRound(s, c, pc, 3);
    LookRound(s, c, pc.(look := SawBusy), 2);
    LookRound(s, c, pc.(look := NotUid), 1);
    LookRound(s, c, pc.(look := NotEuid), 0);
  }

  lemma LookRound(s: State, c: Cred, pc: Pc, rest: nat)
    requires pc.Waiting? && !pc.asleep
    ensures LookThrough(s, c, pc, rest + 1) == LookThrough(s, c, LookFurther(s, c, pc), rest)
    ensures LookThrough(s, c, WantLock, rest) == WantLock
    ensures LookThrough(s, c, pc.(asleep := true), rest) == pc.(asleep := true)
  {
  }

  /** An open ends only by opening the device, by giving up, or by a signal while it waits. */
  lemma CallsEnd(s: State, a: Action, t: Tid)
    requires Enabled(s, a) && t in s.threads && t !in Apply(s, a).threads
    ensures a.t == t
    ensures
      var th := s.threads[t];
      || (a.GiveUp? && th.pc == Released && th.nonblock)
      || (a.Interrupt? && th.pc.Waiting?)
      || (a.Unlock? && (th.pc == Opened || th.pc == Decremented(false)))
      || (a.Wake? && th.pc == Waking)
  {
  }

  /** The last step of thread `t` itself, after which others may only have woken it. */
  lemma {:induction false} LastOwnStep(states: seq<State>, actions: seq<Action>, i: nat, t: Tid) returns (j: nat)
    requires IsRun(states, actions) && i < |states| && t in states[i].threads
    ensures j < i && actions[j].t == t && t in states[j + 1].threads
    ensures forall m :: j < m < i ==> actions[m].t != t
    ensures states[i].threads[t] == states[j + 1].threads[t] || (OnQueue(states[i], t) && OnQueue(states[j + 1], t))
    ensures states[i].threads[t].nonblock == states[j + 1].threads[t].nonblock
    ensures states[i].threads[t].cred == states[j + 1].threads[t].cred
  {
    var s, a := states[i - 1], actions[i - 1];
    assert StepAt(states, actions, i - 1);
    if a.t == t {
      j := i - 1;
    } else {
      OthersKeepThread(s, a, t);
      j := LastOwnStep(states, actions, i - 1, t);
    }
  }

  lemma OthersKeepThread(s: State, a: Action, t: Tid)
    requires Enabled(s, a) && a.t != t && t in Apply(s, a).threads
    ensures t in s.threads
    ensures
      var th, th' := s.threads[t], Apply(s, a).threads[t];
      && (th' == th || (th.pc.Waiting? && th'.pc.Waiting?))
      && th'.nonblock == th.nonblock && th'.cred == th.cred
  {
  }

  lemma JoinsQueue(s: State, a: Action)
    requires Enabled(s, a) && OnQueue(Apply(s, a), a.t)
    ensures a.t in s.threads && Apply(s, a).threads[a.t].nonblock == s.threads[a.t].nonblock
    ensures OnQueue(s, a.t) || !s.threads[a.t].nonblock
  {
  }

  lemma QueuesFrom(s: State, a: Action, t: Tid)
    requires Enabled(s, a) && OnQueue(Apply(s, a), t)
    ensures t in s.threads && Apply(s, a).threads[t].nonblock == s.threads[t].nonblock
    ensures OnQueue(s, t) || !s.threads[t].nonblock
  {
    if a.t == t {
      JoinsQueue(s, a);
    } else {
      OthersKeepThread(s, a, t);
    }
  }

  lemma {:induction false} OnlyBlockingCallsQueue(states: seq<State>, actions: seq<Action>, i: nat, t: Tid)
    requires IsRun(states, actions) && i < |states| && OnQueue(states[i], t)
    ensures !states[i].threads[t].nonblock
  {
    var s, a := states[i - 1], actions[i - 1];
    assert StepAt(states, actions, i - 1);
    QueuesFrom(s, a, t);
    if OnQueue(s, t) {
      OnlyBlockingCallsQueue(states, actions, i - 1, t);
    }
  }

  /** A call is at `Released` after a refused test or after a wake-up. */
  lemma BecomesReleased(s: State, a: Action)
    requires Enabled(s, a) && At(Apply(s, a), a.t, Released)
    ensures a.t in s.threads && Apply(s, a).threads[a.t].nonblock == s.threads[a.t].nonblock
    ensures (a.Unlock? && At(s, a.t, MustWait)) || OnQueue(s, a.t)
  {
  }

  lemma BecomesRefused(s: State, a: Action)
    requires HandlesOk(s) && Enabled(s, a) && At(Apply(s, a), a.t, MustWait)
    ensures a == Test(a.t) && a.t in s.threads && !MayOpen(s, s.threads[a.t].cred)
  {
    assert a.Test?;
    TestAnswers(s, a.t);
  }

  lemma DroppedLockBefore(states: seq<State>, actions: seq<Action>, i: nat, t: Tid) returns (k: nat)
    requires IsRun(states, actions) && i < |states| && At(states[i], t, Released) && states[i].threads[t].nonblock
    ensures k < i && actions[k] == Unlock(t) && At(states[k], t, MustWait)
    ensures forall m :: k < m < i ==> actions[m].t != t
  {
    k := LastOwnStep(states, actions, i, t);
    assert StepAt(states, actions, k);
    BecomesReleased(states[k], actions[k]);
    if OnQueue(states[k], t) {
      OnlyBlockingCallsQueue(states, actions, k, t);
    }
  }

  lemma RefusedBefore(states: seq<State>, actions: seq<Action>, i: nat, t: Tid) returns (j: nat)
    requires IsRun(states, actions) && i < |states| && At(states[i], t, MustWait)
    ensures j < i && actions[j] == Test(t) && t in states[j].threads
    ensures !MayOpen(states[j], states[j].threads[t].cred)
    ensures forall m :: j < m < i ==> actions[m].t != t
  {
    j := LastOwnStep(states, actions, i, t);
    assert StepAt(states, actions, j);
    HandlesShareTheOwner(states, actions, j);
    BecomesRefused(states[j], actions[j]);
  }

  /** A call that gives up is nonblocking, and its last test found the device open for somebody else. */
  lemma GivesUpOnlyIfRefused(states: seq<State>, actions: seq<Action>, i: nat) returns (j: nat)
    requires IsRun(states, actions) && i < |actions| && actions[i].GiveUp?
    ensures
      var t := actions[i].t;
      && j < i && actions[j] == Test(t) && t in states[j].threads && t in states[i].threads
      && states[i].threads[t].nonblock && !MayOpen(states[j], states[j].threads[t].cred)
      && forall m :: j < m < i && actions[m].t == t ==> actions[m].Unlock?
  {
    var t := actions[i].t;
    assert StepAt(states, actions, i);
    var k := DroppedLockBefore(states, actions, i, t);
    j := RefusedBefore(states, actions, k, t);
  }

  predicate Sleeping(s: State, t: Tid) {
    OnQueue(s, t) && s.threads[t].pc.asleep && !s.threads[t].pc.woken
  }

  /** If the device is available to a sleeping opener, a release still owes its wake-up. */
  lemma NoLostWakeup(states: seq<State>, actions: seq<Action>, i: nat, t: Tid)
    requires IsRun(states, actions) && i < |states| && Sleeping(states[i], t)
    requires Available(states[i].count, states[i].owner, states[i].threads[t].cred)
    ensures WakePending(states[i])
  {
    HandlesShareTheOwner(states, actions, i);
    assert QueuedOk(states[i], t);
  }

  predicate IsInternal(a: Action) {
    !a.CallOpen? && !a.CallRelease? && !a.Interrupt?
  }

  lemma FreshHandle(handles: map<Handle, Cred>) returns (h: Handle)
    ensures h !in handles
  {
    var rest := handles.Keys;
    h := 0;
    while rest != {}
      invariant forall k :: k in handles && k !in rest ==> k < h
      decreases |rest|
    {
      var k :| k in rest;
      h := Max(h, k + 1);
      rest := rest - {k};
    }
  }

  lemma AwakeMeansEnabled(s: State, t: Tid) returns (a: Action)
    requires Inv(s) && t in s.threads && !Sleeping(s, t)
    requires s.threads[t].pc == WantLock || s.threads[t].pc.Closing? ==> s.lock == None
    ensures IsInternal(a) && Enabled(s, a)
  {
    match s.threads[t].pc {
      case WantLock => a := Acquire(t);
      case Testing => a := Test(t);
      case MustWait => a := Unlock(t);
      case Released => a := if s.threads[t].nonblock then GiveUp(t) else Enqueue(t);
      case Waiting(_, _, asleep) => a := if asleep then Resume(t) else LookOn(t);
      case Granted => a := SetOwner(t);
      case Owning =>
        var h := FreshHandle(s.handles);
        a := Count(t, h);
      case Opened => a := Unlock(t);
      case Closing(h) => a := Acquire(t);
      case InRelease(h) =>
        assert Releasing(s.threads[t].pc) == Some(h);
        a := Decrement(t);
      case Decremented(_) => a := Unlock(t);
      case Waking => a := Wake(t);
    }
  }

  /** All calls are stuck only if each one sleeps because somebody else has the device open. */
  lemma StuckOnlyWhileOpenElsewhere(states: seq<State>, actions: seq<Action>, i: nat)
    requires IsRun(states, actions) && i < |states|
    requires forall a :: IsInternal(a) ==> !Enabled(states[i], a)
    ensures
      var s := states[i];
      && s.lock == None
      && forall t :: t in s.threads ==>
           Sleeping(s, t) && s.handles != map[] && !Shares(s.threads[t].cred, s.owner)
  {
    var s := states[i];
    HandlesShareTheOwner(states, actions, i);
    if s.lock.Some? {
      var a := AwakeMeansEnabled(s, s.lock.value);
    }
    forall t | t in s.threads
      ensures Sleeping(s, t) && s.handles != map[] && !Shares(s.threads[t].cred, s.owner)
    {
      if !Sleeping(s, t) {
        var a := AwakeMeansEnabled(s, t);
      }
      if WakePending(s) {
        var u :| Owes(s, u);
        var a := AwakeMeansEnabled(s, u);
      }
      assert QueuedOk(s, t);
    }
  }
}
