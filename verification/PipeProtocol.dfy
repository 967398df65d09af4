/**
The scullpipe lock/sleep/wake protocol, as a transition system with any number of threads.

A thread is in the table `threads` while it executes a read, a write or an open. Every step of
the calls that another thread can observe is a separate action: taking and dropping the lock,
the test under the lock, joining the wait queue, each load of the unlocked test before sleeping,
going to sleep, moving a pointer, wrapping it, issuing the wake-up, and each of the two stores
with which an open resets the ring. The sequences `accepted` and `delivered` record the bytes
taken from writers and handed to readers since the last open, in the order in which the lock was
held.
*/
module PipeProtocol {
  import opened Kernel
  import Ring

  type Tid = nat

  datatype Role = Reader | Writer | Opener

  function Other(role: Role): Role {
    if role == Reader then Writer else Reader
  }

  /** What was loaded for one comparison of the pointers, so far. */
  datatype Loads = Loads(rp: Option<nat>, wp: Option<nat>) {
    predicate Complete() {
      rp.Some? && wp.Some?
    }
  }

  const NoLoads := Loads(None, None)

  /**
  The unlocked test in progress. A reader compares the pointers once. A writer, in the free space
  computation, compares them and, if they differ, subtracts them; for that, each pointer is loaded
  again or, as the fields are plain ones, the value at hand is used again.
  */
  datatype Look = Look(first: Loads, second: Loads) {
    predicate Subtracts(role: Role) {
      role == Writer && first.Complete() && first.rp != first.wp
    }

    /** The comparison has found the pointers equal, which settles the matter. */
    predicate IsEqual() {
      first.Complete() && first.rp == first.wp
    }

    /** All loads are done. */
    predicate Over(role: Role) {
      first.Complete() && (Subtracts(role) ==> second.Complete())
    }

    predicate CanLoadRp(role: Role, reuse: bool) {
      (first.rp == None && !reuse) || (Subtracts(role) && second.rp == None)
    }

    predicate CanLoadWp(role: Role, reuse: bool) {
      (first.wp == None && !reuse) || (Subtracts(role) && second.wp == None)
    }

    function WithRp(x: nat, reuse: bool): Look {
      if first.rp == None then this.(first := first.(rp := Some(x)))
      else this.(second := second.(rp := if reuse then first.rp else Some(x)))
    }

    function WithWp(x: nat, reuse: bool): Look {
      if first.wp == None then this.(first := first.(wp := Some(x)))
      else this.(second := second.(wp := if reuse then first.wp else Some(x)))
    }

    /** The verdict: nothing to read, or no space, as far as the loaded values tell. */
    predicate SaysBlocked(role: Role, n: nat)
      requires n > 0 && Over(role)
    {
      if role == Writer then
        if first.rp == first.wp then n == 1 else Ring.Gap(n, second.rp.value, second.wp.value) == 0
      else
        first.rp == first.wp
    }

    /** The second comparison starts after the first one. */
    predicate InOrder(role: Role) {
      second == NoLoads || Subtracts(role)
    }
  }

  datatype Pc =
    | WantLock   // about to take the lock
    | Testing    // lock held; about to test for data or space
    | MustWait   // lock held; nothing to do, about to drop the lock
    | Released   // lock dropped; about to give up or to join the wait queue
    | Waiting(woken: bool, look: Look, asleep: bool)
                 // on the wait queue
    | CanMove    // lock held; data or space is there
    | Faulted    // lock held; the user copy failed
    | Moved      // lock held; pointer advanced, not yet wrapped
    | Wrapped    // lock held; about to drop the lock
    | Waking     // lock dropped; about to wake the other side
    | Resetting  // lock held by an open; no pointer stored yet
    | HalfReset  // lock held by an open; `wp` is stored, `rp` is not
    | ResetDone  // lock held by an open; about to drop it

  /** A call in progress: a reader wants `count` bytes, a writer offers `data`. */
  datatype Thread = Thread(role: Role, pc: Pc, count: nat, data: seq<byte>, nonblock: bool)

  datatype State = State(
    buf: seq<byte>, rp: nat, wp: nat,
    lock: Option<Tid>, threads: map<Tid, Thread>,
    accepted: seq<byte>, delivered: seq<byte>)

  datatype Action =
    | Call(t: Tid, thread: Thread)
    | Acquire(t: Tid)
    | Test(t: Tid)
    | Unlock(t: Tid)
    | GiveUp(t: Tid)
    | FirstLook(t: Tid)
    | Enqueue(t: Tid)
    | LoadRp(t: Tid, reuse: bool)
    | LoadWp(t: Tid, reuse: bool)
    | Pass(t: Tid)
    | Sleep(t: Tid)
    | Resume(t: Tid)
    | Interrupt(t: Tid)
    | Fault(t: Tid, copied: nat)
    | Move(t: Tid)
    | WrapPointer(t: Tid)
    | Wake(t: Tid)
    | StoreWp(t: Tid)
    | StoreRp(t: Tid)

  predicate IsInit(s: State) {
    && |s.buf| > 0 && s.rp == s.wp == 0
    && s.lock == None && s.threads == map[]
    && s.accepted == s.delivered == []
  }

  /** The condition a call waits on: an empty ring for readers, a full one for writers. */
  predicate IsBlocked(role: Role, n: nat, rp: nat, wp: nat)
    requires n > 0
  {
    if role == Reader then rp == wp else Ring.SpaceFree(n, rp, wp) == 0
  }

  predicate At(s: State, t: Tid, pc: Pc) {
    t in s.threads && s.threads[t].pc == pc
  }

  predicate OnQueue(s: State, t: Tid) {
    t in s.threads && s.threads[t].pc.Waiting?
  }

  /** Thread `t` has finished its unlocked test and acts on it next. */
  predicate HasLooked(s: State, t: Tid) {
    OnQueue(s, t) && !s.threads[t].pc.asleep && s.threads[t].pc.look.Over(s.threads[t].role)
  }

  predicate SawBlocked(s: State, t: Tid)
    requires |s.buf| > 0 && OnQueue(s, t) && s.threads[t].pc.look.Over(s.threads[t].role)
  {
    s.threads[t].pc.look.SaysBlocked(s.threads[t].role, |s.buf|)
  }

  predicate Enabled(s: State, a: Action)
    requires |s.buf| > 0
  {
    match a
    case Call(t, th) => t !in s.threads && th.pc == WantLock
    case Acquire(t) => At(s, t, WantLock) && s.lock == None
    case Test(t) => At(s, t, Testing)
    case Unlock(t) => At(s, t, MustWait) || At(s, t, Wrapped) || At(s, t, Faulted) || At(s, t, ResetDone)
    case GiveUp(t) => At(s, t, Released) && s.threads[t].nonblock
    case FirstLook(t) => At(s, t, Released) && !s.threads[t].nonblock && s.threads[t].role == Reader
    case Enqueue(t) => At(s, t, Released) && !s.threads[t].nonblock
    case LoadRp(t, reuse) => OnQueue(s, t) && s.threads[t].pc.look.CanLoadRp(s.threads[t].role, reuse)
    case LoadWp(t, reuse) => OnQueue(s, t) && s.threads[t].pc.look.CanLoadWp(s.threads[t].role, reuse)
    case Pass(t) => HasLooked(s, t) && !SawBlocked(s, t)
    case Sleep(t) => HasLooked(s, t) && SawBlocked(s, t)
    case Resume(t) => OnQueue(s, t) && s.threads[t].pc.asleep && s.threads[t].pc.woken
    case Interrupt(t) => At(s, t, WantLock) || OnQueue(s, t)
    case Fault(t, copied) => At(s, t, CanMove)
    case Move(t) => At(s, t, CanMove)
    case WrapPointer(t) => At(s, t, Moved)
    case Wake(t) => At(s, t, Waking)
    case StoreWp(t) => At(s, t, Resetting)
    case StoreRp(t) => At(s, t, HalfReset)
  }

  /** The copies of `Move` and `Fault` stay inside the buffer. Nothing is known otherwise. */
  predicate Defined(s: State, a: Action)
    requires |s.buf| > 0 && Enabled(s, a)
  {
    a.Move? || a.Fault? ==>
      && s.rp < |s.buf| && s.wp < |s.buf|
      && Ring.SpaceFree(|s.buf|, s.rp, s.wp) >= 0
  }

  function Goto(s: State, t: Tid, pc: Pc): State
    requires t in s.threads
  {
    s.(threads := s.threads[t := s.threads[t].(pc := pc)])
  }

  function Return(s: State, t: Tid): State {
    s.(threads := s.threads - {t})
  }

  /** A wake-up on the queue of `role` reaches every thread waiting there. */
  function WakeQueue(threads: map<Tid, Thread>, role: Role): map<Tid, Thread> {
    map u | u in threads ::
      if threads[u].role == role && threads[u].pc.Waiting?
      then threads[u].(pc := threads[u].pc.(woken := true))
      else threads[u]
  }

  function Apply(s: State, a: Action): State
    requires |s.buf| > 0 && Enabled(s, a) && Defined(s, a)
  {
    var n := |s.buf|;
    match a
    case Call(t, th) => s.(threads := s.threads[t := th])
    case Acquire(t) => Goto(s, t, if s.threads[t].role == Opener then Resetting else Testing).(lock := Some(t))
    case Test(t) =>
      Goto(s, t, if IsBlocked(s.threads[t].role, n, s.rp, s.wp) then MustWait else CanMove)
    case Unlock(t) =>
      match s.threads[t].pc {
        case MustWait => Goto(s, t, Released).(lock := None)
        case Wrapped => Goto(s, t, Waking).(lock := None)
        case _ => Return(s, t).(lock := None)
      }
    case GiveUp(t) => Return(s, t)
    case FirstLook(t) => Goto(s, t, WantLock)
    case Enqueue(t) => Goto(s, t, Waiting(false, Look(NoLoads, NoLoads), false))
    case LoadRp(t, reuse) => Goto(s, t, s.threads[t].pc.(look := s.threads[t].pc.look.WithRp(s.rp, reuse)))
    case LoadWp(t, reuse) => Goto(s, t, s.threads[t].pc.(look := s.threads[t].pc.look.WithWp(s.wp, reuse)))
    case Pass(t) => Goto(s, t, WantLock)
    case Sleep(t) => Goto(s, t, s.threads[t].pc.(asleep := true))
    case Resume(t) => Goto(s, t, if s.threads[t].role == Reader then Released else WantLock)
    case Interrupt(t) => Return(s, t)
    case Fault(t, copied) =>
      var th := s.threads[t];
      var k := Ring.WriteCount(n, s.rp, s.wp, Min(copied, |th.data|));
      var s' := Goto(s, t, Faulted);
      if th.role == Reader then s' else s'.(buf := Overlay(s.buf, s.wp, th.data[..k]))
    case Move(t) =>
      var th := s.threads[t];
      if th.role == Reader then
        var k := Ring.ReadCount(n, s.rp, s.wp, th.count);
        Goto(s, t, Moved).(rp := s.rp + k, delivered := s.delivered + s.buf[s.rp..s.rp + k])
      else
        var k := Ring.WriteCount(n, s.rp, s.wp, |th.data|);
        Goto(s, t, Moved).(buf := Overlay(s.buf, s.wp, th.data[..k]),
                           wp := s.wp + k, accepted := s.accepted + th.data[..k])
    case WrapPointer(t) =>
      var s' := Goto(s, t, Wrapped);
      if s.threads[t].role == Reader
      then s'.(rp := Ring.Wrap(n, s.rp))
      else s'.(wp := Ring.Wrap(n, s.wp))
    case Wake(t) =>
      Return(s.(threads := WakeQueue(s.threads, Other(s.threads[t].role))), t)
    case StoreWp(t) => Goto(s, t, HalfReset).(wp := 0)
    case StoreRp(t) => Goto(s, t, ResetDone).(rp := 0, accepted := [], delivered := [])
  }

  /** One step. Where the copy would leave the buffer, anything may follow. */
  ghost predicate Next(s: State, a: Action, s': State) {
    |s.buf| > 0 && Enabled(s, a) && (Defined(s, a) ==> s' == Apply(s, a))
  }

  /** The lock belongs to the one thread that is between taking and dropping it. */
  predicate Holds(pc: Pc) {
    || pc.Testing? || pc.MustWait? || pc.CanMove? || pc.Faulted? || pc.Moved? || pc.Wrapped?
    || pc.Resetting? || pc.HalfReset? || pc.ResetDone?
  }

  ghost predicate LockOk(s: State) {
    && (s.lock.Some? ==> s.lock.value in s.threads && Holds(s.threads[s.lock.value].pc))
    && (forall t :: t in s.threads && Holds(s.threads[t].pc) ==> s.lock == Some(t))
  }

  /** Opens take their own path, and nobody else takes it. */
  predicate RoleOk(th: Thread) {
    && (th.role == Opener ==> th.pc.WantLock? || th.pc.Resetting? || th.pc.HalfReset? || th.pc.ResetDone?)
    && (th.pc.Resetting? || th.pc.HalfReset? || th.pc.ResetDone? ==> th.role == Opener)
  }

  ghost predicate RolesOk(s: State) {
    forall t :: t in s.threads ==> RoleOk(s.threads[t])
  }

  predicate HolderMoved(s: State, role: Role) {
    && s.lock.Some? && s.lock.value in s.threads
    && s.threads[s.lock.value].role == role && s.threads[s.lock.value].pc == Moved
  }

  /** An open has stored one of the two pointers. */
  predicate HalfWay(s: State) {
    s.lock.Some? && At(s, s.lock.value, HalfReset)
  }

  /** The read pointer, or what an open is about to make of it. */
  function SettledRp(s: State): nat {
    if HalfWay(s) then 0 else s.rp
  }

  /** The pointers are inside the buffer, except for the one its mover is about to wrap. */
  predicate RangeOk(s: State) {
    && s.rp <= |s.buf| && s.wp <= |s.buf| && |s.buf| > 0
    && (s.rp == |s.buf| ==> HolderMoved(s, Reader))
    && (s.wp == |s.buf| ==> HolderMoved(s, Writer) && s.rp > 0)
    && (HalfWay(s) ==> s.wp == 0)
  }

  ghost predicate CanMoveOk(s: State)
    requires |s.buf| > 0
  {
    forall t :: t in s.threads && s.threads[t].pc == CanMove ==>
      !IsBlocked(s.threads[t].role, |s.buf|, s.rp, s.wp)
  }

  function Queue(s: State): seq<byte>
    requires RangeOk(s)
  {
    Ring.Contents(s.buf, Ring.Wrap(|s.buf|, s.rp), Ring.Wrap(|s.buf|, s.wp))
  }

  /**
  Conservation: what was accepted is what was delivered, then what is still queued. Between the
  two stores of an open the pointers delimit nothing.
  */
  predicate FifoOk(s: State)
    requires RangeOk(s)
  {
    HalfWay(s) || s.accepted == s.delivered + Queue(s)
  }

  /** Thread `u` has moved a pointer and has yet to issue its wake-up. */
  predicate Owes(s: State, u: Tid, role: Role) {
    && u in s.threads && s.threads[u].role == role
    && (s.threads[u].pc.Moved? || s.threads[u].pc.Wrapped? || s.threads[u].pc.Waking?)
  }

  ghost predicate WakePending(s: State, role: Role) {
    exists u :: Owes(s, u, role)
  }

  /** What calls of this role wait for is absent, or will be once an open in progress is through. */
  predicate Blocked(s: State, role: Role)
    requires |s.buf| > 0
  {
    IsBlocked(role, |s.buf|, SettledRp(s), s.wp)
  }

  /** A reader that is not blocked has seen the present `wp`, and an `rp` that differs from it. */
  predicate ReaderLookOk(s: State, look: Look)
    requires |s.buf| > 0
  {
    || Blocked(s, Reader)
    || (&& (look.first.wp.Some? ==> look.first.wp.value == s.wp)
        && (look.first.rp.Some? ==> look.first.rp.value != s.wp))
  }

  /**
  A writer has seen the present `rp` where it has yet to settle on `wp`, and what it has loaded says
  "full", or may come to, only if the ring is full.
  */
  predicate Honest(n: nat, rp: nat, wp: nat, look: Look)
    requires n > 0
  {
    var full := IsBlocked(Writer, n, rp, wp);
    && (look.second.wp.None? && !look.IsEqual() ==>
          && (look.second.rp.Some? ==> look.second.rp.value == rp)
          && (look.second.rp.None? && look.first.rp.Some? ==> look.first.rp.value == rp)
          && (look.first.wp.Some? && Ring.Gap(n, rp, look.first.wp.value) == 0 ==> full))
    && (look.second.rp.None? && look.second.wp.Some? ==>
          && (Ring.Gap(n, rp, look.second.wp.value) == 0 ==> full)
          && (look.first.rp.Some? && Ring.Gap(n, look.first.rp.value, look.second.wp.value) == 0 ==> full))
    && (look.Over(Writer) && look.SaysBlocked(Writer, n) ==> full)
  }

  /** With `rp` about to become 0, the loads so far cannot end in "full", whatever is loaded when. */
  predicate WillPass(n: nat, rp: nat, look: Look)
    requires n > 0
  {
    if look.first.Complete() then
      || look.first.rp == look.first.wp
      || (if look.second.Complete() then !look.SaysBlocked(Writer, n)
          else look.second.rp.None? && look.second.wp.Some? && CannotSayFull(n, rp, look))
    else
      look.first.rp.None? && look.first.wp == Some(rp) && Ring.Gap(n, 0, rp) != 0
  }

  /** With `wp` settled, neither `rp`, nor 0, nor the `rp` of the comparison makes "full" of it. */
  predicate CannotSayFull(n: nat, rp: nat, look: Look)
    requires n > 0 && look.first.rp.Some? && look.second.wp.Some?
  {
    var y := look.second.wp.value;
    Ring.Gap(n, rp, y) != 0 && Ring.Gap(n, 0, y) != 0 && Ring.Gap(n, look.first.rp.value, y) != 0
  }

  predicate WriterLookOk(s: State, look: Look)
    requires |s.buf| > 0
  {
    if HalfWay(s) && s.rp != 0
    then WillPass(|s.buf|, s.rp, look)
    else Honest(|s.buf|, s.rp, s.wp, look)
  }

  /** What a queued thread has seen so far cannot send it to sleep wrongly. */
  predicate LookOk(s: State, t: Tid)
    requires |s.buf| > 0 && OnQueue(s, t)
  {
    if s.threads[t].role == Reader
    then ReaderLookOk(s, s.threads[t].pc.look)
    else WriterLookOk(s, s.threads[t].pc.look)
  }

  ghost predicate QueuedOk(s: State, t: Tid)
    requires |s.buf| > 0 && OnQueue(s, t)
  {
    var th := s.threads[t];
    && th.pc.look.InOrder(th.role)
    && (th.pc.asleep ==> th.pc.look.Over(th.role) && SawBlocked(s, t))
    && (!th.pc.woken ==> WakePending(s, Other(th.role)) || LookOk(s, t))
  }

  ghost predicate QueueOk(s: State)
    requires |s.buf| > 0
  {
    forall t :: OnQueue(s, t) ==> QueuedOk(s, t)
  }

  /** No writer is about to join the queue. */
  ghost predicate NoWriterComing(s: State) {
    forall t :: At(s, t, Released) && s.threads[t].role == Writer ==> s.threads[t].nonblock
  }

  ghost predicate ResetOk(s: State) {
    HalfWay(s) && s.rp != 0 ==> NoWriterComing(s)
  }

  /** The part of the invariant that holds whatever opens do. */
  ghost predicate RingInv(s: State) {
    RangeOk(s) && LockOk(s) && RolesOk(s) && CanMoveOk(s) && FifoOk(s)
  }

  ghost predicate Inv(s: State) {
    RingInv(s) && QueueOk(s) && ResetOk(s)
  }

  /** A sleeping thread that no wake-up has reached. */
  predicate Sleeping(s: State, t: Tid) {
    OnQueue(s, t) && s.threads[t].pc.asleep && !s.threads[t].pc.woken
  }

  /** The safety property of the sleep/wake protocol. */
  ghost predicate NoLostWakeup(s: State)
    requires |s.buf| > 0
  {
    forall t :: Sleeping(s, t) ==>
      Blocked(s, s.threads[t].role) || WakePending(s, Other(s.threads[t].role))
  }

  // When an open is safe

  /** An open would change what an unlocked look in progress may see: `rp` moves, or the ring is full. */
  predicate Doubtful(n: nat, rp: nat, wp: nat)
    requires n > 0
  {
    n >= 2 && (rp != 0 || IsBlocked(Writer, n, rp, wp))
  }

  /** An open that stores its pointers now could make this look end in "full" with the ring not full. */
  predicate AtRisk(n: nat, rp: nat, wp: nat, look: Look)
    requires n > 0
  {
    && n >= 2
    && if !look.first.Complete() then
         if look.first.wp == Some(rp) then Ring.Gap(n, 0, rp) == 0 else Doubtful(n, rp, wp)
       else if look.first.rp == look.first.wp then
         false
       else if look.second.Complete() then
         look.SaysBlocked(Writer, n)
       else if look.second.wp.Some? then
         !CannotSayFull(n, rp, look)
       else
         Doubtful(n, rp, wp)
  }

  /** An unwoken writer on the queue whose look is at risk. */
  predicate RiskyWriter(s: State, t: Tid)
    requires |s.buf| > 0
  {
    && OnQueue(s, t) && s.threads[t].role == Writer
    && !s.threads[t].pc.woken && AtRisk(|s.buf|, s.rp, s.wp, s.threads[t].pc.look)
  }

  /**
  What makes an open safe before it stores its pointers: no writer is about to join the queue and
  look, unless the stores do not matter, and no writer on the queue is at risk, unless a reader is
  about to wake them all.
  */
  ghost predicate OpenIsSafe(s: State)
    requires |s.buf| > 0
  {
    && (Doubtful(|s.buf|, s.rp, s.wp) ==> NoWriterComing(s))
    && (WakePending(s, Reader) || forall t :: !RiskyWriter(s, t))
  }

  // Preservation, one part of the invariant at a time

  lemma StepIsDefined(s: State, a: Action)
    requires RingInv(s) && Enabled(s, a)
    ensures Defined(s, a)
  {
    if a.Move? || a.Fault? {
      assert s.lock == Some(a.t);
      Ring.SpaceFreeComplementsContents(s.buf, s.rp, s.wp);
    }
  }

  /** The actions that move a pointer. */
  predicate MovesPointer(a: Action) {
    a.Move? || a.WrapPointer? || a.StoreWp? || a.StoreRp?
  }

  /** Another thread's step does at most one thing to thread `t`: it wakes it. */
  lemma OthersKept(s: State, a: Action, t: Tid)
    requires |s.buf| > 0 && Enabled(s, a) && Defined(s, a) && t != a.t
    ensures
      var s' := Apply(s, a);
      && (t in s'.threads <==> t in s.threads)
      && (t in s.threads ==>
            || s'.threads[t] == s.threads[t]
            || (OnQueue(s, t) && s'.threads[t] == s.threads[t].(pc := s.threads[t].pc.(woken := true))))
  {
  }

  /** A thread other than the acting one keeps the lock it has. */
  lemma LockHolderStays(s: State, a: Action)
    requires |s.buf| > 0 && LockOk(s) && Enabled(s, a) && Defined(s, a)
    requires Apply(s, a).lock.Some? && Apply(s, a).lock.value != a.t
    ensures Apply(s, a).lock == s.lock
    ensures var t := s.lock.value; t in Apply(s, a).threads && Holds(Apply(s, a).threads[t].pc)
  {
    OthersKept(s, a, Apply(s, a).lock.value);
  }

  /** Nobody else takes or drops the lock while it is held. */
  lemma OnlyHolderFrees(s: State, a: Action)
    requires |s.buf| > 0 && LockOk(s) && Enabled(s, a) && Defined(s, a) && s.lock.Some? && s.lock.value != a.t
    ensures Apply(s, a).lock == s.lock
  {
  }

  lemma LockPreserved(s: State, a: Action)
    requires |s.buf| > 0 && LockOk(s) && Enabled(s, a) && Defined(s, a)
    ensures LockOk(Apply(s, a))
  {
    var s' := Apply(s, a);
    forall t | t in s'.threads && Holds(s'.threads[t].pc)
      ensures s'.lock == Some(t)
    {
      if t != a.t {
        OthersKept(s, a, t);
        assert s.lock == Some(t);
        OnlyHolderFrees(s, a);
      }
    }
    if s'.lock.Some? && s'.lock.value != a.t {
      LockHolderStays(s, a);
    }
  }

  lemma RolesPreserved(s: State, a: Action)
    requires |s.buf| > 0 && RolesOk(s) && Enabled(s, a) && Defined(s, a)
    ensures RolesOk(Apply(s, a))
  {
    var s' := Apply(s, a);
    forall t | t in s'.threads
      ensures RoleOk(s'.threads[t])
    {
      if t != a.t {
        OthersKept(s, a, t);
        assert RoleOk(s.threads[t]);
      } else {
        ActorKeepsRole(s, a);
      }
    }
  }

  lemma ActorKeepsRole(s: State, a: Action)
    requires |s.buf| > 0 && Enabled(s, a) && Defined(s, a) && a.t in Apply(s, a).threads
    requires a.t in s.threads ==> RoleOk(s.threads[a.t])
    ensures RoleOk(Apply(s, a).threads[a.t])
  {
  }

  lemma MoveStaysInRange(s: State, t: Tid)
    requires RingInv(s) && At(s, t, CanMove) && Defined(s, Move(t))
    ensures RangeOk(Apply(s, Move(t))) && |Apply(s, Move(t)).buf| == |s.buf|
  {
    assert s.lock == Some(t) && s.threads[t].role != Opener;
    Ring.SpaceFreeComplementsContents(s.buf, s.rp, s.wp);
    if s.threads[t].role == Reader {
      Ring.ReadConsumesPrefix(s.buf, s.rp, s.wp, s.threads[t].count);
    } else {
      Ring.WriteMakesProgress(s.buf, s.rp, s.wp, |s.threads[t].data|);
    }
  }

  /** A step that moves no pointer is no step of a thread in the middle of moving one. */
  lemma PointersKept(s: State, a: Action)
    requires |s.buf| > 0 && LockOk(s) && Enabled(s, a) && Defined(s, a) && !MovesPointer(a)
    ensures
      var s' := Apply(s, a);
      && |s'.buf| == |s.buf| && s'.rp == s.rp && s'.wp == s.wp
      && s'.accepted == s.accepted && s'.delivered == s.delivered
      && (HalfWay(s') <==> HalfWay(s))
      && (forall role :: HolderMoved(s, role) ==> HolderMoved(s', role))
  {
    var s' := Apply(s, a);
    if s.lock.Some? && s.lock.value != a.t {
      OthersKept(s, a, s.lock.value);
      OnlyHolderFrees(s, a);
    }
  }

  lemma RangePreserved(s: State, a: Action)
    requires RingInv(s) && Enabled(s, a) && Defined(s, a)
    ensures RangeOk(Apply(s, a)) && |Apply(s, a).buf| == |s.buf|
  {
    if a.Move? {
      MoveStaysInRange(s, a.t);
    } else if MovesPointer(a) {
      assert s.lock == Some(a.t);
    } else {
      PointersKept(s, a);
    }
  }

  /** Only the lock holder can be about to move, so what it has tested still holds. */
  lemma CanMovePreserved(s: State, a: Action)
    requires |s.buf| > 0 && LockOk(s) && CanMoveOk(s) && Enabled(s, a) && Defined(s, a)
    ensures |Apply(s, a).buf| == |s.buf| && CanMoveOk(Apply(s, a))
  {
    var s' := Apply(s, a);
    forall t | t in s'.threads && s'.threads[t].pc == CanMove
      ensures !IsBlocked(s'.threads[t].role, |s'.buf|, s'.rp, s'.wp)
    {
      if At(s, t, CanMove) {
        assert s.lock == Some(t);
      }
    }
  }

  lemma DeliverPrefix(accepted: seq<byte>, delivered: seq<byte>, buf: seq<byte>, rp: nat, wp: nat, count: nat)
    requires rp < |buf| && wp < |buf| && rp != wp
    requires accepted == delivered + Ring.Contents(buf, rp, wp)
    ensures
      var k := Ring.ReadCount(|buf|, rp, wp, count);
      && rp + k <= |buf|
      && accepted == delivered + buf[rp..rp + k] + Ring.Contents(buf, Ring.Wrap(|buf|, rp + k), wp)
  {
    var k := Ring.ReadCount(|buf|, rp, wp, count);
    Ring.ReadConsumesPrefix(buf, rp, wp, count);
    Ring.TakeThenDrop(delivered, Ring.Contents(buf, rp, wp), k);
  }

  lemma ReadKeepsFifo(s: State, t: Tid)
    requires At(s, t, CanMove) && s.threads[t].role == Reader
    requires s.rp < |s.buf| && s.wp < |s.buf| && s.rp != s.wp && Defined(s, Move(t))
    requires s.accepted == s.delivered + Ring.Contents(s.buf, s.rp, s.wp)
    ensures
      var s' := Apply(s, Move(t));
      && s'.rp <= |s'.buf| && s'.wp < |s'.buf|
      && s'.accepted == s'.delivered + Ring.Contents(s'.buf, Ring.Wrap(|s'.buf|, s'.rp), s'.wp)
  {
    DeliverPrefix(s.accepted, s.delivered, s.buf, s.rp, s.wp, s.threads[t].count);
  }

  lemma AcceptSuffix(accepted: seq<byte>, delivered: seq<byte>, buf: seq<byte>, rp: nat, wp: nat, data: seq<byte>)
    requires rp < |buf| && wp < |buf| && Ring.SpaceFree(|buf|, rp, wp) > 0
    requires accepted == delivered + Ring.Contents(buf, rp, wp)
    ensures
      var sent := data[..Ring.WriteCount(|buf|, rp, wp, |data|)];
      && wp + |sent| <= |buf| && Ring.Wrap(|buf|, wp + |sent|) < |buf|
      && accepted + sent == delivered + Ring.Contents(Overlay(buf, wp, sent), rp, Ring.Wrap(|buf|, wp + |sent|))
  {
    var sent := data[..Ring.WriteCount(|buf|, rp, wp, |data|)];
    Ring.WriteMakesProgress(buf, rp, wp, |data|);
    Ring.WriteAppends(buf, rp, wp, sent);
    Ring.PlusAssoc(delivered, Ring.Contents(buf, rp, wp), sent);
  }

  lemma WriteKeepsFifo(s: State, t: Tid)
    requires At(s, t, CanMove) && s.threads[t].role != Reader
    requires s.rp < |s.buf| && s.wp < |s.buf| && Ring.SpaceFree(|s.buf|, s.rp, s.wp) > 0
    requires s.accepted == s.delivered + Ring.Contents(s.buf, s.rp, s.wp)
    ensures
      var s' := Apply(s, Move(t));
      && s'.rp < |s'.buf| && s'.wp <= |s'.buf|
      && s'.accepted == s'.delivered + Ring.Contents(s'.buf, s'.rp, Ring.Wrap(|s'.buf|, s'.wp))
  {
    AcceptSuffix(s.accepted, s.delivered, s.buf, s.rp, s.wp, s.threads[t].data);
  }

  lemma MoveKeepsFifo(s: State, t: Tid)
    requires RingInv(s) && At(s, t, CanMove) && Defined(s, Move(t))
    requires RangeOk(Apply(s, Move(t)))
    ensures FifoOk(Apply(s, Move(t)))
  {
    assert s.lock == Some(t);
    Ring.SpaceFreeComplementsContents(s.buf, s.rp, s.wp);
    if s.threads[t].role == Reader {
      ReadKeepsFifo(s, t);
    } else {
      WriteKeepsFifo(s, t);
    }
  }

  lemma FaultKeepsFifo(s: State, t: Tid, copied: nat)
    requires RingInv(s) && At(s, t, CanMove) && Defined(s, Fault(t, copied))
    requires RangeOk(Apply(s, Fault(t, copied)))
    ensures FifoOk(Apply(s, Fault(t, copied)))
  {
    var th := s.threads[t];
    assert s.lock == Some(t);
    if th.role != Reader {
      var count := Min(copied, |th.data|);
      Ring.SpaceFreeComplementsContents(s.buf, s.rp, s.wp);
      Ring.WriteMakesProgress(s.buf, s.rp, s.wp, count);
      Ring.FreePartIsInvisible(s.buf, s.rp, s.wp, th.data[..Ring.WriteCount(|s.buf|, s.rp, s.wp, count)]);
    }
  }

  lemma StoreKeepsFifo(s: State, a: Action)
    requires RingInv(s) && Enabled(s, a) && (a.WrapPointer? || a.StoreWp? || a.StoreRp?)
    requires RangeOk(Apply(s, a))
    ensures FifoOk(Apply(s, a))
  {
    assert s.lock == Some(a.t);
  }

  lemma SameBuffer(s: State, a: Action)
    requires |s.buf| > 0 && Enabled(s, a) && Defined(s, a) && !a.Move? && !a.Fault?
    ensures Apply(s, a).buf == s.buf
  {
  }

  lemma FifoPreserved(s: State, a: Action)
    requires RingInv(s) && Enabled(s, a) && Defined(s, a)
    requires RangeOk(Apply(s, a))
    ensures FifoOk(Apply(s, a))
  {
    if a.Move? {
      MoveKeepsFifo(s, a.t);
    } else if a.Fault? {
      FaultKeepsFifo(s, a.t, a.copied);
    } else if MovesPointer(a) {
      StoreKeepsFifo(s, a);
    } else {
      PointersKept(s, a);
      SameBuffer(s, a);
    }
  }

  /** Every step keeps the ring part of the invariant, unsafe opens included. */
  lemma RingInvPreserved(s: State, a: Action, s': State)
    requires RingInv(s) && Next(s, a, s')
    ensures RingInv(s') && |s'.buf| == |s.buf|
  {
    StepIsDefined(s, a);
    LockPreserved(s, a);
    RolesPreserved(s, a);
    RangePreserved(s, a);
    CanMovePreserved(s, a);
    FifoPreserved(s, a);
  }

  // What one load or store does to a look in progress

  lemma GapOfEqual(n: nat, x: nat)
    requires n > 0
    ensures Ring.Gap(n, x, x) == -1
  {
  }

  lemma LoadKeepsHonest(n: nat, rp: nat, wp: nat, look: Look, reuse: bool)
    requires n > 0 && look.InOrder(Writer) && Honest(n, rp, wp, look)
    requires n == 1 ==> IsBlocked(Writer, n, rp, wp)
    ensures look.CanLoadRp(Writer, reuse) ==>
              Honest(n, rp, wp, look.WithRp(rp, reuse)) && look.WithRp(rp, reuse).InOrder(Writer)
    ensures look.CanLoadWp(Writer, reuse) ==>
              Honest(n, rp, wp, look.WithWp(wp, reuse)) && look.WithWp(wp, reuse).InOrder(Writer)
  {
    GapOfEqual(n, rp);
  }

  lemma LoadKeepsPassing(n: nat, rp: nat, look: Look, reuse: bool)
    requires n > 0 && look.InOrder(Writer) && WillPass(n, rp, look)
    ensures look.CanLoadRp(Writer, reuse) ==>
              WillPass(n, rp, look.WithRp(rp, reuse)) && look.WithRp(rp, reuse).InOrder(Writer)
    ensures !look.CanLoadWp(Writer, reuse)
  {
  }

  lemma StoreWpIsHarmless(n: nat, rp: nat, wp: nat, look: Look)
    requires rp < n && look.InOrder(Writer) && Honest(n, rp, wp, look) && !AtRisk(n, rp, wp, look)
    ensures rp != 0 ==> WillPass(n, rp, look)
    ensures rp == 0 ==> Honest(n, 0, 0, look)
  {
  }

  lemma StoreRpIsHarmless(n: nat, rp: nat, look: Look)
    requires 0 < rp < n && look.InOrder(Writer) && WillPass(n, rp, look)
    ensures Honest(n, 0, 0, look)
  {
  }

  /** A write that finds space, or the wrap after it, leaves honest looks honest. */
  lemma WriteKeepsHonest(n: nat, rp: nat, wp: nat, wp': nat, look: Look)
    requires n > 0 && Honest(n, rp, wp, look)
    requires IsBlocked(Writer, n, rp, wp) ==> IsBlocked(Writer, n, rp, wp')
    ensures Honest(n, rp, wp', look)
  {
  }

  // The wait queues

  /** A pending wake-up stays pending until the thread that owes it issues it. */
  lemma PendingKept(s: State, a: Action, role: Role)
    requires |s.buf| > 0 && Enabled(s, a) && Defined(s, a)
    requires WakePending(s, role)
    requires !(a.Wake? && s.threads[a.t].role == role)
    ensures WakePending(Apply(s, a), role)
  {
    var u :| Owes(s, u, role);
    assert Owes(Apply(s, a), u, role);
  }

  /** A wake-up by the other side reaches `t`; otherwise what was pending for `t` still is. */
  lemma WokenOrPending(s: State, a: Action, t: Tid)
    requires |s.buf| > 0 && RolesOk(s) && Enabled(s, a) && Defined(s, a) && t != a.t && OnQueue(s, t)
    requires WakePending(s, Other(s.threads[t].role))
    ensures
      var s' := Apply(s, a);
      OnQueue(s', t) && (s'.threads[t].pc.woken || WakePending(s', Other(s.threads[t].role)))
  {
    var other := Other(s.threads[t].role);
    OthersKept(s, a, t);
    if !(a.Wake? && s.threads[a.t].role == other) {
      PendingKept(s, a, other);
    }
  }

  /** With one byte, the ring is full whenever no reader is on the move. */
  lemma OneByteIsFull(s: State)
    requires RangeOk(s) && |s.buf| == 1 && !WakePending(s, Reader)
    ensures s.rp == s.wp == 0 && IsBlocked(Writer, 1, s.rp, s.wp)
  {
    if s.rp == 1 {
      assert Owes(s, s.lock.value, Reader);
    }
  }

  lemma ReaderLoads(s: State, look: Look, reuse: bool)
    requires RangeOk(s) && look.InOrder(Reader) && ReaderLookOk(s, look)
    ensures look.CanLoadRp(Reader, reuse) ==>
              ReaderLookOk(s, look.WithRp(s.rp, reuse)) && look.WithRp(s.rp, reuse).InOrder(Reader)
    ensures look.CanLoadWp(Reader, reuse) ==>
              ReaderLookOk(s, look.WithWp(s.wp, reuse)) && look.WithWp(s.wp, reuse).InOrder(Reader)
  {
  }

  lemma WriterLoads(s: State, look: Look, reuse: bool)
    requires RangeOk(s) && look.InOrder(Writer) && WriterLookOk(s, look)
    requires !WakePending(s, Reader)
    ensures look.CanLoadRp(Writer, reuse) ==>
              WriterLookOk(s, look.WithRp(s.rp, reuse)) && look.WithRp(s.rp, reuse).InOrder(Writer)
    ensures look.CanLoadWp(Writer, reuse) ==>
              WriterLookOk(s, look.WithWp(s.wp, reuse)) && look.WithWp(s.wp, reuse).InOrder(Writer)
  {
    if |s.buf| == 1 {
      OneByteIsFull(s);
    }
    if HalfWay(s) && s.rp != 0 {
      LoadKeepsPassing(|s.buf|, s.rp, look, reuse);
    } else {
      LoadKeepsHonest(|s.buf|, s.rp, s.wp, look, reuse);
    }
  }

  /** A load by `t` itself. */
  lemma LoadKeepsQueued(s: State, a: Action)
    requires Inv(s) && Enabled(s, a) && Defined(s, a) && (a.LoadRp? || a.LoadWp?)
    ensures OnQueue(Apply(s, a), a.t) && QueuedOk(Apply(s, a), a.t)
  {
    var t := a.t;
    var th := s.threads[t];
    assert QueuedOk(s, t);
    PointersKept(s, a);
    if WakePending(s, Other(th.role)) {
      PendingKept(s, a, Other(th.role));
    } else if !th.pc.woken {
      if th.role == Reader {
        ReaderLoads(s, th.pc.look, a.reuse);
      } else {
        WriterLoads(s, th.pc.look, a.reuse);
      }
    }
  }

  /** Joining the queue or going to sleep. */
  lemma OwnStepKeepsQueued(s: State, a: Action)
    requires Inv(s) && Enabled(s, a) && Defined(s, a) && (a.Enqueue? || a.Sleep?)
    ensures OnQueue(Apply(s, a), a.t) && QueuedOk(Apply(s, a), a.t)
  {
    PointersKept(s, a);
    if a.Sleep? {
      assert QueuedOk(s, a.t);
      if WakePending(s, Other(s.threads[a.t].role)) {
        PendingKept(s, a, Other(s.threads[a.t].role));
      }
    }
  }

  /** A step of another thread that moves no pointer changes nothing for `t`, or wakes it. */
  lemma StandingStillKeepsQueued(s: State, a: Action, t: Tid)
    requires Inv(s) && Enabled(s, a) && Defined(s, a) && !MovesPointer(a)
    requires OnQueue(s, t) && t != a.t
    ensures OnQueue(Apply(s, a), t) && QueuedOk(Apply(s, a), t)
  {
    assert QueuedOk(s, t);
    PointersKept(s, a);
    OthersKept(s, a, t);
    if WakePending(s, Other(s.threads[t].role)) {
      WokenOrPending(s, a, t);
    }
  }

  /** A pointer that moves or wraps either owes `t` a wake-up or leaves alone what `t` relies on. */
  lemma MovingKeepsQueued(s: State, a: Action, t: Tid)
    requires Inv(s) && Enabled(s, a) && Defined(s, a) && (a.Move? || a.WrapPointer?)
    requires OnQueue(s, t)
    ensures OnQueue(Apply(s, a), t) && QueuedOk(Apply(s, a), t)
  {
    var s', role := Apply(s, a), s.threads[t].role;
    assert QueuedOk(s, t) && s.lock == Some(a.t);
    assert s'.threads[t] == s.threads[t];
    if s.threads[a.t].role == Other(role) {
      assert Owes(s', a.t, Other(role));
    } else if WakePending(s, Other(role)) {
      PendingKept(s, a, Other(role));
    } else if role == Writer {
      if a.WrapPointer? && s.wp == |s.buf| {
        Ring.SpaceFreeAcrossWrap(|s.buf|, s.rp);
      }
      if !s.threads[t].pc.woken {
        WriteKeepsHonest(|s.buf|, s.rp, s.wp, s'.wp, s.threads[t].pc.look);
      }
    }
  }

  /** The two stores of an open, as far as writers are concerned. */
  lemma StoreKeepsWriter(s: State, a: Action, t: Tid)
    requires Inv(s) && Enabled(s, a) && Defined(s, a) && (a.StoreWp? || a.StoreRp?)
    requires a.StoreWp? ==> !RiskyWriter(s, t)
    requires OnQueue(s, t) && s.threads[t].role == Writer && !s.threads[t].pc.woken && LookOk(s, t)
    ensures OnQueue(Apply(s, a), t) && LookOk(Apply(s, a), t)
  {
    var look := s.threads[t].pc.look;
    assert QueuedOk(s, t) && s.lock == Some(a.t);
    if a.StoreWp? {
      StoreWpIsHarmless(|s.buf|, s.rp, s.wp, look);
    } else if s.rp != 0 {
      StoreRpIsHarmless(|s.buf|, s.rp, look);
    }
  }

  lemma StoreKeepsQueued(s: State, a: Action, t: Tid)
    requires Inv(s) && Enabled(s, a) && Defined(s, a) && (a.StoreWp? || a.StoreRp?)
    requires a.StoreWp? ==> OpenIsSafe(s)
    requires OnQueue(s, t)
    ensures OnQueue(Apply(s, a), t) && QueuedOk(Apply(s, a), t)
  {
    var other := Other(s.threads[t].role);
    assert QueuedOk(s, t) && s.lock == Some(a.t);
    if WakePending(s, other) {
      PendingKept(s, a, other);
    } else if s.threads[t].role == Writer && !s.threads[t].pc.woken {
      StoreKeepsWriter(s, a, t);
    }
  }

  lemma QueuedPreserved(s: State, a: Action, t: Tid)
    requires Inv(s) && Enabled(s, a) && Defined(s, a)
    requires a.StoreWp? ==> OpenIsSafe(s)
    requires OnQueue(Apply(s, a), t)
    ensures |Apply(s, a).buf| > 0 && QueuedOk(Apply(s, a), t)
  {
    if a.Move? || a.WrapPointer? {
      MovingKeepsQueued(s, a, t);
    } else if a.StoreWp? || a.StoreRp? {
      StoreKeepsQueued(s, a, t);
    } else if t != a.t {
      StandingStillKeepsQueued(s, a, t);
    } else if a.LoadRp? || a.LoadWp? {
      LoadKeepsQueued(s, a);
    } else {
      assert a.Enqueue? || a.Sleep?;
      OwnStepKeepsQueued(s, a);
    }
  }

  /** A writer gets ready to join the queue only by dropping the lock. */
  lemma WriterReleasedBefore(s: State, a: Action, t: Tid)
    requires |s.buf| > 0 && Enabled(s, a) && Defined(s, a) && !(a.Unlock? && At(s, a.t, MustWait))
    requires At(Apply(s, a), t, Released) && Apply(s, a).threads[t].role == Writer
    ensures At(s, t, Released) && Apply(s, a).threads[t] == s.threads[t]
  {
    if t != a.t {
      OthersKept(s, a, t);
    }
  }

  /** While an open holds the lock, no writer comes to the queue anew. */
  lemma ResetPreserved(s: State, a: Action)
    requires RingInv(s) && ResetOk(s) && Enabled(s, a) && Defined(s, a)
    requires a.StoreWp? ==> OpenIsSafe(s)
    ensures ResetOk(Apply(s, a))
  {
    var s' := Apply(s, a);
    if HalfWay(s') && s'.rp != 0 {
      if !MovesPointer(a) {
        PointersKept(s, a);
      }
      forall t | At(s', t, Released) && s'.threads[t].role == Writer
        ensures s'.threads[t].nonblock
      {
        WriterReleasedBefore(s, a, t);
      }
    }
  }

  /** Every step keeps the whole invariant, the first store of an open if the open is safe. */
  lemma InvPreserved(s: State, a: Action, s': State)
    requires Inv(s) && Next(s, a, s')
    requires a.StoreWp? ==> OpenIsSafe(s)
    ensures Inv(s') && |s'.buf| == |s.buf|
  {
    RingInvPreserved(s, a, s');
    StepIsDefined(s, a);
    ResetPreserved(s, a);
    forall t | OnQueue(s', t)
      ensures QueuedOk(s', t)
    {
      QueuedPreserved(s, a, t);
    }
  }

  // Runs

  ghost predicate StepAt(states: seq<State>, actions: seq<Action>, i: nat)
    requires |states| == |actions| + 1 && i < |actions|
  {
    Next(states[i], actions[i], states[i + 1])
  }

  ghost predicate IsPath(states: seq<State>, actions: seq<Action>) {
    && |states| == |actions| + 1
    && forall i: nat :: i < |actions| ==> StepAt(states, actions, i)
  }

  ghost predicate IsRun(states: seq<State>, actions: seq<Action>) {
    IsPath(states, actions) && IsInit(states[0])
  }

  ghost predicate OpensAreSafe(states: seq<State>, actions: seq<Action>)
    requires |states| == |actions| + 1
  {
    forall i :: 0 <= i < |actions| && actions[i].StoreWp? ==> |states[i].buf| > 0 && OpenIsSafe(states[i])
  }

  /**
  Conservation over every run and every interleaving: since the last open, the bytes accepted
  from writers are the bytes delivered to readers followed by the queue, both pointers are in
  the buffer up to a wrap in progress, the space the driver computes complements the queue,
  and the queue never exceeds what one reserved slot leaves.
  */
  lemma PipeIsFifo(states: seq<State>, actions: seq<Action>, i: nat)
    requires IsRun(states, actions) && i < |states|
    ensures RingInv(states[i]) && |states[i].buf| == |states[0].buf|
    ensures
      var s := states[i];
      && (!HalfWay(s) ==> s.accepted == s.delivered + Queue(s))
      && |Queue(s)| < |s.buf|
      && Ring.SpaceFree(|s.buf|, Ring.Wrap(|s.buf|, s.rp), Ring.Wrap(|s.buf|, s.wp)) == |s.buf| - 1 - |Queue(s)|
  {
    PathKeepsRing(states, actions, i);
    var s := states[i];
    Ring.SpaceFreeComplementsContents(s.buf, Ring.Wrap(|s.buf|, s.rp), Ring.Wrap(|s.buf|, s.wp));
  }

  lemma {:induction false} InvHolds(states: seq<State>, actions: seq<Action>, i: nat)
    requires IsRun(states, actions) && OpensAreSafe(states, actions) && i < |states|
    ensures Inv(states[i]) && |states[i].buf| == |states[0].buf|
  {
    if i > 0 {
      InvHolds(states, actions, i - 1);
      assert StepAt(states, actions, i - 1);
      InvPreserved(states[i - 1], actions[i - 1], states[i]);
    }
  }

  /** A sleeping thread has looked, and what it saw is still true or a wake-up is owed. */
  lemma InvMeansNoLostWakeup(s: State)
    requires Inv(s)
    ensures NoLostWakeup(s)
  {
    forall t | Sleeping(s, t)
      ensures Blocked(s, s.threads[t].role) || WakePending(s, Other(s.threads[t].role))
    {
      assert QueuedOk(s, t);
    }
  }

  /** No wake-up is lost in any run whose opens are safe. */
  lemma NoRunLosesAWakeup(states: seq<State>, actions: seq<Action>, i: nat)
    requires IsRun(states, actions) && OpensAreSafe(states, actions) && i < |states|
    ensures |states[i].buf| > 0 && NoLostWakeup(states[i])
  {
    InvHolds(states, actions, i);
    InvMeansNoLostWakeup(states[i]);
  }

  /** With two slots or more, a reader and a writer never sleep at once unless a wake is coming. */
  lemma NeverBothAsleep(states: seq<State>, actions: seq<Action>, i: nat, reader: Tid, writer: Tid)
    requires IsRun(states, actions) && OpensAreSafe(states, actions) && i < |states|
    requires |states[0].buf| >= 2
    requires Sleeping(states[i], reader) && states[i].threads[reader].role == Reader
    requires Sleeping(states[i], writer) && states[i].threads[writer].role == Writer
    ensures WakePending(states[i], Reader) || WakePending(states[i], Writer)
  {
    InvHolds(states, actions, i);
    InvMeansNoLostWakeup(states[i]);
  }

  /** The actions that only need the scheduler: no new call, signal or bad address. */
  predicate IsInternal(a: Action) {
    !a.Call? && !a.Interrupt? && !a.Fault?
  }

  /** No call in progress can take a step on its own. */
  ghost predicate Stuck(s: State)
    requires |s.buf| > 0
  {
    forall a :: IsInternal(a) ==> !Enabled(s, a)
  }

  /** A thread that is not asleep can always move, except that it may need the lock. */
  lemma AwakeMeansEnabled(s: State, t: Tid) returns (a: Action)
    requires Inv(s) && t in s.threads && !Sleeping(s, t)
    requires s.threads[t].pc == WantLock ==> s.lock == None
    ensures IsInternal(a) && Enabled(s, a)
  {
    match s.threads[t].pc {
      case WantLock => a := Acquire(t);
      case Testing => a := Test(t);
      case MustWait => a := Unlock(t);
      case Released => a := if s.threads[t].nonblock then GiveUp(t) else Enqueue(t);
      case Waiting(woken, look, asleep) =>
        a := if asleep then Resume(t)
        else if look.CanLoadRp(s.threads[t].role, false) then LoadRp(t, false)
        else if look.CanLoadWp(s.threads[t].role, false) then LoadWp(t, false)
        else if SawBlocked(s, t) then Sleep(t)
        else Pass(t);
      case CanMove => a := Move(t);
      case Faulted => a := Unlock(t);
      case Moved => a := WrapPointer(t);
      case Wrapped => a := Unlock(t);
      case Waking => a := Wake(t);
      case Resetting => a := StoreWp(t);
      case HalfReset => a := StoreRp(t);
      case ResetDone => a := Unlock(t);
    }
  }

  /**
  The only way for all calls to be stuck is the intended one: the lock is free, every call in
  progress is asleep, and either all of them read and the ring is empty, or all of them write
  and it is full.
  */
  lemma StuckOnlyWhenNothingCanBeDone(states: seq<State>, actions: seq<Action>, i: nat)
    requires IsRun(states, actions) && OpensAreSafe(states, actions) && i < |states|
    requires |states[0].buf| >= 2
    requires |states[i].buf| > 0 && Stuck(states[i])
    ensures
      var s := states[i];
      && s.lock == None
      && (forall t :: t in s.threads ==> Sleeping(s, t))
      && RangeOk(s)
      && (|| (forall t :: t in s.threads ==> s.threads[t].role == Reader && Queue(s) == [])
          || (forall t :: t in s.threads ==> s.threads[t].role == Writer && |Queue(s)| == |s.buf| - 1))
  {
    var s := states[i];
    InvHolds(states, actions, i);
    InvMeansNoLostWakeup(s);
    if s.lock.Some? {
      var a := AwakeMeansEnabled(s, s.lock.value);
    }
    forall t | t in s.threads
      ensures Sleeping(s, t)
    {
      if !Sleeping(s, t) {
        var a := AwakeMeansEnabled(s, t);
      }
    }
    Ring.SpaceFreeComplementsContents(s.buf, s.rp, s.wp);
  }

  // What can follow a state

  /** How often a path empties the ring. */
  function Opens(actions: seq<Action>): nat {
    if actions == [] then 0
    else Opens(actions[..|actions| - 1]) + if actions[|actions| - 1].StoreWp? then 1 else 0
  }

  /** Some path from `s` ends in `s'`, with at most `opens` opens storing their pointers on the way. */
  ghost predicate Leads(s: State, s': State, opens: nat) {
    exists states: seq<State>, actions: seq<Action> ::
      IsPath(states, actions) && states[0] == s && states[|actions|] == s' && Opens(actions) <= opens
  }

  lemma LeadsToItself(s: State, opens: nat)
    ensures Leads(s, s, opens)
  {
    var states: seq<State>, actions: seq<Action> := [s], [];
    assert IsPath(states, actions) && states[|actions|] == s && Opens(actions) <= opens;
  }

  lemma PathExtended(states: seq<State>, actions: seq<Action>, a: Action, s': State)
    requires IsPath(states, actions) && Next(states[|actions|], a, s')
    ensures IsPath(states + [s'], actions + [a])
  {
    var states', actions' := states + [s'], actions + [a];
    forall i: nat | i < |actions'|
      ensures StepAt(states', actions', i)
    {
      if i < |actions| {
        assert StepAt(states, actions, i);
      }
    }
  }

  lemma LeadsFurther(s: State, s': State, opens: nat, a: Action, s'': State)
    requires Leads(s, s', opens) && Next(s', a, s'')
    ensures Leads(s, s'', if a.StoreWp? then opens + 1 else opens)
  {
    var states: seq<State>, actions: seq<Action> :|
      IsPath(states, actions) && states[0] == s && states[|actions|] == s' && Opens(actions) <= opens;
    PathExtended(states, actions, a, s'');
    var states', actions' := states + [s''], actions + [a];
    assert actions'[..|actions|] == actions;
    assert states'[|actions'|] == s'';
    assert Opens(actions') <= if a.StoreWp? then opens + 1 else opens;
  }

  lemma {:induction false} PathKeepsRing(states: seq<State>, actions: seq<Action>, i: nat)
    requires IsPath(states, actions) && RingInv(states[0]) && i < |states|
    ensures RingInv(states[i]) && |states[i].buf| == |states[0].buf|
  {
    if i > 0 {
      PathKeepsRing(states, actions, i - 1);
      assert StepAt(states, actions, i - 1);
      RingInvPreserved(states[i - 1], actions[i - 1], states[i]);
    }
  }

  lemma LeadsKeepsRing(s: State, s': State, opens: nat)
    requires RingInv(s) && Leads(s, s', opens)
    ensures RingInv(s') && |s'.buf| == |s.buf|
  {
    var states: seq<State>, actions: seq<Action> :|
      IsPath(states, actions) && states[0] == s && states[|actions|] == s' && Opens(actions) <= opens;
    PathKeepsRing(states, actions, |actions|);
  }

  /** One more step of a path, to a state the caller names. */
  lemma Step(s0: State, s: State, opens: nat, a: Action, s': State)
    requires RingInv(s0) && Leads(s0, s, opens) && |s.buf| > 0 && Enabled(s, a)
    requires Defined(s, a) ==> s' == Apply(s, a)
    ensures Leads(s0, s', if a.StoreWp? then opens + 1 else opens)
  {
    LeadsKeepsRing(s0, s, opens);
    StepIsDefined(s, a);
    LeadsFurther(s0, s, opens, a, s');
  }
}
