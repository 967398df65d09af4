/**
What an open does to the writers of the pipe: exactly when it can make one sleep on a ring that
is not full with no wake-up coming, and two runs that show what can go wrong.
*/
module PipeOpens {
  import opened Kernel
  import opened PipeProtocol
  import Ring

  /** No path that lets at most one open store its pointers loses a wake-up. */
  ghost predicate NeverLoses(s: State) {
    forall s' :: Leads(s, s', 1) ==> |s'.buf| > 0 && NoLostWakeup(s')
  }

  // A safe open loses nothing

  lemma LoadKeepsUnrisky(n: nat, rp: nat, wp: nat, look: Look, reuse: bool)
    requires rp < n && look.InOrder(Writer) && Honest(n, rp, wp, look) && !AtRisk(n, rp, wp, look)
    ensures look.CanLoadRp(Writer, reuse) ==> !AtRisk(n, rp, wp, look.WithRp(rp, reuse))
    ensures look.CanLoadWp(Writer, reuse) ==> !AtRisk(n, rp, wp, look.WithWp(wp, reuse))
  {
    GapOfEqual(n, rp);
  }

  /** While an open holds the lock, no other thread moves a pointer or drops the lock. */
  lemma OthersStandStill(s: State, a: Action, t: Tid)
    requires |s.buf| > 0 && LockOk(s) && At(s, t, Resetting) && Enabled(s, a) && !a.StoreWp?
    ensures a.t != t && s.lock == Some(t) && !MovesPointer(a) && !a.Unlock? && !HalfWay(s)
  {
  }

  /** A load puts nobody at risk who is not. */
  lemma LoadIsNoRisk(s: State, a: Action)
    requires Inv(s) && !HalfWay(s) && s.rp < |s.buf| && Enabled(s, a) && (a.LoadRp? || a.LoadWp?)
    requires !WakePending(s, Reader) && !RiskyWriter(s, a.t)
    ensures !RiskyWriter(Apply(s, a), a.t)
  {
    if s.threads[a.t].role == Writer && !s.threads[a.t].pc.woken {
      assert QueuedOk(s, a.t);
      LoadKeepsUnrisky(|s.buf|, s.rp, s.wp, s.threads[a.t].pc.look, a.reuse);
    }
  }

  /** Another own step puts a writer at risk only if it joins the queue in doubt. */
  lemma OwnStepIsNoRisk(s: State, a: Action)
    requires |s.buf| > 0 && LockOk(s) && Enabled(s, a) && Defined(s, a) && !MovesPointer(a)
    requires !a.LoadRp? && !a.LoadWp?
    requires Doubtful(|s.buf|, s.rp, s.wp) ==> NoWriterComing(s)
    requires !RiskyWriter(s, a.t)
    ensures |Apply(s, a).buf| > 0 && !RiskyWriter(Apply(s, a), a.t)
  {
    PointersKept(s, a);
  }

  /** A wake-up by a reader leaves no writer on the queue unwoken. */
  lemma WakeIsNoRisk(s: State, a: Action, u: Tid)
    requires |s.buf| > 0 && Enabled(s, a) && a.Wake? && s.threads[a.t].role == Reader
    ensures !RiskyWriter(Apply(s, a), u)
  {
  }

  lemma StepKeepsUnrisky(s: State, a: Action, t: Tid, u: Tid)
    requires Inv(s) && At(s, t, Resetting) && Enabled(s, a) && Defined(s, a) && !a.StoreWp?
    requires OpenIsSafe(s)
    ensures |Apply(s, a).buf| > 0
    ensures WakePending(Apply(s, a), Reader) || !RiskyWriter(Apply(s, a), u)
  {
    OthersStandStill(s, a, t);
    PointersKept(s, a);
    if WakePending(s, Reader) {
      if a.Wake? && s.threads[a.t].role == Reader {
        WakeIsNoRisk(s, a, u);
      } else {
        PendingKept(s, a, Reader);
      }
    } else if u != a.t {
      OthersKept(s, a, u);
      assert !RiskyWriter(s, u);
    } else if a.LoadRp? || a.LoadWp? {
      LoadIsNoRisk(s, a);
    } else {
      OwnStepIsNoRisk(s, a);
    }
  }

  /** A safe open stays safe until it stores its pointers. */
  lemma SafeStable(s: State, a: Action, t: Tid)
    requires Inv(s) && At(s, t, Resetting) && Enabled(s, a) && Defined(s, a) && !a.StoreWp?
    requires OpenIsSafe(s)
    ensures At(Apply(s, a), t, Resetting) && |Apply(s, a).buf| > 0 && OpenIsSafe(Apply(s, a))
  {
    var s' := Apply(s, a);
    OthersStandStill(s, a, t);
    OthersKept(s, a, t);
    PointersKept(s, a);
    forall u | At(s', u, Released) && s'.threads[u].role == Writer && Doubtful(|s.buf|, s.rp, s.wp)
      ensures s'.threads[u].nonblock
    {
      WriterReleasedBefore(s, a, u);
    }
    forall u
      ensures WakePending(s', Reader) || !RiskyWriter(s', u)
    {
      StepKeepsUnrisky(s, a, t, u);
    }
  }

  lemma OpensOfPrefix(actions: seq<Action>, i: nat)
    requires 0 < i <= |actions|
    ensures Opens(actions[..i]) == Opens(actions[..i - 1]) + if actions[i - 1].StoreWp? then 1 else 0
  {
    assert actions[..i][..i - 1] == actions[..i - 1];
  }

  /** Along a path, the invariant holds past the first open, and that open stays safe up to its stores. */
  lemma {:induction false} SafePath(states: seq<State>, actions: seq<Action>, i: nat, t: Tid)
    requires IsPath(states, actions) && i < |states| && Opens(actions[..i]) <= 1
    requires Inv(states[0]) && At(states[0], t, Resetting) && OpenIsSafe(states[0])
    ensures Inv(states[i])
    ensures Opens(actions[..i]) == 0 ==> At(states[i], t, Resetting) && OpenIsSafe(states[i])
  {
    if i > 0 {
      OpensOfPrefix(actions, i);
      SafePath(states, actions, i - 1, t);
      assert StepAt(states, actions, i - 1);
      StepIsDefined(states[i - 1], actions[i - 1]);
      if Opens(actions[..i]) == 0 {
        SafeStable(states[i - 1], actions[i - 1], t);
      }
      InvPreserved(states[i - 1], actions[i - 1], states[i]);
    }
  }

  lemma SafeNeverLoses(s: State, t: Tid)
    requires Inv(s) && At(s, t, Resetting) && OpenIsSafe(s)
    ensures NeverLoses(s)
  {
    forall s' | Leads(s, s', 1)
      ensures |s'.buf| > 0 && NoLostWakeup(s')
    {
      var states: seq<State>, actions: seq<Action> :|
        IsPath(states, actions) && states[0] == s && states[|actions|] == s' && Opens(actions) <= 1;
      assert actions[..|actions|] == actions;
      SafePath(states, actions, |actions|, t);
      InvMeansNoLostWakeup(s');
    }
  }

  // An unsafe open can strand a writer

  /** The state `b`, except that thread `u` is on the queue with this look. */
  function Seen(b: State, u: Tid, look: Look, asleep: bool): State
    requires u in b.threads
  {
    Goto(b, u, Waiting(false, look, asleep))
  }

  /** A path from `s0` has reached `b` with an unwoken writer `u` at this look, and no reader owes a wake-up. */
  ghost predicate Stage(s0: State, b: State, opens: nat, u: Tid, look: Look, asleep: bool) {
    && RingInv(s0) && |b.buf| >= 2
    && u in b.threads && b.threads[u].role == Writer && b.lock != Some(u)
    && !WakePending(b, Reader)
    && Leads(s0, Seen(b, u, look, asleep), opens)
  }

  lemma LooksRp(s0: State, b: State, opens: nat, u: Tid, look: Look, reuse: bool)
    requires Stage(s0, b, opens, u, look, false) && look.CanLoadRp(Writer, reuse)
    ensures Stage(s0, b, opens, u, look.WithRp(b.rp, reuse), false)
  {
    var s, s' := Seen(b, u, look, false), Seen(b, u, look.WithRp(b.rp, reuse), false);
    assert s'.threads == s.threads[u := s'.threads[u]];
    Step(s0, s, opens, LoadRp(u, reuse), s');
  }

  lemma LooksWp(s0: State, b: State, opens: nat, u: Tid, look: Look, reuse: bool)
    requires Stage(s0, b, opens, u, look, false) && look.CanLoadWp(Writer, reuse)
    ensures Stage(s0, b, opens, u, look.WithWp(b.wp, reuse), false)
  {
    var s, s' := Seen(b, u, look, false), Seen(b, u, look.WithWp(b.wp, reuse), false);
    assert s'.threads == s.threads[u := s'.threads[u]];
    Step(s0, s, opens, LoadWp(u, reuse), s');
  }

  lemma FallsAsleep(s0: State, b: State, opens: nat, u: Tid, look: Look)
    requires Stage(s0, b, opens, u, look, false) && look.Over(Writer) && look.SaysBlocked(Writer, |b.buf|)
    ensures Stage(s0, b, opens, u, look, true)
  {
    var s, s' := Seen(b, u, look, false), Seen(b, u, look, true);
    assert s'.threads == s.threads[u := s'.threads[u]];
    Step(s0, s, opens, Sleep(u), s');
  }

  lemma GotoCommutes(s: State, t: Tid, pc: Pc, u: Tid, pc': Pc)
    requires t in s.threads && u in s.threads && t != u
    ensures Goto(Goto(s, t, pc), u, pc') == Goto(Goto(s, u, pc'), t, pc)
  {
    assert Goto(Goto(s, t, pc), u, pc').threads == Goto(Goto(s, u, pc'), t, pc).threads;
  }

  /** What another thread does, it does whatever `u` has seen: here, the steps of a call itself. */
  lemma CallsCommute(b: State, u: Tid, look: Look, asleep: bool, a: Action)
    requires |b.buf| > 0 && u in b.threads && Enabled(b, a) && Defined(b, a) && a.t != u
    requires a.Acquire? || a.Test? || a.Move?
    ensures
      var s := Seen(b, u, look, asleep);
      && Enabled(s, a) && Defined(s, a)
      && u in Apply(b, a).threads && Apply(s, a) == Seen(Apply(b, a), u, look, asleep)
  {
    GotoCommutes(b, a.t, Apply(b, a).threads[a.t].pc, u, Waiting(false, look, asleep));
  }

  /** ... here, the stores of an open ... */
  lemma StoresCommute(b: State, u: Tid, look: Look, asleep: bool, a: Action)
    requires |b.buf| > 0 && u in b.threads && Enabled(b, a) && a.t != u && (a.StoreWp? || a.StoreRp?)
    ensures
      var s := Seen(b, u, look, asleep);
      Enabled(s, a) && u in Apply(b, a).threads && Apply(s, a) == Seen(Apply(b, a), u, look, asleep)
  {
    GotoCommutes(b, a.t, Apply(b, a).threads[a.t].pc, u, Waiting(false, look, asleep));
  }

  /** ... and here, the steps that begin a call and end an open. */
  lemma EndsCommute(b: State, u: Tid, look: Look, asleep: bool, a: Action)
    requires |b.buf| > 0 && u in b.threads && Enabled(b, a) && a.t != u
    requires a.Call? || (a.Unlock? && At(b, a.t, ResetDone))
    ensures
      var s := Seen(b, u, look, asleep);
      Enabled(s, a) && u in Apply(b, a).threads && Apply(s, a) == Seen(Apply(b, a), u, look, asleep)
  {
    var s := Seen(b, u, look, asleep);
    assert Apply(s, a).threads == Seen(Apply(b, a), u, look, asleep).threads;
  }

  /** A step of a thread that is no reader leaves no reader owing a wake-up. */
  lemma NoReaderOwes(b: State, a: Action)
    requires |b.buf| > 0 && Enabled(b, a) && Defined(b, a) && !a.Wake? && !WakePending(b, Reader)
    requires if a.Call? then a.thread.role != Reader else b.threads[a.t].role != Reader
    ensures !WakePending(Apply(b, a), Reader)
  {
    if WakePending(Apply(b, a), Reader) {
      var v :| Owes(Apply(b, a), v, Reader);
      if v != a.t {
        OthersKept(b, a, v);
        assert Owes(b, v, Reader);
      }
    }
  }

  /** The steps that other threads take in the cases below. */
  predicate IsPlay(b: State, a: Action) {
    || a.Acquire? || a.Test? || a.Move? || a.StoreWp? || a.StoreRp? || a.Call?
    || (a.Unlock? && At(b, a.t, ResetDone))
  }

  lemma PlayCommutes(b: State, u: Tid, look: Look, asleep: bool, a: Action)
    requires |b.buf| > 0 && u in b.threads && Enabled(b, a) && Defined(b, a) && a.t != u && IsPlay(b, a)
    ensures
      var s := Seen(b, u, look, asleep);
      && Enabled(s, a) && Defined(s, a)
      && u in Apply(b, a).threads && Apply(s, a) == Seen(Apply(b, a), u, look, asleep)
  {
    if a.Acquire? || a.Test? || a.Move? {
      CallsCommute(b, u, look, asleep, a);
    } else if a.StoreWp? || a.StoreRp? {
      StoresCommute(b, u, look, asleep, a);
    } else {
      EndsCommute(b, u, look, asleep, a);
    }
  }

  lemma PlayKeepsWriter(b: State, u: Tid, a: Action)
    requires |b.buf| > 0 && u in b.threads && b.lock != Some(u) && Enabled(b, a) && Defined(b, a)
    requires a.t != u && IsPlay(b, a)
    ensures
      var b' := Apply(b, a);
      && |b'.buf| == |b.buf| && b'.lock != Some(u)
      && u in b'.threads && b'.threads[u].role == b.threads[u].role
  {
    OthersKept(b, a, u);
  }

  /** Another thread, not a reader, takes a step. */
  lemma PlaysOn(s0: State, b: State, opens: nat, u: Tid, look: Look, asleep: bool, a: Action) returns (b': State)
    requires Stage(s0, b, opens, u, look, asleep) && Enabled(b, a) && Defined(b, a) && a.t != u && IsPlay(b, a)
    requires if a.Call? then a.thread.role != Reader else b.threads[a.t].role != Reader
    ensures b' == Apply(b, a)
    ensures Stage(s0, b', if a.StoreWp? then opens + 1 else opens, u, look, asleep)
  {
    b' := Apply(b, a);
    PlayCommutes(b, u, look, asleep, a);
    PlayKeepsWriter(b, u, a);
    NoReaderOwes(b, a);
    Step(s0, Seen(b, u, look, asleep), opens, a, Seen(b', u, look, asleep));
  }

  /** The end of each case below: `u` sleeps, the ring is not full, nobody will wake it. */
  lemma Stranded(s0: State, b: State, u: Tid, look: Look)
    requires Stage(s0, b, 1, u, look, true) && !Blocked(b, Writer)
    ensures !NeverLoses(s0)
  {
    var s := Seen(b, u, look, true);
    assert HalfWay(s) == HalfWay(b);
    forall v
      ensures !Owes(s, v, Reader)
    {
      assert !Owes(b, v, Reader);
    }
    assert Sleeping(s, u) && !NoLostWakeup(s);
  }

  lemma SleepsStranded(s0: State, b: State, u: Tid, look: Look)
    requires Stage(s0, b, 1, u, look, false) && look.Over(Writer) && look.SaysBlocked(Writer, |b.buf|)
    requires !Blocked(b, Writer)
    ensures !NeverLoses(s0)
  {
    FallsAsleep(s0, b, 1, u, look);
    Stranded(s0, b, u, look);
  }

  /** An open stores `rp` and drops the lock. */
  lemma OpenEnds(s0: State, b: State, t: Tid, u: Tid, look: Look) returns (b': State)
    requires Stage(s0, b, 1, u, look, false) && At(b, t, HalfReset) && b.threads[t].role == Opener && t != u
    ensures Stage(s0, b', 1, u, look, false)
    ensures b'.lock == None && b'.rp == 0 && b'.wp == b.wp && |b'.buf| == |b.buf|
  {
    var b1 := PlaysOn(s0, b, 1, u, look, false, StoreRp(t));
    assert At(b1, t, ResetDone) && b1.rp == 0 && b1.wp == b.wp;
    b' := PlaysOn(s0, b1, 1, u, look, false, Unlock(t));
  }

  /** An open has the lock and is about to store its pointers. */
  predicate Poised(b: State, t: Tid, u: Tid) {
    At(b, t, Resetting) && b.threads[t].role == Opener && b.lock == Some(t) && t != u
  }

  /** The writer has made up its mind: it sleeps, then the open empties the ring. */
  lemma StrandDecided(s0: State, b: State, t: Tid, u: Tid, look: Look, asleep: bool)
    requires Stage(s0, b, 0, u, look, asleep) && Poised(b, t, u)
    requires look.Over(Writer) && look.SaysBlocked(Writer, |b.buf|)
    ensures !NeverLoses(s0)
  {
    if !asleep {
      FallsAsleep(s0, b, 0, u, look);
    }
    var b1 := PlaysOn(s0, b, 0, u, look, true, StoreWp(t));
    Stranded(s0, b1, u, look);
  }

  /** The writer has an old `wp` that is "full" together with `rp` as the open leaves it. */
  lemma StrandLate(s0: State, b: State, t: Tid, u: Tid, look: Look)
    requires Stage(s0, b, 0, u, look, false) && Poised(b, t, u) && look.Subtracts(Writer)
    requires look.second.rp.None? && look.second.wp.Some? && Ring.Gap(|b.buf|, 0, look.second.wp.value) == 0
    ensures !NeverLoses(s0)
  {
    var b1 := PlaysOn(s0, b, 0, u, look, false, StoreWp(t));
    var b2 := OpenEnds(s0, b1, t, u, look);
    LooksRp(s0, b2, 1, u, look, false);
    SleepsStranded(s0, b2, u, look.WithRp(0, false));
  }

  /** How many loads a look still lacks. */
  function Missing(look: Look): nat {
    (if look.first.rp.None? then 1 else 0) + (if look.first.wp.None? then 1 else 0) +
    (if look.second.rp.None? then 1 else 0) + (if look.second.wp.None? then 1 else 0)
  }

  /** On a full ring, a look that is at risk stays at risk when it loads what it lacks, `rp` first. */
  lemma LoadsOnFullRing(n: nat, rp: nat, wp: nat, look: Look)
    requires rp < n && AtRisk(n, rp, wp, look) && IsBlocked(Writer, n, rp, wp)
    requires look.InOrder(Writer) && Honest(n, rp, wp, look)
    requires look.second.wp.None? && (look.first.wp == Some(rp) ==> look.first.Complete())
    ensures look.CanLoadRp(Writer, false) ==>
              var look' := look.WithRp(rp, false);
              AtRisk(n, rp, wp, look') && look'.second.wp.None?
    ensures look.CanLoadWp(Writer, false) && !look.CanLoadRp(Writer, false) ==>
              var look' := look.WithWp(wp, false);
              AtRisk(n, rp, wp, look') && (look'.second.wp.None? || look'.Over(Writer))
    ensures look.CanLoadRp(Writer, false) || look.CanLoadWp(Writer, false)
  {
  }

  /** The ring is full: the writer finds out, and the open empties the ring. */
  lemma {:induction false} StrandOnFullRing(s0: State, b: State, t: Tid, u: Tid, look: Look)
    requires Stage(s0, b, 0, u, look, false) && Poised(b, t, u) && b.rp < |b.buf|
    requires IsBlocked(Writer, |b.buf|, b.rp, b.wp) && AtRisk(|b.buf|, b.rp, b.wp, look)
    requires look.InOrder(Writer) && Honest(|b.buf|, b.rp, b.wp, look)
    requires look.second.wp.None? || look.Over(Writer)
    requires look.first.wp == Some(b.rp) ==> look.first.Complete()
    ensures !NeverLoses(s0)
    decreases Missing(look)
  {
    if look.Over(Writer) {
      StrandDecided(s0, b, t, u, look, false);
    } else {
      LoadsOnFullRing(|b.buf|, b.rp, b.wp, look);
      LoadKeepsHonest(|b.buf|, b.rp, b.wp, look, false);
      if look.CanLoadRp(Writer, false) {
        LooksRp(s0, b, 0, u, look, false);
        StrandOnFullRing(s0, b, t, u, look.WithRp(b.rp, false));
      } else {
        LooksWp(s0, b, 0, u, look, false);
        StrandOnFullRing(s0, b, t, u, look.WithWp(b.wp, false));
      }
    }
  }

  lemma {:induction false} Bound(tids: set<Tid>) returns (t: Tid)
    ensures forall u :: u in tids ==> u < t
    decreases |tids|
  {
    t := 0;
    if u: Tid :| u in tids {
      var t' := Bound(tids - {u});
      t := Max(t', u + 1);
      forall v | v in tids
        ensures v < t
      {
        assert v == u || v in tids - {u};
      }
    }
  }

  /** A new writer takes the lock and finds space in the empty ring. */
  lemma WriterComes(s0: State, b: State, u: Tid, look: Look, data: seq<byte>) returns (b': State, w: Tid)
    requires Stage(s0, b, 1, u, look, false) && b.lock == None && b.rp == b.wp == 0
    ensures Stage(s0, b', 1, u, look, false) && |b'.buf| == |b.buf| && b'.rp == b'.wp == 0
    ensures b'.lock == Some(w) && w != u && At(b', w, CanMove)
    ensures b'.threads[w].role == Writer && b'.threads[w].data == data
  {
    w := Bound(b.threads.Keys);
    var b1 := PlaysOn(s0, b, 1, u, look, false, Call(w, Thread(Writer, WantLock, 0, data, false)));
    var b2 := PlaysOn(s0, b1, 1, u, look, false, Acquire(w));
    b' := PlaysOn(s0, b2, 1, u, look, false, Test(w));
  }

  /** A new writer brings `wp` of the empty ring anywhere short of the end. */
  lemma FillUp(s0: State, b: State, u: Tid, look: Look, end: nat) returns (b': State)
    requires Stage(s0, b, 1, u, look, false) && b.lock == None && b.rp == b.wp == 0 && end < |b.buf|
    ensures Stage(s0, b', 1, u, look, false) && |b'.buf| == |b.buf| && !HalfWay(b')
    ensures b'.rp == 0 && b'.wp == end
  {
    var b1, w := WriterComes(s0, b, u, look, seq(end, i => 0));
    assert Ring.WriteCount(|b1.buf|, 0, 0, end) == end;
    b' := PlaysOn(s0, b1, 1, u, look, false, Move(w));
  }

  lemma GapToNext(n: nat, r: nat)
    requires 0 < r < n
    ensures Ring.Gap(n, r, r - 1) == 0 && Ring.SpaceFree(n, 0, r - 1) > 0
  {
    Ring.ModOfOneTurn(r + n - (r - 1), n);
    if r > 1 {
      assert 0 <= 0 + n - (r - 1) < n;
    }
  }

  /** The writer holds an `rp` from before the open; after it, `wp` stops right behind that value. */
  lemma StrandWithOldRp(s0: State, b: State, t: Tid, u: Tid, look: Look)
    requires Stage(s0, b, 1, u, look, false) && At(b, t, HalfReset) && b.threads[t].role == Opener
    requires b.lock == Some(t) && t != u && b.wp == 0 && 0 < b.rp < |b.buf|
    requires look.Subtracts(Writer) && look.second == Loads(Some(b.rp), None)
    ensures !NeverLoses(s0)
  {
    var b1 := OpenEnds(s0, b, t, u, look);
    var b2 := FillUp(s0, b1, u, look, b.rp - 1);
    LooksWp(s0, b2, 1, u, look, false);
    GapToNext(|b.buf|, b.rp);
    SleepsStranded(s0, b2, u, look.WithWp(b.rp - 1, false));
  }

  /** Halfway through the open, the writer finds the pointers different and loads `rp` again. */
  lemma StrandHalfWay(s0: State, b: State, t: Tid, u: Tid, look: Look)
    requires Stage(s0, b, 1, u, look, false) && At(b, t, HalfReset) && b.threads[t].role == Opener
    requires b.lock == Some(t) && t != u && b.wp == 0 && 0 < b.rp < |b.buf|
    requires look.first.rp.Some? && look.InOrder(Writer)
    requires if look.first.wp.None? then look.first.rp == Some(b.rp) else look.first.rp != look.first.wp
    requires look.second.wp.None? && (look.second.rp.Some? ==> look.second.rp == Some(b.rp))
    ensures !NeverLoses(s0)
  {
    if look.first.wp.None? {
      LooksWp(s0, b, 1, u, look, false);
      LooksRp(s0, b, 1, u, look.WithWp(0, false), false);
      StrandWithOldRp(s0, b, t, u, look.WithWp(0, false).WithRp(b.rp, false));
    } else if look.second.rp.None? {
      LooksRp(s0, b, 1, u, look, false);
      StrandWithOldRp(s0, b, t, u, look.WithRp(b.rp, false));
    } else {
      StrandWithOldRp(s0, b, t, u, look);
    }
  }

  /** The ring is not full, but the open will move `rp`. */
  lemma StrandByMovingRp(s0: State, b: State, t: Tid, u: Tid, look: Look)
    requires Stage(s0, b, 0, u, look, false) && Poised(b, t, u) && 0 < b.rp < |b.buf|
    requires AtRisk(|b.buf|, b.rp, b.wp, look) && look.second.wp.None?
    requires look.first.wp == Some(b.rp) ==> look.first.Complete()
    requires look.InOrder(Writer) && Honest(|b.buf|, b.rp, b.wp, look)
    ensures !NeverLoses(s0)
  {
    var look' := look;
    if look.first.rp.None? {
      LooksRp(s0, b, 0, u, look, false);
      look' := look.WithRp(b.rp, false);
    }
    var b1 := PlaysOn(s0, b, 0, u, look', false, StoreWp(t));
    StrandHalfWay(s0, b1, t, u, look');
  }

  /** The writer has an old `wp` for the comparison, which it uses again after the open. */
  lemma StrandByReuse(s0: State, b: State, t: Tid, u: Tid, look: Look)
    requires Stage(s0, b, 0, u, look, false) && Poised(b, t, u)
    requires look == Look(Loads(None, Some(b.rp)), NoLoads) && Ring.Gap(|b.buf|, 0, b.rp) == 0
    ensures !NeverLoses(s0)
  {
    GapOfEqual(|b.buf|, 0);
    var b1 := PlaysOn(s0, b, 0, u, look, false, StoreWp(t));
    var b2 := OpenEnds(s0, b1, t, u, look);
    LooksRp(s0, b2, 1, u, look, false);
    var seen := Loads(Some(0), Some(b.rp));
    assert look.WithRp(0, false) == Look(seen, NoLoads);
    ReusesBoth(s0, b2, u, seen);
    SleepsStranded(s0, b2, u, Look(seen, seen));
  }

  lemma ReusesBoth(s0: State, b: State, u: Tid, seen: Loads)
    requires Stage(s0, b, 1, u, Look(seen, NoLoads), false) && seen.Complete() && seen.rp != seen.wp
    ensures Stage(s0, b, 1, u, Look(seen, seen), false)
  {
    LooksRp(s0, b, 1, u, Look(seen, NoLoads), true);
    LooksWp(s0, b, 1, u, Look(seen, Loads(seen.rp, None)), true);
  }

  /** A writer at risk can be stranded. */
  lemma StrandAtRisk(s0: State, b: State, t: Tid, u: Tid, look: Look, asleep: bool)
    requires Stage(s0, b, 0, u, look, asleep) && Poised(b, t, u) && b.rp < |b.buf|
    requires AtRisk(|b.buf|, b.rp, b.wp, look) && look.InOrder(Writer) && Honest(|b.buf|, b.rp, b.wp, look)
    requires asleep ==> look.Over(Writer)
    ensures !NeverLoses(s0)
  {
    if look.Over(Writer) {
      StrandDecided(s0, b, t, u, look, asleep);
    } else if look.first.wp == Some(b.rp) && !look.first.Complete() {
      StrandByReuse(s0, b, t, u, look);
    } else if look.second.wp.None? {
      if b.rp != 0 {
        StrandByMovingRp(s0, b, t, u, look);
      } else {
        StrandOnFullRing(s0, b, t, u, look);
      }
    } else if Ring.Gap(|b.buf|, 0, look.second.wp.value) == 0 {
      StrandLate(s0, b, t, u, look);
    } else {
      var reuse := Ring.Gap(|b.buf|, b.rp, look.second.wp.value) != 0;
      LooksRp(s0, b, 0, u, look, reuse);
      StrandDecided(s0, b, t, u, look.WithRp(b.rp, reuse), false);
    }
  }

  /** The readers that owe a wake-up. */
  function Owing(s: State): (r: set<Tid>)
    ensures forall v :: v in r <==> Owes(s, v, Reader)
  {
    set v | v in s.threads && Owes(s, v, Reader)
  }

  /** With the lock taken by an open, a reader that owes a wake-up can issue it at once. */
  lemma ReaderWakes(s: State, t: Tid, u: Tid, v: Tid) returns (s': State)
    requires |s.buf| > 0 && LockOk(s) && At(s, t, Resetting) && At(s, u, Released) && v in Owing(s)
    ensures Enabled(s, Wake(v)) && s' == Apply(s, Wake(v)) && Owing(s') == Owing(s) - {v}
    ensures At(s', t, Resetting) && u in s'.threads && s'.threads[u] == s.threads[u]
    ensures s'.buf == s.buf && s'.rp == s.rp && s'.wp == s.wp
  {
    assert At(s, v, Waking);
    s' := Apply(s, Wake(v));
    forall w
      ensures w in Owing(s') <==> w in Owing(s) - {v}
    {
      if w != v {
        OthersKept(s, Wake(v), w);
      }
    }
  }

  /** Readers issue what they owe; a writer that has yet to join the queue does not move. */
  lemma {:induction false} ReadersWake(s0: State, s: State, t: Tid, u: Tid) returns (s': State)
    requires RingInv(s0) && Leads(s0, s, 0) && At(s, t, Resetting) && At(s, u, Released)
    ensures Leads(s0, s', 0) && At(s', t, Resetting) && u in s'.threads && s'.threads[u] == s.threads[u]
    ensures s'.buf == s.buf && s'.rp == s.rp && s'.wp == s.wp && !WakePending(s', Reader)
    decreases |Owing(s)|
  {
    if WakePending(s, Reader) {
      var v :| Owes(s, v, Reader);
      assert v in Owing(s);
      LeadsKeepsRing(s0, s, 0);
      var s1 := ReaderWakes(s, t, u, v);
      Step(s0, s, 0, Wake(v), s1);
      s' := ReadersWake(s0, s1, t, u);
    } else {
      s' := s;
    }
  }

  /** Without the stores of an open, the invariant is kept along every path. */
  lemma {:induction false} QuietPath(states: seq<State>, actions: seq<Action>, i: nat)
    requires IsPath(states, actions) && i < |states| && Opens(actions[..i]) == 0 && Inv(states[0])
    ensures Inv(states[i])
  {
    if i > 0 {
      OpensOfPrefix(actions, i);
      QuietPath(states, actions, i - 1);
      assert StepAt(states, actions, i - 1);
      InvPreserved(states[i - 1], actions[i - 1], states[i]);
    }
  }

  lemma LeadsKeepsInv(s: State, s': State)
    requires Inv(s) && Leads(s, s', 0)
    ensures Inv(s') && |s'.buf| == |s.buf|
  {
    var states: seq<State>, actions: seq<Action> :|
      IsPath(states, actions) && states[0] == s && states[|actions|] == s' && Opens(actions) <= 0;
    assert actions[..|actions|] == actions;
    QuietPath(states, actions, |actions|);
    PathKeepsRing(states, actions, |actions|);
  }

  /** A risky writer with no wake-up coming can be stranded. */
  lemma StrandRisky(s0: State, s: State, t: Tid, u: Tid)
    requires Inv(s0) && Leads(s0, s, 0) && At(s, t, Resetting)
    requires |s.buf| > 0 && RiskyWriter(s, u) && !WakePending(s, Reader)
    ensures !NeverLoses(s0)
  {
    LeadsKeepsInv(s0, s);
    var pc := s.threads[u].pc;
    assert QueuedOk(s, u) && s.lock == Some(t);
    assert Seen(s, u, pc.look, pc.asleep) == s by {
      assert Seen(s, u, pc.look, pc.asleep).threads == s.threads;
    }
    StrandAtRisk(s0, s, t, u, pc.look, pc.asleep);
  }

  /** A writer that is about to join the queue is at risk once it has. */
  lemma StrandComing(s: State, t: Tid, u: Tid)
    requires Inv(s) && At(s, t, Resetting) && Doubtful(|s.buf|, s.rp, s.wp)
    requires At(s, u, Released) && s.threads[u].role == Writer && !s.threads[u].nonblock
    ensures !NeverLoses(s)
  {
    LeadsToItself(s, 0);
    var s1 := ReadersWake(s, s, t, u);
    var s2 := Goto(s1, u, Waiting(false, Look(NoLoads, NoLoads), false));
    Step(s, s1, 0, Enqueue(u), s2);
    assert !WakePending(s2, Reader) by {
      forall v
        ensures !Owes(s2, v, Reader)
      {
        assert !Owes(s1, v, Reader);
      }
    }
    StrandRisky(s, s2, t, u);
  }

  /**
  Exactly when an open can do no harm: it has the lock, and whatever happens from now on, up to and
  beyond its two stores, no wake-up is lost, if and only if `OpenIsSafe` holds.
  */
  lemma OpenLosesNoWakeupIff(s: State, t: Tid)
    requires Inv(s) && At(s, t, Resetting)
    ensures OpenIsSafe(s) <==> NeverLoses(s)
  {
    if OpenIsSafe(s) {
      SafeNeverLoses(s, t);
    } else if !(Doubtful(|s.buf|, s.rp, s.wp) ==> NoWriterComing(s)) {
      var u :| At(s, u, Released) && s.threads[u].role == Writer && !s.threads[u].nonblock;
      StrandComing(s, t, u);
    } else {
      var u :| RiskyWriter(s, u);
      LeadsToItself(s, 0);
      StrandRisky(s, s, t, u);
    }
  }

  // Stretches of paths

  /** A call starts and takes the free lock. */
  lemma Enter(s0: State, s: State, opens: nat, t: Tid, th: Thread) returns (s': State)
    requires RingInv(s0) && Leads(s0, s, opens) && |s.buf| > 0 && s.lock == None
    requires t !in s.threads && th.pc == WantLock
    ensures
      var pc := if th.role == Opener then Resetting else Testing;
      s' == s.(lock := Some(t), threads := s.threads[t := th.(pc := pc)])
    ensures Leads(s0, s', opens)
  {
    var s1 := s.(threads := s.threads[t := th]);
    Step(s0, s, opens, Call(t, th), s1);
    var pc := if th.role == Opener then Resetting else Testing;
    s' := s.(lock := Some(t), threads := s.threads[t := th.(pc := pc)]);
    assert s'.threads == s1.threads[t := th.(pc := pc)];
    Step(s0, s1, opens, Acquire(t), s');
  }

  /** A call that finds itself blocked drops the lock again. */
  lemma BackOff(s0: State, s: State, opens: nat, t: Tid, role: Role) returns (s': State)
    requires RingInv(s0) && Leads(s0, s, opens) && |s.buf| > 0 && s.lock == None && t !in s.threads
    requires role != Opener && IsBlocked(role, |s.buf|, s.rp, s.wp)
    ensures s' == s.(threads := s.threads[t := Thread(role, Released, 0, [], false)])
    ensures Leads(s0, s', opens)
  {
    var s1 := Enter(s0, s, opens, t, Thread(role, WantLock, 0, [], false));
    var s2 := Goto(s1, t, MustWait);
    Step(s0, s1, opens, Test(t), s2);
    s' := Goto(s2, t, Released).(lock := None);
    Step(s0, s2, opens, Unlock(t), s');
    assert s'.threads == s.threads[t := Thread(role, Released, 0, [], false)];
  }

  /** A call about to wait joins the queue and compares both pointers. */
  lemma JoinAndLook(s0: State, s: State, opens: nat, t: Tid, th: Thread) returns (s': State)
    requires RingInv(s0) && Leads(s0, s, opens) && |s.buf| > 0
    requires t in s.threads && s.threads[t] == th && th.pc == Released && !th.nonblock
    ensures
      var look := Look(Loads(Some(s.rp), Some(s.wp)), NoLoads);
      s' == s.(threads := s.threads[t := th.(pc := Waiting(false, look, false))])
    ensures Leads(s0, s', opens)
  {
    var s1 := Goto(s, t, Waiting(false, Look(NoLoads, NoLoads), false));
    Step(s0, s, opens, Enqueue(t), s1);
    var s2 := Goto(s1, t, Waiting(false, Look(Loads(Some(s.rp), None), NoLoads), false));
    Step(s0, s1, opens, LoadRp(t, false), s2);
    s' := Goto(s2, t, Waiting(false, Look(Loads(Some(s.rp), Some(s.wp)), NoLoads), false));
    Step(s0, s2, opens, LoadWp(t, false), s');
    assert s'.threads == s.threads[t := s'.threads[t]];
  }

  /** A writer that has found the pointers different subtracts them and goes to sleep. */
  lemma SubtractAndSleep(s0: State, s: State, opens: nat, t: Tid, th: Thread) returns (s': State)
    requires RingInv(s0) && Leads(s0, s, opens) && |s.buf| > 0 && s.rp != s.wp
    requires IsBlocked(Writer, |s.buf|, s.rp, s.wp)
    requires t in s.threads && s.threads[t] == th && th.role == Writer
    requires th.pc == Waiting(false, Look(Loads(Some(s.rp), Some(s.wp)), NoLoads), false)
    ensures
      var now := Loads(Some(s.rp), Some(s.wp));
      s' == s.(threads := s.threads[t := th.(pc := Waiting(false, Look(now, now), true))])
    ensures Leads(s0, s', opens)
  {
    var now := Loads(Some(s.rp), Some(s.wp));
    var s1 := Goto(s, t, Waiting(false, Look(now, Loads(Some(s.rp), None)), false));
    Step(s0, s, opens, LoadRp(t, false), s1);
    var s2 := Goto(s1, t, Waiting(false, Look(now, now), false));
    Step(s0, s1, opens, LoadWp(t, false), s2);
    s' := Goto(s2, t, Waiting(false, Look(now, now), true));
    Step(s0, s2, opens, Sleep(t), s');
    assert s'.threads == s.threads[t := s'.threads[t]];
  }

  /** An open that has the lock empties the ring and leaves. */
  lemma Reset(s0: State, s: State, t: Tid) returns (s': State)
    requires RingInv(s0) && Leads(s0, s, 0) && |s.buf| > 0 && At(s, t, Resetting)
    ensures s' == State(s.buf, 0, 0, None, s.threads - {t}, [], []) && Leads(s0, s', 1)
  {
    var s1 := Goto(s, t, HalfReset).(wp := 0);
    Step(s0, s, 0, StoreWp(t), s1);
    var s2 := Goto(s1, t, ResetDone).(rp := 0, accepted := [], delivered := []);
    Step(s0, s1, 1, StoreRp(t), s2);
    s' := Return(s2, t).(lock := None);
    Step(s0, s2, 1, Unlock(t), s');
    assert s'.threads == s.threads - {t};
  }

  // Two runs that show what the conditions are for

  /** With a buffer of one byte, any call goes to sleep. */
  lemma ParkOnOneByte(s0: State, s: State, t: Tid, role: Role) returns (s': State)
    requires RingInv(s0) && Leads(s0, s, 0) && |s.buf| == 1 && s.rp == s.wp == 0
    requires s.lock == None && t !in s.threads && role != Opener
    ensures
      var parked := Thread(role, Waiting(false, Look(Loads(Some(0), Some(0)), NoLoads), true), 0, [], false);
      s' == s.(threads := s.threads[t := parked])
    ensures Leads(s0, s', 0)
  {
    var s1 := BackOff(s0, s, 0, t, role);
    var s2 := JoinAndLook(s0, s1, 0, t, Thread(role, Released, 0, [], false));
    s' := Goto(s2, t, s2.threads[t].pc.(asleep := true));
    Step(s0, s2, 0, Sleep(t), s');
    assert s'.threads == s.threads[t := s'.threads[t]];
  }

  /** With a buffer of one byte the ring is empty and full at once, and both sides sleep for good. */
  lemma OneByteBufferDeadlocks() returns (s0: State, s: State)
    ensures IsInit(s0) && Leads(s0, s, 0) && |s.buf| == 1
    ensures Sleeping(s, 0) && s.threads[0].role == Reader
    ensures Sleeping(s, 1) && s.threads[1].role == Writer
    ensures !WakePending(s, Reader) && !WakePending(s, Writer)
  {
    s0 := State([0], 0, 0, None, map[], [], []);
    LeadsToItself(s0, 0);
    s := ParkOnOneByte(s0, s0, 0, Reader);
    s := ParkOnOneByte(s0, s, 1, Writer);
  }

  /** A lone writer fills a ring of two bytes. */
  lemma FillTwoByteRing(s0: State, w: Thread) returns (s: State)
    requires s0 == State([0, 0], 0, 0, None, map[], [], []) && w == Thread(Writer, WantLock, 0, [7], false)
    ensures s == State([7, 0], 0, 1, Some(0), map[0 := w.(pc := Moved)], [7], [])
    ensures Leads(s0, s, 0)
  {
    LeadsToItself(s0, 0);
    s := Enter(s0, s0, 0, 0, w);
    var s1 := State([0, 0], 0, 0, Some(0), map[0 := w.(pc := CanMove)], [], []);
    Step(s0, s, 0, Test(0), s1);
    s := State([7, 0], 0, 1, Some(0), map[0 := w.(pc := Moved)], [7], []);
    assert Overlay([0, 0], 0, [7]) == [7, 0] && w.data[..1] == [7];
    Step(s0, s1, 0, Move(0), s);
  }

  /** ... and then finishes its call. */
  lemma FinishWrite(s0: State, s: State, w: Thread) returns (s': State)
    requires s == State([7, 0], 0, 1, Some(0), map[0 := w], [7], []) && RingInv(s0) && Leads(s0, s, 0)
    requires w.pc == Moved && w.role == Writer
    ensures s' == State([7, 0], 0, 1, None, map[], [7], []) && Leads(s0, s', 0)
  {
    var s1 := Goto(s, 0, Wrapped);
    Step(s0, s, 0, WrapPointer(0), s1);
    var s2 := Goto(s1, 0, Waking).(lock := None);
    Step(s0, s1, 0, Unlock(0), s2);
    s' := State([7, 0], 0, 1, None, map[], [7], []);
    assert WakeQueue(s2.threads, Reader) - {0} == map[];
    Step(s0, s2, 0, Wake(0), s');
  }

  /** A writer sleeps on a full ring of two bytes. */
  lemma ParkOnTwoBytes(s0: State) returns (s: State)
    requires s0 == State([0, 0], 0, 0, None, map[], [], [])
    ensures Leads(s0, s, 0)
    ensures
      var now := Loads(Some(0), Some(1));
      var parked := Thread(Writer, Waiting(false, Look(now, now), true), 0, [], false);
      s == State([7, 0], 0, 1, None, map[1 := parked], [7], [])
  {
    var w := Thread(Writer, WantLock, 0, [7], false);
    s := FillTwoByteRing(s0, w);
    s := FinishWrite(s0, s, w.(pc := Moved));
    s := BackOff(s0, s, 0, 1, Writer);
    s := JoinAndLook(s0, s, 0, 1, s.threads[1]);
    s := SubtractAndSleep(s0, s, 0, 1, s.threads[1]);
  }

  /** A writer asleep on a full ring of two bytes stays asleep after an open has emptied it. */
  lemma OpenCanStrandAWriter() returns (s0: State, s: State)
    ensures IsInit(s0) && Leads(s0, s, 1) && |s.buf| == 2 && !NoLostWakeup(s)
    ensures s.lock == None && s.threads.Keys == {1} && Sleeping(s, 1) && s.threads[1].role == Writer
    ensures RangeOk(s) && Queue(s) == []
  {
    s0 := State([0, 0], 0, 0, None, map[], [], []);
    s := ParkOnTwoBytes(s0);
    s := Enter(s0, s, 0, 2, Thread(Opener, WantLock, 0, [], false));
    var parked := s.threads[1];
    s := Reset(s0, s, 2);
    assert s.threads == map[1 := parked];
    assert !Blocked(s, Writer);
    assert forall u :: !Owes(s, u, Reader);
  }
}
