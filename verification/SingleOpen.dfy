/**
The single-open device: a counter that starts at 1, an open that decrements it and succeeds
if it hits 0, and that adds 1 back otherwise. Decrement and back-out are separate steps, so
any number of threads may interleave between them.
*/
module SingleOpen {

  type Tid = nat

  /** A thread in the table has decremented the counter and not yet incremented it again. */
  datatype Stage = Holding | BackingOut

  datatype State = State(available: int, threads: map<Tid, Stage>)

  datatype Action = TryOpen(t: Tid) | BackOut(t: Tid) | Release(t: Tid)

  predicate Enabled(s: State, a: Action) {
    match a
    case TryOpen(t) => t !in s.threads
    case BackOut(t) => t in s.threads && s.threads[t] == BackingOut
    case Release(t) => t in s.threads && s.threads[t] == Holding
  }

  function Apply(s: State, a: Action): State
    requires Enabled(s, a)
  {
    match a
    case TryOpen(t) =>
      var left := s.available - 1;
      State(left, s.threads[t := if left == 0 then Holding else BackingOut])
    case BackOut(t) => State(s.available + 1, s.threads - {t})
    case Release(t) => State(s.available + 1, s.threads - {t})
  }

  function At(s: State, stage: Stage): set<Tid> {
    set t | t in s.threads && s.threads[t] == stage
  }

  ghost predicate Inv(s: State) {
    && s.available == 1 - |At(s, Holding)| - |At(s, BackingOut)|
    && |At(s, Holding)| <= 1
  }

  lemma StagesAreAll(s: State)
    ensures |At(s, Holding)| + |At(s, BackingOut)| == |s.threads|
  {
    assert s.threads.Keys == At(s, Holding) + At(s, BackingOut);
    assert At(s, Holding) !! At(s, BackingOut);
  }

  lemma CountAfter(s: State, a: Action)
    requires Enabled(s, a)
    ensures |Apply(s, a).threads| == |s.threads| + (if a.TryOpen? then 1 else -1)
  {
    var s' := Apply(s, a);
    if a.TryOpen? {
      assert s'.threads.Keys == s.threads.Keys + {a.t};
    } else {
      assert s.threads.Keys == s'.threads.Keys + {a.t};
    }
  }

  lemma InvPreserved(s: State, a: Action)
    requires Inv(s) && Enabled(s, a)
    ensures Inv(Apply(s, a))
  {
    var s' := Apply(s, a);
    CountAfter(s, a);
    StagesAreAll(s);
    StagesAreAll(s');
    match a {
      case TryOpen(t) =>
        if s'.threads[t] == Holding {
          assert s.threads.Keys == {};
          assert At(s', Holding) == {t};
        } else {
          assert At(s', Holding) == At(s, Holding);
        }
      case BackOut(t) =>
        assert At(s', Holding) == At(s, Holding);
      case Release(t) =>
        assert At(s, Holding) == At(s', Holding) + {t};
    }
  }

  ghost predicate IsRun(states: seq<State>, actions: seq<Action>) {
    && |states| == |actions| + 1 && states[0] == State(1, map[])
    && forall i :: 0 <= i < |actions| ==> Enabled(states[i], actions[i]) && states[i + 1] == Apply(states[i], actions[i])
  }

  /**
  In every interleaving the counter is 1 minus the holders minus the opens backing out, so
  there is at most one holder and a quiet device is open to the next caller.
  */
  lemma {:induction false} AtMostOneHolder(states: seq<State>, actions: seq<Action>, i: nat)
    requires IsRun(states, actions) && i < |states|
    ensures
      var s := states[i];
      && s.available == 1 - |At(s, Holding)| - |At(s, BackingOut)|
      && |At(s, Holding)| <= 1
      && (s.available == 1 <==> s.threads == map[])
  {
    if i > 0 {
      AtMostOneHolder(states, actions, i - 1);
      InvPreserved(states[i - 1], actions[i - 1]);
    }
    StagesAreAll(states[i]);
    assert |states[i].threads| == 0 ==> states[i].threads == map[];
  }

  /** An open succeeds exactly if nobody holds the device and nobody is backing out. */
  lemma OpenSucceedsIff(states: seq<State>, actions: seq<Action>, t: Tid)
    requires IsRun(states, actions) && t !in states[|actions|].threads
    ensures
      var s := states[|actions|];
      Apply(s, TryOpen(t)).threads[t] == Holding <==> At(s, Holding) == {} && At(s, BackingOut) == {}
  {
    AtMostOneHolder(states, actions, |actions|);
    StagesAreAll(states[|actions|]);
  }

  /** An open can therefore fail although the device is free: another one is still backing out. */
  lemma FreeDeviceMayRefuse() returns (states: seq<State>, actions: seq<Action>)
    ensures IsRun(states, actions)
    ensures
      var s := states[|actions|];
      At(s, Holding) == {} && 3 !in s.threads && Apply(s, TryOpen(3)).threads[3] == BackingOut
  {
    actions := [TryOpen(1), TryOpen(2), Release(1)];
    states := [State(1, map[]), State(0, map[1 := Holding]),
               State(-1, map[1 := Holding, 2 := BackingOut]), State(0, map[2 := BackingOut])];
    assert states[3].threads == states[2].threads - {1};
  }
}
