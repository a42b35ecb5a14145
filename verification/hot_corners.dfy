/**
 The whole feature as one sequential system: the hook's `STILL_HOT` state and
 the shared activation flag, driven by an interleaving of hook notifications and
 worker passes. The hook sets the flag and never clears it; the worker clears
 it after every pass.
 */
module HotCorners {
  import opened Wrappers
  import opened Geometry
  import opened Keys
  import opened EdgeDetector
  import opened Worker

  datatype State = State(stillHot: bool, flag: bool)

  /** Both flags start out false. */
  const INIT: State := State(false, false)

  datatype Action =
    | Hook(e: Event)
    | Wake(cursor: Option<Point>, accepted: nat)

  datatype Transition = Transition(state: State, sent: seq<KeyboardInput>)

  /** One action of the system, with the worker sleeping `delayMs` when it runs. */
  function Next(s: State, a: Action, delayMs: nat): (t: Transition)
    ensures a.Hook? ==> t.sent == [] && (s.flag ==> t.state.flag)
    ensures a.Hook? ==> (t.state.flag <==> s.flag || Step(s.stillHot, a.e).raised)
    ensures a.Hook? ==> t.state.stillHot == Step(s.stillHot, a.e).stillHot
    ensures a.Wake? ==> (t.sent != [] <==> s.flag && a.cursor.Some? && Contains(HOT_CORNER, a.cursor.value))
    ensures a.Wake? ==> !t.state.flag && t.state.stillHot == s.stillHot
    ensures t.sent != [] ==> a.Wake? && s.flag && t.sent == HOT_CORNER_INPUT
  {
    match a
    case Hook(e) =>
      var r := Step(s.stillHot, e);
      Transition(State(r.stillHot, s.flag || r.raised), [])
    case Wake(cursor, accepted) =>
      var p := WorkerPass(s.flag, delayMs, cursor, accepted);
      Transition(State(s.stillHot, p.flag), p.injection.sent)
  }

  /** How many times the input batch is injected while running `acts` from `s`. */
  function Injections(s: State, acts: seq<Action>, delayMs: nat): nat
    decreases |acts|
  {
    if acts == [] then 0
    else
      var t := Next(s, acts[0], delayMs);
      (if t.sent != [] then 1 else 0) + Injections(t.state, acts[1..], delayMs)
  }

  /** How many hook notifications of `acts` move the cursor outside the corner. */
  function HookExits(acts: seq<Action>): nat
    decreases |acts|
  {
    if acts == [] then 0 else (if acts[0].Hook? && IsExit(acts[0].e) then 1 else 0) + HookExits(acts[1..])
  }

  /** How many hook notifications of `acts` raise the flag when run from `s`. */
  function Signals(s: State, acts: seq<Action>, delayMs: nat): nat
    decreases |acts|
  {
    if acts == [] then 0
    else
      var raised := acts[0].Hook? && Step(s.stillHot, acts[0].e).raised;
      (if raised then 1 else 0) + Signals(Next(s, acts[0], delayMs).state, acts[1..], delayMs)
  }

  /** Every injection consumes a raised flag: there are never more injections than signals. */
  lemma {:induction false} InjectionsNeedSignals(s: State, acts: seq<Action>, delayMs: nat)
    ensures Injections(s, acts, delayMs) <= Signals(s, acts, delayMs) + (if s.flag then 1 else 0)
    decreases |acts|
  {
    if acts != [] {
      InjectionsNeedSignals(Next(s, acts[0], delayMs).state, acts[1..], delayMs);
    }
  }

  /**
   At most one injection per entry into the corner: from any state, the number
   of injections exceeds the number of exits by at most the pending flag plus
   one more entry when the hook starts cold.
   */
  lemma {:induction false} InjectionsBoundedByExits(s: State, acts: seq<Action>, delayMs: nat)
    ensures Injections(s, acts, delayMs)
            <= HookExits(acts) + (if s.flag then 1 else 0) + (if s.stillHot then 0 else 1)
    decreases |acts|
  {
    if acts != [] {
      InjectionsBoundedByExits(Next(s, acts[0], delayMs).state, acts[1..], delayMs);
    }
  }

  /** From start-up, the batch is injected at most once more than the cursor leaves the corner. */
  lemma InjectionsFromStart(acts: seq<Action>, delayMs: nat)
    ensures Injections(INIT, acts, delayMs) <= HookExits(acts) + 1
    ensures Injections(INIT, acts, delayMs) <= Signals(INIT, acts, delayMs)
  {
    InjectionsBoundedByExits(INIT, acts, delayMs);
    InjectionsNeedSignals(INIT, acts, delayMs);
  }

  /**
   With a button or modifier held at every move into the corner, nothing is
   ever injected, whatever happens outside the corner.
   */
  lemma {:induction false} GuardedSystemNeverInjects(s: State, acts: seq<Action>, delayMs: nat)
    requires !s.flag
    requires forall k :: 0 <= k < |acts| && acts[k].Hook? && IsMove(acts[k].e) && InCorner(acts[k].e) ==> !GuardsClear(acts[k].e)
    ensures Injections(s, acts, delayMs) == 0
    decreases |acts|
  {
    if acts != [] {
      assert acts[0].Hook? && IsMove(acts[0].e) && InCorner(acts[0].e) ==> !GuardsClear(acts[0].e);
      GuardedSystemNeverInjects(Next(s, acts[0], delayMs).state, acts[1..], delayMs);
    }
  }

  /**
   A qualifying entry followed by a worker pass that finds the cursor gone
   injects nothing; the same pass with the cursor still in the corner injects
   exactly the Win+Tab batch. Either way the flag ends up down.
   */
  lemma DwellDecidesInjection(enter: Event, away: Point, stay: Point, accepted: nat, delayMs: nat)
    requires IsMove(enter) && InCorner(enter) && GuardsClear(enter)
    requires !Contains(HOT_CORNER, away) && Contains(HOT_CORNER, stay)
    ensures var s := Next(INIT, Hook(enter), delayMs).state;
            s == State(true, true)
            && Next(s, Wake(Some(away), accepted), delayMs) == Transition(State(true, false), [])
            && Next(s, Wake(Some(stay), accepted), delayMs) == Transition(State(true, false), HOT_CORNER_INPUT)
  {
  }

  /**
   There is no cool-down: enter, inject, leave and re-enter, and the worker
   injects a second time straight away.
   */
  lemma ReentryInjectsAgain(enter: Event, leave: Event, accepted: nat, delayMs: nat)
    requires IsMove(enter) && InCorner(enter) && GuardsClear(enter)
    requires IsExit(leave)
    ensures var w := Wake(Some(enter.pt), accepted);
            Injections(INIT, [Hook(enter), w, Hook(leave), Hook(enter), w], delayMs) == 2
  {
    var w := Wake(Some(enter.pt), accepted);
    var acts := [Hook(enter), w, Hook(leave), Hook(enter), w];
    var hot, fired := State(true, true), State(true, false);
    assert Next(INIT, Hook(enter), delayMs) == Transition(hot, []);
    assert Next(hot, w, delayMs) == Transition(fired, HOT_CORNER_INPUT);
    assert Next(fired, Hook(leave), delayMs) == Transition(INIT, []);
    assert Injections(fired, [w], delayMs) == 0 by {
      assert Next(fired, w, delayMs).sent == [];
    }
    assert acts[1..][1..][1..] == [Hook(enter), w];
    assert Injections(INIT, acts[1..][1..][1..], delayMs) == 1 by {
      assert [Hook(enter), w][1..] == [w];
    }
    assert acts[1..][1..] == [Hook(leave), Hook(enter), w];
    assert Injections(fired, acts[1..][1..], delayMs) == 1;
    assert acts[1..] == [w, Hook(leave), Hook(enter), w];
    assert Injections(hot, acts[1..], delayMs) == 2;
  }
}
