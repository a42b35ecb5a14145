/**
 The low-level mouse hook (`mouse_hook_callback`) as a pure state machine.

 The only state it keeps is `STILL_HOT` (cold = false, hot = true). Each hook
 notification is an `Event` carrying everything the callback reads: the message
 identifier, the cursor position, the raw `GetKeyState` words of the two mouse
 buttons and the `GetKeyboardState` snapshot (`None` when that query fails).
 `Step` returns the new `STILL_HOT`, whether the worker's activation flag was
 raised, and whether the event was passed on with `CallNextHookEx`.
 */
module EdgeDetector {
  import opened Wrappers
  import opened Geometry
  import opened Keys

  /** The Win32 message identifier of a mouse movement. */
  const WM_MOUSEMOVE: nat := 0x0200

  datatype Event = Event(
    message: nat,
    pt: Point,
    leftButton: bv16,
    rightButton: bv16,
    keyboard: Option<KeyboardState>)

  datatype StepResult = StepResult(stillHot: bool, raised: bool, forwarded: bool)

  predicate IsMove(e: Event)
  {
    e.message == WM_MOUSEMOVE
  }

  predicate InCorner(e: Event)
  {
    Contains(HOT_CORNER, e.pt)
  }

  /** A movement that leaves (or stays out of) the hot corner. */
  predicate IsExit(e: Event)
  {
    IsMove(e) && !InCorner(e)
  }

  predicate ButtonHeld(e: Event)
  {
    ButtonPressed(e.leftButton) || ButtonPressed(e.rightButton)
  }

  /** The modifier guard only applies when the keyboard snapshot could be taken. */
  predicate ModifierHeld(e: Event)
  {
    e.keyboard.Some? && ModifierDown(e.keyboard.value)
  }

  /** Neither guard blocks activation. */
  predicate GuardsClear(e: Event)
  {
    !ButtonHeld(e) && !ModifierHeld(e)
  }

  /**
   One hook notification. The rules are tried in order: not a move; outside the
   corner; already hot; a mouse button held; a modifier key held; otherwise fire.
   The contract states the same behaviour without the ordering: the flag is
   raised exactly on a guard-free move into the corner while cold, the state is
   hot afterwards exactly when the cursor is in the corner and was hot or has
   just fired, and every event is forwarded.
   */
  function Step(stillHot: bool, e: Event): (r: StepResult)
    ensures r.forwarded
    ensures r.raised <==> IsMove(e) && InCorner(e) && !stillHot && GuardsClear(e)
    ensures IsMove(e) ==> (r.stillHot <==> InCorner(e) && (stillHot || r.raised))
    ensures !IsMove(e) ==> r.stillHot == stillHot
  {
    if e.message != WM_MOUSEMOVE then StepResult(stillHot, false, true)
    else if !Contains(HOT_CORNER, e.pt) then StepResult(false, false, true)
    else if stillHot then StepResult(stillHot, false, true)
    else if ButtonPressed(e.leftButton) || ButtonPressed(e.rightButton) then StepResult(stillHot, false, true)
    else if e.keyboard.Some? && ModifierDown(e.keyboard.value) then StepResult(stillHot, false, true)
    else StepResult(true, true, true)
  }

  /** A raise is always a cold-to-hot edge, and every cold-to-hot edge is a raise. */
  lemma RaiseIsColdToHotEdge(stillHot: bool, e: Event)
    ensures Step(stillHot, e).raised <==> !stillHot && Step(stillHot, e).stillHot
  {
  }

  /**
   If the keyboard snapshot cannot be taken, the modifier guard is skipped: a
   button-free move into the corner while cold still fires.
   */
  lemma KeyboardFailureSkipsModifierGuard(e: Event)
    requires IsMove(e) && InCorner(e) && !ButtonHeld(e) && e.keyboard.None?
    ensures Step(false, e) == StepResult(true, true, true)
  {
  }

  /**
   A move into the corner with a button held does not fire and leaves the state
   cold, so the same move once the button is released does fire.
   */
  lemma ButtonReleaseThenFires(e: Event, released: Event)
    requires IsMove(e) && InCorner(e) && ButtonHeld(e)
    requires released == e.(leftButton := 0, rightButton := 0)
    requires !ModifierHeld(e)
    ensures Step(false, e) == StepResult(false, false, true)
    ensures Step(Step(false, e).stillHot, released) == StepResult(true, true, true)
  {
  }

  /** The state after feeding `es` to the hook one by one. */
  function Final(stillHot: bool, es: seq<Event>): bool
    decreases |es|
  {
    if es == [] then stillHot else Final(Step(stillHot, es[0]).stillHot, es[1..])
  }

  /** How many times the activation flag is raised while feeding `es`. */
  function Raises(stillHot: bool, es: seq<Event>): nat
    decreases |es|
  {
    if es == [] then 0
    else
      var r := Step(stillHot, es[0]);
      (if r.raised then 1 else 0) + Raises(r.stillHot, es[1..])
  }

  /** How many events of `es` move the cursor outside the corner. */
  function Exits(es: seq<Event>): nat
    decreases |es|
  {
    if es == [] then 0 else (if IsExit(es[0]) then 1 else 0) + Exits(es[1..])
  }

  /** Whether the `i`-th event of `es` raises the flag when the trace starts in `stillHot`. */
  predicate RaisedAt(stillHot: bool, es: seq<Event>, i: nat)
    requires i < |es|
  {
    Step(Final(stillHot, es[..i]), es[i]).raised
  }

  lemma {:induction false} FinalAppend(stillHot: bool, a: seq<Event>, b: seq<Event>)
    ensures Final(stillHot, a + b) == Final(Final(stillHot, a), b)
    decreases |a|
  {
    if a != [] {
      assert (a + b)[1..] == a[1..] + b;
      FinalAppend(Step(stillHot, a[0]).stillHot, a[1..], b);
    } else {
      assert a + b == b;
    }
  }

  /** Once hot, the hook stays hot until the cursor is seen outside the corner. */
  lemma {:induction false} HotUntilExit(es: seq<Event>)
    requires forall k :: 0 <= k < |es| ==> !IsExit(es[k])
    ensures Final(true, es) == true
    decreases |es|
  {
    if es != [] {
      assert !IsExit(es[0]);
      HotUntilExit(es[1..]);
    }
  }

  /**
   At most one activation per entry into the corner: over any trace, the flag is
   raised at most once more than the cursor is seen leaving the corner, and no
   more often than it leaves when the trace starts hot.
   */
  lemma {:induction false} RaisesBoundedByExits(stillHot: bool, es: seq<Event>)
    ensures Raises(stillHot, es) <= Exits(es) + (if stillHot then 0 else 1)
    decreases |es|
  {
    if es != [] {
      RaisesBoundedByExits(Step(stillHot, es[0]).stillHot, es[1..]);
    }
  }

  /** Without an exit in between, the flag is raised at most once, and never when already hot. */
  lemma AtMostOneRaiseWithoutExit(stillHot: bool, es: seq<Event>)
    requires Exits(es) == 0
    ensures Raises(stillHot, es) <= 1
    ensures stillHot ==> Raises(stillHot, es) == 0
  {
    RaisesBoundedByExits(stillHot, es);
  }

  /** Between any two raises of the flag the cursor has been seen outside the corner. */
  lemma RaisesSeparatedByExit(stillHot: bool, es: seq<Event>, i: nat, j: nat)
    requires i < j < |es|
    requires RaisedAt(stillHot, es, i) && RaisedAt(stillHot, es, j)
    ensures exists k :: i < k < j && IsExit(es[k])
  {
    if forall k :: i < k < j ==> !IsExit(es[k]) {
      var mid := es[i + 1..j];
      assert es[..j] == es[..i + 1] + mid;
      assert es[..i + 1] == es[..i] + [es[i]];
      FinalAppend(stillHot, es[..i], [es[i]]);
      assert Final(stillHot, es[..i + 1]) == Step(Final(stillHot, es[..i]), es[i]).stillHot;
      FinalAppend(stillHot, es[..i + 1], mid);
      assert forall k :: 0 <= k < |mid| ==> mid[k] == es[i + 1 + k];
      HotUntilExit(mid);
      assert false;
    }
  }

  /**
   A cursor that enters the corner with no guard engaged and keeps moving inside
   it makes the hook raise the flag exactly once.
   */
  lemma {:induction false} SteadyEntryFiresOnce(es: seq<Event>)
    requires |es| > 0
    requires forall k :: 0 <= k < |es| ==> IsMove(es[k]) && InCorner(es[k]) && GuardsClear(es[k])
    ensures Raises(false, es) == 1
  {
    assert Step(false, es[0]).raised;
    assert Exits(es[1..]) == 0 by { NoExitsInside(es[1..]); }
    AtMostOneRaiseWithoutExit(true, es[1..]);
  }

  lemma {:induction false} NoExitsInside(es: seq<Event>)
    requires forall k :: 0 <= k < |es| ==> InCorner(es[k])
    ensures Exits(es) == 0
    decreases |es|
  {
    if es != [] {
      assert InCorner(es[0]);
      NoExitsInside(es[1..]);
    }
  }

  /**
   If every move into the corner has a button or modifier held, the flag is
   never raised, whatever the other events are.
   */
  lemma {:induction false} GuardedTraceNeverFires(stillHot: bool, es: seq<Event>)
    requires forall k :: 0 <= k < |es| && IsMove(es[k]) && InCorner(es[k]) ==> !GuardsClear(es[k])
    ensures Raises(stillHot, es) == 0
    decreases |es|
  {
    if es != [] {
      assert IsMove(es[0]) && InCorner(es[0]) ==> !GuardsClear(es[0]);
      GuardedTraceNeverFires(Step(stillHot, es[0]).stillHot, es[1..]);
    }
  }
}
