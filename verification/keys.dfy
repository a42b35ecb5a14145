/**
 Keyboard-side vocabulary: the Win32 virtual-key codes the program names, the
 two "is this key down" tests it applies to queried key state, and the
 synthetic keyboard input `HOT_CORNER_INPUT` it injects (Win+Tab).
 */
module Keys {

  /** Win32 virtual-key codes. */
  const VK_LBUTTON: nat := 0x01
  const VK_RBUTTON: nat := 0x02
  const VK_TAB: nat := 0x09
  const VK_SHIFT: nat := 0x10
  const VK_CONTROL: nat := 0x11
  const VK_MENU: nat := 0x12
  const VK_LWIN: nat := 0x5B
  const VK_RWIN: nat := 0x5C

  /** The keys whose being held suppresses activation: Shift, Ctrl, Alt, left and right Windows key. */
  const GUARD_KEYS: seq<nat> := [VK_SHIFT, VK_CONTROL, VK_MENU, VK_LWIN, VK_RWIN]

  /** The 256-entry array `GetKeyboardState` fills in, one byte per virtual key. */
  type KeyboardState = s: seq<bv8> | |s| == 256 witness seq(256, _ => 0 as bv8)

  /** `keydown`: a key-state byte reports the key as down when its high bit (0x80) is set. */
  function KeyDown(key: bv8): (down: bool)
    ensures down <==> key as int >= 0x80
  {
    key & 0x80 != 0
  }

  /** The 16-bit `SHORT` that `GetKeyState` returns, read as a two's-complement integer. */
  function AsShort(raw: bv16): (v: int)
    ensures -0x8000 <= v < 0x8000
    ensures v % 0x1_0000 == raw as int
  {
    if raw as int < 0x8000 then raw as int else raw as int - 0x1_0000
  }

  /** A mouse button counts as pressed when `GetKeyState` returns a negative value. */
  function ButtonPressed(raw: bv16): (down: bool)
    ensures down <==> raw & 0x8000 != 0
  {
    AsShort(raw) < 0
  }

  /** Whether any of Shift, Ctrl, Alt, LWin or RWin is down in a keyboard snapshot. */
  function ModifierDown(kb: KeyboardState): (held: bool)
    ensures held <==> exists i :: 0 <= i < |GUARD_KEYS| && KeyDown(kb[GUARD_KEYS[i]])
  {
    assert GUARD_KEYS[0] == VK_SHIFT && GUARD_KEYS[1] == VK_CONTROL && GUARD_KEYS[2] == VK_MENU;
    assert GUARD_KEYS[3] == VK_LWIN && GUARD_KEYS[4] == VK_RWIN;
    KeyDown(kb[VK_SHIFT]) || KeyDown(kb[VK_CONTROL]) || KeyDown(kb[VK_MENU])
    || KeyDown(kb[VK_LWIN]) || KeyDown(kb[VK_RWIN])
  }

  /** The `dwFlags` bit that marks a keyboard input as a key release. */
  const KEYEVENTF_KEYUP: bv32 := 0x0002

  /** One `INPUT_KEYBOARD` entry (`KEYBDINPUT`) of a `SendInput` batch. */
  datatype KeyboardInput = KeyboardInput(vk: nat, scan: nat, flags: bv32, time: nat, extraInfo: nat)

  predicate IsRelease(k: KeyboardInput)
  {
    k.flags & KEYEVENTF_KEYUP != 0
  }

  function Press(vk: nat): KeyboardInput
  {
    KeyboardInput(vk, 0, 0, 0, 0)
  }

  function Release(vk: nat): KeyboardInput
  {
    KeyboardInput(vk, 0, KEYEVENTF_KEYUP, 0, 0)
  }

  /** The batch sent when the hot corner activates: LWin down, Tab down, Tab up, LWin up. */
  const HOT_CORNER_INPUT: seq<KeyboardInput> := [Press(VK_LWIN), Press(VK_TAB), Release(VK_TAB), Release(VK_LWIN)]

  /** The set of keys held down after replaying `inputs` from the held set `held`. */
  function Replay(held: set<nat>, inputs: seq<KeyboardInput>): set<nat>
    decreases |inputs|
  {
    if inputs == [] then held
    else
      var k := inputs[0];
      Replay(if IsRelease(k) then held - {k.vk} else held + {k.vk}, inputs[1..])
  }

  /**
   `HOT_CORNER_INPUT` is the Win+Tab chord: after the first two inputs both keys
   are down (Tab is struck while LWin is held), and after the whole batch no
   key is left held.
   */
  lemma HotCornerInputIsWinTabChord()
    ensures |HOT_CORNER_INPUT| == 4
    ensures forall i :: 0 <= i < 4 ==> HOT_CORNER_INPUT[i].scan == 0 && HOT_CORNER_INPUT[i].time == 0
    ensures Replay({}, HOT_CORNER_INPUT[..1]) == {VK_LWIN}
    ensures Replay({}, HOT_CORNER_INPUT[..2]) == {VK_LWIN, VK_TAB}
    ensures Replay({}, HOT_CORNER_INPUT[..3]) == {VK_LWIN}
    ensures Replay({}, HOT_CORNER_INPUT) == {}
  {
    var lwin, tab := {VK_LWIN}, {VK_LWIN, VK_TAB};
    assert [Release(VK_TAB), Release(VK_LWIN)][1..] == [Release(VK_LWIN)];
    assert tab - {VK_TAB} == lwin && lwin - {VK_LWIN} == {};
    assert Replay(lwin, [Release(VK_LWIN)]) == Replay({}, []) == {};
    assert Replay(tab, [Release(VK_TAB), Release(VK_LWIN)]) == {};
    assert {} + {VK_LWIN} == lwin && lwin + {VK_TAB} == tab;
    assert Replay({}, HOT_CORNER_INPUT) == Replay(lwin, HOT_CORNER_INPUT[1..]);
    assert HOT_CORNER_INPUT[1..][1..] == [Release(VK_TAB), Release(VK_LWIN)];
    assert Replay(lwin, [Press(VK_TAB)]) == Replay(tab, []);
    assert Replay(tab, [Release(VK_TAB)]) == Replay(lwin, []);
    assert HOT_CORNER_INPUT[..1] == [Press(VK_LWIN)];
    assert HOT_CORNER_INPUT[..2] == [Press(VK_LWIN), Press(VK_TAB)];
    assert HOT_CORNER_INPUT[..2][1..] == [Press(VK_TAB)];
    assert HOT_CORNER_INPUT[..3] == [Press(VK_LWIN), Press(VK_TAB), Release(VK_TAB)];
    assert HOT_CORNER_INPUT[..3][1..] == [Press(VK_TAB), Release(VK_TAB)];
    assert HOT_CORNER_INPUT[..3][1..][1..] == [Release(VK_TAB)];
  }
}
