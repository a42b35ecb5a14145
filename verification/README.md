# hotcorners — a Dafny model of the hot-corner decision logic

`hotcorners` is a small Windows tool. A low-level mouse hook watches the cursor.
When the cursor enters the 20 by 20 pixel block at the top-left of the screen
with no mouse button or modifier key held, the hook raises a flag and wakes a
worker thread. The worker waits out a dwell delay (100 ms unless the
configuration sets `delay`). If the cursor is still in the corner, it injects
Win+Tab as a synthetic four-event keyboard batch. Ctrl+Alt+C ends the program.

The model replaces every Win32 call by plain inputs:

- **`Geometry`**: `POINT`, `RECT`, the `HOT_CORNER` rectangle, and `PtInRect` as `Contains`. Left/top edges are inclusive and right/bottom edges exclusive.
- **`Keys`**: the virtual-key codes, `keydown`, the `GetKeyState(..) < 0` button test on the raw 16-bit word, the five-key modifier guard, and the `HOT_CORNER_INPUT` batch.
- **`EdgeDetector`**: `mouse_hook_callback` as a pure `Step(stillHot, event)`. It returns the new `STILL_HOT`, whether the activation flag was raised, and whether the event was forwarded. The module also has trace functions (`Final`, `Raises`, `Exits`) and lemmas over sequences of events.
- **`Worker`**: the `HOT_DELAY` default and its override, `hot_corner_fn`, and one pass of the worker loop. A pass means: stay parked while the flag is down; otherwise run `hot_corner_fn` (which itself sleeps for the delay, then reads the cursor) and clear the flag.
- **`HotCorners`**: the feature as one sequential system. Its state is `STILL_HOT` plus the shared flag. It is driven by any interleaving of hook notifications and worker passes, and it carries the system-level lemmas.
- **`MessageLoop`**: the main thread's `GetMessageW` loop. The loop ends on `WM_QUIT` or `WM_HOTKEY`, after which the hook is removed.
- **`Wrappers`**: `Option`. `None` stands for a failed `GetKeyboardState` or `GetCursorPos` and for an absent `delay` setting.

Some descriptions of this feature promise behaviour the code does not have. The model follows the code:

- The corner is exactly (0,0)-(20,20). It does not extend to negative coordinates.
- The worker clears the flag right after `hot_corner_fn` (`src/main.rs:119-120`). There is no cool-down. `HotCorners.ReentryInjectsAgain` shows that leaving and re-entering right after an injection fires again.
- The hook does not look at the shared flag before raising it. What stops repeated signals is `STILL_HOT`. A raise while the flag is already up is idempotent.
- A configuration that cannot be read or parsed aborts the program (`unwrap`, `src/main.rs:125`). It is not silently replaced by the default. The loading itself is not modelled; only the `Option<u64>` it yields is.

## Model

| member | source | states |
|---|---|---|
| Geometry.Contains | src/main.rs:200 | PtInRect's convention: a point on the left or top edge, within the other edge's extent of a non-empty rectangle, is inside; a point on the right or bottom edge, or left of or above the rectangle, is not |
| Geometry.HotCornerBoundary | src/main.rs:42-47 | the hot corner contains (0,0), (19,0), (0,19) and (19,19). It does not contain (20,0), (0,20), (20,20), (-1,0) or (0,-1), which matches PtInRect's inclusive-left/top, exclusive-right/bottom rule |
| Geometry.OutsideHotCorner | src/main.rs:199-203 | a point left of, above, right of or below the (0,0)-(20,20) rectangle is never in the corner |
| Keys.KeyDown | src/main.rs:240-242 | a key-state byte reports "down" exactly when its value is at least 0x80, i.e. its high bit is set |
| Keys.AsShort | src/main.rs:211 | reading GetKeyState's 16-bit word as a signed SHORT gives a value in [-32768, 32767] that is congruent to the raw word mod 2^16 |
| Keys.ButtonPressed | src/main.rs:211 | `GetKeyState(..) < 0` holds exactly when bit 0x8000 of the returned word is set |
| Keys.ModifierDown | src/main.rs:216-227 | the modifier guard holds exactly when some key among Shift, Ctrl, Alt, LWin and RWin has its high bit set in the keyboard snapshot |
| Keys.HotCornerInputIsWinTabChord | src/main.rs:50-99 | the batch has four entries with scan code and time 0. After one input LWin alone is held; after two, LWin and Tab; after three, LWin again; after all four, no key is held. So it is the Win+Tab chord and it leaves no key stuck |
| EdgeDetector.Step | src/main.rs:188-236 | every event is forwarded. The flag is raised exactly on a mouse move into the corner while cold with neither guard engaged. After a move, the hook is hot exactly when the cursor is in the corner and it was hot or has just fired. A non-move leaves the state unchanged |
| EdgeDetector.RaiseIsColdToHotEdge | src/main.rs:229-233 | the flag is raised exactly when STILL_HOT goes from false to true |
| EdgeDetector.KeyboardFailureSkipsModifierGuard | src/main.rs:216-234 | when GetKeyboardState fails, a button-free move into the corner while cold fires and sets STILL_HOT |
| EdgeDetector.ButtonReleaseThenFires | src/main.rs:210-214 | an entry with a mouse button held neither fires nor turns hot, so the same entry after the button is released fires |
| EdgeDetector.HotUntilExit | src/main.rs:205-208 | once hot, the hook stays hot through any events until it sees a move outside the corner |
| EdgeDetector.RaisesBoundedByExits | src/main.rs:199-233 | over any event trace, the number of raises is at most the number of moves outside the corner, plus one when the trace starts cold |
| EdgeDetector.AtMostOneRaiseWithoutExit | src/main.rs:205-208 | a trace with no move outside the corner raises the flag at most once, and never if it starts hot |
| EdgeDetector.RaisesSeparatedByExit | src/main.rs:199-203 | between any two raises in a trace, some event moves the cursor outside the corner |
| EdgeDetector.SteadyEntryFiresOnce | src/main.rs:229-233 | a non-empty trace of guard-free moves inside the corner, starting cold, raises the flag exactly once |
| EdgeDetector.GuardedTraceNeverFires | src/main.rs:210-227 | if every move into the corner has a mouse button or a modifier key held, the flag is never raised, whatever the starting state and whatever the events outside the corner |
| Worker.HotDelay | src/main.rs:127-129 | a configured delay of d ms is used as is; without one the delay is the 100 ms default |
| Worker.ConfiguredDelayIsSlept | src/main.rs:165-167 | a woken worker sleeps for the configured delay when one is set (250 ms for 250), and for 100 ms when none is |
| Worker.HotCornerFn | src/main.rs:163-182 | the batch is sent exactly when GetCursorPos succeeds and the point is in the corner. What is sent is always the whole HOT_CORNER_INPUT or nothing. The diagnostic is printed exactly when a sent batch was not fully accepted |
| Worker.WorkerPass | src/main.rs:113-122 | the flag is down after every pass. The worker runs exactly when the flag was up, and then sleeps for the delay. It sends HOT_CORNER_INPUT exactly when the flag was up and the post-sleep cursor is in the corner; otherwise it sends nothing |
| HotCorners.Next | src/main.rs:116-120 | a hook notification never sends input and never clears the flag; STILL_HOT becomes the hook step's new state, and the flag is up afterwards exactly when it was up or the hook raised it. A worker pass always leaves the flag down and STILL_HOT untouched, and sends exactly when the flag was up and the post-sleep cursor is in the corner. Input is sent only by a worker pass, and it is HOT_CORNER_INPUT |
| HotCorners.InjectionsNeedSignals | src/main.rs:115-121 | under any interleaving there are never more injections than flag raises, plus one if the flag was already up |
| HotCorners.InjectionsBoundedByExits | src/main.rs:199-233 | under any interleaving, injections are at most the moves outside the corner, plus the pending flag, plus one if the hook starts cold |
| HotCorners.InjectionsFromStart | src/main.rs:184 | from start-up, with both flags false, there is at most one injection per entry into the corner, and never more injections than raises |
| HotCorners.GuardedSystemNeverInjects | src/main.rs:210-227 | with the flag down and a button or modifier held at every hook move into the corner, no interleaving injects anything, whatever happens outside the corner |
| HotCorners.DwellDecidesInjection | src/main.rs:167-179 | after a qualifying entry, a worker pass that finds the cursor gone sends nothing. One that finds it still in the corner sends exactly LWin-down, Tab-down, Tab-up, LWin-up. Both clear the flag |
| HotCorners.ReentryInjectsAgain | src/main.rs:119-120 | enter, inject, leave, re-enter, wake: two injections, because there is no cool-down after an injection |
| MessageLoop.Pump | src/main.rs:143-151 | messages are dispatched in order until the first WM_QUIT or WM_HOTKEY, which is never dispatched. The loop waits forever exactly when the queue holds neither. Removal of the hook is attempted exactly when the loop was left |

## Left out

- Hook and hotkey registration (`SetWindowsHookExW`, `RegisterHotKey`) and their startup errors are OS plumbing, so they are not modelled. So are `DispatchMessageW`'s effect and `main`'s `Ok(())`.
- MessageLoop.Pump: `unhooked` means the hook removal is attempted. A failure of `UnhookWindowsHookEx(..)?` (`src/main.rs:151`), which makes `main` return that error, is not modelled.
- Threads, `park`/`unpark` and the Relaxed/Acquire/Release orderings are not modelled. The flag handshake is a sequential interleaving of whole hook steps and whole worker passes.
- A worker pass is atomic in the model. A raise that lands while `hot_corner_fn` is still running is later wiped by the worker's `store(false)`. The model cannot express that interleaving.
- `thread::sleep` is not modelled as time. The delay is a number of milliseconds that the worker is recorded as sleeping.
- `SendInput`'s effect on the system is not modelled. Only the emitted batch and the accepted count it reports are.
- Configuration loading (`fs::read_to_string`, TOML parsing, the `unwrap` panics) is file I/O and a library, so only the resulting `Option<u64>` is modelled. `src/config.rs` declares that field and has no logic.
- The `u32::try_from(w_param.0).expect(..)` panic is not modelled. The message identifier is a natural number, and Windows only passes mouse message identifiers to this hook.
- The `n_code`, `w_param` and `l_param` values passed through to `CallNextHookEx` are not modelled. Only the fact that every event is forwarded is.
- The `GetMessageW` error result (-1) is not modelled: the loop model only distinguishes a message from `WM_QUIT`.
- Geometry.Point: coordinates are unbounded integers rather than 32-bit. The corner's bounds are far from the 32-bit limits, so containment is unaffected.
- `build.rs` only generates Windows bindings.
