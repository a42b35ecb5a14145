/**
 The main thread's message loop, reduced to its exit rule: messages are fetched
 with `GetMessageW` and dispatched until either `WM_QUIT` makes `GetMessageW`
 return 0 or the exit hotkey (Ctrl+Alt+C) delivers `WM_HOTKEY`; after either,
 the mouse hook is unregistered. A finite queue stands for the messages that
 arrive; when it runs dry the real loop would block, which is reported as
 `Waiting`.
 */
module MessageLoop {

  /** The Win32 message identifier posted when a registered hotkey is pressed. */
  const WM_HOTKEY: nat := 0x0312

  /** What one `GetMessageW` call yields: a message, or `WM_QUIT` (return value 0). */
  datatype Fetched = Posted(message: nat) | Quit

  datatype Exit = ByHotkey | ByQuit | Waiting

  /** Whether the loop stops on this fetch. */
  predicate Stops(f: Fetched)
  {
    f.Quit? || f.message == WM_HOTKEY
  }

  /**
   Runs the loop over `queue`. `dispatched` lists the messages handed to
   `DispatchMessageW`, `fetched` how many were taken from the queue, and
   `unhooked` whether the loop was left so that the hook gets removed.
   */
  method Pump(queue: seq<Fetched>) returns (dispatched: seq<nat>, fetched: nat, exit: Exit, unhooked: bool)
    ensures |dispatched| <= fetched <= |queue|
    ensures forall i :: 0 <= i < |dispatched| ==> queue[i] == Posted(dispatched[i]) && dispatched[i] != WM_HOTKEY
    ensures exit == Waiting <==> forall i :: 0 <= i < |queue| ==> !Stops(queue[i])
    ensures exit == Waiting ==> fetched == |dispatched| == |queue|
    ensures exit != Waiting ==> 0 < fetched && |dispatched| == fetched - 1 && Stops(queue[fetched - 1])
    ensures exit == ByHotkey ==> queue[fetched - 1] == Posted(WM_HOTKEY)
    ensures exit == ByQuit ==> queue[fetched - 1] == Quit
    ensures unhooked <==> exit != Waiting
  {
    dispatched := [];
    fetched := 0;
    exit := Waiting;
    while fetched < |queue|
      invariant fetched <= |queue|
      invariant |dispatched| == fetched
      invariant forall i :: 0 <= i < fetched ==> queue[i] == Posted(dispatched[i]) && !Stops(queue[i])
      decreases |queue| - fetched
    {
      var f := queue[fetched];
      fetched := fetched + 1;
      if f.Quit? {
        exit := ByQuit;
        break;
      }
      if f.message == WM_HOTKEY {
        exit := ByHotkey;
        break;
      }
      dispatched := dispatched + [f.message];
    }
    unhooked := exit != Waiting;
  }
}
