/** ForceForegroundWindow: the attach / restore / raise / set-foreground /
    detach sequence that lets a background process move another window to
    the foreground. Its effects on the desktop are the OS's business; the
    model records the calls made and returns what SetForegroundWindow
    answered. */
module Forcer {
  import opened Win32

  /** The OS's answers to the calls whose results the sequence uses. */
  datatype FocusAnswers = FocusAnswers(
    targetThread: nat,     // what GetWindowThreadProcessId returned for the target
    currentThread: nat,    // what GetCurrentThreadId returned
    foregroundRet: nat)    // what SetForegroundWindow returned

  /** The calls made; true when SetForegroundWindow reported success. */
  function ForceForegroundWindow(hwnd: Handle, os: FocusAnswers): (r: Traced<bool>)
    ensures r.value <==> os.foregroundRet != 0
    ensures |r.calls| == 7
    ensures r.calls[2] == AttachThreadInput(os.currentThread, os.targetThread, true)
    ensures r.calls[5] == SetForegroundWindow(hwnd)
    ensures r.calls[6] == AttachThreadInput(os.currentThread, os.targetThread, false)
  {
    var calls := [
      GetWindowThreadProcessId(hwnd),
      GetCurrentThreadId,
      AttachThreadInput(os.currentThread, os.targetThread, true),
      ShowWindow(hwnd, SW_RESTORE),
      BringWindowToTop(hwnd),
      SetForegroundWindow(hwnd),
      AttachThreadInput(os.currentThread, os.targetThread, false)
    ];
    Traced(os.foregroundRet != 0, calls)
  }

  /** Whatever SetForegroundWindow answers, the sequence makes exactly one
      activation request, against the target, and ends by detaching the
      very thread pair it attached; it opens no process handle. */
  lemma {:induction false} ForceIsBracketed(hwnd: Handle, os: FocusAnswers)
    ensures var calls := ForceForegroundWindow(hwnd, os).calls;
      && Activations(calls) == 1
      && OpenedHandles(calls) == 0 && ClosedHandles(calls) == 0
      && calls[|calls| - 1].AttachThreadInput? && !calls[|calls| - 1].attach
      && (exists i :: 0 <= i < |calls| - 1 && calls[i] == calls[|calls| - 1].(attach := true))
  {
    var calls := ForceForegroundWindow(hwnd, os).calls;
    var before, after := calls[..5], calls[6..];
    assert calls == before + [calls[5]] + after;
    CountsWhenAbsent(before);
    CountsWhenAbsent(after);
    CountsWhenAbsent(calls);
    CountsAppend(before, [calls[5]]);
    CountsAppend(before + [calls[5]], after);
    assert Activations([calls[5]]) == 1 by { assert [calls[5]][..0] == []; }
    assert calls[2] == calls[6].(attach := true);
  }
}
