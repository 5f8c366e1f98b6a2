# go-fuzzy-window-switcher, modelled in Dafny

The switcher is a Windows command-line tool. It enumerates the top-level
windows and skips the ones that are invisible, have no title, or belong to a
process whose name cannot be found or is on a fixed exclusion list. Each
remaining window is offered to a fuzzy selector under the label
`title[process.exe]`. The label's window handle is recorded in `hwndMap`. The
first selected value found in that map is brought to the foreground by an
attach / restore / raise / set-foreground / detach sequence.

The model covers the whole pipeline in `main.go`. Every Win32 call is replaced
by the values it hands back: the return value, the last-error code and the
characters written into a buffer. The Go helpers then become pure functions
from those values to a result or an error. Each call made is recorded as a
`Call` event, so the model can state which queries are made and that every
process handle opened is closed again.

- `win32.dfy` (module `Win32`) holds the OS answers, the error mapping of
  `enumWindows`, `getWindowText` and `getProcessID`, `UTF16ToString`,
  `filepath.Base`, and `getProcessName` with its open/query/close trace.
- `resolver.dfy` (module `Resolver`) holds the exclusion list, the label
  format, and the declarative acceptance test `Resolve`. It also holds the
  queries the callback makes for one window.
- `forcer.dfy` (module `Forcer`) holds `ForceForegroundWindow` as its
  seven-call trace.
- `switcher.dfy` (module `Switcher`) holds the run's state in class `Session`:
  - `hwndMap`;
  - `sent`, the labels pushed to the selector;
  - `calls`, the Win32 call log.

  Its methods are:
  - `Callback`, the enumeration callback;
  - `EnumWindows`, the OS's loop over the windows, one `Visit` per window;
  - `Consume`, the consumer loop over the selector's output;
  - `Run`.

  The callback's chain of early-return checks is the method `Admit`. The
  callback records what `Admit` decides.

The two goroutines and their channels become sequences. `sent` is what the
callback pushed onto the selector's input channel. The selector's output is a
sequence handed to `Consume`. `Run` runs the enumeration to the end, then the
consumer.

Two points of the code's behaviour are kept as written:
- `run()` discards `enumWindows`' error (main.go:181). `EnumWindows` returns
  the mapped error, and `Run` ignores it.
- The callback sends each label before writing it into `hwndMap`
  (main.go:177-178). The model therefore states only the map's contents once
  enumeration is over.

## Model

| member | source | states |
|---|---|---|
| Win32.EnumWindowsResult | main.go:40-50 | An error exactly when EnumWindows returned 0. It is the errno when one was set, and EINVAL otherwise. It is never a zero errno. |
| Win32.Low32 | main.go:54-56 | The low 32 bits of r0: a value below 2^32 that differs from r0 by a multiple of 2^32. This is the unsigned word, not the signed `int32(r0)`; the two differ from 2^31 upward but are zero together, and zero is all main.go:56 tests. |
| Win32.Take | main.go:53-55 | What is read back is a prefix of what the OS wrote, no longer than the buffer. It is all of what was written when that fits. |
| Win32.UpToNul | main.go:62 | `UTF16ToString` yields a prefix of the buffer that contains no NUL. That prefix ends at the buffer's end or at its first NUL. |
| Win32.GetWindowText | main.go:52-63 | An error exactly when the returned length is 0 as an int32; the error is never a zero errno. Otherwise the title is a NUL-free prefix of what was written, at most 200 units long. It runs up to the first NUL, or to the end of the 200-unit cut when there is none. |
| Win32.GetProcessID | main.go:65-72 | An error exactly when the pid is 0; the error is the errno, even a zero one. Otherwise the result is that non-zero pid. |
| Win32.TrimTrailingSeparators | main.go:97 | The result is a prefix of the path that does not end in a separator. Everything cut off is a separator. |
| Win32.LastElement | main.go:97 | The result is the longest separator-free suffix of the path. |
| Win32.Base | main.go:97 | `filepath.Base` never returns "". The result contains no separator unless it is the lone separator. For a path not ending in a separator it is the last element. |
| Win32.BaseOfPlainName | main.go:97 | A non-empty name without separators is its own base name. |
| Win32.GetProcessName | main.go:74-98 | A failed open returns its errno and closes nothing. A successful open is followed by the image query and exactly one CloseHandle, on both the success and the failure path. Opens and closes balance, at most one each. The result is a success exactly when the open and the query succeeded. A successful result is the non-empty base name of the image path. |
| Resolver.IsSkippable | main.go:105-115 | Exclusion is membership in the fixed list. Every excluded name is an ".exe" file name of 7 to 24 characters. |
| Resolver.Label | main.go:176 | The label is the title, then '[', then the name, then ']'. Each part sits at its stated position. |
| Resolver.Title | main.go:157-160 | A dropped getWindowText error leaves the empty title. A title has no NUL and is at most 200 units long. |
| Resolver.ProcessNameOf | main.go:163-171 | A successfully resolved name is never empty. |
| Resolver.Resolve | main.go:153-175 | A window yields a candidate exactly when it is accepted. The candidate keeps the handle, a non-empty NUL-free title and a non-empty name outside the exclusion list. |
| Resolver.AcceptsIff | main.go:153-175 | All the answers together must say: visible (IsWindowVisible returned any non-zero BOOL, not only 1), a non-zero title length and a non-empty title, a non-zero pid, an opened process, a read image path, and a base name that is not excluded. Acceptance holds exactly then. |
| Resolver.Queries | main.go:153-171 | The callback's first query is always IsWindowVisible. An invisible window is queried for nothing else. |
| Resolver.QueriesReleaseHandles | main.go:80-83 | Whatever the OS answers, one callback closes every process handle it opened. It opens at most one and makes no activation. |
| Resolver.SkippableIsExact | main.go:105-115 | Examples of exact, case-sensitive exclusion: "explorer.exe" and "fzf.exe" are excluded, while "Explorer.exe", "EXPLORER.EXE", "explorer", "explorer.exe.bak", "my-fzf.exe" and "" are not. |
| Resolver.LabelDeterminesParts | main.go:176 | When neither name contains '[', equal labels have equal titles and equal names. |
| Resolver.LabelsCanCollide | main.go:176-178 | Without that condition, two different title/name pairs can produce the same label. |
| Forcer.ForceForegroundWindow | main.go:117-145 | The result is true exactly when SetForegroundWindow succeeded. The call sequence is exactly seven calls, with the attach third, SetForegroundWindow on the target sixth, and the matching detach last. |
| Forcer.ForceIsBracketed | main.go:126-142 | Whatever SetForegroundWindow answers, there is exactly one activation and no process handle. The sequence ends with a detach of a thread pair attached earlier. |
| Switcher.Verdict | main.go:153-179 | The callback records an entry exactly for a resolved window: its label and its own handle. |
| Switcher.Verdicts | main.go:153-179 | One verdict per window, in enumeration order: verdict i is the verdict on window i. |
| Switcher.FailureMessage | main.go:192 | The failure line is the fixed prefix "Failed to activate window: ", then the selected value, then a newline. |
| Switcher.FirstMapped | main.go:188-196 | Finds the first output value present in the index, with no earlier value present. There is none exactly when no value is present. |
| Switcher.Admit | main.go:153-176 | The checks, run in order with early returns, offer a label exactly when the window is accepted. That label is `title[name]`, and the queries made are exactly `Queries(w)`. |
| Switcher.Session.constructor | main.go:149 | A run starts with an empty index, nothing sent and no calls made. |
| Switcher.Session.Callback | main.go:153-179 | It returns 1 on every path. The labels sent grow by the window's label if it is accepted, and by nothing otherwise. The index gains that label's entry, replacing any earlier window with the same label. The call log grows by the window's queries. |
| Switcher.Session.Visit | main.go:181 | One callback turn moves the state after k windows to the state after k + 1 windows. |
| Switcher.Session.EnumWindows | main.go:181 | Every window is visited. The labels sent are the accepted labels in enumeration order. The index is built from the verdicts in order. The call log is the windows' queries in order. The result is EnumWindows' answer mapped to an error. |
| Switcher.Session.Consume | main.go:188-196 | If no output value is in the index, nothing is activated or printed and the whole stream is read. Otherwise reading stops at the first value in the index: that window's handle is activated, and the failure line for that value is printed exactly when activation failed. There is at most one activation. |
| Switcher.Run | main.go:147-213 | The selector is offered exactly the accepted labels, in order. At most one window is activated. An activation happens exactly when some output value was offered. It targets the window the final index holds for the first offered value. |
| Switcher.SelectionActivatesFirstOffered | main.go:188-196 | When the index's keys are the offered labels, the consumer activates nothing exactly when no output value was offered. Otherwise it activates the indexed window of the first offered value. |
| Switcher.LabelsAreAcceptedKeys | main.go:172-177 | A label is among those sent exactly when some accepted window carries it. |
| Switcher.KeysAreLabels | main.go:177-178 | After enumeration, the index's keys are the starting keys plus exactly the labels sent. |
| Switcher.LabelsAppend | main.go:177 | Labels are sent in enumeration order across any split of the windows. |
| Switcher.IndexAppend | main.go:178 | Indexing a run of windows equals indexing its first part and then continuing with the rest. |
| Switcher.SkippedWindowChangesNothing | main.go:153-175 | A rejected window, wherever it sits in the enumeration, changes neither the labels sent nor the final index. |
| Switcher.IndexHoldsLastAccepted | main.go:178 | An accepted window whose label no later window carries is the one the index holds for that label. |
| Switcher.IndexEntryIsLastWithLabel | main.go:177-178 | Every key of the index was sent by some accepted window. The key maps to the handle of the last window carrying that label. |
| Switcher.LaterWindowWins | main.go:177-178 | In an enumeration of just two accepted windows with the same label, the label is sent twice, but the index keeps only the later window. |
| Switcher.TraceReleasesHandles | main.go:80-83 | Over a whole enumeration every opened process handle is closed, at most one per window, and nothing is activated. |

## Left out

- DLL loading, `SyscallN`/`Call` and the `unsafe.Pointer` buffers (main.go:15-33) are replaced by the answers the calls hand back. Handles and thread ids are unbounded naturals rather than `uintptr`.
- UTF-16 decoding: the buffers are sequences of characters, so surrogate pairs and invalid units are not modelled. Only the cut at the first NUL and the buffer lengths are kept.
- Win32.Base: it does not strip Windows volume names (drive letters, UNC prefixes) the way `filepath.Base` does on Windows. A path such as `C:` therefore gets its last element rather than a separator.
- The effects of `ForceForegroundWindow` on the desktop are the OS's. The model records the calls and SetForegroundWindow's answer. The target pid that GetWindowThreadProcessId stores there is unused in the source and not modelled.
- fzf option parsing, `fzf.Run`, the exit code and the printing of their errors (main.go:199-219) are an external library's.
- Goroutines, channels, `sync.WaitGroup` and the unsynchronised `hwndMap` shared by two goroutines (main.go:151-213) are left out. `Run` finishes the enumeration before the consumer reads anything. A consumer running during enumeration, which can miss a label sent before its map entry is written, is not modelled.
- Switcher.Run: it discards the enumeration error, as `run()` does. It does not state the printed line, which `Consume` states.
- Switcher.Session.EnumWindows: an early stop when the callback returns 0 is in the loop but never happens, since the callback always returns 1.
