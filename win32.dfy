/** The Win32 layer as the switcher sees it.

    Every OS call is replaced by the values it handed back (its return value,
    the last-error code, the characters it wrote into a buffer), so the Go
    helpers that wrap those calls become pure functions from those values to
    a result or an error. The calls themselves are recorded as `Call` events,
    which lets the model state which queries were made and that every process
    handle that was opened is closed again. */
module Win32 {

  /** A window handle or a process handle: a `uintptr` in the source. */
  type Handle = nat

  /** Process ids are `uint32` in the source. */
  type uint32 = x: nat | x < 0x1_0000_0000

  const PROCESS_QUERY_LIMITED_INFORMATION: nat := 0x1000
  const SW_RESTORE: nat := 9
  /** Length, in UTF-16 units, of the buffer handed to GetModuleFileNameExW. */
  const MAX_PATH: nat := 260
  /** Length, in UTF-16 units, of the buffer handed to GetWindowTextW. */
  const TITLE_BUFFER: nat := 200
  const NUL: char := '\0'

  datatype Option<+T> = None | Some(value: T)

  /** The Go error values the helpers can return. */
  datatype Error =
    | Errno(code: nat)           // a syscall.Errno taken from GetLastError (may be 0 after proc.Call)
    | Einval                     // syscall.EINVAL, the fallback when no errno was set
    | FailedToGetProcessName     // the error built by fmt.Errorf in getProcessName

  datatype Result<+T> = Success(value: T) | Failure(error: Error)

  /** One Win32 call, with the arguments the source passes. */
  datatype Call =
    | IsWindowVisible(hwnd: Handle)
    | GetWindowTextW(hwnd: Handle, maxCount: nat)
    | GetWindowThreadProcessId(hwnd: Handle)
    | OpenProcess(access: nat, inherit: bool, pid: uint32, returned: Handle)
    | GetModuleFileNameExW(process: Handle, moduleHandle: Handle, size: nat)
    | CloseHandle(process: Handle)
    | GetCurrentThreadId
    | AttachThreadInput(idAttach: nat, idAttachTo: nat, attach: bool)
    | ShowWindow(hwnd: Handle, cmd: nat)
    | BringWindowToTop(hwnd: Handle)
    | SetForegroundWindow(hwnd: Handle)

  /** A value together with the Win32 calls made to compute it. */
  datatype Traced<+T> = Traced(value: T, calls: seq<Call>)

  /** What GetWindowTextW handed back: its return value, the last error
      and the characters it wrote at the start of the buffer. */
  datatype TextAnswer = TextAnswer(ret: nat, errno: nat, written: seq<char>)
  /** What GetWindowThreadProcessId stored through its out-pointer, and the last error. */
  datatype PidAnswer = PidAnswer(pid: uint32, errno: nat)
  /** What OpenProcess returned (0 on failure), and the last error. */
  datatype OpenAnswer = OpenAnswer(process: Handle, errno: nat)
  /** What GetModuleFileNameExW returned and wrote into the buffer. */
  datatype ImageAnswer = ImageAnswer(ret: nat, written: seq<char>)

  /** `int32(x)` keeps the low 32 bits of an `uintptr`; it is zero exactly
      when those bits are. */
  function Low32(x: nat): (r: nat)
    ensures r < 0x1_0000_0000
    ensures (x - r) % 0x1_0000_0000 == 0
  {
    x % 0x1_0000_0000
  }

  /** The first `n` characters of what the OS wrote: the rest of a Go
      buffer of length `n` is out of reach, and its unwritten tail is zero. */
  function Take(s: seq<char>, n: nat): (r: seq<char>)
    ensures |r| <= n && |r| <= |s| && r == s[..|r|]
    ensures |r| == n || r == s
  {
    if |s| <= n then s else s[..n]
  }

  /** syscall.UTF16ToString: the buffer up to, not including, its first NUL. */
  function UpToNul(s: seq<char>): (r: seq<char>)
    ensures |r| <= |s| && r == s[..|r|]
    ensures NUL !in r
    ensures |r| == |s| || s[|r|] == NUL
  {
    if s == [] || s[0] == NUL then [] else [s[0]] + UpToNul(s[1..])
  }

  /** enumWindows: an error exactly when EnumWindows returned 0; the errno
      when one was set, EINVAL otherwise. */
  function EnumWindowsResult(r1: nat, e1: nat): (err: Option<Error>)
    ensures err.Some? <==> r1 == 0
    ensures err.Some? ==> err.value != Errno(0)
    ensures err.Some? && e1 == 0 ==> err.value == Einval
    ensures err.Some? && e1 != 0 ==> err.value == Errno(e1)
  {
    if r1 == 0 then
      if e1 != 0 then Some(Errno(e1)) else Some(Einval)
    else
      None
  }

  /** getWindowText: an error exactly when the length GetWindowTextW
      returned is 0 as an int32; otherwise the title is the 200-unit
      buffer up to its first NUL. */
  function GetWindowText(a: TextAnswer): (r: Result<string>)
    ensures r.Failure? <==> Low32(a.ret) == 0
    ensures r.Failure? ==> r.error != Errno(0)
    ensures r.Success? ==> |r.value| <= TITLE_BUFFER && NUL !in r.value
    ensures r.Success? ==> |r.value| <= |a.written| && r.value == a.written[..|r.value|]
    ensures r.Success? ==> |r.value| == |Take(a.written, TITLE_BUFFER)| || a.written[|r.value|] == NUL
  {
    if Low32(a.ret) == 0 then
      if a.errno != 0 then Failure(Errno(a.errno)) else Failure(Einval)
    else
      Success(UpToNul(Take(a.written, TITLE_BUFFER)))
  }

  /** getProcessID: an error exactly when the pid is 0. proc.Call always
      hands back a non-nil error, so the error is the errno even when it is 0. */
  function GetProcessID(a: PidAnswer): (r: Result<uint32>)
    ensures r.Failure? <==> a.pid == 0
    ensures r.Success? ==> r.value == a.pid && r.value != 0
    ensures r.Failure? ==> r.error == Errno(a.errno)
  {
    if a.pid == 0 then Failure(Errno(a.errno)) else Success(a.pid)
  }

  /** isVisibleWindow: IsWindowVisible returned a non-zero value; any
      non-zero BOOL counts as TRUE, not only 1. */
  predicate IsVisibleWindow(ret: nat)
  {
    ret != 0
  }

  /** Both separators Go's path/filepath accepts on Windows. */
  predicate IsPathSeparator(c: char)
  {
    c == '\\' || c == '/'
  }

  /** The path with its trailing separators removed. */
  function TrimTrailingSeparators(p: string): (r: string)
    ensures |r| <= |p| && r == p[..|r|]
    ensures r == [] || !IsPathSeparator(r[|r| - 1])
    ensures forall i :: |r| <= i < |p| ==> IsPathSeparator(p[i])
  {
    if p != [] && IsPathSeparator(p[|p| - 1]) then TrimTrailingSeparators(p[..|p| - 1]) else p
  }

  /** The longest suffix of `p` without a separator. */
  function LastElement(p: string): (r: string)
    ensures |r| <= |p| && r == p[|p| - |r|..]
    ensures forall i :: 0 <= i < |r| ==> !IsPathSeparator(r[i])
    ensures |r| == |p| || IsPathSeparator(p[|p| - |r| - 1])
  {
    if p == [] || IsPathSeparator(p[|p| - 1]) then [] else LastElement(p[..|p| - 1]) + [p[|p| - 1]]
  }

  /** filepath.Base: "." for the empty path, a separator for a path made of
      separators only, otherwise the last element once trailing separators
      are dropped. Never empty. */
  function Base(path: string): (r: string)
    ensures r != []
    ensures r == "\\" || forall i :: 0 <= i < |r| ==> !IsPathSeparator(r[i])
    ensures path != [] && !IsPathSeparator(path[|path| - 1]) ==> r == LastElement(path)
  {
    if path == [] then "."
    else
      var p := TrimTrailingSeparators(path);
      if p == [] then "\\" else LastElement(p)
  }

  /** A path without separators is its own base name. */
  lemma BaseOfPlainName(p: string)
    requires p != [] && '\\' !in p && '/' !in p
    ensures Base(p) == p
  {
  }

  /** The number of OpenProcess calls that returned a handle. */
  function OpenedHandles(calls: seq<Call>): nat
  {
    if calls == [] then 0
    else OpenedHandles(calls[..|calls| - 1])
         + (if calls[|calls| - 1].OpenProcess? && calls[|calls| - 1].returned != 0 then 1 else 0)
  }

  /** The number of CloseHandle calls. */
  function ClosedHandles(calls: seq<Call>): nat
  {
    if calls == [] then 0
    else ClosedHandles(calls[..|calls| - 1]) + (if calls[|calls| - 1].CloseHandle? then 1 else 0)
  }

  /** The number of SetForegroundWindow calls, i.e. of activations. */
  function Activations(calls: seq<Call>): nat
  {
    if calls == [] then 0
    else Activations(calls[..|calls| - 1]) + (if calls[|calls| - 1].SetForegroundWindow? then 1 else 0)
  }

  /** Counting calls distributes over concatenation of traces. */
  lemma {:induction false} CountsAppend(a: seq<Call>, b: seq<Call>)
    ensures OpenedHandles(a + b) == OpenedHandles(a) + OpenedHandles(b)
    ensures ClosedHandles(a + b) == ClosedHandles(a) + ClosedHandles(b)
    ensures Activations(a + b) == Activations(a) + Activations(b)
    decreases |b|
  {
    if b != [] {
      var b' := b[..|b| - 1];
      assert (a + b)[..|a + b| - 1] == a + b';
      assert (a + b)[|a + b| - 1] == b[|b| - 1];
      CountsAppend(a, b');
    } else {
      assert a + b == a;
    }
  }

  /** A trace without a given kind of call counts none of it. */
  lemma {:induction false} CountsWhenAbsent(calls: seq<Call>)
    ensures (forall i :: 0 <= i < |calls| ==> !calls[i].OpenProcess?) ==> OpenedHandles(calls) == 0
    ensures (forall i :: 0 <= i < |calls| ==> !calls[i].CloseHandle?) ==> ClosedHandles(calls) == 0
    ensures (forall i :: 0 <= i < |calls| ==> !calls[i].SetForegroundWindow?) ==> Activations(calls) == 0
  {
    if calls != [] {
      CountsWhenAbsent(calls[..|calls| - 1]);
    }
  }

  /** The calls getProcessName makes: the OpenProcess, and, when it returned
      a handle, the image-path query and the deferred CloseHandle. */
  function ProcessQueries(pid: uint32, process: Handle): seq<Call>
  {
    [OpenProcess(PROCESS_QUERY_LIMITED_INFORMATION, false, pid, process)]
    + if process == 0 then [] else [GetModuleFileNameExW(process, 0, MAX_PATH), CloseHandle(process)]
  }

  /** getProcessName: open the process for limited queries; if that fails,
      return its error and close nothing. Otherwise query the image path and
      close the handle (the deferred CloseHandle) whether or not the query
      succeeded; the name is the last element of the path. */
  function GetProcessName(pid: uint32, opening: OpenAnswer, image: ImageAnswer): (r: Traced<Result<string>>)
    ensures r.calls == ProcessQueries(pid, opening.process)
    ensures opening.process == 0 ==> r.value == Failure(Errno(opening.errno))
    ensures OpenedHandles(r.calls) == ClosedHandles(r.calls) <= 1
    ensures Activations(r.calls) == 0
    ensures r.value.Success? <==> opening.process != 0 && image.ret != 0
    ensures r.value.Success? ==> r.value.value == Base(UpToNul(Take(image.written, MAX_PATH)))
    ensures r.value.Success? ==> r.value.value != []
  {
    var openCall := [OpenProcess(PROCESS_QUERY_LIMITED_INFORMATION, false, pid, opening.process)];
    if opening.process == 0 then
      Traced(Failure(Errno(opening.errno)), openCall)
    else
      var calls := openCall + [GetModuleFileNameExW(opening.process, 0, MAX_PATH), CloseHandle(opening.process)];
      var rest := [GetModuleFileNameExW(opening.process, 0, MAX_PATH), CloseHandle(opening.process)];
      assert openCall[..0] == [] && rest[..1][..0] == [] && rest[..1] == [rest[0]];
      CountsAppend(openCall, rest);
      if image.ret == 0 then
        Traced(Failure(FailedToGetProcessName), calls)
      else
        Traced(Success(Base(UpToNul(Take(image.written, MAX_PATH)))), calls)
  }
}
