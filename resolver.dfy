/** The per-window filter: which windows the switcher offers, and under
    which label.

    A `Window` bundles what the OS answers for one top-level window to each
    query the enumeration callback makes. `Resolve` states declaratively
    which windows are accepted; the callback in module Switcher performs
    the same checks one by one, with early returns, and is proved to agree
    with it. */
module Resolver {
  import opened Win32

  /** The OS's answers about one top-level window. */
  datatype Window = Window(
    hwnd: Handle,
    visible: nat,          // what IsWindowVisible returned
    text: TextAnswer,      // GetWindowTextW
    pid: PidAnswer,        // GetWindowThreadProcessId
    opening: OpenAnswer,   // OpenProcess on that pid
    image: ImageAnswer)    // GetModuleFileNameExW on the opened process

  /** A window that passed every check. */
  datatype Candidate = Candidate(title: string, processName: string, hwnd: Handle)

  /** The process names the switcher never offers. */
  const SKIPPABLE: seq<string> := [
    "fzf.exe",
    "explorer.exe",
    "MouseGestureL.exe",
    "TextInputHost.exe",
    "SystemSettings.exe",
    "ApplicationFrameHost.exe"
  ]

  /** isSkippable: exact, case-sensitive membership in the exclusion list.
      Every excluded name is an ".exe" file name of 7 to 24 characters. */
  predicate IsSkippable(name: string)
    ensures IsSkippable(name) ==> 7 <= |name| <= 24 && name[|name| - 4..] == ".exe"
  {
    name in SKIPPABLE
  }

  /** The label shown for a candidate: `title[name]`. */
  function Label(title: string, name: string): (r: string)
    ensures |r| == |title| + |name| + 2
    ensures r[..|title|] == title && r[|title|] == '['
    ensures r[|title| + 1..|r| - 1] == name && r[|r| - 1] == ']'
  {
    title + "[" + name + "]"
  }

  function LabelOf(c: Candidate): string
  {
    Label(c.title, c.processName)
  }

  /** The title the callback works with: getWindowText's error is dropped,
      leaving the empty string. */
  function Title(w: Window): (r: string)
    ensures NUL !in r && |r| <= TITLE_BUFFER
  {
    match GetWindowText(w.text)
    case Success(t) => t
    case Failure(_) => ""
  }

  /** The process name, or the first error met while resolving it. */
  function ProcessNameOf(w: Window): (r: Result<string>)
    ensures r.Success? ==> r.value != []
  {
    match GetProcessID(w.pid)
    case Failure(e) => Failure(e)
    case Success(pid) => GetProcessName(pid, w.opening, w.image).value
  }

  /** Whether the callback accepts `w`: each of its checks passes. */
  predicate Accepts(w: Window)
  {
    && IsVisibleWindow(w.visible)
    && Title(w) != ""
    && ProcessNameOf(w).Success?
    && ProcessNameOf(w).value != ""
    && !IsSkippable(ProcessNameOf(w).value)
  }

  /** The candidate a window yields, if it is accepted. */
  function Resolve(w: Window): (r: Option<Candidate>)
    ensures r.Some? <==> Accepts(w)
    ensures r.Some? ==> r.value.hwnd == w.hwnd
    ensures r.Some? ==> r.value.title != [] && NUL !in r.value.title && r.value.processName != []
    ensures r.Some? ==> !IsSkippable(r.value.processName)
  {
    if Accepts(w) then Some(Candidate(Title(w), ProcessNameOf(w).value, w.hwnd)) else None
  }

  /** The queries made before the process is opened. */
  function ChecksOf(hwnd: Handle): seq<Call>
  {
    [IsWindowVisible(hwnd), GetWindowTextW(hwnd, TITLE_BUFFER), GetWindowThreadProcessId(hwnd)]
  }

  /** The Win32 queries the callback makes for `w`, in order: each check
      is made only if the previous ones passed, and the process is opened,
      queried and closed only once a pid was found. */
  function Queries(w: Window): (r: seq<Call>)
    ensures |r| >= 1 && r[0] == IsWindowVisible(w.hwnd)
    ensures !IsVisibleWindow(w.visible) ==> |r| == 1
  {
    var checks := ChecksOf(w.hwnd);
    if !IsVisibleWindow(w.visible) then checks[..1]
    else if Title(w) == "" then checks[..2]
    else if w.pid.pid == 0 then checks
    else checks + ProcessQueries(w.pid.pid, w.opening.process)
  }

  lemma ChecksOpenNothing(hwnd: Handle)
    ensures forall k :: 0 <= k <= 3 ==>
      OpenedHandles(ChecksOf(hwnd)[..k]) == 0 && ClosedHandles(ChecksOf(hwnd)[..k]) == 0
      && Activations(ChecksOf(hwnd)[..k]) == 0
  {
    var head := ChecksOf(hwnd);
    forall k | 0 <= k <= 3
      ensures OpenedHandles(head[..k]) == 0 && ClosedHandles(head[..k]) == 0 && Activations(head[..k]) == 0
    {
      CountsWhenAbsent(head[..k]);
    }
  }

  /** Whatever the OS answers, the callback closes every process handle it
      opened, opens at most one, and asks for no activation. */
  lemma {:induction false} QueriesReleaseHandles(w: Window)
    ensures OpenedHandles(Queries(w)) == ClosedHandles(Queries(w)) <= 1
    ensures Activations(Queries(w)) == 0
  {
    var head := ChecksOf(w.hwnd);
    ChecksOpenNothing(w.hwnd);
    assert head[..3] == head;
    if IsVisibleWindow(w.visible) && Title(w) != "" && w.pid.pid != 0 {
      var named := GetProcessName(w.pid.pid, w.opening, w.image).calls;
      CountsAppend(head, named);
    }
  }

  /** The acceptance test spelled out on the raw OS answers: visible, a
      non-zero title length and a non-empty title, a non-zero pid, a
      process that could be opened, an image path that could be read, and a
      name outside the exclusion list. The source's separate "name is
      empty" test never fires, since a base name is never empty. */
  lemma AcceptsIff(w: Window)
    ensures Accepts(w) <==>
      && w.visible != 0
      && Low32(w.text.ret) != 0
      && UpToNul(Take(w.text.written, TITLE_BUFFER)) != []
      && w.pid.pid != 0
      && w.opening.process != 0
      && w.image.ret != 0
      && !IsSkippable(Base(UpToNul(Take(w.image.written, MAX_PATH))))
  {
  }

  /** The exclusion list matches whole names only, with case: a different
      case, a missing extension or an extra suffix is not excluded. */
  lemma SkippableIsExact()
    ensures IsSkippable("explorer.exe") && IsSkippable("fzf.exe")
    ensures !IsSkippable("Explorer.exe") && !IsSkippable("EXPLORER.EXE")
    ensures !IsSkippable("explorer") && !IsSkippable("explorer.exe.bak")
    ensures !IsSkippable("my-fzf.exe") && !IsSkippable("")
  {
  }

  /** When neither process name contains '[', the label determines the
      title and the name: the last '[' of a label is the one the format
      added. */
  lemma {:induction false} LabelDeterminesParts(t1: string, n1: string, t2: string, n2: string)
    requires '[' !in n1 && '[' !in n2
    requires Label(t1, n1) == Label(t2, n2)
    ensures t1 == t2 && n1 == n2
  {
  }

  /** Without that condition labels collide: a title ending in "[b" with
      name "c" and title "a" with name "b[c" both read "a[b[c]". */
  lemma LabelsCanCollide()
    ensures Label("a[b", "c") == Label("a", "b[c")
  {
  }
}
