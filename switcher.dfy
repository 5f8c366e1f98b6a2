/** The switcher's pipeline: the enumeration callback that filters windows,
    sends their labels to the selector and records label -> handle in
    `hwndMap`; the OS loop that drives the callback; and the consumer that
    activates the first selected label it can resolve.

    The two goroutines and their channels become sequences: `sent` is what
    the callback pushed onto the selector's input channel, and the
    selector's output channel is a sequence given to `Consume`. */
module Switcher {
  import opened Win32
  import opened Resolver
  import opened Forcer

  /** What the callback records for an accepted window: its label and handle. */
  datatype Entry = Entry(key: string, hwnd: Handle)

  /** The callback's verdict on a window: an entry if it is accepted. */
  function Verdict(w: Window): (r: Option<Entry>)
    ensures r.Some? <==> Resolve(w).Some?
    ensures r.Some? ==> r.value == Entry(LabelOf(Resolve(w).value), w.hwnd)
  {
    match Resolve(w)
    case None => None
    case Some(c) => Some(Entry(LabelOf(c), c.hwnd))
  }

  /** The verdict the callback reaches on each window, in enumeration order. */
  function Verdicts(ws: seq<Window>): (r: seq<Option<Entry>>)
    ensures |r| == |ws|
    ensures forall i :: 0 <= i < |ws| ==> r[i] == Verdict(ws[i])
  {
    if ws == [] then [] else Verdicts(ws[..|ws| - 1]) + [Verdict(ws[|ws| - 1])]
  }

  /** The queries made while enumerating `ws`, window after window. */
  function Trace(ws: seq<Window>): seq<Call>
  {
    TraceFrom([], ws)
  }

  /** The call log after enumerating `ws`, starting from the log `c`. */
  function TraceFrom(c: seq<Call>, ws: seq<Window>): seq<Call>
  {
    if ws == [] then c else TraceFrom(c, ws[..|ws| - 1]) + Queries(ws[|ws| - 1])
  }

  /** The labels a verdict contributes: the entry's label if accepted. */
  function Emitted(v: Option<Entry>): seq<string>
  {
    match v
    case None => []
    case Some(e) => [e.key]
  }

  /** The labels of the accepted windows, in enumeration order. */
  function Labels(vs: seq<Option<Entry>>): seq<string>
  {
    if vs == [] then [] else Labels(vs[..|vs| - 1]) + Emitted(vs[|vs| - 1])
  }

  /** The index after the callback has reached verdict `v`. */
  function Insert(m: map<string, Handle>, v: Option<Entry>): map<string, Handle>
  {
    match v
    case None => m
    case Some(e) => m[e.key := e.hwnd]
  }

  /** The index after the callback has reached the verdicts `vs`, in order,
      starting from `m`. */
  function IndexFrom(m: map<string, Handle>, vs: seq<Option<Entry>>): map<string, Handle>
  {
    if vs == [] then m else Insert(IndexFrom(m, vs[..|vs| - 1]), vs[|vs| - 1])
  }

  /** `hwndMap` once enumeration is over. */
  function Index(vs: seq<Option<Entry>>): map<string, Handle>
  {
    IndexFrom(map[], vs)
  }

  /** The verdict accepts a window labelled `l`. */
  predicate Labelled(v: Option<Entry>, l: string)
  {
    v.Some? && v.value.key == l
  }

  /** The position of the first output value present in `m`, if any. */
  function FirstMapped(m: map<string, Handle>, outs: seq<string>): (r: Option<nat>)
    ensures r.Some? ==> r.value < |outs| && outs[r.value] in m
    ensures r.Some? ==> forall j :: 0 <= j < r.value ==> outs[j] !in m
    ensures r.None? <==> forall j :: 0 <= j < |outs| ==> outs[j] !in m
  {
    if outs == [] then None
    else if outs[0] in m then Some(0)
    else
      match FirstMapped(m, outs[1..])
      case None => None
      case Some(i) => Some(i + 1)
  }

  /** The line printed when SetForegroundWindow reports failure: the
      fixed prefix, the selected value, and a newline. */
  function FailureMessage(s: string): (r: string)
    ensures |r| == |s| + 28
    ensures r[..27] == "Failed to activate window: " && r[27..|r| - 1] == s && r[|r| - 1] == '\n'
  {
    "Failed to activate window: " + s + "\n"
  }

  /** The callback's checks, in order, each made only when the previous
      ones passed: a visible window, a non-empty title (getWindowText's
      error is dropped), a pid, a process name, and a name outside the
      exclusion list. Returns the label to offer, if the window passes,
      and the queries made. */
  method Admit(w: Window) returns (offered: Option<string>, made: seq<Call>)
    ensures offered.Some? <==> Accepts(w)
    ensures offered.Some? ==> offered.value == Label(Title(w), ProcessNameOf(w).value)
    ensures made == Queries(w)
  {
    ghost var checks := ChecksOf(w.hwnd);
    made := [IsWindowVisible(w.hwnd)];
    assert made == checks[..1];
    if !IsVisibleWindow(w.visible) {
      return None, made;
    }

    made := made + [GetWindowTextW(w.hwnd, TITLE_BUFFER)];
    assert made == checks[..2];
    var text := match GetWindowText(w.text) case Success(t) => t case Failure(_) => "";
    if text == "" {
      return None, made;
    }

    made := made + [GetWindowThreadProcessId(w.hwnd)];
    assert made == checks;
    var pid := GetProcessID(w.pid);
    if pid.Failure? {
      return None, made;
    }

    var named := GetProcessName(pid.value, w.opening, w.image);
    made := made + named.calls;
    if named.value.Failure? || named.value.value == "" {
      return None, made;
    }
    var name := named.value.value;
    if IsSkippable(name) {
      return None, made;
    }

    return Some(Label(text, name)), made;
  }

  /** The state of one run: the label index, the labels sent to the
      selector, and the Win32 queries made so far. */
  class Session {
    var hwndMap: map<string, Handle>
    var sent: seq<string>
    var calls: seq<Call>

    constructor ()
      ensures hwndMap == map[] && sent == [] && calls == []
    {
      hwndMap := map[];
      sent := [];
      calls := [];
    }

    /** The enumeration callback. It returns 1 ("continue") on every path.
        A rejected window leaves `sent` and `hwndMap` alone; an accepted
        one has its label sent, then entered in the index, replacing any
        earlier window with the same label. The queries it makes are
        `Queries(w)`. */
    method Callback(w: Window) returns (ret: nat)
      modifies this
      ensures ret == 1
      ensures sent == old(sent) + Emitted(Verdict(w))
      ensures hwndMap == Insert(old(hwndMap), Verdict(w))
      ensures calls == old(calls) + Queries(w)
    {
      var offered, made := Admit(w);
      calls := calls + made;
      if offered.Some? {
        sent := sent + [offered.value];
        hwndMap := hwndMap[offered.value := w.hwnd];
      }
      return 1;
    }

    /** enumWindows(cb, 0): the OS hands every top-level window to the
        callback, in its own order, and would stop at the first callback
        that returned 0; the callback never does, so every window is
        visited. The result is EnumWindows' answer mapped to an error. */
    method EnumWindows(ws: seq<Window>, r1: nat, e1: nat) returns (err: Option<Error>, visited: nat)
      modifies this
      ensures visited == |ws|
      ensures sent == old(sent) + Labels(Verdicts(ws))
      ensures hwndMap == IndexFrom(old(hwndMap), Verdicts(ws))
      ensures calls == TraceFrom(old(calls), ws)
      ensures err == EnumWindowsResult(r1, e1)
    {
      visited := 0;
      var more := true;
      while visited < |ws| && more
        invariant visited <= |ws|
        invariant more
        invariant sent == old(sent) + Labels(Verdicts(ws[..visited]))
        invariant hwndMap == IndexFrom(old(hwndMap), Verdicts(ws[..visited]))
        invariant calls == TraceFrom(old(calls), ws[..visited])
      {
        var ret := Visit(ws, visited, old(sent), old(hwndMap), old(calls));
        visited := visited + 1;
        more := ret != 0;
      }
      assert ws[..visited] == ws;
      err := EnumWindowsResult(r1, e1);
    }

    /** One turn of the enumeration loop: the callback on the `k`-th
        window extends the state reached after the first `k` windows to the
        state after the first `k + 1`. The loop body of `EnumWindows`, kept
        apart so that each proof stays small; the ghost parameters are the
        state the enumeration started from. */
    method Visit(ws: seq<Window>, k: nat, ghost sent0: seq<string>,
                 ghost map0: map<string, Handle>, ghost calls0: seq<Call>)
      returns (ret: nat)
      requires k < |ws|
      requires sent == sent0 + Labels(Verdicts(ws[..k]))
      requires hwndMap == IndexFrom(map0, Verdicts(ws[..k]))
      requires calls == TraceFrom(calls0, ws[..k])
      modifies this
      ensures ret == 1
      ensures sent == sent0 + Labels(Verdicts(ws[..k + 1]))
      ensures hwndMap == IndexFrom(map0, Verdicts(ws[..k + 1]))
      ensures calls == TraceFrom(calls0, ws[..k + 1])
    {
      ret := Callback(ws[k]);
      EnumerationStep(map0, calls0, ws, k);
      AppendAssociates(sent0, Labels(Verdicts(ws[..k])), Emitted(Verdict(ws[k])));
    }

    /** The consumer: walks the selector's output, skipping values that are
        not in the index; on the first one that is, activates the window
        it maps to, prints a message if that failed, and stops. Returns the
        activation calls, what was printed and how many values it read. */
    method Consume(outputs: seq<string>, os: FocusAnswers)
      returns (activation: seq<Call>, printed: seq<string>, read: nat)
      ensures match FirstMapped(hwndMap, outputs)
        case None => activation == [] && printed == [] && read == |outputs|
        case Some(i) =>
          && read == i + 1
          && activation == ForceForegroundWindow(hwndMap[outputs[i]], os).calls
          && printed == (if os.foregroundRet != 0 then [] else [FailureMessage(outputs[i])])
      ensures Activations(activation) <= 1
    {
      activation, printed, read := [], [], 0;
      while read < |outputs|
        invariant read <= |outputs|
        invariant forall j :: 0 <= j < read ==> outputs[j] !in hwndMap
      {
        var s := outputs[read];
        read := read + 1;
        if s in hwndMap {
          var h := hwndMap[s];
          var r := ForceForegroundWindow(h, os);
          ForceIsBracketed(h, os);
          activation := r.calls;
          if !r.value {
            printed := [FailureMessage(s)];
          }
          return;
        }
      }
      CountsWhenAbsent(activation);
    }
  }

  /** One run, with enumeration finished before the selection is read:
      the selector is offered exactly the accepted labels, in order; at
      most one window is activated, and one is exactly when some output
      value is an offered label, the first such value selecting the window
      the index holds for it. */
  method Run(ws: seq<Window>, r1: nat, e1: nat, outputs: seq<string>, os: FocusAnswers)
    returns (labels: seq<string>, activation: seq<Call>, printed: seq<string>)
    ensures labels == Labels(Verdicts(ws))
    ensures Activations(activation) <= 1
    ensures activation == [] <==> forall j :: 0 <= j < |outputs| ==> outputs[j] !in labels
    ensures activation != [] ==>
      exists i :: 0 <= i < |outputs| && outputs[i] in labels
        && (forall j :: 0 <= j < i ==> outputs[j] !in labels)
        && outputs[i] in Index(Verdicts(ws))
        && SetForegroundWindow(Index(Verdicts(ws))[outputs[i]]) in activation
  {
    ghost var vs := Verdicts(ws);
    var session := new Session();
    var _, _ := session.EnumWindows(ws, r1, e1);
    labels := session.sent;
    assert labels == Labels(vs) && session.hwndMap == Index(vs);
    KeysAreLabels(map[], vs);
    var read;
    activation, printed, read := session.Consume(outputs, os);
    SelectionActivatesFirstOffered(Index(vs), labels, outputs, os, activation);
  }

  /** When the index's keys are the offered labels, the consumer's
      activation is empty exactly when no output value was offered, and
      otherwise targets the window the index holds for the first offered
      value. */
  lemma SelectionActivatesFirstOffered(m: map<string, Handle>, labels: seq<string>, outputs: seq<string>,
                                       os: FocusAnswers, activation: seq<Call>)
    requires m.Keys == set l | l in labels
    requires match FirstMapped(m, outputs)
      case None => activation == []
      case Some(i) => activation == ForceForegroundWindow(m[outputs[i]], os).calls
    ensures activation == [] <==> forall j :: 0 <= j < |outputs| ==> outputs[j] !in labels
    ensures activation != [] ==>
      exists i :: 0 <= i < |outputs| && outputs[i] in labels
        && (forall j :: 0 <= j < i ==> outputs[j] !in labels)
        && outputs[i] in m
        && SetForegroundWindow(m[outputs[i]]) in activation
  {
  }

  /** Enumerating one more window extends the labels, the index and the
      trace by that window's share. */
  lemma EnumerationStep(m: map<string, Handle>, c: seq<Call>, ws: seq<Window>, k: nat)
    requires k < |ws|
    ensures Labels(Verdicts(ws[..k + 1])) == Labels(Verdicts(ws[..k])) + Emitted(Verdict(ws[k]))
    ensures IndexFrom(m, Verdicts(ws[..k + 1])) == Insert(IndexFrom(m, Verdicts(ws[..k])), Verdict(ws[k]))
    ensures TraceFrom(c, ws[..k + 1]) == TraceFrom(c, ws[..k]) + Queries(ws[k])
  {
    var vs := Verdicts(ws[..k]);
    assert ws[..k + 1][..k] == ws[..k];
    assert Verdicts(ws[..k + 1]) == vs + [Verdict(ws[k])];
    assert (vs + [Verdict(ws[k])])[..|vs|] == vs;
  }

  /** Regrouping a concatenation; a stepping stone that keeps `Visit`'s
      proof small. */
  lemma AppendAssociates<T>(a: seq<T>, b: seq<T>, c: seq<T>)
    ensures a + (b + c) == a + b + c
  {
  }

  /** The keys of the index are the initial keys plus every label sent. */
  lemma {:induction false} KeysAreLabels(m: map<string, Handle>, vs: seq<Option<Entry>>)
    ensures IndexFrom(m, vs).Keys == m.Keys + (set l | l in Labels(vs))
  {
    if vs != [] {
      KeysAreLabels(m, vs[..|vs| - 1]);
    }
  }

  /** Sent labels keep enumeration order across any split of the windows. */
  lemma {:induction false} LabelsAppend(a: seq<Option<Entry>>, b: seq<Option<Entry>>)
    ensures Labels(a + b) == Labels(a) + Labels(b)
    decreases |b|
  {
    if b == [] {
      assert a + b == a;
    } else {
      var b' := b[..|b| - 1];
      assert (a + b)[..|a + b| - 1] == a + b';
      assert (a + b)[|a + b| - 1] == b[|b| - 1];
      LabelsAppend(a, b');
    }
  }

  /** Building the index over `a + b` is building it over `a`, then over `b`. */
  lemma {:induction false} IndexAppend(m: map<string, Handle>, a: seq<Option<Entry>>, b: seq<Option<Entry>>)
    ensures IndexFrom(m, a + b) == IndexFrom(IndexFrom(m, a), b)
    decreases |b|
  {
    if b == [] {
      assert a + b == a;
    } else {
      var b' := b[..|b| - 1];
      assert (a + b)[..|a + b| - 1] == a + b';
      assert (a + b)[|a + b| - 1] == b[|b| - 1];
      IndexAppend(m, a, b');
    }
  }

  /** A rejected window, wherever it sits in the enumeration, changes
      neither the labels sent nor the final index. */
  lemma SkippedWindowChangesNothing(a: seq<Option<Entry>>, b: seq<Option<Entry>>)
    ensures Labels(a + [None] + b) == Labels(a + b)
    ensures Index(a + [None] + b) == Index(a + b)
  {
    var skip: seq<Option<Entry>> := [None];
    assert Labels(skip) == [] by { assert skip[..0] == []; }
    LabelsAppend(a, skip);
    assert Labels(a + skip) == Labels(a);
    LabelsAppend(a + skip, b);
    LabelsAppend(a, b);
    IndexAppend(map[], a + skip, b);
    IndexAppend(map[], a, skip);
    IndexAppend(map[], a, b);
  }

  /** An accepted window that no later window shares its label with is
      what the index holds for that label. */
  lemma {:induction false} IndexHoldsLastAccepted(m: map<string, Handle>, vs: seq<Option<Entry>>, i: nat)
    requires i < |vs| && vs[i].Some?
    requires forall j :: i < j < |vs| ==> !Labelled(vs[j], vs[i].value.key)
    ensures vs[i].value.key in IndexFrom(m, vs)
    ensures IndexFrom(m, vs)[vs[i].value.key] == vs[i].value.hwnd
  {
    var n := |vs| - 1;
    var prefix := vs[..n];
    if i < n {
      assert forall j :: i < j < |prefix| ==> prefix[j] == vs[j];
      IndexHoldsLastAccepted(m, prefix, i);
      assert !Labelled(vs[n], vs[i].value.key);
    }
  }

  /** A label is sent exactly when some accepted window carries it. */
  lemma {:induction false} LabelsAreAcceptedKeys(vs: seq<Option<Entry>>, l: string)
    ensures l in Labels(vs) <==> exists i :: 0 <= i < |vs| && vs[i].Some? && vs[i].value.key == l
  {
    if vs != [] {
      var n := |vs| - 1;
      var prefix := vs[..n];
      LabelsAreAcceptedKeys(prefix, l);
      if l in Labels(vs) {
        if l in Labels(prefix) {
          var i :| 0 <= i < |prefix| && prefix[i].Some? && prefix[i].value.key == l;
          assert vs[i] == prefix[i];
        } else {
          assert vs[n].Some? && vs[n].value.key == l;
        }
      }
      if exists i :: 0 <= i < |vs| && vs[i].Some? && vs[i].value.key == l {
        var i :| 0 <= i < |vs| && vs[i].Some? && vs[i].value.key == l;
        if i < n {
          assert prefix[i] == vs[i];
        }
      }
    }
  }

  /** Every label in the index was sent, and the index holds the handle of
      the last window that carried it: later windows overwrite earlier
      ones. */
  lemma {:induction false} IndexEntryIsLastWithLabel(vs: seq<Option<Entry>>, l: string)
    requires l in Index(vs)
    ensures exists i ::
      && 0 <= i < |vs| && Labelled(vs[i], l) && Index(vs)[l] == vs[i].value.hwnd
      && forall j :: i < j < |vs| ==> !Labelled(vs[j], l)
  {
    assert vs != [];
    var n := |vs| - 1;
    if Labelled(vs[n], l) {
      assert Index(vs)[l] == vs[n].value.hwnd;
    } else {
      var prefix := vs[..n];
      assert l in Index(prefix) && Index(vs)[l] == Index(prefix)[l];
      IndexEntryIsLastWithLabel(prefix, l);
      var i :| && 0 <= i < |prefix| && Labelled(prefix[i], l) && Index(prefix)[l] == prefix[i].value.hwnd
               && forall j :: i < j < |prefix| ==> !Labelled(prefix[j], l);
      assert vs[i] == prefix[i];
    }
  }

  /** Two accepted windows with the same label: both labels are sent, but
      the index keeps only the later window. */
  lemma LaterWindowWins(a: Entry, b: Entry)
    requires a.key == b.key
    ensures Labels([Some(a), Some(b)]) == [a.key, a.key]
    ensures Index([Some(a), Some(b)]) == map[a.key := b.hwnd]
  {
    var one: seq<Option<Entry>> := [Some(a)];
    var two: seq<Option<Entry>> := [Some(a), Some(b)];
    assert two[..1] == one;
    assert one[..0] == [];
    assert IndexFrom(map[], one[..0]) == map[];
    assert Index(one) == map[][a.key := a.hwnd];
    assert Index(two) == Insert(Index(one), Some(b));
    assert Labels(one) == [a.key];
  }

  /** Over a whole enumeration every process handle opened is closed, at
      most one per window, and nothing is activated. */
  lemma {:induction false} TraceReleasesHandles(ws: seq<Window>)
    ensures OpenedHandles(Trace(ws)) == ClosedHandles(Trace(ws)) <= |ws|
    ensures Activations(Trace(ws)) == 0
  {
    if ws != [] {
      var n := |ws| - 1;
      TraceReleasesHandles(ws[..n]);
      QueriesReleaseHandles(ws[n]);
      CountsAppend(Trace(ws[..n]), Queries(ws[n]));
    }
  }
}
