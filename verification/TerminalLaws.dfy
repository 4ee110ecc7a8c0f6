/** No lost and no phantom terminal session in any interleaving, and exactly when an id may be used again. */
module TerminalLaws {
  import opened Terminals

  lemma OutputsOfAppend(outputs: seq<Output>, o: Output, r: nat)
    ensures OutputsOf(outputs + [o], r) == OutputsOf(outputs, r) + if o.reader == r then [o] else []
  {
    assert (outputs + [o])[..|outputs|] == outputs;
  }

  lemma {:induction false} NoOutputsYet(outputs: seq<Output>, r: nat)
    requires forall k :: 0 <= k < |outputs| ==> outputs[k].reader < r
    ensures OutputsOf(outputs, r) == []
  {
    if outputs != [] {
      NoOutputsYet(outputs[..|outputs| - 1], r);
    }
  }

  // ----- every step keeps the invariant

  lemma InsertKeeps(s: State, id: string)
    requires Inv(s) && SafeId(s, id)
    ensures Inv(Do(s, Insert(id)))
  {
    hide OutputsOf;
    var s' := Do(s, Insert(id));
    var n := |s.readers|;
    assert forall i :: Reported(s', i) <==> Reported(s, i);
    NoOutputsYet(s.outputs, n);
    forall r | 0 <= r < |s'.readers| ensures ReaderFits(s', r) {
      if r < n {
        assert ReaderFits(s, r) && s'.readers[r] == s.readers[r];
        assert s'.readers[n].id == id;
        assert Latest(s', r) <==> Latest(s, r) && s.readers[r].id != id by {
          assert forall q :: r < q < n ==> s'.readers[q] == s.readers[q];
        }
      }
    }
    forall i | Reported(s', i) ensures exists r :: 0 <= r < |s'.readers| && s'.readers[r].id == i {
      var r :| 0 <= r < |s.readers| && s.readers[r].id == i;
      assert s'.readers[r].id == i;
    }
  }

  /** A reader moves on before it reports. */
  lemma MoveKeeps(s: State, r: nat, phase: Phase, outputs: seq<Output>)
    requires Inv(s) && r < |s.readers| && s.readers[r].phase != Sent && phase != Sent
    requires OutputsFit(OutputsOf(outputs, r), phase)
    requires forall q :: q != r ==> OutputsOf(outputs, q) == OutputsOf(s.outputs, q)
    requires forall k :: 0 <= k < |outputs| ==> outputs[k].reader < |s.readers|
    ensures Inv(Move(s, r, phase).(outputs := outputs))
  {
    hide OutputsOf, OutputsFit;
    var s' := Move(s, r, phase).(outputs := outputs);
    assert forall i :: Reported(s', i) <==> Reported(s, i);
    SameIds(s, s');
    hide Latest, Reported;
    assert ReaderFits(s, r);
    forall q | 0 <= q < |s'.readers| ensures ReaderFits(s', q) {
      assert ReaderFits(s, q) && s'.readers[q].id == s.readers[q].id;
    }
  }

  lemma SameIds(s: State, s': State)
    requires Inv(s) && |s'.readers| == |s.readers|
    requires forall r :: 0 <= r < |s.readers| ==> s'.readers[r].id == s.readers[r].id
    requires forall id :: Reported(s', id) ==> exists r :: 0 <= r < |s.readers| && s.readers[r].id == id
    ensures forall r :: 0 <= r < |s.readers| ==> (Latest(s', r) <==> Latest(s, r))
    ensures forall id :: Reported(s', id) ==> exists r :: 0 <= r < |s'.readers| && s'.readers[r].id == id
  {
    hide Reported;
    forall id | Reported(s', id) ensures exists r :: 0 <= r < |s'.readers| && s'.readers[r].id == id {
      var r :| 0 <= r < |s.readers| && s.readers[r].id == id;
      assert s'.readers[r].id == id;
    }
  }

  /** Two readers of one id: only the later one can be the latest. */
  lemma OneLatest(s: State, q: nat, r: nat)
    requires q < |s.readers| && r < |s.readers| && s.readers[q].id == s.readers[r].id && Latest(s, q) && Latest(s, r)
    ensures q == r
  {
  }

  lemma OutputKeeps(s: State, r: nat, o: Output, phase: Phase)
    requires Inv(s) && r < |s.readers| && o.reader == r && s.readers[r].phase != Sent && phase != Sent
    requires OutputsFit(OutputsOf(s.outputs, r) + [o], phase)
    ensures Inv(Move(s, r, phase).(outputs := s.outputs + [o]))
  {
    hide OutputsOf, OutputsFit, ReaderFits, Reported;
    forall q ensures OutputsOf(s.outputs + [o], q) == OutputsOf(s.outputs, q) + if q == r then [o] else [] {
      OutputsOfAppend(s.outputs, o, q);
    }
    MoveKeeps(s, r, phase, s.outputs + [o]);
  }

  lemma SendKeeps(s: State, r: nat)
    requires Inv(s) && At(s, r, Exited)
    ensures Inv(Do(s, SendReap(r)))
  {
    hide OutputsOf, OutputsFit;
    var s' := Do(s, SendReap(r));
    var id := s.readers[r].id;
    assert id in s'.channel;
    SentOnce(s, r);
    hide ReportedOnce;
    forall i ensures Reported(s', i) <==> Reported(s, i) || i == id {
      assert i in s'.channel <==> i in s.channel || i == id;
    }
    assert ReaderFits(s, r);
    SameIds(s, s');
    forall q | 0 <= q < |s'.readers| ensures ReaderFits(s', q) {
      assert ReaderFits(s, q) && s'.readers[q].id == s.readers[q].id;
      OutputsFitSent(OutputsOf(s.outputs, r));
      if q != r && Latest(s, q) && s.readers[q].id == id {
        OneLatest(s, q, r);
      }
    }
  }

  lemma SentOnce(s: State, r: nat)
    requires Inv(s) && At(s, r, Exited)
    ensures ReportedOnce(Do(s, SendReap(r)))
  {
    hide OutputsOf, OutputsFit;
    var id := s.readers[r].id;
    assert ReaderFits(s, r);
    assert !Reported(s, id);
    assert forall i :: 0 <= i < |s.channel| ==> s.channel[i] in s.channel;
  }

  lemma OutputsFitSent(outputs: seq<Output>)
    ensures OutputsFit(outputs, Exited) <==> OutputsFit(outputs, Sent)
  {
  }

  lemma DrainTakeKeeps(s: State, call: nat, count: nat)
    requires Inv(s) && call !in s.drains && count <= |s.channel|
    ensures Inv(Do(s, DrainTake(call, count)))
  {
    hide OutputsOf, OutputsFit;
    var s' := Do(s, DrainTake(call, count));
    forall i ensures Reported(s', i) <==> Reported(s, i) {
      TakenStaysReported(s, call, count, i);
    }
    TakenOnce(s, call, count);
    forall q | 0 <= q < |s'.readers| ensures ReaderFits(s', q) {
      assert ReaderFits(s, q);
    }
  }

  lemma TakenOnce(s: State, call: nat, count: nat)
    requires ReportedOnce(s) && call !in s.drains && count <= |s.channel|
    ensures ReportedOnce(Do(s, DrainTake(call, count)))
  {
    var s' := Do(s, DrainTake(call, count));
    TakenHeld(s, call, count);
    forall id | id in s.channel[..count] ensures id in s.channel && id !in s'.channel {
      var i :| 0 <= i < count && s.channel[i] == id;
      forall j | 0 <= j < |s'.channel| ensures s'.channel[j] != id {
        assert s'.channel[j] == s.channel[count + j];
      }
    }
    assert forall id :: id in s'.channel ==> id in s.channel;
  }

  lemma TakenHeld(s: State, call: nat, count: nat)
    requires call !in s.drains && count <= |s.channel|
    ensures forall c, id :: Held(Do(s, DrainTake(call, count)).drains, c, id)
                            <==> if c == call then id in s.channel[..count] else Held(s.drains, c, id)
  {
  }

  lemma TakenStaysReported(s: State, call: nat, count: nat, i: string)
    requires call !in s.drains && count <= |s.channel|
    ensures Reported(Do(s, DrainTake(call, count)), i) <==> Reported(s, i)
  {
    var s' := Do(s, DrainTake(call, count));
    TakenHeld(s, call, count);
    hide Held;
    assert s.channel == s.channel[..count] + s.channel[count..];
    assert i in s.channel <==> i in s.channel[..count] || i in s'.channel;
    assert i in s.channel[..count] ==> Held(s'.drains, call, i);
    if exists c :: Held(s.drains, c, i) {
      var c :| Held(s.drains, c, i);
      assert c != call ==> Held(s'.drains, c, i);
    }
  }

  lemma DrainRemoveKeeps(s: State, call: nat)
    requires Inv(s) && call in s.drains
    ensures Inv(Do(s, DrainRemove(call)))
  {
    hide OutputsOf, OutputsFit;
    var s' := Do(s, DrainRemove(call));
    forall q | 0 <= q < |s'.readers| ensures ReaderFits(s', q) {
      assert ReaderFits(s, q);
      var id := s.readers[q].id;
      AfterRemoval(s, call, id);
      assert id in Dead(s, call) ==> Held(s.drains, call, id);
    }
    forall id | Reported(s', id) ensures Reported(s, id) {
      AfterRemoval(s, call, id);
    }
    assert forall c, id :: Held(s'.drains, c, id) <==> Held(s.drains, c, id) && c != call;
  }

  /** Removal takes the reports of its drain, and no other. */
  lemma AfterRemoval(s: State, call: nat, id: string)
    requires call in s.drains && ReportedOnce(s)
    ensures Reported(Do(s, DrainRemove(call)), id) <==> Reported(s, id) && id !in Dead(s, call)
  {
    var s' := Do(s, DrainRemove(call));
    assert forall c :: Held(s'.drains, c, id) <==> Held(s.drains, c, id) && c != call;
    assert id in Dead(s, call) <==> Held(s.drains, call, id);
  }

  lemma KillKeeps(s: State, id: string)
    requires Inv(s)
    ensures Inv(Do(s, Kill(id)))
  {
    hide OutputsOf, OutputsFit;
    var s' := Do(s, Kill(id));
    assert forall i :: Reported(s', i) <==> Reported(s, i);
    forall r | 0 <= r < |s'.readers| ensures ReaderFits(s', r) {
      assert ReaderFits(s, r);
    }
  }

  lemma KillAllKeeps(s: State)
    requires Inv(s)
    ensures Inv(Do(s, KillAll))
  {
    hide OutputsOf, OutputsFit;
    var s' := Do(s, KillAll);
    assert forall i :: Reported(s', i) <==> Reported(s, i);
    forall r | 0 <= r < |s'.readers| ensures ReaderFits(s', r) {
      assert ReaderFits(s, r);
      var id := s.readers[r].id;
      if id in s.sessions && s.sessions[id] == r {
        assert r in s.sessions.Values;
      }
      if r in s.sessions.Values {
        var i :| i in s.sessions && s.sessions[i] == r;
      }
    }
    forall r | r in s'.killed ensures r < |s'.readers| {
      if r !in s.killed {
        var i :| i in s.sessions && s.sessions[i] == r;
      }
    }
  }

  lemma DataKeeps(s: State, r: nat)
    requires Inv(s) && At(s, r, Reading)
    ensures Inv(Do(s, ReadData(r)))
  {
    hide OutputsOf, Reported, ReportedOnce;
    assert ReaderFits(s, r);
    OutputKeeps(s, r, Data(r), Reading);
    assert s.readers[r := s.readers[r].(phase := Reading)] == s.readers;
  }

  lemma ExitKeeps(s: State, r: nat)
    requires Inv(s) && At(s, r, AtEnd)
    ensures Inv(Do(s, FireExit(r)))
  {
    hide OutputsOf, Reported, ReportedOnce;
    assert ReaderFits(s, r);
    var outputs := OutputsOf(s.outputs, r);
    assert (outputs + [Exit(r)])[..|outputs|] == outputs;
    OutputKeeps(s, r, Exit(r), Exited);
  }

  lemma PhaseKeeps(s: State, r: nat, phase: Phase)
    requires Inv(s) && r < |s.readers|
    requires (s.readers[r].phase.NotStarted? && phase.Reading?) || (s.readers[r].phase.Reading? && phase.AtEnd?)
    ensures Inv(Move(s, r, phase))
  {
    hide OutputsOf, Reported, ReportedOnce;
    assert ReaderFits(s, r);
    MoveKeeps(s, r, phase, s.outputs);
  }

  /** Each step keeps the invariant, provided that sessions are inserted under safe ids. */
  lemma StepKeepsInv(s: State, step: Step)
    requires Inv(s) && Enabled(s, step) && (step.Insert? ==> SafeId(s, step.id))
    ensures Inv(Do(s, step))
  {
    hide Inv;
    match step {
      case Insert(id) => InsertKeeps(s, id);
      case StartReader(r) => PhaseKeeps(s, r, Reading);
      case ReadData(r) => DataKeeps(s, r);
      case ReadEnd(r) => PhaseKeeps(s, r, AtEnd);
      case FireExit(r) => ExitKeeps(s, r);
      case SendReap(r) => SendKeeps(s, r);
      case DrainTake(call, count) => DrainTakeKeeps(s, call, count);
      case DrainRemove(call) => DrainRemoveKeeps(s, call);
      case Kill(id) => KillKeeps(s, id);
      case KillAll => KillAllKeeps(s);
    }
  }

  // ----- whole runs

  /** A run: `steps[i]` leads from `run[i]` to `run[i + 1]`. */
  ghost predicate Continues(s: State, run: seq<State>, steps: seq<Step>) {
    && |run| == |steps| + 1 && run[0] == s
    && forall i :: 0 <= i < |steps| ==> Enabled(run[i], steps[i]) && run[i + 1] == Do(run[i], steps[i])
  }

  ghost predicate IsRun(run: seq<State>, steps: seq<Step>) {
    Continues(START, run, steps)
  }

  ghost predicate IdsAreSafe(run: seq<State>, steps: seq<Step>)
    requires |run| == |steps| + 1
  {
    forall i :: 0 <= i < |steps| && steps[i].Insert? ==> SafeId(run[i], steps[i].id)
  }

  lemma StartHolds()
    ensures Inv(START)
  {
  }

  lemma {:induction false} ContinuesInv(s: State, run: seq<State>, steps: seq<Step>, i: nat)
    requires Inv(s) && Continues(s, run, steps) && IdsAreSafe(run, steps) && i < |run|
    ensures Inv(run[i])
  {
    hide Inv, Do, Enabled, SafeId;
    if i > 0 {
      ContinuesInv(s, run, steps, i - 1);
      assert run[i - 1 + 1] == Do(run[i - 1], steps[i - 1]);
      StepKeepsInv(run[i - 1], steps[i - 1]);
    }
  }

  lemma RunKeepsInv(run: seq<State>, steps: seq<Step>, i: nat)
    requires IsRun(run, steps) && IdsAreSafe(run, steps) && i < |run|
    ensures Inv(run[i])
  {
    hide Inv, Continues;
    StartHolds();
    ContinuesInv(START, run, steps, i);
  }

  /**
   * In every interleaving with safe ids: a session is mapped exactly when
   * nobody killed it and its reader has either not reported its end or the
   * report is still on the channel or with a drain. None is lost, none stays.
   */
  lemma NoLostNoPhantomSession(run: seq<State>, steps: seq<Step>, i: nat, r: nat)
    requires IsRun(run, steps) && IdsAreSafe(run, steps) && i < |run| && r < |run[i].readers|
    ensures var s, reader := run[i], run[i].readers[r];
            Mapped(s, r)
            <==> r !in s.killed && (reader.phase != Sent || (Latest(s, r) && Reported(s, reader.id)))
    ensures forall id :: id in run[i].sessions ==>
      run[i].sessions[id] < |run[i].readers| && run[i].readers[run[i].sessions[id]].id == id
  {
    hide OutputsOf;
    RunKeepsInv(run, steps, i);
    assert ReaderFits(run[i], r);
  }

  /** A drain removes only sessions whose reader has ended and fired its exit. */
  lemma DrainsRemoveOnlyEnded(run: seq<State>, steps: seq<Step>, i: nat, id: string)
    requires IsRun(run, steps) && IdsAreSafe(run, steps) && i < |steps| && steps[i].DrainRemove?
    requires id in run[i].sessions && id !in run[i + 1].sessions
    ensures run[i].sessions[id] < |run[i].readers| && run[i].readers[run[i].sessions[id]].phase == Sent
  {
    hide OutputsOf;
    RunKeepsInv(run, steps, i);
    var s := run[i];
    assert Enabled(s, steps[i]) && run[i + 1] == Do(s, steps[i]);
    assert ReaderFits(s, s.sessions[id]);
    assert Held(s.drains, steps[i].call, id);
  }

  /** Each reader fires its exit at most once, and emits no data after it. */
  lemma ExitIsLast(run: seq<State>, steps: seq<Step>, i: nat, r: nat)
    requires IsRun(run, steps) && IdsAreSafe(run, steps) && i < |run| && r < |run[i].readers|
    ensures var outputs := OutputsOf(run[i].outputs, r);
            && OutputsFit(outputs, run[i].readers[r].phase)
            && forall k :: 0 <= k < |outputs| && outputs[k].Exit? ==> k == |outputs| - 1
  {
    hide OutputsOf;
    RunKeepsInv(run, steps, i);
    assert ReaderFits(run[i], r);
    var outputs := OutputsOf(run[i].outputs, r);
    forall k | 0 <= k < |outputs| - 1 ensures outputs[k].Data? {
      assert outputs[..|outputs| - 1][k] == outputs[k];
    }
  }

  // ----- exactly when an id may be used again

  /** Nobody killed the session and its reader has not ended, but it is no longer mapped. */
  predicate Lost(s: State, r: nat) {
    r < |s.readers| && r !in s.killed && s.readers[r].phase != Sent && !Mapped(s, r)
  }

  lemma {:induction false} FreshCall(keys: set<nat>) returns (call: nat)
    ensures forall k :: k in keys ==> k < call
  {
    if keys == {} {
      call := 0;
    } else {
      var k :| k in keys;
      var rest := FreshCall(keys - {k});
      assert forall j :: j in keys ==> j == k || j in keys - {k};
      call := if k < rest then rest else k + 1;
    }
  }

  /** How far a reader is from having reported its end. */
  function Ahead(phase: Phase): nat {
    match phase
    case NotStarted => 4
    case Reading => 3
    case AtEnd => 2
    case Exited => 1
    case Sent => 0
  }

  /** The step by which a reader goes on towards its report. */
  function Onward(r: nat, phase: Phase): Step
    requires phase != Sent
  {
    match phase
    case NotStarted => StartReader(r)
    case Reading => ReadEnd(r)
    case AtEnd => FireExit(r)
    case Exited => SendReap(r)
  }

  predicate NoInserts(steps: seq<Step>) {
    forall i :: 0 <= i < |steps| ==> !steps[i].Insert?
  }

  lemma Prefixed(s: State, step: Step, run: seq<State>, steps: seq<Step>)
    requires Enabled(s, step) && Continues(Do(s, step), run, steps) && NoInserts(steps) && !step.Insert?
    ensures Continues(s, [s] + run, [step] + steps) && NoInserts([step] + steps)
  {
    hide Enabled, Do;
    var run', steps' := [s] + run, [step] + steps;
    forall i | 0 <= i < |steps'| ensures Enabled(run'[i], steps'[i]) && run'[i + 1] == Do(run'[i], steps'[i]) {
      if i > 0 {
        assert run'[i] == run[i - 1] && steps'[i] == steps[i - 1] && run'[i + 1] == run[i - 1 + 1];
      }
    }
  }

  /** `n` is a later session of the id of `q`, alive and not killed. */
  predicate Succeeds(s: State, n: nat, q: nat) {
    && n < |s.readers| && q < |s.readers| && n != q && s.readers[n].id == s.readers[q].id
    && n !in s.killed && s.readers[n].phase != Sent
  }

  /** Whatever the state, an end still to be reported or drained takes the later session of its id with it. */
  lemma {:induction false} OldEndTakesTheNew(s: State, n: nat, q: nat) returns (run: seq<State>, steps: seq<Step>)
    requires Succeeds(s, n, q) && (s.readers[q].phase != Sent || Reported(s, s.readers[q].id))
    ensures Continues(s, run, steps) && NoInserts(steps) && Lost(run[|steps|], n)
    decreases Ahead(s.readers[q].phase)
  {
    var id, phase := s.readers[q].id, s.readers[q].phase;
    if phase != Sent {
      var step := Onward(q, phase);
      var s' := Do(s, step);
      assert phase == Exited ==> id in s'.channel;
      run, steps := OldEndTakesTheNew(s', n, q);
      Prefixed(s, step, run, steps);
      run, steps := [s] + run, [step] + steps;
    } else {
      run, steps := DrainTakesIt(s, n, id);
    }
  }

  lemma DrainTakesIt(s: State, n: nat, id: string) returns (run: seq<State>, steps: seq<Step>)
    requires n < |s.readers| && s.readers[n].id == id && n !in s.killed && s.readers[n].phase != Sent && Reported(s, id)
    ensures Continues(s, run, steps) && NoInserts(steps) && Lost(run[|steps|], n)
  {
    var call: nat;
    if id in s.channel {
      call := FreshCall(s.drains.Keys);
      var take := DrainTake(call, |s.channel|);
      var s' := Do(s, take);
      assert s'.drains[call] == s.channel;
      run, steps := RemovalTakesIt(s', n, id, call);
      Prefixed(s, take, run, steps);
      run, steps := [s] + run, [take] + steps;
    } else {
      call :| Held(s.drains, call, id);
      run, steps := RemovalTakesIt(s, n, id, call);
    }
  }

  lemma RemovalTakesIt(s: State, n: nat, id: string, call: nat) returns (run: seq<State>, steps: seq<Step>)
    requires n < |s.readers| && s.readers[n].id == id && n !in s.killed && s.readers[n].phase != Sent
    requires Held(s.drains, call, id)
    ensures Continues(s, run, steps) && NoInserts(steps) && Lost(run[|steps|], n)
  {
    var step := DrainRemove(call);
    run, steps := [s, Do(s, step)], [step];
    assert id in Dead(s, call);
  }

  /** The new session of an id, once inserted, can never be lost. */
  ghost predicate NeverLost(s: State, id: string) {
    forall run, steps :: Continues(Do(s, Insert(id)), run, steps) && IdsAreSafe(run, steps) ==>
      !Lost(run[|steps|], |s.readers|)
  }

  /**
   * Inserting a session under an id is safe in every continuation exactly when
   * every earlier reader of the id has sent its report and the report was
   * drained; the id is then not mapped either, so nothing is replaced.
   */
  lemma InsertIsSafeIff(s: State, id: string)
    requires Inv(s)
    ensures SafeId(s, id) <==> NeverLost(s, id)
    ensures SafeId(s, id) ==> id !in s.sessions
  {
    hide OutputsOf, Do;
    var n := |s.readers|;
    var s' := Do(s, Insert(id));
    if id in s.sessions {
      MappedIsNotSafe(s, id);
    }
    if SafeId(s, id) {
      InsertKeeps(s, id);
      forall run, steps | Continues(s', run, steps) && IdsAreSafe(run, steps) ensures !Lost(run[|steps|], n) {
        ContinuesInv(s', run, steps, |steps|);
        NotLost(run[|steps|], n);
      }
    } else {
      UnsafeLoses(s, id);
    }
  }

  lemma MappedIsNotSafe(s: State, id: string)
    requires Inv(s) && id in s.sessions
    ensures !SafeId(s, id)
  {
    hide OutputsOf;
    assert ReaderFits(s, s.sessions[id]);
  }

  lemma NotLost(s: State, r: nat)
    requires Inv(s)
    ensures !Lost(s, r)
  {
    hide OutputsOf;
    if r < |s.readers| {
      assert ReaderFits(s, r);
    }
  }

  lemma UnsafeLoses(s: State, id: string)
    requires Inv(s) && !SafeId(s, id)
    ensures !NeverLost(s, id)
  {
    hide OutputsOf;
    var n := |s.readers|;
    var s' := Do(s, Insert(id));
    var q := UnsafeReader(s, id);
    assert s'.readers[q] == s.readers[q];
    assert Reported(s, id) ==> Reported(s', id);
    var run, steps := OldEndTakesTheNew(s', n, q);
    assert Continues(s', run, steps) && IdsAreSafe(run, steps) && Lost(run[|steps|], n);
  }

  lemma UnsafeReader(s: State, id: string) returns (q: nat)
    requires Inv(s) && !SafeId(s, id)
    ensures q < |s.readers| && s.readers[q].id == id && (s.readers[q].phase != Sent || Reported(s, id))
  {
    hide OutputsOf;
    if Reported(s, id) {
      q :| 0 <= q < |s.readers| && s.readers[q].id == id;
    } else {
      q :| 0 <= q < |s.readers| && s.readers[q].id == id && s.readers[q].phase != Sent;
    }
  }

  /** Right after a kill the id is not safe: its reader has yet to meet its end. */
  lemma KilledIdIsNotSafe(s: State, id: string)
    requires Inv(s) && id in s.sessions && s.readers[s.sessions[id]].phase != Sent
    ensures !SafeId(Do(s, Kill(id)), id) && !NeverLost(Do(s, Kill(id)), id)
  {
    hide OutputsOf;
    var s' := Do(s, Kill(id));
    KillKeeps(s, id);
    assert s'.readers[s.sessions[id]].id == id;
    InsertIsSafeIff(s', id);
  }

  /** Such a state is reached: spawn, kill, and the same id again can lose the live session. */
  lemma ReusedIdLosesSession() returns (run: seq<State>)
    ensures IsRun(run, [Insert("a"), StartReader(0), Kill("a")])
    ensures !SafeId(run[3], "a") && !NeverLost(run[3], "a")
  {
    hide Inv, NeverLost, SafeId, Continues, Reported;
    var started := State(map["a" := 0], [Reader("a", Reading)], [], map[], {}, []);
    var before, steps := SpawnedRun(started);
    RunKeepsInv(before, steps, 2);
    KilledIdIsNotSafe(started, "a");
    run := before + [Do(started, Kill("a"))];
    Extended(before, steps, Kill("a"));
    assert steps + [Kill("a")] == [Insert("a"), StartReader(0), Kill("a")];
  }

  lemma SpawnedRun(started: State) returns (run: seq<State>, steps: seq<Step>)
    requires started == State(map["a" := 0], [Reader("a", Reading)], [], map[], {}, [])
    ensures steps == [Insert("a"), StartReader(0)] && |run| == 3 && run[2] == started
    ensures IsRun(run, steps) && IdsAreSafe(run, steps)
  {
    steps := [Insert("a"), StartReader(0)];
    var inserted := Do(START, steps[0]);
    assert inserted == State(map["a" := 0], [Reader("a", NotStarted)], [], map[], {}, []);
    assert Do(inserted, steps[1]) == started;
    run := [START, inserted, started];
  }

  lemma Extended(run: seq<State>, steps: seq<Step>, step: Step)
    requires IsRun(run, steps) && Enabled(run[|steps|], step)
    ensures IsRun(run + [Do(run[|steps|], step)], steps + [step])
  {
    hide Enabled, Do;
    var run', steps' := run + [Do(run[|steps|], step)], steps + [step];
    forall i | 0 <= i < |steps'| ensures Enabled(run'[i], steps'[i]) && run'[i + 1] == Do(run'[i], steps'[i]) {
      if i < |steps| {
        assert run'[i] == run[i] && steps'[i] == steps[i] && run'[i + 1] == run[i + 1];
      }
    }
  }
}
