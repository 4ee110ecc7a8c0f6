/**
 * The lifecycle of terminal sessions: manager calls, reader threads and the
 * reap channel, step by step. A reader never touches the session map.
 */
module Terminals {

  /** Where a reader thread is. `Sent` means that its id is on, or through, the reap channel. */
  datatype Phase = NotStarted | Reading | AtEnd | Exited | Sent

  datatype Reader = Reader(id: string, phase: Phase)

  datatype Output = Data(reader: nat) | Exit(reader: nat)

  /**
   * `sessions` maps an id to the reader of its session; readers are numbered as
   * they are created. `drains` are the ids a manager call has taken off the
   * channel but not yet removed. `killed` and `outputs` are history.
   */
  datatype State = State(
    sessions: map<string, nat>,
    readers: seq<Reader>,
    channel: seq<string>,
    drains: map<nat, seq<string>>,
    killed: set<nat>,
    outputs: seq<Output>)

  const START := State(map[], [], [], map[], {}, [])

  datatype Step =
    | Insert(id: string)
    | StartReader(r: nat)
    | ReadData(r: nat)
    | ReadEnd(r: nat)
    | FireExit(r: nat)
    | SendReap(r: nat)
    | DrainTake(call: nat, count: nat)
    | DrainRemove(call: nat)
    | Kill(id: string)
    | KillAll

  predicate At(s: State, r: nat, phase: Phase) {
    r < |s.readers| && s.readers[r].phase == phase
  }

  predicate Enabled(s: State, step: Step) {
    match step
    case Insert(_) => true
    case StartReader(r) => At(s, r, NotStarted)
    case ReadData(r) => At(s, r, Reading)
    case ReadEnd(r) => At(s, r, Reading)
    case FireExit(r) => At(s, r, AtEnd)
    case SendReap(r) => At(s, r, Exited)
    case DrainTake(call, count) => call !in s.drains && count <= |s.channel|
    case DrainRemove(call) => call in s.drains
    case Kill(_) => true
    case KillAll => true
  }

  function Move(s: State, r: nat, phase: Phase): State
    requires r < |s.readers|
  {
    s.(readers := s.readers[r := s.readers[r].(phase := phase)])
  }

  function Do(s: State, step: Step): State
    requires Enabled(s, step)
  {
    match step
    case Insert(id) =>
      s.(sessions := s.sessions[id := |s.readers|], readers := s.readers + [Reader(id, NotStarted)])
    case StartReader(r) => Move(s, r, Reading)
    case ReadData(r) => s.(outputs := s.outputs + [Data(r)])
    case ReadEnd(r) => Move(s, r, AtEnd)
    case FireExit(r) => Move(s, r, Exited).(outputs := s.outputs + [Exit(r)])
    case SendReap(r) => Move(s, r, Sent).(channel := s.channel + [s.readers[r].id])
    case DrainTake(call, count) =>
      s.(drains := s.drains[call := s.channel[..count]], channel := s.channel[count..])
    case DrainRemove(call) =>
      s.(sessions := s.sessions - Dead(s, call), drains := s.drains - {call})
    case Kill(id) =>
      if id in s.sessions then s.(sessions := s.sessions - {id}, killed := s.killed + {s.sessions[id]}) else s
    case KillAll => s.(sessions := map[], killed := s.killed + s.sessions.Values)
  }

  function Dead(s: State, call: nat): set<string>
    requires call in s.drains
  {
    set id | id in s.drains[call]
  }

  predicate Held(drains: map<nat, seq<string>>, call: nat, id: string) {
    call in drains && id in drains[call]
  }

  /** On the channel, or held by a drain that has not removed it yet. */
  ghost predicate Reported(s: State, id: string) {
    id in s.channel || exists call :: Held(s.drains, call, id)
  }

  /** No earlier session of this id can still report its end, or has reported it undrained. */
  ghost predicate SafeId(s: State, id: string) {
    !Reported(s, id) && forall r :: 0 <= r < |s.readers| && s.readers[r].id == id ==> s.readers[r].phase == Sent
  }

  /** No later session has this reader's id. */
  predicate Latest(s: State, r: nat)
    requires r < |s.readers|
  {
    forall q :: r < q < |s.readers| ==> s.readers[q].id != s.readers[r].id
  }

  predicate Mapped(s: State, r: nat)
    requires r < |s.readers|
  {
    s.readers[r].id in s.sessions && s.sessions[s.readers[r].id] == r
  }

  /** The outputs of one reader, in order. */
  function OutputsOf(outputs: seq<Output>, r: nat): seq<Output> {
    if outputs == [] then []
    else
      OutputsOf(outputs[..|outputs| - 1], r)
      + if outputs[|outputs| - 1].reader == r then [outputs[|outputs| - 1]] else []
  }

  predicate OnlyData(outputs: seq<Output>) {
    forall k :: 0 <= k < |outputs| ==> outputs[k].Data?
  }

  /** Before a reader fires its exit it has only emitted data; after, one exit comes last. */
  predicate OutputsFit(outputs: seq<Output>, phase: Phase) {
    match phase
    case NotStarted => outputs == []
    case Reading => OnlyData(outputs)
    case AtEnd => OnlyData(outputs)
    case _ => outputs != [] && outputs[|outputs| - 1].Exit? && OnlyData(outputs[..|outputs| - 1])
  }

  /**
   * The latest session of an id is mapped exactly when it was not killed and its
   * end has not been both reported and drained; earlier ones are over.
   */
  ghost predicate ReaderFits(s: State, r: nat)
    requires r < |s.readers|
  {
    var reader := s.readers[r];
    && (if Latest(s, r) then
          && (Mapped(s, r) <==> r !in s.killed && (reader.phase != Sent || Reported(s, reader.id)))
          && (Reported(s, reader.id) ==> reader.phase == Sent)
        else reader.phase == Sent && !Mapped(s, r))
    && OutputsFit(OutputsOf(s.outputs, r), reader.phase)
  }

  /** A report is in one place: on the channel once, or with one drain. */
  ghost predicate ReportedOnce(s: State) {
    && (forall i, j :: 0 <= i < j < |s.channel| ==> s.channel[i] != s.channel[j])
    && (forall c, id :: Held(s.drains, c, id) ==> id !in s.channel)
    && (forall c, d, id :: Held(s.drains, c, id) && Held(s.drains, d, id) ==> c == d)
  }

  ghost predicate Inv(s: State) {
    && ReportedOnce(s)
    && (forall r :: 0 <= r < |s.readers| ==> ReaderFits(s, r))
    && (forall id :: id in s.sessions ==> s.sessions[id] < |s.readers| && s.readers[s.sessions[id]].id == id)
    && (forall id :: Reported(s, id) ==> exists r :: 0 <= r < |s.readers| && s.readers[r].id == id)
    && (forall k :: 0 <= k < |s.outputs| ==> s.outputs[k].reader < |s.readers|)
    && (forall r :: r in s.killed ==> r < |s.readers|)
  }
}
