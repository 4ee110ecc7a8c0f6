/** The daemon's adapter registry: refreshes run by interleaved tasks. */
module Registry {
  // Each task claims its adapter's slot, probes, writes the snapshot, then emits.

  import opened CharClasses

  type Models = seq<string>

  datatype Snapshot = Snapshot(
    installed: bool,
    version: Option<string>,
    models: Models,
    revision: Option<nat>,
    probed: bool)

  /** What a probe found; `models` only when a live catalog came back non-empty. */
  datatype Patch = Patch(installed: bool, version: Option<string>, models: Option<Models>)

  datatype Event = Event(adapter: string, models: Models, revision: nat, installed: bool)

  predicate ValidPatch(p: Patch) {
    p.models.Some? ==> p.installed && p.models.value != []
  }

  // ----- one refresh, applied

  function NextRevision(prev: Snapshot): nat {
    (if prev.revision.Some? then prev.revision.value else 1) + 1
  }

  function Patched(prev: Snapshot, p: Patch): Snapshot {
    Snapshot(
      p.installed,
      if p.version.Some? then p.version else prev.version,
      if p.models.Some? then p.models.value else prev.models,
      if p.models.Some? then Some(NextRevision(prev)) else prev.revision,
      p.models.Some? || prev.probed)
  }

  function EventOf(adapter: string, prev: Snapshot, p: Patch): Option<Event> {
    match p.models
    case None => None
    case Some(models) => Some(Event(adapter, models, NextRevision(prev), p.installed))
  }

  // ----- tasks

  datatype Task =
    | Ready(adapter: string)
    | Admitted(adapter: string)
    | Waiting(adapter: string)
    | Probing(adapter: string)
    | Applying(adapter: string, patch: Patch)
    | Writing(adapter: string, patch: Patch, prev: Snapshot)
    | Emitting(adapter: string, patch: Patch, event: Option<Event>)
    | Marking(adapter: string, patch: Patch)
    | Releasing(adapter: string)
    | Finished
    | Cancelled

  /** Between claiming the slot and giving it back. */
  predicate Holds(t: Task, adapter: string) {
    (t.Probing? || t.Applying? || t.Writing? || t.Emitting? || t.Marking? || t.Releasing?) && t.adapter == adapter
  }

  /** `published` is a history of every snapshot's models by adapter and revision; no step reads it. */
  datatype State = State(
    allowed: bool,
    snapshots: map<string, Snapshot>,
    inFlight: set<string>,
    succeeded: set<string>,
    tasks: map<nat, Task>,
    log: seq<Event>,
    published: map<(string, nat), Models>)

  /** After static seeding, before any refresh. */
  ghost predicate Init(s: State) {
    && s.inFlight == {} && s.succeeded == {} && s.tasks == map[] && s.log == []
    && (forall a :: a in s.snapshots ==> s.snapshots[a].revision == Some(1))
    && (forall a, r :: (a, r) in s.published <==> a in s.snapshots && r == 1)
    && (forall a :: a in s.snapshots ==> s.published[(a, 1)] == s.snapshots[a].models)
  }

  datatype Action =
    | Allow
    | Start(adapter: string)
    | Check
    | Claim
    | Wake
    | ProbeFails
    | ProbeFinds(patch: Patch)
    | Read
    | Write
    | Emit
    | Mark
    | Release
    | Cancel

  function WithTask(s: State, t: nat, task: Task): State {
    s.(tasks := s.tasks[t := task])
  }

  function Lookup(s: State, adapter: string): Option<Snapshot> {
    if adapter in s.snapshots then Some(s.snapshots[adapter]) else None
  }

  function CheckStep(s: State, t: nat, a: string): State {
    WithTask(s, t, if !s.allowed || a in s.succeeded then Finished else Admitted(a))
  }

  function ClaimStep(s: State, t: nat, a: string): State {
    if a in s.inFlight then WithTask(s, t, Waiting(a))
    else WithTask(s, t, Probing(a)).(inFlight := s.inFlight + {a})
  }

  function ReadStep(s: State, t: nat, a: string, patch: Patch): State {
    WithTask(s, t, match Lookup(s, a) case None => Marking(a, patch) case Some(prev) => Writing(a, patch, prev))
  }

  function Published(s: State, a: string, snapshot: Snapshot): map<(string, nat), Models> {
    match snapshot.revision
    case None => s.published
    case Some(r) => s.published[(a, r) := snapshot.models]
  }

  function WriteStep(s: State, t: nat, a: string, patch: Patch, prev: Snapshot): State {
    var next := Patched(prev, patch);
    WithTask(s, t, Emitting(a, patch, EventOf(a, prev, patch))).(
      snapshots := s.snapshots[a := next], published := Published(s, a, next))
  }

  function EmitStep(s: State, t: nat, a: string, patch: Patch, event: Option<Event>): State {
    WithTask(s, t, Marking(a, patch)).(log := s.log + match event case None => [] case Some(e) => [e])
  }

  function MarkStep(s: State, t: nat, a: string, patch: Patch): State {
    WithTask(s, t, Releasing(a)).(succeeded := if patch.models.Some? then s.succeeded + {a} else s.succeeded)
  }

  function ReleaseStep(s: State, t: nat, a: string): State {
    WithTask(s, t, Finished).(inFlight := s.inFlight - {a})
  }

  /** Task `t` takes one step. A task is cancelled only where it awaits; its slot then stays claimed. */
  ghost predicate Next(s: State, s': State, t: nat, action: Action) {
    if action.Allow? then s' == s.(allowed := true)
    else if action.Start? then t !in s.tasks && s' == WithTask(s, t, Ready(action.adapter))
    else
      t in s.tasks &&
      var task := s.tasks[t];
      match action
      case Check => task.Ready? && s' == CheckStep(s, t, task.adapter)
      case Claim => task.Admitted? && s' == ClaimStep(s, t, task.adapter)
      case Wake => task.Waiting? && s' == WithTask(s, t, Finished)
      case ProbeFails => task.Probing? && s' == WithTask(s, t, Releasing(task.adapter))
      case ProbeFinds(patch) =>
        task.Probing? && ValidPatch(patch) && s' == WithTask(s, t, Applying(task.adapter, patch))
      case Read => task.Applying? && s' == ReadStep(s, t, task.adapter, task.patch)
      case Write => task.Writing? && s' == WriteStep(s, t, task.adapter, task.patch, task.prev)
      case Emit => task.Emitting? && s' == EmitStep(s, t, task.adapter, task.patch, task.event)
      case Mark => task.Marking? && s' == MarkStep(s, t, task.adapter, task.patch)
      case Release => task.Releasing? && s' == ReleaseStep(s, t, task.adapter)
      case Cancel => (task.Ready? || task.Waiting? || task.Probing?) && s' == WithTask(s, t, Cancelled)
      case _ => false
  }

  // ----- the invariant

  /** The events of one adapter, in the order they were emitted. */
  function EventsOf(log: seq<Event>, adapter: string): seq<Event> {
    if log == [] then []
    else EventsOf(log[..|log| - 1], adapter)
         + if log[|log| - 1].adapter == adapter then [log[|log| - 1]] else []
  }

  /** A write whose event has not gone out yet. */
  predicate Unannounced(t: Task, adapter: string) {
    t.Emitting? && t.adapter == adapter && t.event.Some?
  }

  ghost predicate SingleFlight(s: State) {
    && (forall t, a :: t in s.tasks && Holds(s.tasks[t], a) ==> a in s.inFlight)
    && (forall t, u, a :: t in s.tasks && u in s.tasks && Holds(s.tasks[t], a) && Holds(s.tasks[u], a) ==> t == u)
  }

  ghost predicate Consecutive(events: seq<Event>) {
    forall k :: 0 <= k < |events| ==> events[k].revision == k + 2
  }

  ghost predicate TaskFits(s: State, t: Task) {
    match t
    case Applying(_, patch) => ValidPatch(patch)
    case Writing(a, patch, prev) =>
      && ValidPatch(patch) && a in s.snapshots
      && s.snapshots[a].revision == prev.revision && s.snapshots[a].models == prev.models
    case Emitting(a, patch, event) =>
      && a in s.snapshots
      && (event.Some? ==>
            && event.value.adapter == a
            && s.snapshots[a].revision == Some(event.value.revision)
            && s.snapshots[a].models == event.value.models
            && event.value.revision == |EventsOf(s.log, a)| + 2)
    case _ => true
  }

  ghost predicate AdapterFits(s: State, a: string) {
    var events := EventsOf(s.log, a);
    && Consecutive(events)
    && (events != [] ==> a in s.snapshots)
    && (forall r :: (a, r) in s.published ==> a in s.snapshots)
    && (a in s.snapshots ==>
          var snapshot := s.snapshots[a];
          && snapshot.revision.Some?
          && ((forall t :: t in s.tasks ==> !Unannounced(s.tasks[t], a)) ==> snapshot.revision.value == |events| + 1)
          && (a, snapshot.revision.value) in s.published
          && s.published[(a, snapshot.revision.value)] == snapshot.models
          && (forall r :: (a, r) in s.published ==> 1 <= r <= snapshot.revision.value)
          && |events| + 1 <= snapshot.revision.value)
    && (forall k :: 0 <= k < |events| ==>
          (a, events[k].revision) in s.published && s.published[(a, events[k].revision)] == events[k].models)
  }

  ghost predicate Inv(s: State) {
    && SingleFlight(s)
    && (forall t :: t in s.tasks ==> TaskFits(s, s.tasks[t]))
    && (forall a :: AdapterFits(s, a))
  }

  lemma InitHolds(s: State)
    requires Init(s)
    ensures Inv(s)
  {
  }

  lemma EventsOfEmit(log: seq<Event>, e: Event, a: string)
    ensures EventsOf(log + [e], a) == EventsOf(log, a) + if e.adapter == a then [e] else []
  {
    assert (log + [e])[..|log|] == log;
  }

  // ----- every step keeps it

  /** One task moves on, holding its slot only if it already did; nothing else about the slots changes. */
  lemma FlightKept(s: State, s': State, t: nat)
    requires SingleFlight(s) && t in s'.tasks && s'.inFlight == s.inFlight
    requires s'.tasks == s.tasks[t := s'.tasks[t]]
    requires forall a :: Holds(s'.tasks[t], a) ==> t in s.tasks && Holds(s.tasks[t], a)
    ensures SingleFlight(s')
  {
  }

  /** Steps that touch neither snapshots nor log. */
  lemma QuietStepKeeps(s: State, s': State, t: nat)
    requires Inv(s) && SingleFlight(s') && t in s'.tasks && s'.tasks == s.tasks[t := s'.tasks[t]]
    requires s'.snapshots == s.snapshots && s'.log == s.log && s'.published == s.published
    requires t in s.tasks ==> forall a :: !Unannounced(s.tasks[t], a)
    requires TaskFits(s, s'.tasks[t])
    ensures Inv(s')
  {
    hide EventsOf, SingleFlight, Consecutive;
    forall u | u in s'.tasks ensures TaskFits(s', s'.tasks[u]) {
      if u != t {
        assert TaskFits(s, s.tasks[u]);
      }
    }
    forall a ensures AdapterFits(s', a) {
      assert AdapterFits(s, a);
      if forall u :: u in s'.tasks ==> !Unannounced(s'.tasks[u], a) {
        forall u | u in s.tasks ensures !Unannounced(s.tasks[u], a) {
          if u != t {
            assert s'.tasks[u] == s.tasks[u];
          }
        }
      }
    }
  }

  lemma ClaimKeepsFlight(s: State, t: nat, a: string)
    requires SingleFlight(s) && t in s.tasks && s.tasks[t] == Admitted(a)
    ensures SingleFlight(ClaimStep(s, t, a))
  {
    var s' := ClaimStep(s, t, a);
    if a !in s.inFlight {
      forall u, b | u in s'.tasks && Holds(s'.tasks[u], b) ensures b in s'.inFlight && (u != t ==> b != a) {
        if u != t {
          assert Holds(s.tasks[u], b);
        }
      }
    }
  }

  lemma ReleaseKeepsFlight(s: State, t: nat, a: string)
    requires SingleFlight(s) && t in s.tasks && s.tasks[t] == Releasing(a)
    ensures SingleFlight(ReleaseStep(s, t, a))
  {
    var s' := ReleaseStep(s, t, a);
    assert Holds(s.tasks[t], a);
    forall u, b | u in s'.tasks && Holds(s'.tasks[u], b) ensures b in s'.inFlight {
      assert u != t && Holds(s.tasks[u], b);
    }
  }

  lemma WriteKeeps(s: State, t: nat, a: string, patch: Patch, prev: Snapshot)
    requires Inv(s) && t in s.tasks && s.tasks[t] == Writing(a, patch, prev)
    ensures Inv(WriteStep(s, t, a, patch, prev))
  {
    hide EventsOf, Consecutive;
    var s' := WriteStep(s, t, a, patch, prev);
    assert TaskFits(s, s.tasks[t]) && Holds(s.tasks[t], a) && AdapterFits(s, a);
    FlightKept(s, s', t);
    NoneUnannounced(s, t, a);
    forall u | u in s'.tasks ensures TaskFits(s', s'.tasks[u]) {
      if u != t {
        assert TaskFits(s, s.tasks[u]);
        assert !Holds(s.tasks[u], a);
      }
    }
    forall b ensures AdapterFits(s', b) {
      assert AdapterFits(s, b);
      if b == a {
        assert Unannounced(s'.tasks[t], a) <==> patch.models.Some?;
      } else {
        OthersUnannounced(s, s', t, b);
      }
    }
  }

  /** While one task holds an adapter's slot and has announced what it wrote, nobody else owes an event for it. */
  lemma NoneUnannounced(s: State, t: nat, a: string)
    requires SingleFlight(s) && t in s.tasks && Holds(s.tasks[t], a) && !Unannounced(s.tasks[t], a)
    ensures forall u :: u in s.tasks ==> !Unannounced(s.tasks[u], a)
  {
    forall u | u in s.tasks ensures !Unannounced(s.tasks[u], a) {
      if Unannounced(s.tasks[u], a) {
        assert Holds(s.tasks[u], a);
      }
    }
  }

  lemma OthersUnannounced(s: State, s': State, t: nat, b: string)
    requires t in s.tasks && t in s'.tasks && s'.tasks == s.tasks[t := s'.tasks[t]]
    requires !Unannounced(s.tasks[t], b) && !Unannounced(s'.tasks[t], b)
    ensures (forall u :: u in s'.tasks ==> !Unannounced(s'.tasks[u], b))
            <==> (forall u :: u in s.tasks ==> !Unannounced(s.tasks[u], b))
  {
    if forall u :: u in s'.tasks ==> !Unannounced(s'.tasks[u], b) {
      forall u | u in s.tasks ensures !Unannounced(s.tasks[u], b) {
        assert u in s'.tasks;
      }
    }
  }

  lemma EmitKeeps(s: State, t: nat, a: string, patch: Patch, event: Option<Event>)
    requires Inv(s) && t in s.tasks && s.tasks[t] == Emitting(a, patch, event)
    ensures Inv(EmitStep(s, t, a, patch, event))
  {
    hide EventsOf;
    var s' := EmitStep(s, t, a, patch, event);
    assert TaskFits(s, s.tasks[t]) && Holds(s.tasks[t], a) && AdapterFits(s, a);
    FlightKept(s, s', t);
    if event.None? {
      assert s'.log == s.log;
      NoneUnannounced(s, t, a);
      QuietStepKeeps(s, s', t);
    } else {
      var e := event.value;
      forall b ensures EventsOf(s'.log, b) == EventsOf(s.log, b) + if b == a then [e] else [] {
        EventsOfEmit(s.log, e, b);
      }
      forall u | u in s'.tasks ensures TaskFits(s', s'.tasks[u]) {
        if u != t {
          assert TaskFits(s, s.tasks[u]);
          assert !Holds(s.tasks[u], a);
        }
      }
      forall b ensures AdapterFits(s', b) {
        assert AdapterFits(s, b);
        if b != a {
          OthersUnannounced(s, s', t, b);
        }
      }
    }
  }

  /** Every step of every task keeps the invariant. */
  lemma NextKeepsInv(s: State, s': State, t: nat, action: Action)
    requires Inv(s) && Next(s, s', t, action)
    ensures Inv(s')
  {
    hide SingleFlight, AdapterFits, EventsOf, Inv;
    InvParts(s);
    match action {
      case Allow => AllowKeeps(s, s');
      case Write =>
        WriteKeeps(s, t, s.tasks[t].adapter, s.tasks[t].patch, s.tasks[t].prev);
      case Emit =>
        EmitKeeps(s, t, s.tasks[t].adapter, s.tasks[t].patch, s.tasks[t].event);
      case Claim =>
        ClaimKeepsFlight(s, t, s.tasks[t].adapter);
        QuietStepKeeps(s, s', t);
      case Release =>
        ReleaseKeepsFlight(s, t, s.tasks[t].adapter);
        QuietStepKeeps(s, s', t);
      case _ =>
        FlightKept(s, s', t);
        QuietStepKeeps(s, s', t);
    }
  }

  lemma InvParts(s: State)
    requires Inv(s)
    ensures SingleFlight(s) && forall t :: t in s.tasks ==> TaskFits(s, s.tasks[t])
  {
  }

  lemma AllowKeeps(s: State, s': State)
    requires Inv(s) && s' == s.(allowed := true)
    ensures Inv(s')
  {
    hide EventsOf;
    assert forall a :: AdapterFits(s, a) ==> AdapterFits(s', a);
    assert forall t :: t in s.tasks ==> TaskFits(s, s.tasks[t]) ==> TaskFits(s', s.tasks[t]);
  }

  /** What a revision published stays what it published. */
  lemma PublishedGrows(s: State, s': State, t: nat, action: Action)
    requires Inv(s) && Next(s, s', t, action)
    ensures forall k :: k in s.published ==> k in s'.published && s'.published[k] == s.published[k]
  {
    hide EventsOf, SingleFlight;
    if action.Write? {
      var task := s.tasks[t];
      assert TaskFits(s, task) && AdapterFits(s, task.adapter);
    }
  }
}
