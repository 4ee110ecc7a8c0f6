/** What a run of the registry comes to: what its snapshots tell, when nothing happens, and which slots are taken. */
module RegistryOutcomes {
  import opened CharClasses
  import opened Registry
  import opened RegistryRuns

  // ----- nothing before it is allowed

  /** The task has not passed the check at its entrance. */
  predicate Outside(t: Task) {
    t.Ready? || t.Finished? || t.Cancelled?
  }

  ghost predicate Idle(s: State, first: State) {
    && s.snapshots == first.snapshots && s.log == first.log && s.inFlight == first.inFlight
    && s.succeeded == first.succeeded && forall t :: t in s.tasks ==> Outside(s.tasks[t])
  }

  lemma IdleStep(s: State, s': State, t: nat, action: Action, first: State)
    requires Idle(s, first) && Next(s, s', t, action) && !s'.allowed
    ensures !s.allowed && Idle(s', first)
  {
    hide Patched, EventOf, Published;
  }

  /** Until refreshes are allowed no caller gets past the entrance: nothing is probed, stored or sent. */
  lemma {:induction false} NothingBeforeAllowed(run: seq<State>, moves: seq<(nat, Action)>, i: nat)
    requires IsRun(run, moves) && i < |run| && !run[i].allowed
    ensures Idle(run[i], run[0])
  {
    hide Next, Init, Outside;
    if i == 0 {
      NoTasks(run[0]);
    } else {
      assert Next(run[i - 1], run[i], moves[i - 1].0, moves[i - 1].1);
      Allowed(run[i - 1], run[i], moves[i - 1].0, moves[i - 1].1);
      NothingBeforeAllowed(run, moves, i - 1);
      IdleStep(run[i - 1], run[i], moves[i - 1].0, moves[i - 1].1, run[0]);
    }
  }

  lemma NoTasks(s: State)
    requires Init(s)
    ensures s.tasks == map[] && s.inFlight == {} && s.succeeded == {}
  {
  }

  lemma Allowed(s: State, s': State, t: nat, action: Action)
    requires Next(s, s', t, action)
    ensures s.allowed ==> s'.allowed
  {
    hide Patched, EventOf, Published;
  }

  // ----- nothing after a live catalog

  /** Step `k` remembers that a live catalog of the adapter came back. */
  ghost predicate Succeeds(run: seq<State>, moves: seq<(nat, Action)>, k: nat, a: string) {
    && k < |run| && k < |moves| && moves[k].1.Mark? && moves[k].0 in run[k].tasks
    && var task := run[k].tasks[moves[k].0]; task.Marking? && task.adapter == a && task.patch.models.Some?
  }

  lemma SucceedsStep(s: State, s': State, t: nat, action: Action, a: string)
    requires Next(s, s', t, action)
    ensures a in s'.succeeded <==>
      a in s.succeeded || (action.Mark? && s.tasks[t].adapter == a && s.tasks[t].patch.models.Some?)
  {
    hide Patched, EventOf, Published;
  }

  /** An adapter is done with if and only if a live catalog of it came back. */
  lemma {:induction false} SucceededIff(run: seq<State>, moves: seq<(nat, Action)>, i: nat, a: string)
    requires IsRun(run, moves) && i < |run|
    ensures a in run[i].succeeded <==> exists k: nat :: k < i && Succeeds(run, moves, k, a)
  {
    hide Next, Init;
    if i == 0 {
      NoTasks(run[0]);
    } else {
      var t, action := moves[i - 1].0, moves[i - 1].1;
      assert Next(run[i - 1], run[i], t, action);
      SucceededIff(run, moves, i - 1, a);
      SucceedsStep(run[i - 1], run[i], t, action, a);
      MarkIs(run[i - 1], run[i], t, action);
      if Succeeds(run, moves, i - 1, a) {
        assert a in run[i].succeeded;
      }
    }
  }

  lemma MarkIs(s: State, s': State, t: nat, action: Action)
    requires Next(s, s', t, action)
    ensures action.Mark? ==> t in s.tasks && s.tasks[t].Marking?
  {
  }

  /** The caller is not there yet, or not past the entrance for this adapter. */
  ghost predicate NotAdmitted(s: State, t: nat, a: string) {
    t in s.tasks ==> Outside(s.tasks[t]) || s.tasks[t].adapter != a
  }

  lemma NotAdmittedStep(s: State, s': State, u: nat, action: Action, t: nat, a: string)
    requires Next(s, s', u, action) && a in s.succeeded && NotAdmitted(s, t, a)
    ensures NotAdmitted(s', t, a)
  {
    hide Patched, EventOf, Published;
  }

  /** Once a live catalog came back, a caller that was not past the entrance for the adapter never gets past it. */
  lemma {:induction false} NothingAfterSuccess(
    run: seq<State>, moves: seq<(nat, Action)>, i: nat, j: nat, t: nat, a: string)
    requires IsRun(run, moves) && i <= j < |run| && a in run[i].succeeded && NotAdmitted(run[i], t, a)
    ensures a in run[j].succeeded && NotAdmitted(run[j], t, a)
    decreases j
  {
    hide Next, Init, NotAdmitted;
    if i < j {
      assert Next(run[j - 1], run[j], moves[j - 1].0, moves[j - 1].1);
      NothingAfterSuccess(run, moves, i, j - 1, t, a);
      SucceedsStep(run[j - 1], run[j], moves[j - 1].0, moves[j - 1].1, a);
      NotAdmittedStep(run[j - 1], run[j], moves[j - 1].0, moves[j - 1].1, t, a);
    }
  }

  // ----- which slots are taken

  /** Step `k` cancels a probe of the adapter. */
  ghost predicate CancelsProbe(run: seq<State>, moves: seq<(nat, Action)>, k: nat, a: string) {
    && k < |run| && k < |moves| && moves[k].1.Cancel? && moves[k].0 in run[k].tasks
    && run[k].tasks[moves[k].0] == Probing(a)
  }

  ghost predicate Held(s: State, a: string) {
    exists t :: t in s.tasks && Registry.Holds(s.tasks[t], a)
  }

  /** A holder goes on holding, unless it gives the slot back or is cancelled. */
  lemma HolderStep(s: State, s': State, t: nat, action: Action, u: nat, a: string)
    requires Next(s, s', t, action) && u in s.tasks && Registry.Holds(s.tasks[u], a)
    ensures u in s'.tasks
    ensures Registry.Holds(s'.tasks[u], a)
            || (u == t && (a !in s'.inFlight || (action.Cancel? && s.tasks[t] == Probing(a))))
  {
    hide Patched, EventOf, Published;
  }

  /** A holder held before, or has just claimed a slot that was free. */
  lemma HeldBefore(s: State, s': State, t: nat, action: Action, u: nat, a: string)
    requires Next(s, s', t, action) && u in s'.tasks && Registry.Holds(s'.tasks[u], a)
    ensures (u in s.tasks && Registry.Holds(s.tasks[u], a)) || (u == t && action.Claim? && a !in s.inFlight)
    ensures u == t ==> !action.Cancel?
  {
    hide Patched, EventOf, Published;
  }

  /** Holding changes with the step of the task alone. */
  lemma HeldStep(s: State, s': State, t: nat, action: Action, a: string)
    requires Inv(s) && Next(s, s', t, action)
    ensures var lost := action.Cancel? && s.tasks[t] == Probing(a);
            && (a in s.inFlight && !Held(s, a) ==> a in s'.inFlight && !Held(s', a))
            && (a in s'.inFlight && !Held(s', a) ==> lost || (a in s.inFlight && !Held(s, a)))
            && (Held(s', a) ==> a in s'.inFlight)
            && (lost ==> a in s'.inFlight && !Held(s', a))
  {
    hide Patched, EventOf, Published, AdapterFits, TaskFits, Inv;
    NextKeepsInv(s, s', t, action);
    InvParts(s);
    InvParts(s');
    if Held(s, a) {
      var u :| u in s.tasks && Registry.Holds(s.tasks[u], a);
      HolderStep(s, s', t, action, u, a);
    }
    if Held(s', a) {
      var u :| u in s'.tasks && Registry.Holds(s'.tasks[u], a);
      HeldBefore(s, s', t, action, u, a);
    }
    if t in s'.tasks && Registry.Holds(s'.tasks[t], a) {
      assert Held(s', a);
    }
  }

  /** A slot is taken if and only if some caller holds it, or was cancelled while it probed: that slot never frees. */
  lemma {:induction false} SlotTakenIff(run: seq<State>, moves: seq<(nat, Action)>, i: nat, a: string)
    requires IsRun(run, moves) && i < |run|
    ensures a in run[i].inFlight <==> Held(run[i], a) || exists k: nat :: k < i && CancelsProbe(run, moves, k, a)
    ensures (exists k: nat :: k < i && CancelsProbe(run, moves, k, a)) ==> !Held(run[i], a)
  {
    hide Next, Init, Held, Inv;
    if i == 0 {
      NoTasks(run[0]);
      NoneHeld(run[0], a);
    } else {
      var t, action := moves[i - 1].0, moves[i - 1].1;
      assert Next(run[i - 1], run[i], t, action);
      RunKeepsInv(run, moves, i - 1);
      RunKeepsInv(run, moves, i);
      SlotTakenIff(run, moves, i - 1, a);
      HeldStep(run[i - 1], run[i], t, action, a);
      CancelIs(run[i - 1], run[i], t, action);
      if CancelsProbe(run, moves, i - 1, a) {
        assert a in run[i].inFlight;
      }
    }
  }

  lemma NoneHeld(s: State, a: string)
    requires s.tasks == map[]
    ensures !Held(s, a)
  {
  }

  lemma CancelIs(s: State, s': State, t: nat, action: Action)
    requires Next(s, s', t, action)
    ensures action.Cancel? ==> t in s.tasks
  {
  }

  // ----- what seeding leaves

  /** A seeded adapter is not installed as far as anyone knows, and shows its fallback models; nothing else changes. */
  lemma SeedingTells(s: State, adapters: map<string, Models>, a: string)
    ensures var s' := Reseeded(s, adapters);
            && s' == s.(snapshots := s'.snapshots, published := s'.published)
            && (a !in adapters ==> Lookup(s', a) == Lookup(s, a))
            && (a in adapters ==>
                  a in s'.snapshots && var now := s'.snapshots[a];
                  !now.installed && now.version.None? && now.models == adapters[a] && now.revision == Some(1)
                  && !now.probed)
  {
  }

  // ----- what the snapshots tell

  /** What the write of a step found for the adapter. */
  ghost function WrittenBy(s: State, t: nat, action: Action, a: string): seq<Patch> {
    if action.Write? && t in s.tasks && s.tasks[t].Writing? && s.tasks[t].adapter == a then [s.tasks[t].patch] else []
  }

  /** What the writes for an adapter found, in the order of the writes, in the first `i` steps. */
  ghost function Written(run: seq<State>, moves: seq<(nat, Action)>, i: nat, a: string): seq<Patch>
    requires i <= |moves| && i < |run|
  {
    if i == 0 then []
    else
      Written(run, moves, i - 1, a) + WrittenBy(run[i - 1], moves[i - 1].0, moves[i - 1].1, a)
  }

  /** What a holder read is still what is stored. */
  ghost predicate ReadsAreCurrent(s: State) {
    forall t :: t in s.tasks && s.tasks[t].Writing? ==>
      Lookup(s, s.tasks[t].adapter) == Some(s.tasks[t].prev)
  }

  lemma ReadsStayCurrent(s: State, s': State, t: nat, action: Action)
    requires Inv(s) && ReadsAreCurrent(s) && Next(s, s', t, action)
    ensures ReadsAreCurrent(s')
  {
    hide Patched, EventOf, Published, AdapterFits, TaskFits, Inv;
    InvParts(s);
    forall u | u in s'.tasks && s'.tasks[u].Writing?
      ensures Lookup(s', s'.tasks[u].adapter) == Some(s'.tasks[u].prev)
    {
      if action.Write? && u != t {
        assert Registry.Holds(s.tasks[u], s.tasks[u].adapter) && Registry.Holds(s.tasks[t], s.tasks[t].adapter);
      }
    }
  }

  lemma {:induction false} RunReadsCurrent(run: seq<State>, moves: seq<(nat, Action)>, i: nat)
    requires IsRun(run, moves) && i < |run|
    ensures ReadsAreCurrent(run[i])
  {
    hide Next, Inv, Init;
    if i == 0 {
      NoTasks(run[0]);
    } else {
      RunReadsCurrent(run, moves, i - 1);
      RunKeepsInv(run, moves, i - 1);
      assert Next(run[i - 1], run[i], moves[i - 1].0, moves[i - 1].1);
      ReadsStayCurrent(run[i - 1], run[i], moves[i - 1].0, moves[i - 1].1);
    }
  }

  /** The patches that brought models. */
  function Live(found: seq<Patch>): (live: seq<Patch>)
    ensures forall k :: 0 <= k < |live| ==> live[k].models.Some?
  {
    if found == [] then []
    else Live(found[..|found| - 1]) + if found[|found| - 1].models.Some? then [found[|found| - 1]] else []
  }

  /** `x` is the last thing said, or what it was at first if nothing was. */
  ghost predicate IsLast<T>(x: T, first: T, said: seq<Option<T>>) {
    && ((forall k :: 0 <= k < |said| ==> said[k].None?) ==> x == first)
    && (forall k :: 0 <= k < |said| && said[k].Some? && (forall j :: k < j < |said| ==> said[j].None?) ==>
          x == said[k].value)
  }

  lemma LastOneMore<T>(x: T, first: T, said: seq<Option<T>>, more: Option<T>)
    requires IsLast(x, first, said)
    ensures IsLast(if more.Some? then more.value else x, first, said + [more])
  {
    var all := said + [more];
    assert all[|said|] == more;
    assert forall j :: 0 <= j < |said| ==> all[j] == said[j];
  }

  function Versions(found: seq<Patch>): (said: seq<Option<Option<string>>>)
    ensures |said| == |found|
  {
    seq(|found|, k requires 0 <= k < |found| => if found[k].version.Some? then Some(found[k].version) else None)
  }

  function ModelLists(found: seq<Patch>): (said: seq<Option<Models>>)
    ensures |said| == |found|
  {
    seq(|found|, k requires 0 <= k < |found| => found[k].models)
  }

  /**
   * The snapshot has the last verdict on the installation, the last version and
   * the last models that were found, where there are any, and a revision for
   * each time models were found.
   */
  ghost predicate Tells(snapshot: Snapshot, first: Snapshot, found: seq<Patch>) {
    && snapshot.installed == (if found == [] then first.installed else found[|found| - 1].installed)
    && IsLast(snapshot.version, first.version, Versions(found))
    && IsLast(snapshot.models, first.models, ModelLists(found))
    && snapshot.revision == Some(1 + |Live(found)|)
    && snapshot.probed == (first.probed || Live(found) != [])
  }

  lemma TellsOneMore(snapshot: Snapshot, first: Snapshot, found: seq<Patch>, p: Patch)
    requires Tells(snapshot, first, found)
    ensures Tells(Patched(snapshot, p), first, found + [p])
  {
    hide IsLast;
    assert (found + [p])[..|found|] == found;
    assert Versions(found + [p]) == Versions(found) + [if p.version.Some? then Some(p.version) else None];
    assert ModelLists(found + [p]) == ModelLists(found) + [p.models];
    LastOneMore(snapshot.version, first.version, Versions(found), if p.version.Some? then Some(p.version) else None);
    LastOneMore(snapshot.models, first.models, ModelLists(found), p.models);
  }

  lemma SnapshotStep(s: State, s': State, t: nat, action: Action, a: string)
    requires Next(s, s', t, action) && ReadsAreCurrent(s) && a in s.snapshots
    ensures a in s'.snapshots
    ensures var found := WrittenBy(s, t, action, a);
            s'.snapshots[a] == if found != [] then Patched(s.snapshots[a], found[0]) else s.snapshots[a]
  {
    hide Patched, EventOf, Published;
  }

  /** In every state of a run the snapshot of a seeded adapter tells what the writes up to then found. */
  lemma {:induction false} SnapshotsTell(run: seq<State>, moves: seq<(nat, Action)>, i: nat, a: string)
    requires IsRun(run, moves) && i < |run| && a in run[0].snapshots
    ensures a in run[i].snapshots && Tells(run[i].snapshots[a], run[0].snapshots[a], Written(run, moves, i, a))
  {
    hide Next, Patched, Tells, Inv;
    if i == 0 {
      TellsNothing(run[0].snapshots[a]);
    } else {
      var t, action := moves[i - 1].0, moves[i - 1].1;
      assert Next(run[i - 1], run[i], t, action);
      SnapshotsTell(run, moves, i - 1, a);
      RunReadsCurrent(run, moves, i - 1);
      SnapshotStep(run[i - 1], run[i], t, action, a);
      var before, found := Written(run, moves, i - 1, a), WrittenBy(run[i - 1], t, action, a);
      if found != [] {
        TellsOneMore(run[i - 1].snapshots[a], run[0].snapshots[a], before, found[0]);
      } else {
        assert before + found == before;
      }
    }
  }

  lemma TellsNothing(first: Snapshot)
    requires first.revision == Some(1)
    ensures Tells(first, first, [])
  {
  }

  // ----- what the events tell

  /** The event for the `k`th time models were found. */
  function EventFor(a: string, live: seq<Patch>, k: nat): Event
    requires k < |live| && live[k].models.Some?
  {
    Event(a, live[k].models.value, k + 2, live[k].installed)
  }

  ghost predicate Announced(s: State, a: string, found: seq<Patch>) {
    var events, live := EventsOf(s.log, a), Live(found);
    && |events| <= |live| && (forall k :: 0 <= k < |events| ==> events[k] == EventFor(a, live, k))
    && (forall t :: t in s.tasks && Unannounced(s.tasks[t], a) ==>
          |live| == |events| + 1 && s.tasks[t].event == Some(EventFor(a, live, |events|)))
    && ((forall t :: t in s.tasks ==> !Unannounced(s.tasks[t], a)) ==> |live| == |events|)
  }

  /** A step that owes no event of the adapter, before or after, and sends none. */
  lemma QuietAnnounced(s: State, s': State, t: nat, a: string, found: seq<Patch>)
    requires Announced(s, a, found) && EventsOf(s'.log, a) == EventsOf(s.log, a)
    requires t in s'.tasks && s'.tasks == s.tasks[t := s'.tasks[t]]
    requires t in s.tasks ==> !Unannounced(s.tasks[t], a)
    requires !Unannounced(s'.tasks[t], a)
    ensures Announced(s', a, found)
  {
    hide EventFor, Live, EventsOf;
    forall u | u in s.tasks && Unannounced(s.tasks[u], a) ensures u in s'.tasks && s'.tasks[u] == s.tasks[u] {
    }
  }

  lemma LiveOneMore(found: seq<Patch>, p: Patch)
    ensures Live(found + [p]) == Live(found) + if p.models.Some? then [p] else []
  {
    assert (found + [p])[..|found|] == found;
  }

  lemma WriteAnnounces(s: State, t: nat, a: string, patch: Patch, prev: Snapshot, b: string, found: seq<Patch>)
    requires Inv(s) && t in s.tasks && s.tasks[t] == Writing(a, patch, prev) && Announced(s, b, found)
    requires a == b ==> prev.revision == Some(1 + |Live(found)|)
    ensures Announced(WriteStep(s, t, a, patch, prev), b, if a == b then found + [patch] else found)
  {
    hide EventsOf, AdapterFits, TaskFits, SingleFlight, Patched, Published, Live;
    var s' := WriteStep(s, t, a, patch, prev);
    if a != b {
      QuietAnnounced(s, s', t, b, found);
    } else {
      LiveOneMore(found, patch);
      NoneUnannounced(s, t, a);
      assert s'.tasks[t].event == EventOf(a, prev, patch);
      assert Unannounced(s'.tasks[t], a) <==> patch.models.Some?;
    }
  }

  lemma EmitAnnounces(s: State, t: nat, a: string, patch: Patch, event: Option<Event>, b: string, found: seq<Patch>)
    requires Inv(s) && t in s.tasks && s.tasks[t] == Emitting(a, patch, event) && Announced(s, b, found)
    ensures Announced(EmitStep(s, t, a, patch, event), b, found)
  {
    hide EventsOf, AdapterFits, Live;
    var s' := EmitStep(s, t, a, patch, event);
    assert Registry.Holds(s.tasks[t], a) && TaskFits(s, s.tasks[t]);
    if event.None? {
      assert s'.log == s.log;
      QuietAnnounced(s, s', t, b, found);
    } else {
      EventsOfEmit(s.log, event.value, b);
      if a != b {
        QuietAnnounced(s, s', t, b, found);
      } else {
        assert Unannounced(s.tasks[t], a);
        OnlyHolder(s, t, a);
      }
    }
  }

  lemma OnlyHolder(s: State, t: nat, a: string)
    requires SingleFlight(s) && t in s.tasks && Registry.Holds(s.tasks[t], a)
    ensures forall u :: u in s.tasks && u != t ==> !Unannounced(s.tasks[u], a)
  {
    assert forall u :: u in s.tasks && Unannounced(s.tasks[u], a) ==> Registry.Holds(s.tasks[u], a);
  }

  lemma AnnouncedStep(s: State, s': State, t: nat, action: Action, a: string, found: seq<Patch>)
    requires Inv(s) && Next(s, s', t, action) && Announced(s, a, found) && ReadsAreCurrent(s) && a in s.snapshots
    requires s.snapshots[a].revision == Some(1 + |Live(found)|)
    ensures Announced(s', a, found + WrittenBy(s, t, action, a))
  {
    hide Announced, Inv, EventsOf, ReadsAreCurrent, Live, Published;
    assert found + [] == found;
    match action {
      case Allow => AllowAnnounces(s, s', a, found);
      case Write =>
        WritesCurrent(s, t);
        WriteAnnounces(s, t, s.tasks[t].adapter, s.tasks[t].patch, s.tasks[t].prev, a, found);
      case Emit =>
        EmitAnnounces(s, t, s.tasks[t].adapter, s.tasks[t].patch, s.tasks[t].event, a, found);
      case _ =>
        QuietAnnounced(s, s', t, a, found);
    }
  }

  lemma WritesCurrent(s: State, t: nat)
    requires ReadsAreCurrent(s) && t in s.tasks && s.tasks[t].Writing?
    ensures Lookup(s, s.tasks[t].adapter) == Some(s.tasks[t].prev)
  {
  }

  lemma AllowAnnounces(s: State, s': State, a: string, found: seq<Patch>)
    requires Announced(s, a, found) && s' == s.(allowed := true)
    ensures Announced(s', a, found)
  {
  }

  /**
   * In every state of a run an adapter's events are, in order, those of the
   * writes that found models, each sent once; the last may still be owed.
   */
  lemma {:induction false} EventsTell(run: seq<State>, moves: seq<(nat, Action)>, i: nat, a: string)
    requires IsRun(run, moves) && i < |run| && a in run[0].snapshots
    ensures Announced(run[i], a, Written(run, moves, i, a))
  {
    hide Next, Inv, Tells, Announced, ReadsAreCurrent, WrittenBy;
    if i == 0 {
      NothingAnnounced(run[0], a);
    } else {
      var t, action := moves[i - 1].0, moves[i - 1].1;
      assert Next(run[i - 1], run[i], t, action);
      EventsTell(run, moves, i - 1, a);
      RunKeepsInv(run, moves, i - 1);
      RunReadsCurrent(run, moves, i - 1);
      SnapshotsTell(run, moves, i - 1, a);
      RevisionCounts(run[i - 1].snapshots[a], run[0].snapshots[a], Written(run, moves, i - 1, a));
      AnnouncedStep(run[i - 1], run[i], t, action, a, Written(run, moves, i - 1, a));
    }
  }

  lemma RevisionCounts(snapshot: Snapshot, first: Snapshot, found: seq<Patch>)
    requires Tells(snapshot, first, found)
    ensures snapshot.revision == Some(1 + |Live(found)|)
  {
  }

  lemma NothingAnnounced(s: State, a: string)
    requires Init(s)
    ensures Announced(s, a, [])
  {
  }
}
