/** Safety of the registry over every interleaving of its callers, and its state as an object. */
module RegistryRuns {
  import opened CharClasses
  import opened Registry

  /** `moves[i]` is the task and step that lead from `run[i]` to `run[i + 1]`. */
  ghost predicate Continues(s: State, run: seq<State>, moves: seq<(nat, Action)>) {
    && |run| == |moves| + 1 && run[0] == s
    && forall i :: 0 <= i < |moves| ==> Next(run[i], run[i + 1], moves[i].0, moves[i].1)
  }

  ghost predicate IsRun(run: seq<State>, moves: seq<(nat, Action)>) {
    run != [] && Init(run[0]) && Continues(run[0], run, moves)
  }

  lemma {:induction false} ContinuesInv(s: State, run: seq<State>, moves: seq<(nat, Action)>, i: nat)
    requires Inv(s) && Continues(s, run, moves) && i < |run|
    ensures Inv(run[i])
  {
    hide Inv, Next;
    if i > 0 {
      ContinuesInv(s, run, moves, i - 1);
      assert Next(run[i - 1], run[i - 1 + 1], moves[i - 1].0, moves[i - 1].1);
      NextKeepsInv(run[i - 1], run[i], moves[i - 1].0, moves[i - 1].1);
    }
  }

  lemma RunKeepsInv(run: seq<State>, moves: seq<(nat, Action)>, i: nat)
    requires IsRun(run, moves) && i < |run|
    ensures Inv(run[i])
  {
    hide Inv, Init, Next;
    InitHolds(run[0]);
    ContinuesInv(run[0], run, moves, i);
  }

  /**
   * In every state of every run, whatever the interleaving and whoever is
   * cancelled: one refresh per adapter at a time; an adapter's events carry the
   * revisions 2, 3, 4, … in order; and when an event has gone out, the stored
   * snapshot is at its revision or later.
   */
  lemma RegistryIsSafe(run: seq<State>, moves: seq<(nat, Action)>, i: nat, a: string)
    requires IsRun(run, moves) && i < |run|
    ensures forall t, u | t in run[i].tasks && u in run[i].tasks ::
      Holds(run[i].tasks[t], a) && Holds(run[i].tasks[u], a) ==> t == u
    ensures Consecutive(EventsOf(run[i].log, a))
    ensures forall k :: 0 <= k < |EventsOf(run[i].log, a)| ==>
      && a in run[i].snapshots && run[i].snapshots[a].revision.Some?
      && EventsOf(run[i].log, a)[k].revision <= run[i].snapshots[a].revision.value
  {
    hide EventsOf;
    RunKeepsInv(run, moves, i);
    assert AdapterFits(run[i], a);
  }

  ghost predicate Extends(h: map<(string, nat), Models>, h': map<(string, nat), Models>) {
    forall k :: k in h ==> k in h' && h'[k] == h[k]
  }

  lemma {:induction false} PublishedStays(
    s: State, run: seq<State>, moves: seq<(nat, Action)>, i: nat, j: nat)
    requires Inv(s) && Continues(s, run, moves) && i <= j < |run|
    ensures Extends(run[i].published, run[j].published)
    decreases j
  {
    hide Inv, Next;
    if i < j {
      PublishedStays(s, run, moves, i, j - 1);
      ContinuesInv(s, run, moves, j - 1);
      assert Next(run[j - 1], run[j - 1 + 1], moves[j - 1].0, moves[j - 1].1);
      PublishedGrows(run[j - 1], run[j], moves[j - 1].0, moves[j - 1].1);
    }
  }

  lemma RunPublishedGrows(run: seq<State>, moves: seq<(nat, Action)>, i: nat, j: nat)
    requires IsRun(run, moves) && i <= j < |run|
    ensures Extends(run[i].published, run[j].published)
  {
    hide Inv, Init, Next;
    InitHolds(run[0]);
    PublishedStays(run[0], run, moves, i, j);
  }

  /** What a client can see of a state: a stored snapshot or an emitted event. */
  ghost predicate Observable(s: State, a: string, r: nat, models: Models) {
    || (a in s.snapshots && s.snapshots[a].revision == Some(r) && s.snapshots[a].models == models)
    || (exists k :: 0 <= k < |s.log| && s.log[k].adapter == a && s.log[k].revision == r && s.log[k].models == models)
  }

  lemma {:induction false} EventIsOfAdapter(log: seq<Event>, k: nat) returns (j: nat)
    requires k < |log|
    ensures j < |EventsOf(log, log[k].adapter)| && EventsOf(log, log[k].adapter)[j] == log[k]
  {
    var n := |log| - 1;
    if k == n {
      j := |EventsOf(log, log[k].adapter)| - 1;
    } else {
      j := EventIsOfAdapter(log[..n], k);
    }
  }

  lemma ObservedIsPublished(s: State, a: string, r: nat, models: Models)
    requires Inv(s) && Observable(s, a, r, models)
    ensures (a, r) in s.published && s.published[(a, r)] == models
  {
    hide EventsOf, SingleFlight, Consecutive;
    assert AdapterFits(s, a);
    if !(a in s.snapshots && s.snapshots[a].revision == Some(r) && s.snapshots[a].models == models) {
      var k :| 0 <= k < |s.log| && s.log[k].adapter == a && s.log[k].revision == r && s.log[k].models == models;
      var j := EventIsOfAdapter(s.log, k);
    }
  }

  /** No revision is ever seen with two different model lists, in any two states of a run. */
  lemma RevisionDeterminesModels(
    run: seq<State>, moves: seq<(nat, Action)>, i: nat, j: nat, a: string, r: nat, models: Models, models': Models)
    requires IsRun(run, moves) && i <= j < |run|
    requires Observable(run[i], a, r, models) && Observable(run[j], a, r, models')
    ensures models == models'
  {
    hide Inv, Observable, Init, Next;
    RunKeepsInv(run, moves, i);
    RunKeepsInv(run, moves, j);
    ObservedIsPublished(run[i], a, r, models);
    ObservedIsPublished(run[j], a, r, models');
    RunPublishedGrows(run, moves, i, j);
  }

  // ----- seeding again

  function Seeded(models: Models): Snapshot {
    Snapshot(false, None, models, Some(1), false)
  }

  /** Every listed adapter gets its seeded snapshot; the history keeps what it already holds. */
  function Reseeded(s: State, adapters: map<string, Models>): State {
    s.(snapshots := s.snapshots + (map a | a in adapters :: Seeded(adapters[a])),
       published := (map a | a in adapters :: (a, 1) := adapters[a]) + s.published)
  }

  /** No event of the adapter is out or owed, and its first revision, if it had one, showed these models. */
  ghost predicate Untouched(s: State, a: string, models: Models) {
    && EventsOf(s.log, a) == []
    && (forall t :: t in s.tasks ==> !Unannounced(s.tasks[t], a))
    && ((a, 1) in s.published ==> s.published[(a, 1)] == models)
  }

  ghost predicate SafeToSeed(s: State, adapters: map<string, Models>) {
    forall a :: a in adapters ==> Untouched(s, a, adapters[a])
  }

  /** No event is ahead of its adapter's snapshot, and no revision shows other models than it did in `history`. */
  ghost predicate Lawful(s: State, history: map<(string, nat), Models>) {
    && (forall k :: 0 <= k < |s.log| ==>
          var e := s.log[k];
          && e.adapter in s.snapshots && s.snapshots[e.adapter].revision.Some?
          && e.revision <= s.snapshots[e.adapter].revision.value)
    && (forall a: string, r: nat, models: Models ::
          Observable(s, a, r, models) && (a, r) in history ==> history[(a, r)] == models)
  }

  ghost predicate StaysLawful(s: State, history: map<(string, nat), Models>) {
    forall run: seq<State>, moves: seq<(nat, Action)> ::
      Continues(s, run, moves) ==> Lawful(run[|run| - 1], history)
  }

  lemma InvIsLawful(s: State, history: map<(string, nat), Models>)
    requires Inv(s) && Extends(history, s.published)
    ensures Lawful(s, history)
  {
    hide EventsOf, SingleFlight, Observable;
    forall k | 0 <= k < |s.log|
      ensures s.log[k].adapter in s.snapshots && s.snapshots[s.log[k].adapter].revision.Some?
      ensures s.log[k].revision <= s.snapshots[s.log[k].adapter].revision.value
    {
      var j := EventIsOfAdapter(s.log, k);
      assert AdapterFits(s, s.log[k].adapter);
    }
    forall a: string, r: nat, models: Models | Observable(s, a, r, models) && (a, r) in history
      ensures history[(a, r)] == models
    {
      ObservedIsPublished(s, a, r, models);
    }
  }

  lemma SeedingFitsAdapter(s: State, adapters: map<string, Models>, a: string)
    requires AdapterFits(s, a) && (a in adapters ==> Untouched(s, a, adapters[a]))
    ensures AdapterFits(Reseeded(s, adapters), a)
  {
    hide EventsOf, Unannounced;
    var s' := Reseeded(s, adapters);
    assert a in s'.snapshots <==> a in s.snapshots || a in adapters;
    if a !in adapters {
      assert forall r: nat :: (a, r) in s'.published <==> (a, r) in s.published;
    }
  }

  lemma SeedingFitsTask(s: State, adapters: map<string, Models>, t: Task)
    requires TaskFits(s, t)
    requires t.Writing? || t.Emitting? ==> AdapterFits(s, t.adapter)
    requires (t.Writing? || t.Emitting?) && t.adapter in adapters ==>
      Untouched(s, t.adapter, adapters[t.adapter]) && !Unannounced(t, t.adapter)
    ensures TaskFits(Reseeded(s, adapters), t)
  {
    hide EventsOf, Consecutive;
  }

  lemma SeedingKeepsInv(s: State, adapters: map<string, Models>)
    requires Inv(s) && SafeToSeed(s, adapters)
    ensures Inv(Reseeded(s, adapters))
  {
    hide EventsOf, AdapterFits, TaskFits, Holds;
    var s' := Reseeded(s, adapters);
    forall a ensures AdapterFits(s', a) {
      SeedingFitsAdapter(s, adapters, a);
    }
    forall t | t in s'.tasks ensures TaskFits(s', s'.tasks[t]) {
      SeedingFitsTask(s, adapters, s.tasks[t]);
    }
  }

  lemma SafeSeedingStaysLawful(s: State, adapters: map<string, Models>)
    requires Inv(s) && SafeToSeed(s, adapters)
    ensures StaysLawful(Reseeded(s, adapters), s.published)
  {
    hide Inv, Lawful, Next;
    var s' := Reseeded(s, adapters);
    SeedingKeepsInv(s, adapters);
    forall run: seq<State>, moves: seq<(nat, Action)> | Continues(s', run, moves)
      ensures Lawful(run[|run| - 1], s.published)
    {
      ContinuesInv(s', run, moves, |run| - 1);
      PublishedStays(s', run, moves, 0, |run| - 1);
      InvIsLawful(run[|run| - 1], s.published);
    }
  }

  lemma {:induction false} EventInLog(log: seq<Event>, a: string) returns (k: nat)
    requires EventsOf(log, a) != []
    ensures k < |log| && log[k] == EventsOf(log, a)[0]
  {
    var n := |log| - 1;
    if EventsOf(log[..n], a) == [] {
      k := n;
    } else {
      k := EventInLog(log[..n], a);
    }
  }

  /** An event that is out, or models other than the first ones shown: the reseeded state itself breaks the law. */
  lemma SeededStateBreaks(s: State, adapters: map<string, Models>, a: string)
    requires Inv(s) && a in adapters
    requires EventsOf(s.log, a) != [] || ((a, 1) in s.published && s.published[(a, 1)] != adapters[a])
    ensures !Lawful(Reseeded(s, adapters), s.published)
  {
    hide EventsOf, SingleFlight;
    var s' := Reseeded(s, adapters);
    assert AdapterFits(s, a);
    if EventsOf(s.log, a) != [] {
      var k := EventInLog(s.log, a);
      assert EventsOf(s.log, a)[0].revision == 2;
      assert AdapterFits(s, s.log[k].adapter);
      OnlyItsEvents(s.log, a);
      assert s'.log[k].revision > s'.snapshots[a].revision.value;
    } else {
      assert Observable(s', a, 1, adapters[a]);
    }
  }

  lemma {:induction false} OnlyItsEvents(log: seq<Event>, a: string)
    ensures forall j :: 0 <= j < |EventsOf(log, a)| ==> EventsOf(log, a)[j].adapter == a
  {
    if log != [] {
      OnlyItsEvents(log[..|log| - 1], a);
    }
  }

  /** An event still owed: it goes out in the next step, ahead of the reseeded snapshot. */
  lemma OwedEventBreaks(s: State, adapters: map<string, Models>, a: string, t: nat)
    requires Inv(s) && a in adapters && t in s.tasks && Unannounced(s.tasks[t], a)
    ensures !StaysLawful(Reseeded(s, adapters), s.published)
  {
    hide EventsOf, SingleFlight, AdapterFits, Observable;
    var s' := Reseeded(s, adapters);
    var task := s.tasks[t];
    assert TaskFits(s, task);
    var z := EmitStep(s', t, a, task.patch, task.event);
    assert Next(s', z, t, Emit);
    assert Continues(s', [s', z], [(t, Emit)]);
    assert z.log[|s'.log|] == task.event.value;
    assert !Lawful(z, s.published);
  }

  /**
   * Seeding again keeps both laws in every continuation if and only if no
   * adapter it seeds has an event out or owed, or first showed other models.
   */
  lemma ReseedingIsSafeIff(s: State, adapters: map<string, Models>)
    requires Inv(s)
    ensures StaysLawful(Reseeded(s, adapters), s.published) <==> SafeToSeed(s, adapters)
  {
    hide Inv, Lawful, Next, EventsOf;
    if SafeToSeed(s, adapters) {
      SafeSeedingStaysLawful(s, adapters);
    } else {
      var a :| a in adapters && !Untouched(s, a, adapters[a]);
      if t: nat :| t in s.tasks && Unannounced(s.tasks[t], a) {
        OwedEventBreaks(s, adapters, a, t);
      } else {
        var s' := Reseeded(s, adapters);
        SeededStateBreaks(s, adapters, a);
        assert Continues(s', [s'], []);
      }
    }
  }

  // ----- the registry as an object

  /** Task `t` takes these steps one after the other, through the states of `run`. */
  ghost predicate Via(run: seq<State>, s: State, s': State, t: nat, actions: seq<Action>) {
    && |run| == |actions| + 1 && run[0] == s && run[|actions|] == s'
    && forall i :: 0 <= i < |actions| ==> Next(run[i], run[i + 1], t, actions[i])
  }

  ghost predicate Steps(s: State, s': State, t: nat, actions: seq<Action>) {
    exists run: seq<State> :: Via(run, s, s', t, actions)
  }

  lemma StepsKeepInv(s: State, s': State, t: nat, actions: seq<Action>)
    requires Inv(s) && Steps(s, s', t, actions)
    ensures Inv(s')
  {
    hide Inv, Next;
    var run: seq<State> :| Via(run, s, s', t, actions);
    ContinuesInv(s, run, seq(|actions|, i requires 0 <= i < |actions| => (t, actions[i])), |actions|);
  }

  lemma TwoSteps(s: State, mid: State, s': State, t: nat, first: Action, second: Action)
    requires Next(s, mid, t, first) && Next(mid, s', t, second)
    ensures Steps(s, s', t, [first, second])
  {
    hide Next;
    assert Via([s, mid, s'], s, s', t, [first, second]);
  }

  lemma ThreeSteps(s: State, s1: State, s2: State, s': State, t: nat, actions: seq<Action>)
    requires |actions| == 3
    requires Next(s, s1, t, actions[0]) && Next(s1, s2, t, actions[1]) && Next(s2, s', t, actions[2])
    ensures Steps(s, s', t, actions)
  {
    hide Next;
    assert Via([s, s1, s2, s'], s, s', t, actions);
  }

  lemma FourSteps(s: State, s1: State, s2: State, s3: State, s': State, t: nat, actions: seq<Action>)
    requires |actions| == 4
    requires Next(s, s1, t, actions[0]) && Next(s1, s2, t, actions[1])
    requires Next(s2, s3, t, actions[2]) && Next(s3, s', t, actions[3])
    ensures Steps(s, s', t, actions)
  {
    hide Next;
    assert Via([s, s1, s2, s3, s'], s, s', t, actions);
  }

  /** The state after a caller has asked for a refresh. */
  function Entered(s: State, t: nat, a: string): State {
    var s' := CheckStep(WithTask(s, t, Ready(a)), t, a);
    if s'.tasks[t].Finished? then s' else ClaimStep(s', t, a)
  }

  lemma EnteredIsSteps(s: State, t: nat, a: string)
    requires t !in s.tasks
    ensures Steps(s, Entered(s, t, a), t,
      if !s.allowed || a in s.succeeded then [Start(a), Check] else [Start(a), Check, Claim])
  {
    hide Steps, Via;
    var s1 := WithTask(s, t, Ready(a));
    var s2 := CheckStep(s1, t, a);
    assert Next(s, s1, t, Start(a)) && Next(s1, s2, t, Check);
    if !s.allowed || a in s.succeeded {
      TwoSteps(s, s1, s2, t, Start(a), Check);
    } else {
      assert Next(s2, ClaimStep(s2, t, a), t, Claim);
      ThreeSteps(s, s1, s2, ClaimStep(s2, t, a), t, [Start(a), Check, Claim]);
    }
  }

  /** The state after the holder has applied what its probe found. */
  function Applied(s: State, t: nat, a: string, patch: Patch): State {
    var s' := ReadStep(WithTask(s, t, Applying(a, patch)), t, a, patch);
    if a !in s.snapshots then s'
    else EmitStep(WriteStep(s', t, a, patch, s.snapshots[a]), t, a, patch, EventOf(a, s.snapshots[a], patch))
  }

  lemma AppliedIsSteps(s: State, t: nat, a: string, patch: Patch)
    requires t in s.tasks && s.tasks[t] == Probing(a) && ValidPatch(patch)
    ensures Steps(s, Applied(s, t, a, patch), t,
      if a in s.snapshots then [ProbeFinds(patch), Read, Write, Emit] else [ProbeFinds(patch), Read])
  {
    hide Steps, Via;
    var s1 := WithTask(s, t, Applying(a, patch));
    var s2 := ReadStep(s1, t, a, patch);
    assert Next(s, s1, t, ProbeFinds(patch)) && Next(s1, s2, t, Read);
    if a !in s.snapshots {
      TwoSteps(s, s1, s2, t, ProbeFinds(patch), Read);
    } else {
      var prev := s.snapshots[a];
      var s3 := WriteStep(s2, t, a, patch, prev);
      var s4 := EmitStep(s3, t, a, patch, EventOf(a, prev, patch));
      assert Next(s2, s3, t, Write) && Next(s3, s4, t, Emit);
      FourSteps(s, s1, s2, s3, s4, t, [ProbeFinds(patch), Read, Write, Emit]);
    }
  }

  /** What a refresh does to the outside, in the order it does it. */
  datatype Effect =
    | Stored(adapter: string, snapshot: Snapshot)
    | Sent(event: Event)

  function EffectsOf(adapter: string, prev: Snapshot, patch: Patch): seq<Effect> {
    [Stored(adapter, Patched(prev, patch))]
    + match EventOf(adapter, prev, patch) case None => [] case Some(e) => [Sent(e)]
  }

  datatype Entry = Skipped | Waits | Claimed

  /**
   * The fields of the registry; `emitted` is what the subscribers got. The
   * ghost fields are the tasks under way and the history of revisions, so that
   * the object is a state of the machine, and each method a run of its steps.
   */
  class AdapterRegistry {
    var adapters: map<string, Models>
    var snapshots: map<string, Snapshot>
    var inFlight: set<string>
    var succeeded: set<string>
    var refreshAllowed: bool
    var emitted: seq<Event>
    ghost var tasks: map<nat, Task>
    ghost var published: map<(string, nat), Models>

    ghost function View(): State
      reads this
    {
      State(refreshAllowed, snapshots, inFlight, succeeded, tasks, emitted, published)
    }

    ghost predicate Valid()
      reads this
    {
      Inv(View())
    }

    constructor ()
      ensures Valid() && Init(View()) && adapters == map[]
    {
      adapters, snapshots, inFlight, succeeded := map[], map[], {}, {};
      refreshAllowed, emitted, tasks, published := false, [], map[], map[];
      new;
      InitHolds(View());
    }

    method Register(id: string, fallbackModels: Models)
      requires Valid()
      modifies this`adapters
      ensures Valid() && View() == old(View()) && adapters == old(adapters)[id := fallbackModels]
    {
      adapters := adapters[id := fallbackModels];
    }

    method AllowRefresh(ghost t: nat)
      requires Valid()
      modifies this`refreshAllowed
      ensures Valid() && Next(old(View()), View(), t, Allow)
    {
      refreshAllowed := true;
      NextKeepsInv(old(View()), View(), t, Allow);
    }

    /**
     * Every registered adapter starts at revision 1, not installed, with its
     * fallback models. The laws then hold in every continuation if and only if
     * no such adapter has an event out or owed, or first showed other models.
     */
    method SeedStaticSnapshots()
      requires Valid()
      modifies this`snapshots, this`published
      ensures View() == Reseeded(old(View()), adapters)
      ensures StaysLawful(View(), old(published)) <==> SafeToSeed(old(View()), adapters)
      ensures SafeToSeed(old(View()), adapters) ==> Valid()
    {
      hide Inv, SafeToSeed, StaysLawful;
      InsertSeeds();
      published := Reseeded(old(View()), adapters).published;
      assert View() == Reseeded(old(View()), adapters);
      ReseedingIsSafeIff(old(View()), adapters);
      if SafeToSeed(old(View()), adapters) {
        SeedingKeepsInv(old(View()), adapters);
      }
    }

    method InsertSeeds()
      modifies this`snapshots
      ensures snapshots == Reseeded(old(View()), adapters).snapshots
    {
      var left := adapters.Keys;
      while left != {}
        invariant left <= adapters.Keys
        invariant snapshots.Keys == old(snapshots).Keys + (adapters.Keys - left)
        invariant forall id :: id in adapters && id !in left ==> snapshots[id] == Seeded(adapters[id])
        invariant forall id :: id in old(snapshots) && id !in adapters ==> snapshots[id] == old(snapshots)[id]
        decreases left
      {
        var id :| id in left;
        snapshots := snapshots[id := Seeded(adapters[id])];
        left := left - {id};
      }
    }

    /** A caller asks for a refresh: it is skipped, waits for the one under way, or claims the free slot. */
    method Enter(ghost t: nat, id: string) returns (entry: Entry)
      requires Valid() && t !in tasks
      modifies this`inFlight, this`tasks
      ensures Valid()
      ensures Steps(old(View()), View(), t,
        if entry.Skipped? then [Start(id), Check] else [Start(id), Check, Claim])
      ensures entry.Skipped? <==> !refreshAllowed || id in succeeded
      ensures entry.Waits? ==> t in tasks && tasks[t] == Waiting(id) && id in old(inFlight)
      ensures entry.Claimed? ==>
        t in tasks && tasks[t] == Probing(id) && forall u :: u in tasks && Holds(tasks[u], id) ==> u == t
    {
      hide Inv, EventsOf, Steps;
      if !refreshAllowed || id in succeeded {
        entry := Skipped;
      } else if id in inFlight {
        entry := Waits;
      } else {
        inFlight := inFlight + {id};
        entry := Claimed;
      }
      tasks := Entered(old(View()), t, id).tasks;
      EnteredIsSteps(old(View()), t, id);
      assert View() == Entered(old(View()), t, id);
      StepsKeepInv(old(View()), View(), t, if entry.Skipped? then [Start(id), Check] else [Start(id), Check, Claim]);
      InvParts(View());
    }

    /**
     * The holder of the slot applies what its probe found: the snapshot is
     * stored, and then the event sent; an adapter without a snapshot is left
     * alone, and there is no event without models.
     */
    method ApplyRefresh(ghost t: nat, id: string, patch: Patch) returns (effects: seq<Effect>)
      requires Valid() && t in tasks && tasks[t] == Probing(id) && ValidPatch(patch)
      modifies this`snapshots, this`emitted, this`tasks, this`published
      ensures Valid() && t in tasks && tasks[t] == Marking(id, patch)
      ensures Steps(old(View()), View(), t,
        if id in old(snapshots) then [ProbeFinds(patch), Read, Write, Emit] else [ProbeFinds(patch), Read])
      ensures effects == if id in old(snapshots) then EffectsOf(id, old(snapshots)[id], patch) else []
    {
      hide Inv, EventsOf, Steps;
      effects := [];
      tasks, published := Applied(old(View()), t, id, patch).tasks, Applied(old(View()), t, id, patch).published;
      AppliedIsSteps(old(View()), t, id, patch);
      StepsKeepInv(old(View()), Applied(old(View()), t, id, patch), t,
        if id in old(snapshots) then [ProbeFinds(patch), Read, Write, Emit] else [ProbeFinds(patch), Read]);
      if id !in snapshots {
        return;
      }
      var prev := snapshots[id];
      var modelsChanged := patch.models.Some?;
      var revision := if modelsChanged then Some((if prev.revision.Some? then prev.revision.value else 1) + 1)
                      else prev.revision;
      var next := Snapshot(
        patch.installed,
        if patch.version.Some? then patch.version else prev.version,
        if modelsChanged then patch.models.value else prev.models,
        revision,
        if modelsChanged then true else prev.probed);
      snapshots := snapshots[id := next];
      effects := effects + [Stored(id, next)];
      if modelsChanged && revision.Some? {
        var event := Event(id, patch.models.value, revision.value, patch.installed);
        emitted := emitted + [event];
        effects := effects + [Sent(event)];
      }
      assert View() == Applied(old(View()), t, id, patch);
    }

    /** The end of a refresh: a live catalog is remembered, and the slot is free for the next caller. */
    method Finish(ghost t: nat, id: string, gotLive: bool)
      requires Valid() && t in tasks && tasks[t].Marking? && tasks[t].adapter == id
      requires gotLive == tasks[t].patch.models.Some?
      modifies this`succeeded, this`inFlight, this`tasks
      ensures Valid() && Steps(old(View()), View(), t, [Mark, Release])
      ensures id !in inFlight && forall u :: u in tasks ==> !Holds(tasks[u], id)
    {
      hide Inv, EventsOf, Steps;
      ghost var s0 := View();
      if gotLive {
        succeeded := succeeded + {id};
      }
      tasks := tasks[t := Releasing(id)];
      ghost var s1 := View();
      NextKeepsInv(s0, s1, t, Mark);
      GiveBack(t, id);
      TwoSteps(s0, s1, View(), t, Mark, Release);
    }

    /** A probe that fails, or finds nothing to probe with, gives the slot back. */
    method Abandon(ghost t: nat, id: string)
      requires Valid() && t in tasks && tasks[t] == Probing(id)
      modifies this`inFlight, this`tasks
      ensures Valid() && Steps(old(View()), View(), t, [ProbeFails, Release])
      ensures id !in inFlight && forall u :: u in tasks ==> !Holds(tasks[u], id)
    {
      hide Inv, EventsOf, Steps;
      ghost var s0 := View();
      tasks := tasks[t := Releasing(id)];
      ghost var s1 := View();
      NextKeepsInv(s0, s1, t, ProbeFails);
      GiveBack(t, id);
      TwoSteps(s0, s1, View(), t, ProbeFails, Release);
    }

    method GiveBack(ghost t: nat, id: string)
      requires Valid() && t in tasks && tasks[t] == Releasing(id)
      modifies this`inFlight, this`tasks
      ensures Valid() && Next(old(View()), View(), t, Release)
      ensures id !in inFlight && forall u :: u in tasks ==> !Holds(tasks[u], id)
    {
      hide Inv, EventsOf, Steps;
      inFlight := inFlight - {id};
      tasks := tasks[t := Finished];
      NextKeepsInv(old(View()), View(), t, Release);
      InvParts(View());
    }
  }
}
