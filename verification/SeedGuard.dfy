/** The generation guard on seed fetches: a slow, superseded fetch is never applied. */
module SeedGuard {
  import opened AdapterCatalog

  /** `pending` are the fetches whose promise has not settled; `applied` the generations applied, in order. */
  datatype Guard = Guard(generation: nat, pending: set<nat>, applied: seq<nat>, byId: Catalog)

  datatype Step =
    | SeedFor
    | Refresh
    | Invalidate
    | Resolves(gen: nat, list: seq<AdapterInfo>)
    | Rejects(gen: nat)
    | Message(msg: AdapterCatalog.Message)

  predicate Enabled(g: Guard, step: Step) {
    match step
    case Resolves(gen, _) => gen in g.pending
    case Rejects(gen) => gen in g.pending
    case _ => true
  }

  function Begin(g: Guard): Guard {
    g.(generation := g.generation + 1, pending := g.pending + {g.generation + 1})
  }

  function Do(g: Guard, step: Step): Guard {
    match step
    case SeedFor => Begin(g).(byId := WithoutBaseline(g.byId))
    case Refresh => Begin(g)
    case Invalidate => g.(generation := g.generation + 1)
    case Resolves(gen, list) =>
      var settled := g.(pending := g.pending - {gen});
      if gen == g.generation then settled.(applied := g.applied + [gen], byId := MergedAll(g.byId, list)) else settled
    case Rejects(gen) => g.(pending := g.pending - {gen})
    case Message(msg) => g.(byId := Deliver(g.byId, msg))
  }

  ghost predicate IsRun(run: seq<Guard>, steps: seq<Step>) {
    && |run| == |steps| + 1 && run[0] == Guard(0, {}, [], map[])
    && forall i :: 0 <= i < |steps| ==> Enabled(run[i], steps[i]) && run[i + 1] == Do(run[i], steps[i])
  }

  ghost predicate Inv(g: Guard) {
    && (forall gen :: gen in g.pending ==> gen <= g.generation)
    && (forall k :: 0 <= k < |g.applied| ==> g.applied[k] <= g.generation && g.applied[k] !in g.pending)
    && (forall j, k :: 0 <= j < k < |g.applied| ==> g.applied[j] < g.applied[k])
  }

  lemma DoKeepsInv(g: Guard, step: Step)
    requires Inv(g) && Enabled(g, step)
    ensures Inv(Do(g, step))
  {
    hide MergedAll, Deliver;
    if step.Resolves? && step.gen == g.generation {
      forall k | 0 <= k < |g.applied| ensures g.applied[k] < step.gen {
        assert g.applied[k] != step.gen;
      }
    }
  }

  lemma {:induction false} RunKeepsInv(run: seq<Guard>, steps: seq<Step>, i: nat)
    requires IsRun(run, steps) && i < |run|
    ensures Inv(run[i])
  {
    hide Do, Inv;
    if i == 0 {
      StartHolds();
    } else {
      RunKeepsInv(run, steps, i - 1);
      DoKeepsInv(run[i - 1], steps[i - 1]);
      assert run[i - 1 + 1] == Do(run[i - 1], steps[i - 1]);
    }
  }

  lemma StartHolds()
    ensures Inv(Guard(0, {}, [], map[]))
  {
  }

  /**
   * Over every order in which fetches start, are superseded, settle and fail:
   * the generations applied are strictly increasing.
   */
  lemma AppliedInOrder(run: seq<Guard>, steps: seq<Step>, i: nat, j: nat, k: nat)
    requires IsRun(run, steps) && i < |run| && j < k < |run[i].applied|
    ensures run[i].applied[j] < run[i].applied[k] <= run[i].generation
  {
    RunKeepsInv(run, steps, i);
  }

  /** A fetch that has been superseded changes nothing in the catalog when it settles. */
  lemma SupersededIsIgnored(g: Guard, gen: nat, list: seq<AdapterInfo>)
    requires Inv(g) && gen in g.pending
    ensures Do(g, Resolves(gen, list)).byId == (if gen < g.generation then g.byId else MergedAll(g.byId, list))
  {
  }

  /** One step adds at most the current generation to what is applied, and no step takes a generation back. */
  lemma StepApplies(g: Guard, step: Step)
    requires Enabled(g, step)
    ensures g.generation <= Do(g, step).generation
    ensures Do(g, step).applied == g.applied || Do(g, step).applied == g.applied + [g.generation]
    ensures step.SeedFor? || step.Refresh? || step.Invalidate? ==>
      Do(g, step).generation == g.generation + 1 && Do(g, step).applied == g.applied
  {
    hide MergedAll, Deliver, WithoutBaseline;
  }

  /**
   * After a switch, a newer fetch or an invalidation: whatever is applied from
   * then on comes from a fetch begun by it or after it, and nothing applied
   * before is applied again.
   */
  lemma {:induction false} NothingOlderIsApplied(run: seq<Guard>, steps: seq<Step>, k: nat, j: nat)
    requires IsRun(run, steps) && k < j < |run|
    requires steps[k].SeedFor? || steps[k].Refresh? || steps[k].Invalidate?
    ensures run[k].generation < run[j].generation && run[k].applied <= run[j].applied
    ensures forall n :: |run[k].applied| <= n < |run[j].applied| ==> run[j].applied[n] > run[k].generation
    decreases j
  {
    hide Do, Enabled;
    assert Enabled(run[j - 1], steps[j - 1]) && run[j - 1 + 1] == Do(run[j - 1], steps[j - 1]);
    StepApplies(run[j - 1], steps[j - 1]);
    if k < j - 1 {
      NothingOlderIsApplied(run, steps, k, j - 1);
    }
  }

  // ----- what a run comes to

  /** Step `k` begins the fetch of this generation. */
  ghost predicate Begins(run: seq<Guard>, steps: seq<Step>, k: nat, gen: nat) {
    k < |run| && k < |steps| && (steps[k].SeedFor? || steps[k].Refresh?) && gen == run[k].generation + 1
  }

  predicate Settles(step: Step, gen: nat) {
    (step.Resolves? || step.Rejects?) && step.gen == gen
  }

  /** Begun in one of the first `i` steps, and not settled since. */
  ghost predicate UnderWay(run: seq<Guard>, steps: seq<Step>, i: nat, gen: nat)
    requires i <= |steps|
  {
    exists k: nat :: k < i && Begins(run, steps, k, gen) && forall j :: k < j < i ==> !Settles(steps[j], gen)
  }

  lemma PendingStep(g: Guard, step: Step, gen: nat)
    requires Inv(g) && Enabled(g, step)
    ensures gen in Do(g, step).pending <==>
      ((step.SeedFor? || step.Refresh?) && gen == g.generation + 1) || (gen in g.pending && !Settles(step, gen))
  {
    hide MergedAll, Deliver, WithoutBaseline;
  }

  /** A fetch is under way if and only if it was begun and its promise has not settled. */
  lemma {:induction false} PendingIff(run: seq<Guard>, steps: seq<Step>, i: nat, gen: nat)
    requires IsRun(run, steps) && i < |run|
    ensures gen in run[i].pending <==> UnderWay(run, steps, i, gen)
  {
    hide Do, Inv;
    if i > 0 {
      var step := steps[i - 1];
      assert Enabled(run[i - 1], step) && run[i - 1 + 1] == Do(run[i - 1], step);
      RunKeepsInv(run, steps, i - 1);
      PendingIff(run, steps, i - 1, gen);
      PendingStep(run[i - 1], step, gen);
      if Begins(run, steps, i - 1, gen) {
        assert UnderWay(run, steps, i, gen);
      }
    }
  }

  /** Step `k` is the answer to the fetch that is current then. */
  ghost predicate Answers(run: seq<Guard>, steps: seq<Step>, k: nat, gen: nat) {
    k < |run| && k < |steps| && steps[k].Resolves? && gen == steps[k].gen == run[k].generation
  }

  lemma AppliedStep(g: Guard, step: Step, gen: nat)
    requires Enabled(g, step)
    ensures gen in Do(g, step).applied <==>
      gen in g.applied || (step.Resolves? && gen == step.gen == g.generation)
  {
    hide MergedAll, Deliver, WithoutBaseline;
  }

  /** A fetch was applied if and only if its answer came while it was the current one. */
  lemma {:induction false} AppliedIff(run: seq<Guard>, steps: seq<Step>, i: nat, gen: nat)
    requires IsRun(run, steps) && i < |run|
    ensures gen in run[i].applied <==> exists k: nat :: k < i && Answers(run, steps, k, gen)
  {
    hide Do;
    if i > 0 {
      assert Enabled(run[i - 1], steps[i - 1]) && run[i - 1 + 1] == Do(run[i - 1], steps[i - 1]);
      AppliedIff(run, steps, i - 1, gen);
      AppliedStep(run[i - 1], steps[i - 1], gen);
      if Answers(run, steps, i - 1, gen) {
        assert gen in run[i].applied;
      }
    }
  }

  /** What reaches the catalog from step `k` up to `i`: the events, and the answers of the fetches current then. */
  ghost function Received(run: seq<Guard>, steps: seq<Step>, k: nat, i: nat): seq<AdapterCatalog.Message>
    requires k <= i <= |steps| && i < |run|
    decreases i
  {
    if i == k then []
    else
      Received(run, steps, k, i - 1)
      + match steps[i - 1]
        case Resolves(gen, list) => if gen == run[i - 1].generation then [Listing(list)] else []
        case Message(msg) => [msg]
        case _ => []
  }

  lemma {:induction false} DeliverOneMore(byId: Catalog, msgs: seq<AdapterCatalog.Message>, msg: AdapterCatalog.Message)
    ensures DeliverAll(byId, msgs + [msg]) == Deliver(DeliverAll(byId, msgs), msg)
    decreases |msgs|
  {
    hide Deliver;
    if msgs == [] {
      assert [] + [msg] == [msg];
      OneDelivery(byId, msg);
    } else {
      assert (msgs + [msg])[1..] == msgs[1..] + [msg];
      DeliverOneMore(Deliver(byId, msgs[0]), msgs[1..], msg);
    }
  }

  /**
   * From a switch on, until the next one, the catalog is that of the switch,
   * without revisions, with what was received delivered in order: the laws of
   * the catalog hold of what the guard lets through.
   */
  lemma {:induction false} CatalogIsDelivered(run: seq<Guard>, steps: seq<Step>, k: nat, i: nat)
    requires IsRun(run, steps) && k < i < |run| && steps[k].SeedFor?
    requires forall j :: k < j < i ==> !steps[j].SeedFor?
    ensures run[i].byId == DeliverAll(WithoutBaseline(run[k].byId), Received(run, steps, k + 1, i))
    decreases i
  {
    hide Deliver, WithoutBaseline;
    assert Enabled(run[i - 1], steps[i - 1]) && run[i - 1 + 1] == Do(run[i - 1], steps[i - 1]);
    if k + 1 < i {
      CatalogIsDelivered(run, steps, k, i - 1);
      var before := Received(run, steps, k + 1, i - 1);
      var step := steps[i - 1];
      if step.Resolves? {
        DeliverOneMore(WithoutBaseline(run[k].byId), before, Listing(step.list));
        ListingMerges(run[i - 1].byId, step.list);
      } else if step.Message? {
        DeliverOneMore(WithoutBaseline(run[k].byId), before, step.msg);
      }
      assert before + [] == before;
    }
  }

  lemma ListingMerges(byId: Catalog, list: seq<AdapterInfo>)
    ensures Deliver(byId, Listing(list)) == MergedAll(byId, list)
  {
  }

  // ----- the module as an object

  /** The module's counter and the store it fills; the ghost fields make the two a state of the guard. */
  class SeedFetches {
    var seedGeneration: nat
    const store: AdaptersStore
    ghost var pending: set<nat>
    ghost var applied: seq<nat>

    ghost function View(): Guard
      reads this, store
    {
      Guard(seedGeneration, pending, applied, store.byId)
    }

    ghost predicate Valid()
      reads this, store
    {
      Inv(View())
    }

    constructor (store: AdaptersStore)
      ensures Valid() && this.store == store && View() == Guard(0, {}, [], store.byId)
    {
      this.store := store;
      seedGeneration, pending, applied := 0, {}, [];
    }

    method InvalidateSeedFetches()
      requires Valid()
      modifies this
      ensures Valid() && View() == Do(old(View()), Invalidate)
    {
      hide Inv;
      DoKeepsInv(View(), Invalidate);
      seedGeneration := seedGeneration + 1;
    }

    /** Starts a fetch; the generation is what its answer is compared against. */
    method SeedAdaptersFor() returns (gen: nat)
      requires Valid()
      modifies this, store
      ensures Valid() && View() == Do(old(View()), SeedFor)
      ensures gen in pending && gen == seedGeneration && gen !in old(pending)
    {
      hide WithoutBaseline;
      DoKeepsInv(View(), SeedFor);
      gen := Begins();
      store.ResetRevisionBaseline();
    }

    method RefreshAdapters() returns (gen: nat)
      requires Valid()
      modifies this
      ensures Valid() && View() == Do(old(View()), Refresh)
      ensures gen in pending && gen == seedGeneration && gen !in old(pending)
    {
      DoKeepsInv(View(), Refresh);
      gen := Begins();
    }

    method Begins() returns (gen: nat)
      modifies this
      ensures View() == Begin(old(View())) && gen == seedGeneration
    {
      seedGeneration := seedGeneration + 1;
      gen := seedGeneration;
      pending := pending + {gen};
    }

    /** The answer of a fetch: merged if no later call has moved the generation on. */
    method Answered(gen: nat, list: seq<AdapterInfo>)
      requires Valid() && gen in pending
      modifies this, store
      ensures Valid() && View() == Do(old(View()), Resolves(gen, list))
    {
      hide MergedAll, Inv;
      DoKeepsInv(View(), Resolves(gen, list));
      pending := pending - {gen};
      if gen == seedGeneration {
        store.SeedAdapters(list);
        applied := applied + [gen];
      }
    }

    method Failed(gen: nat)
      requires Valid() && gen in pending
      modifies this
      ensures Valid() && View() == Do(old(View()), Rejects(gen))
    {
      hide Inv;
      DoKeepsInv(View(), Rejects(gen));
      pending := pending - {gen};
    }
  }
}
