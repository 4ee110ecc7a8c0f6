/** Which tokens are visible at a step, and what cannot change that. */
module Scope {
  import opened CharClasses
  import opened Automation
  import opened Naming

  datatype WalkResult = WalkResult(found: bool, scope: seq<TokenDescriptor>)

  function FindToken(scope: seq<TokenDescriptor>, ref: TokenRef): Option<TokenDescriptor> {
    if scope == [] then None
    else if Key(scope[0].ref) == Key(ref) then Some(scope[0])
    else FindToken(scope[1..], ref)
  }

  /** Repeat's `Current item`, when the list it repeats over is in scope. */
  function CurrentItemToken(items: TokenRef, scope: seq<TokenDescriptor>): seq<TokenDescriptor> {
    match FindToken(scope, items)
    case None => []
    case Some(list) =>
      [Descriptor(STEP_CURRENT, "item", "Current item", Text, FromItem, "Repeat").(fields := list.fields)]
  }

  function Walk(steps: seq<Step>, scope: seq<TokenDescriptor>, target: Option<string>, catalog: Catalog): WalkResult
    decreases steps, 0
  {
    if steps == [] then WalkResult(false, scope)
    else
      var r := WalkStep(steps[0], scope, target, catalog);
      if r.found then r else Walk(steps[1..], r.scope, target, catalog)
  }

  /** One step of the walk: the scope at the target inside it, or the scope after it. */
  function WalkStep(step: Step, scope: seq<TokenDescriptor>, target: Option<string>, catalog: Catalog): WalkResult
    decreases step, 1
  {
    if target == Some(step.id) then WalkResult(true, scope)
    else
      match step
      case If(_, thenSteps, otherwise) =>
        var r := Walk(thenSteps, scope, target, catalog);
        if r.found then r
        else
          var r' := Walk(otherwise, scope, target, catalog);
          if r'.found then r' else WalkResult(false, scope + StepProduces(step, catalog))
      case Repeat(_, items, steps) =>
        var r := Walk(steps, scope + CurrentItemToken(items, scope), target, catalog);
        if r.found then r else WalkResult(false, scope)
      case Loop(_, _, steps) =>
        var r := Walk(steps, scope, target, catalog);
        if r.found then r else WalkResult(false, scope)
      case Retry(_, steps) =>
        var r := Walk(steps, scope, target, catalog);
        if r.found then r else WalkResult(false, scope)
      case Parallel(_, branches) => WalkBranches(branches, scope, target, catalog)
      case _ => WalkResult(false, scope + StepProduces(step, catalog))
  }

  function WalkBranches(
    branches: seq<Branch>, scope: seq<TokenDescriptor>, target: Option<string>, catalog: Catalog): WalkResult
    decreases branches, 0
  {
    if branches == [] then WalkResult(false, scope)
    else
      var r := Walk(branches[0].steps, scope, target, catalog);
      if r.found then r else WalkBranches(branches[1..], scope, target, catalog)
  }

  /** The tokens visible at a step; `None` asks for the scope after the whole recipe. */
  function ScopeAt(d: Definition, catalog: Catalog, target: Option<string>): seq<TokenDescriptor> {
    Walk(d.steps, BaseScope(d.triggers), target, catalog).scope
  }

  /** The walk as a loop over `running`, with early returns. */
  method WalkLoop(steps: seq<Step>, scope: seq<TokenDescriptor>, target: Option<string>, catalog: Catalog)
    returns (r: WalkResult)
    ensures r == Walk(steps, scope, target, catalog)
    decreases steps
  {
    hide Walk, WalkStep, WalkBranches, StepProduces, CurrentItemToken;
    var running := scope;
    assert steps[0..] == steps;
    for i := 0 to |steps|
      invariant Walk(steps[i..], running, target, catalog) == Walk(steps, scope, target, catalog)
    {
      var step := steps[i];
      NextStep(steps, i, running, target, catalog);
      OneStep(step, running, target, catalog);
      if target == Some(step.id) {
        return WalkResult(true, running);
      }
      match step {
        case If(_, thenSteps, otherwise) =>
          var thenResult := WalkLoop(thenSteps, running, target, catalog);
          if thenResult.found {
            return thenResult;
          }
          var otherwiseResult := WalkLoop(otherwise, running, target, catalog);
          if otherwiseResult.found {
            return otherwiseResult;
          }
          running := running + StepProduces(step, catalog);
        case Repeat(_, items, body) =>
          var inner := running + CurrentItemToken(items, running);
          var result := WalkLoop(body, inner, target, catalog);
          if result.found {
            return result;
          }
        case Loop(_, _, body) =>
          var result := WalkLoop(body, running, target, catalog);
          if result.found {
            return result;
          }
        case Retry(_, body) =>
          var result := WalkLoop(body, running, target, catalog);
          if result.found {
            return result;
          }
        case Parallel(_, branches) =>
          assert branches[0..] == branches;
          for j := 0 to |branches|
            invariant WalkBranches(branches[j..], running, target, catalog)
                      == WalkBranches(branches, running, target, catalog)
          {
            NextBranch(branches, j, running, target, catalog);
            var result := WalkLoop(branches[j].steps, running, target, catalog);
            if result.found {
              return result;
            }
          }
          NoMoreBranches(branches, running, target, catalog);
        case _ =>
          running := running + StepProduces(step, catalog);
      }
    }
    NoMoreSteps(steps, running, target, catalog);
    r := WalkResult(false, running);
  }

  lemma NextStep(steps: seq<Step>, i: nat, scope: seq<TokenDescriptor>, target: Option<string>, catalog: Catalog)
    requires i < |steps|
    ensures var r := WalkStep(steps[i], scope, target, catalog);
            Walk(steps[i..], scope, target, catalog) ==
            if r.found then r else Walk(steps[i + 1..], r.scope, target, catalog)
  {
    hide WalkStep;
    assert steps[i..][1..] == steps[i + 1..];
  }

  lemma NoMoreSteps(steps: seq<Step>, scope: seq<TokenDescriptor>, target: Option<string>, catalog: Catalog)
    ensures Walk(steps[|steps|..], scope, target, catalog) == WalkResult(false, scope)
  {
  }

  lemma NextBranch(branches: seq<Branch>, j: nat, scope: seq<TokenDescriptor>, target: Option<string>, catalog: Catalog)
    requires j < |branches|
    ensures var r := Walk(branches[j].steps, scope, target, catalog);
            WalkBranches(branches[j..], scope, target, catalog) ==
            if r.found then r else WalkBranches(branches[j + 1..], scope, target, catalog)
  {
    hide Walk;
    assert branches[j..][1..] == branches[j + 1..];
  }

  lemma NoMoreBranches(branches: seq<Branch>, scope: seq<TokenDescriptor>, target: Option<string>, catalog: Catalog)
    ensures WalkBranches(branches[|branches|..], scope, target, catalog) == WalkResult(false, scope)
  {
  }

  /** What a step does to the walk, without looking inside the walk of its parts. */
  lemma OneStep(step: Step, scope: seq<TokenDescriptor>, target: Option<string>, catalog: Catalog)
    ensures target == Some(step.id) ==> WalkStep(step, scope, target, catalog) == WalkResult(true, scope)
    ensures target != Some(step.id) && step.If? ==>
      var r, r' := Walk(step.thenSteps, scope, target, catalog), Walk(step.otherwise, scope, target, catalog);
      WalkStep(step, scope, target, catalog) ==
      if r.found then r
      else if r'.found then r'
      else WalkResult(false, scope + StepProduces(step, catalog))
    ensures target != Some(step.id) && (step.Repeat? || step.Loop? || step.Retry?) ==>
      var inner := if step.Repeat? then scope + CurrentItemToken(step.items, scope) else scope;
      var r := Walk(step.steps, inner, target, catalog);
      WalkStep(step, scope, target, catalog) == if r.found then r else WalkResult(false, scope)
    ensures target != Some(step.id) && step.Parallel? ==>
      WalkStep(step, scope, target, catalog) == WalkBranches(step.branches, scope, target, catalog)
    ensures target != Some(step.id) && !(step.If? || step.Repeat? || step.Loop? || step.Retry? || step.Parallel?) ==>
      WalkStep(step, scope, target, catalog) == WalkResult(false, scope + StepProduces(step, catalog))
  {
    hide Walk, WalkBranches, StepProduces, CurrentItemToken;
  }

  // ----- what a walk finds and what it gathers

  function Ids(steps: seq<Step>): set<string>
    decreases steps, 0
  {
    if steps == [] then {} else IdsOf(steps[0]) + Ids(steps[1..])
  }

  function IdsOf(step: Step): set<string>
    decreases step, 1
  {
    {step.id} +
    match step
    case If(_, thenSteps, otherwise) => Ids(thenSteps) + Ids(otherwise)
    case Repeat(_, _, steps) => Ids(steps)
    case Loop(_, _, steps) => Ids(steps)
    case Retry(_, steps) => Ids(steps)
    case Parallel(_, branches) => BranchIds(branches)
    case _ => {}
  }

  function BranchIds(branches: seq<Branch>): set<string>
    decreases branches, 0
  {
    if branches == [] then {} else Ids(branches[0].steps) + BranchIds(branches[1..])
  }

  /** A walk stops exactly at the steps it contains; otherwise it adds what every step produces, in order. */
  lemma {:induction false} WalkGathers(
    steps: seq<Step>, scope: seq<TokenDescriptor>, target: Option<string>, catalog: Catalog)
    ensures var r := Walk(steps, scope, target, catalog);
            && (r.found <==> target.Some? && target.value in Ids(steps))
            && (!r.found ==> r.scope == scope + AllProduce(steps, catalog))
    decreases steps, 0
  {
    hide WalkStep, IdsOf, StepProduces;
    if steps == [] {
      assert AllProduce(steps, catalog) == [];
    } else {
      StepGathers(steps[0], scope, target, catalog);
      var r := WalkStep(steps[0], scope, target, catalog);
      if !r.found {
        WalkGathers(steps[1..], r.scope, target, catalog);
      }
    }
  }

  lemma {:induction false} StepGathers(
    step: Step, scope: seq<TokenDescriptor>, target: Option<string>, catalog: Catalog)
    ensures var r := WalkStep(step, scope, target, catalog);
            && (r.found <==> target.Some? && target.value in IdsOf(step))
            && (!r.found ==> r.scope == scope + StepProduces(step, catalog))
    decreases step, 1
  {
    hide Walk, WalkBranches, Ids, BranchIds, AllProduce, StepLabel;
    match step {
      case If(_, thenSteps, otherwise) =>
        WalkGathers(thenSteps, scope, target, catalog);
        WalkGathers(otherwise, scope, target, catalog);
      case Repeat(_, items, steps) =>
        WalkGathers(steps, scope + CurrentItemToken(items, scope), target, catalog);
      case Loop(_, _, steps) =>
        WalkGathers(steps, scope, target, catalog);
      case Retry(_, steps) =>
        WalkGathers(steps, scope, target, catalog);
      case Parallel(_, branches) =>
        BranchesGather(branches, scope, target, catalog);
      case _ =>
    }
  }

  lemma {:induction false} BranchesGather(
    branches: seq<Branch>, scope: seq<TokenDescriptor>, target: Option<string>, catalog: Catalog)
    ensures var r := WalkBranches(branches, scope, target, catalog);
            && (r.found <==> target.Some? && target.value in BranchIds(branches))
            && (!r.found ==> r.scope == scope)
    decreases branches, 0
  {
    hide Walk, Ids;
    if branches != [] {
      WalkGathers(branches[0].steps, scope, target, catalog);
      if !Walk(branches[0].steps, scope, target, catalog).found {
        BranchesGather(branches[1..], scope, target, catalog);
      }
    }
  }

  // ----- edits a step cannot see

  /**
   * Two recipes that agree on what happens before `target`: the same tokens are
   * produced before the step that is or holds the target, and inside it likewise.
   */
  ghost predicate SameBefore(a: seq<Step>, b: seq<Step>, target: string, catalog: Catalog)
    decreases a, 0
  {
    exists k, l :: 0 <= k < |a| && 0 <= l < |b| && SameBeforeAt(a, k, b, l, target, catalog)
      && SameBeforeIn(a[k], b[l], target, catalog)
  }

  ghost predicate SameBeforeAt(a: seq<Step>, k: nat, b: seq<Step>, l: nat, target: string, catalog: Catalog)
    requires k < |a| && l < |b|
  {
    && target !in Ids(a[..k]) && target !in Ids(b[..l])
    && AllProduce(a[..k], catalog) == AllProduce(b[..l], catalog)
  }

  ghost predicate SameBeforeIn(s: Step, t: Step, target: string, catalog: Catalog)
    decreases s, 1
  {
    if s.id == target || t.id == target then s.id == t.id
    else
      match (s, t)
      case (If(_, a, a'), If(_, b, b')) =>
        SameBefore(a, b, target, catalog)
        || (target !in Ids(a) && target !in Ids(b) && SameBefore(a', b', target, catalog))
      case (Repeat(_, items, a), Repeat(_, items', b)) =>
        Key(items) == Key(items') && SameBefore(a, b, target, catalog)
      case (Loop(_, _, a), Loop(_, _, b)) => SameBefore(a, b, target, catalog)
      case (Retry(_, a), Retry(_, b)) => SameBefore(a, b, target, catalog)
      case (Parallel(_, bs), Parallel(_, cs)) => SameBeforeBranches(bs, cs, target, catalog)
      case _ => false
  }

  ghost predicate SameBeforeBranches(bs: seq<Branch>, cs: seq<Branch>, target: string, catalog: Catalog)
    decreases bs, 0
  {
    exists i, j :: 0 <= i < |bs| && 0 <= j < |cs|
      && target !in BranchIds(bs[..i]) && target !in BranchIds(cs[..j])
      && SameBefore(bs[i].steps, cs[j].steps, target, catalog)
  }
}
