/** The scope of a step, read off the way that leads to it. */
module ScopePath {
  import opened CharClasses
  import opened Automation
  import opened Naming
  import opened Scope
  import opened ScopeLaws

  /** One turn on the way: which step of the list, and which of the lists inside that step. */
  datatype Turn = Turn(index: nat, arm: nat)

  /** The lists of steps directly inside a step. */
  function Arms(step: Step): seq<seq<Step>> {
    match step
    case If(_, thenSteps, otherwise) => [thenSteps, otherwise]
    case Repeat(_, _, steps) => [steps]
    case Loop(_, _, steps) => [steps]
    case Retry(_, steps) => [steps]
    case Parallel(_, branches) => seq(|branches|, n requires 0 <= n < |branches| => branches[n].steps)
    case _ => []
  }

  /** The way to the first step with the id: no step before it has the id, or holds one that has. */
  predicate Leads(steps: seq<Step>, path: seq<Turn>, target: string)
    decreases |path|
  {
    && path != [] && path[0].index < |steps| && target !in Ids(steps[..path[0].index])
    && var step := steps[path[0].index];
       if |path| == 1 then step.id == target
       else
         && step.id != target && path[0].arm < |Arms(step)|
         && (forall n :: 0 <= n < path[0].arm ==> target !in Ids(Arms(step)[n]))
         && Leads(Arms(step)[path[0].arm], path[1..], target)
  }

  /** A repeat shows its current item to the steps inside it, and no other step shows them anything. */
  function ShownInside(step: Step, scope: seq<TokenDescriptor>): seq<TokenDescriptor> {
    if step.Repeat? then CurrentItemToken(step.items, scope) else []
  }

  /** What one sees: the outputs of the steps passed by, list by list, and the current items of the repeats entered. */
  function SeenAlong(
    steps: seq<Step>, path: seq<Turn>, target: string, scope: seq<TokenDescriptor>, catalog: Catalog)
    : seq<TokenDescriptor>
    requires Leads(steps, path, target)
    decreases |path|
  {
    var step := steps[path[0].index];
    var here := scope + AllProduce(steps[..path[0].index], catalog);
    if |path| == 1 then here
    else SeenAlong(Arms(step)[path[0].arm], path[1..], target, here + ShownInside(step, here), catalog)
  }

  lemma {:induction false} BranchesWithout(branches: seq<Branch>, arm: nat, target: string)
    requires arm <= |branches| && forall n :: 0 <= n < arm ==> target !in Ids(branches[n].steps)
    ensures target !in BranchIds(branches[..arm])
  {
    hide Ids;
    if arm > 0 {
      var b := branches[..arm];
      forall n | 0 <= n < arm - 1 ensures target !in Ids(branches[1..][n].steps) {
        assert branches[1..][n] == branches[n + 1];
      }
      BranchesWithout(branches[1..], arm - 1, target);
      assert b[1..] == branches[1..][..arm - 1];
    }
  }

  /** The walk enters the first list that holds the target. */
  lemma EntersArm(step: Step, arm: nat, scope: seq<TokenDescriptor>, target: string, catalog: Catalog)
    requires step.id != target && arm < |Arms(step)| && target in Ids(Arms(step)[arm])
    requires forall n :: 0 <= n < arm ==> target !in Ids(Arms(step)[n])
    ensures WalkStep(step, scope, Some(target), catalog)
            == Walk(Arms(step)[arm], scope + ShownInside(step, scope), Some(target), catalog)
  {
    hide Walk, WalkStep, WalkBranches, Ids, BranchIds, StepProduces, CurrentItemToken;
    OneStep(step, scope, Some(target), catalog);
    var inner := scope + ShownInside(step, scope);
    WalkGathers(Arms(step)[arm], inner, Some(target), catalog);
    if step.If? {
      WalkGathers(step.thenSteps, scope, Some(target), catalog);
      assert inner == scope && Arms(step)[0] == step.thenSteps;
      assert arm == 1 ==> target !in Ids(Arms(step)[0]);
    } else if step.Parallel? {
      assert inner == scope;
      forall n | 0 <= n < arm ensures target !in Ids(step.branches[n].steps) {
        assert Arms(step)[n] == step.branches[n].steps;
      }
      BranchesWithout(step.branches, arm, target);
      BranchReached(step.branches, arm, scope, target, catalog);
    } else if !step.Repeat? {
      assert inner == scope;
    }
  }

  lemma HeldInArm(step: Step, arm: nat, target: string)
    requires arm < |Arms(step)| && target in Ids(Arms(step)[arm])
    ensures target in IdsOf(step)
  {
    hide Ids;
    if step.Parallel? {
      InBranch(step.branches, arm, target);
    }
  }

  lemma {:induction false} InBranch(branches: seq<Branch>, arm: nat, target: string)
    requires arm < |branches| && target in Ids(branches[arm].steps)
    ensures target in BranchIds(branches)
  {
    hide Ids;
    if arm > 0 {
      InBranch(branches[1..], arm - 1, target);
    }
  }

  lemma {:induction false} InSteps(steps: seq<Step>, k: nat, target: string)
    requires k < |steps| && target in IdsOf(steps[k])
    ensures target in Ids(steps)
  {
    hide IdsOf;
    if k > 0 {
      InSteps(steps[1..], k - 1, target);
    }
  }

  lemma {:induction false} LedToIsThere(steps: seq<Step>, path: seq<Turn>, target: string)
    requires Leads(steps, path, target)
    ensures target in Ids(steps)
    decreases |path|
  {
    hide Ids;
    var step := steps[path[0].index];
    if |path| == 1 {
      assert target in IdsOf(step) by { OwnId(step); }
    } else {
      LedToIsThere(Arms(step)[path[0].arm], path[1..], target);
      HeldInArm(step, path[0].arm, target);
    }
    InSteps(steps, path[0].index, target);
  }

  lemma OwnId(step: Step)
    ensures step.id in IdsOf(step)
  {
  }

  /** The scope the walk finds is what is seen along the way. */
  lemma {:induction false} WalkFollowsTheWay(
    steps: seq<Step>, path: seq<Turn>, target: string, scope: seq<TokenDescriptor>, catalog: Catalog)
    requires Leads(steps, path, target)
    ensures Walk(steps, scope, Some(target), catalog)
            == WalkResult(true, SeenAlong(steps, path, target, scope, catalog))
    decreases |path|
  {
    hide Walk, WalkStep, Ids, IdsOf, AllProduce, CurrentItemToken, ShownInside;
    var k := path[0].index;
    var step, here := steps[k], scope + AllProduce(steps[..k], catalog);
    if |path| == 1 {
      OneStep(step, here, Some(target), catalog);
    } else {
      LedToIsThere(Arms(step)[path[0].arm], path[1..], target);
      EntersArm(step, path[0].arm, here, target, catalog);
      WalkFollowsTheWay(Arms(step)[path[0].arm], path[1..], target, here + ShownInside(step, here), catalog);
    }
    WalkReaches(steps, k, scope, target, catalog);
  }

  /** There is a way to every step of a recipe. */
  lemma {:induction false} WayTo(steps: seq<Step>, target: string) returns (path: seq<Turn>)
    requires target in Ids(steps)
    ensures Leads(steps, path, target)
    decreases steps, 0
  {
    hide Ids, IdsOf;
    var k := FirstHolder(steps, target);
    var step := steps[k];
    if step.id == target {
      path := [Turn(k, 0)];
    } else {
      var arm, rest := WayInto(step, target);
      path := [Turn(k, arm)] + rest;
      assert path[1..] == rest;
    }
  }

  lemma {:induction false} WayInto(step: Step, target: string) returns (arm: nat, path: seq<Turn>)
    requires target in IdsOf(step) && step.id != target
    ensures arm < |Arms(step)| && Leads(Arms(step)[arm], path, target)
    ensures forall n :: 0 <= n < arm ==> target !in Ids(Arms(step)[n])
    decreases step, 1
  {
    hide Ids, BranchIds, Leads;
    arm := 0;
    match step {
      case If(_, thenSteps, otherwise) =>
        if target in Ids(thenSteps) {
          path := WayTo(thenSteps, target);
        } else {
          arm := 1;
          path := WayTo(otherwise, target);
        }
      case Repeat(_, _, steps) => path := WayTo(steps, target);
      case Loop(_, _, steps) => path := WayTo(steps, target);
      case Retry(_, steps) => path := WayTo(steps, target);
      case Parallel(_, branches) =>
        arm := FirstBranch(branches, target);
        path := WayTo(branches[arm].steps, target);
        NotBefore(branches, arm, target);
      case _ => assert false;
    }
  }

  lemma NotBefore(branches: seq<Branch>, arm: nat, target: string)
    requires arm < |branches| && target !in BranchIds(branches[..arm])
    ensures forall n :: 0 <= n < arm ==> target !in Ids(branches[n].steps)
  {
    hide Ids, BranchIds;
    forall n | 0 <= n < arm ensures target !in Ids(branches[n].steps) {
      if target in Ids(branches[n].steps) {
        InBranch(branches[..arm], n, target);
      }
    }
  }

  /**
   * The scope of every step of a definition: the built-ins, what the triggers
   * produce, and what is seen along the way to it, the first with its id.
   */
  lemma ScopeIsSeenAlongTheWay(d: Definition, target: string, catalog: Catalog) returns (path: seq<Turn>)
    requires target in Ids(d.steps)
    ensures Leads(d.steps, path, target)
    ensures ScopeAt(d, catalog, Some(target))
            == SeenAlong(d.steps, path, target, BuiltinTokens() + TriggerTokens(d.triggers), catalog)
  {
    hide Leads, Walk, Ids, SeenAlong;
    path := WayTo(d.steps, target);
    WalkFollowsTheWay(d.steps, path, target, BaseScope(d.triggers), catalog);
  }

  /**
   * What a block leaves to the steps behind it: an `if` what its two arms would
   * one after the other, any other block nothing.
   */
  lemma WhatLeaks(step: Step, scope: seq<TokenDescriptor>, catalog: Catalog)
    ensures step.If? ==>
      Walk([step], scope, None, catalog) == Walk(step.thenSteps + step.otherwise, scope, None, catalog)
    ensures step.Repeat? || step.Loop? || step.Retry? || step.Parallel? ==>
      Walk([step], scope, None, catalog) == WalkResult(false, scope)
  {
    hide Walk, StepLabel;
    WalkGathers([step], scope, None, catalog);
    assert [step][1..] == [] && AllProduce([step], catalog) == StepProduces(step, catalog);
    if step.If? {
      WalkGathers(step.thenSteps + step.otherwise, scope, None, catalog);
      ProduceAppend(step.thenSteps, step.otherwise, catalog);
    }
  }

  // ----- the current item

  /** The first token in scope with the reference. */
  predicate IsFirst(scope: seq<TokenDescriptor>, ref: TokenRef, k: nat) {
    k < |scope| && Key(scope[k].ref) == Key(ref) && forall j :: 0 <= j < k ==> Key(scope[j].ref) != Key(ref)
  }

  lemma {:induction false} FoundIsFirst(scope: seq<TokenDescriptor>, ref: TokenRef)
    ensures FindToken(scope, ref).None? <==> forall j :: 0 <= j < |scope| ==> Key(scope[j].ref) != Key(ref)
    ensures forall k: nat :: IsFirst(scope, ref, k) ==> FindToken(scope, ref) == Some(scope[k])
  {
    hide Key;
    if scope != [] && Key(scope[0].ref) != Key(ref) {
      FoundIsFirst(scope[1..], ref);
      forall k: nat | IsFirst(scope, ref, k) ensures FindToken(scope, ref) == Some(scope[k]) {
        assert IsFirst(scope[1..], ref, k - 1);
      }
    }
  }

  /** A repeat has a current item if and only if the list it goes over is in scope, and it has the list's fields. */
  lemma CurrentItemIff(items: TokenRef, scope: seq<TokenDescriptor>)
    ensures (forall j :: 0 <= j < |scope| ==> Key(scope[j].ref) != Key(items)) <==> CurrentItemToken(items, scope) == []
    ensures forall k: nat :: IsFirst(scope, items, k) ==>
      var shown := CurrentItemToken(items, scope);
      && |shown| == 1 && shown[0].ref == TokenRef("current", "item", None) && shown[0].fields == scope[k].fields
      && shown[0].nameOrdinal.None? && VariableNameFor(shown[0]) == "item"
  {
    hide Key, IsFirst;
    FoundIsFirst(scope, items);
  }
}
