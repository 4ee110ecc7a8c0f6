/** One traversal of every chip text a step tree carries. */
module StepChipText {
  import opened CharClasses
  import opened Automation
  import opened Scope

  /** Rewrites a field, given the step that owns it. */
  type Mapper = (ChipText, Step) -> ChipText

  function MapStep(step: Step, f: Mapper): Step
    decreases step, 1
  {
    match step
    case AskAgent(_, _, prompt, branchName, _) =>
      var branch := if branchName.Some? then Some(f(branchName.value, step)) else None;
      step.(prompt := f(prompt, step), branchName := branch)
    case Notify(_, message) => step.(message := f(message, step))
    case SetVariable(_, _, value) => step.(value := f(value, step))
    case RunAction(_, _, _, params) => step.(params := map k | k in params :: f(params[k], step))
    case If(_, thenSteps, otherwise) =>
      step.(thenSteps := MapSteps(thenSteps, f), otherwise := MapSteps(otherwise, f))
    case Repeat(_, _, steps) => step.(steps := MapSteps(steps, f))
    case Loop(_, _, steps) => step.(steps := MapSteps(steps, f))
    case Retry(_, steps) => step.(steps := MapSteps(steps, f))
    case Parallel(_, branches) => step.(branches := MapBranches(branches, f))
    case AskMe(_, _, _, _) => step
    case Wait(_) => step
    case Break(_) => step
  }

  function MapSteps(steps: seq<Step>, f: Mapper): seq<Step>
    decreases steps, 0
  {
    if steps == [] then [] else [MapStep(steps[0], f)] + MapSteps(steps[1..], f)
  }

  function MapBranches(branches: seq<Branch>, f: Mapper): seq<Branch>
    decreases branches, 0
  {
    if branches == [] then [] else [Branch(MapSteps(branches[0].steps, f))] + MapBranches(branches[1..], f)
  }

  // ----- rewriting chip text changes no scope

  lemma {:induction false} MapKeepsProduces(steps: seq<Step>, f: Mapper, catalog: Catalog)
    ensures AllProduce(MapSteps(steps, f), catalog) == AllProduce(steps, catalog)
    decreases steps, 0
  {
    hide MapStep, StepProduces;
    if steps != [] {
      MapKeepsStepProduces(steps[0], f, catalog);
      MapKeepsProduces(steps[1..], f, catalog);
    }
  }

  lemma {:induction false} MapKeepsStepProduces(step: Step, f: Mapper, catalog: Catalog)
    ensures StepProduces(MapStep(step, f), catalog) == StepProduces(step, catalog)
    ensures MapStep(step, f).id == step.id
    decreases step, 1
  {
    hide MapSteps, MapBranches, AllProduce, AgentOutputs, FormOutputs, ActionOutputs, OrdinalOf, FindAction, Or;
    if step.If? {
      MapKeepsProduces(step.thenSteps, f, catalog);
      MapKeepsProduces(step.otherwise, f, catalog);
    }
  }

  lemma {:induction false} MapKeepsWalk(
    steps: seq<Step>, f: Mapper, scope: seq<TokenDescriptor>, target: Option<string>, catalog: Catalog)
    ensures Walk(MapSteps(steps, f), scope, target, catalog) == Walk(steps, scope, target, catalog)
    decreases steps, 0
  {
    hide MapStep, WalkStep;
    if steps != [] {
      MapKeepsStep(steps[0], f, scope, target, catalog);
      var r := WalkStep(steps[0], scope, target, catalog);
      if !r.found {
        MapKeepsWalk(steps[1..], f, r.scope, target, catalog);
      }
    }
  }

  lemma {:induction false} MapKeepsStep(
    step: Step, f: Mapper, scope: seq<TokenDescriptor>, target: Option<string>, catalog: Catalog)
    ensures WalkStep(MapStep(step, f), scope, target, catalog) == WalkStep(step, scope, target, catalog)
    decreases step, 1
  {
    hide Walk, WalkBranches, WalkStep, StepProduces, CurrentItemToken, MapSteps, MapBranches;
    OneStep(step, scope, target, catalog);
    OneStep(MapStep(step, f), scope, target, catalog);
    MapKeepsStepProduces(step, f, catalog);
    match step {
      case If(_, thenSteps, otherwise) =>
        MapKeepsWalk(thenSteps, f, scope, target, catalog);
        MapKeepsWalk(otherwise, f, scope, target, catalog);
      case Repeat(_, items, steps) =>
        MapKeepsWalk(steps, f, scope + CurrentItemToken(items, scope), target, catalog);
      case Loop(_, _, steps) =>
        MapKeepsWalk(steps, f, scope, target, catalog);
      case Retry(_, steps) =>
        MapKeepsWalk(steps, f, scope, target, catalog);
      case Parallel(_, branches) =>
        MapKeepsBranches(branches, f, scope, target, catalog);
      case _ =>
    }
  }

  lemma {:induction false} MapKeepsBranches(
    branches: seq<Branch>, f: Mapper, scope: seq<TokenDescriptor>, target: Option<string>, catalog: Catalog)
    ensures WalkBranches(MapBranches(branches, f), scope, target, catalog)
            == WalkBranches(branches, scope, target, catalog)
    decreases branches, 0
  {
    hide Walk, MapSteps;
    if branches != [] {
      MapKeepsWalk(branches[0].steps, f, scope, target, catalog);
      MapKeepsBranches(branches[1..], f, scope, target, catalog);
      assert MapBranches(branches, f)[1..] == MapBranches(branches[1..], f);
    }
  }

  /** Rewriting chip text changes no step's scope. */
  lemma MapKeepsScope(d: Definition, f: Mapper, catalog: Catalog, target: Option<string>)
    ensures ScopeAt(d.(steps := MapSteps(d.steps, f)), catalog, target) == ScopeAt(d, catalog, target)
  {
    MapKeepsWalk(d.steps, f, BaseScope(d.triggers), target, catalog);
  }

  // ----- fields, one by one

  /** `p` holds of every field and its owner. */
  ghost predicate EachField(steps: seq<Step>, p: (ChipText, Step) -> bool)
    decreases steps, 0
  {
    steps == [] || (EachFieldOf(steps[0], p) && EachField(steps[1..], p))
  }

  ghost predicate EachFieldOf(step: Step, p: (ChipText, Step) -> bool)
    decreases step, 1
  {
    match step
    case AskAgent(_, _, prompt, branchName, _) =>
      p(prompt, step) && (branchName.Some? ==> p(branchName.value, step))
    case Notify(_, message) => p(message, step)
    case SetVariable(_, _, value) => p(value, step)
    case RunAction(_, _, _, params) => forall k :: k in params ==> p(params[k], step)
    case If(_, thenSteps, otherwise) => EachField(thenSteps, p) && EachField(otherwise, p)
    case Repeat(_, _, steps) => EachField(steps, p)
    case Loop(_, _, steps) => EachField(steps, p)
    case Retry(_, steps) => EachField(steps, p)
    case Parallel(_, branches) => EachFieldIn(branches, p)
    case _ => true
  }

  ghost predicate EachFieldIn(branches: seq<Branch>, p: (ChipText, Step) -> bool)
    decreases branches, 0
  {
    branches == [] || (EachField(branches[0].steps, p) && EachFieldIn(branches[1..], p))
  }

  ghost function FixedBy(f: Mapper): (ChipText, Step) -> bool {
    (v: ChipText, owner: Step) => f(v, owner) == v
  }

  /** A traversal changes nothing exactly when it changes no field. */
  lemma {:induction false} MapIsIdentity(steps: seq<Step>, f: Mapper)
    ensures MapSteps(steps, f) == steps <==> EachField(steps, FixedBy(f))
    decreases steps, 0
  {
    hide MapStep, EachFieldOf;
    if steps != [] {
      MapStepIsIdentity(steps[0], f);
      MapIsIdentity(steps[1..], f);
      assert steps == [steps[0]] + steps[1..];
    }
  }

  lemma {:induction false} MapStepIsIdentity(step: Step, f: Mapper)
    ensures MapStep(step, f) == step <==> EachFieldOf(step, FixedBy(f))
    decreases step, 1
  {
    hide MapSteps, MapBranches, EachField, EachFieldIn;
    match step {
      case RunAction(_, _, _, params) =>
        var params' := MapStep(step, f).params;
        if EachFieldOf(step, FixedBy(f)) {
          assert params' == params;
        }
        if params' == params {
          forall k | k in params ensures FixedBy(f)(params[k], step) {
            assert params'[k] == f(params[k], step);
          }
        }
      case If(_, thenSteps, otherwise) =>
        MapIsIdentity(thenSteps, f);
        MapIsIdentity(otherwise, f);
      case Repeat(_, _, steps) => MapIsIdentity(steps, f);
      case Loop(_, _, steps) => MapIsIdentity(steps, f);
      case Retry(_, steps) => MapIsIdentity(steps, f);
      case Parallel(_, branches) => MapBranchesIsIdentity(branches, f);
      case _ =>
    }
  }

  lemma {:induction false} MapBranchesIsIdentity(branches: seq<Branch>, f: Mapper)
    ensures MapBranches(branches, f) == branches <==> EachFieldIn(branches, FixedBy(f))
    decreases branches, 0
  {
    hide MapSteps, EachField;
    if branches != [] {
      var branches' := MapBranches(branches, f);
      MapIsIdentity(branches[0].steps, f);
      MapBranchesIsIdentity(branches[1..], f);
      assert branches' == [Branch(MapSteps(branches[0].steps, f))] + MapBranches(branches[1..], f);
      assert branches'[1..] == MapBranches(branches[1..], f);
      assert branches == [branches[0]] + branches[1..];
    }
  }

  /** A mapper that looks only at the owner's id. */
  ghost predicate ById(g: Mapper) {
    forall v: ChipText, o: Step, o': Step :: o.id == o'.id ==> g(v, o) == g(v, o')
  }

  ghost function Then(f: Mapper, g: Mapper): Mapper {
    (v: ChipText, owner: Step) => g(f(v, owner), owner)
  }

  /** Two traversals are one. */
  lemma {:induction false} MapTwice(steps: seq<Step>, f: Mapper, g: Mapper)
    requires ById(g)
    ensures MapSteps(MapSteps(steps, f), g) == MapSteps(steps, Then(f, g))
    decreases steps, 0
  {
    hide MapStep, ById;
    if steps != [] {
      MapStepTwice(steps[0], f, g);
      MapTwice(steps[1..], f, g);
      var a, b := MapSteps(MapSteps(steps, f), g), MapSteps(steps, Then(f, g));
      assert a == [a[0]] + a[1..] && b == [b[0]] + b[1..];
    }
  }

  lemma {:induction false} MapStepTwice(step: Step, f: Mapper, g: Mapper)
    requires ById(g)
    ensures MapStep(MapStep(step, f), g) == MapStep(step, Then(f, g))
    decreases step, 1
  {
    hide MapSteps, MapBranches;
    match step {
      case RunAction(_, _, _, params) =>
        assert MapStep(MapStep(step, f), g).params == MapStep(step, Then(f, g)).params;
      case If(_, thenSteps, otherwise) =>
        MapTwice(thenSteps, f, g);
        MapTwice(otherwise, f, g);
      case Repeat(_, _, steps) => MapTwice(steps, f, g);
      case Loop(_, _, steps) => MapTwice(steps, f, g);
      case Retry(_, steps) => MapTwice(steps, f, g);
      case Parallel(_, branches) => MapBranchesTwice(branches, f, g);
      case _ =>
    }
  }

  lemma {:induction false} MapBranchesTwice(branches: seq<Branch>, f: Mapper, g: Mapper)
    requires ById(g)
    ensures MapBranches(MapBranches(branches, f), g) == MapBranches(branches, Then(f, g))
    decreases branches, 0
  {
    hide MapSteps, ById;
    if branches != [] {
      MapTwice(branches[0].steps, f, g);
      MapBranchesTwice(branches[1..], f, g);
      assert MapBranches(branches, f)[1..] == MapBranches(branches[1..], f);
    }
  }

  // ----- two trees, field by field

  /** The trees differ in their fields only; `p` holds of each pair of fields and the owner. */
  ghost predicate EachPair(a: seq<Step>, b: seq<Step>, p: (ChipText, ChipText, Step) -> bool)
    decreases a, 0
  {
    if a == [] then b == [] else b != [] && EachPairOf(a[0], b[0], p) && EachPair(a[1..], b[1..], p)
  }

  ghost predicate EachPairOf(s: Step, t: Step, p: (ChipText, ChipText, Step) -> bool)
    decreases s, 1
  {
    match s
    case AskAgent(_, _, prompt, branch, _) =>
      && t.AskAgent? && t == s.(prompt := t.prompt, branchName := t.branchName) && p(prompt, t.prompt, s)
      && (if branch.None? then t.branchName.None?
          else t.branchName.Some? && p(branch.value, t.branchName.value, s))
    case Notify(_, message) => t.Notify? && t == s.(message := t.message) && p(message, t.message, s)
    case SetVariable(_, _, value) => t.SetVariable? && t == s.(value := t.value) && p(value, t.value, s)
    case RunAction(_, _, _, params) =>
      && t.RunAction? && t == s.(params := t.params) && t.params.Keys == params.Keys
      && forall k :: k in params ==> p(params[k], t.params[k], s)
    case If(_, thenSteps, otherwise) =>
      && t.If? && t.id == s.id && EachPair(thenSteps, t.thenSteps, p) && EachPair(otherwise, t.otherwise, p)
    case Repeat(_, _, steps) => t.Repeat? && t == Repeat(s.id, s.items, t.steps) && EachPair(steps, t.steps, p)
    case Loop(_, _, steps) => t.Loop? && t == Loop(s.id, s.isWhile, t.steps) && EachPair(steps, t.steps, p)
    case Retry(_, steps) => t.Retry? && t.id == s.id && EachPair(steps, t.steps, p)
    case Parallel(_, branches) => t.Parallel? && t.id == s.id && EachPairIn(branches, t.branches, p)
    case _ => t == s
  }

  ghost predicate EachPairIn(a: seq<Branch>, b: seq<Branch>, p: (ChipText, ChipText, Step) -> bool)
    decreases a, 0
  {
    if a == [] then b == []
    else b != [] && EachPair(a[0].steps, b[0].steps, p) && EachPairIn(a[1..], b[1..], p)
  }

  /** A traversal leaves a tree that is alike, with what the mapper made of each field. */
  lemma {:induction false} MapRelates(steps: seq<Step>, f: Mapper, p: (ChipText, ChipText, Step) -> bool)
    requires forall v: ChipText, o: Step :: p(v, f(v, o), o)
    ensures EachPair(steps, MapSteps(steps, f), p)
    decreases steps, 0
  {
    hide MapStep, EachPairOf;
    if steps != [] {
      MapStepRelates(steps[0], f, p);
      MapRelates(steps[1..], f, p);
      assert MapSteps(steps, f)[1..] == MapSteps(steps[1..], f);
    }
  }

  lemma {:induction false} MapStepRelates(step: Step, f: Mapper, p: (ChipText, ChipText, Step) -> bool)
    requires forall v: ChipText, o: Step :: p(v, f(v, o), o)
    ensures EachPairOf(step, MapStep(step, f), p)
    decreases step, 1
  {
    hide MapSteps, MapBranches, EachPair, EachPairIn;
    match step {
      case If(_, thenSteps, otherwise) =>
        MapRelates(thenSteps, f, p);
        MapRelates(otherwise, f, p);
      case Repeat(_, _, steps) => MapRelates(steps, f, p);
      case Loop(_, _, steps) => MapRelates(steps, f, p);
      case Retry(_, steps) => MapRelates(steps, f, p);
      case Parallel(_, branches) => MapBranchesRelates(branches, f, p);
      case _ =>
    }
  }

  lemma {:induction false} MapBranchesRelates(
    branches: seq<Branch>, f: Mapper, p: (ChipText, ChipText, Step) -> bool)
    requires forall v: ChipText, o: Step :: p(v, f(v, o), o)
    ensures EachPairIn(branches, MapBranches(branches, f), p)
    decreases branches, 0
  {
    hide MapSteps, EachPair;
    if branches != [] {
      MapRelates(branches[0].steps, f, p);
      MapBranchesRelates(branches[1..], f, p);
      assert MapBranches(branches, f)[1..] == MapBranches(branches[1..], f);
    }
  }
}
