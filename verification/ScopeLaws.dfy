/** Scope causality and isolation: only what a step's own path passes decides what it sees. */
module ScopeLaws {
  import opened CharClasses
  import opened Automation
  import opened Naming
  import opened NamespaceLaws
  import opened Scope

  lemma {:induction false} IdsAppend(a: seq<Step>, b: seq<Step>)
    ensures Ids(a + b) == Ids(a) + Ids(b)
  {
    hide IdsOf;
    if a == [] {
      assert a + b == b;
    } else {
      assert (a + b)[1..] == a[1..] + b;
      IdsAppend(a[1..], b);
    }
  }

  lemma {:induction false} ProduceAppend(a: seq<Step>, b: seq<Step>, catalog: Catalog)
    ensures AllProduce(a + b, catalog) == AllProduce(a, catalog) + AllProduce(b, catalog)
  {
    hide StepProduces;
    if a == [] {
      assert a + b == b;
    } else {
      assert (a + b)[1..] == a[1..] + b;
      ProduceAppend(a[1..], b, catalog);
    }
  }

  /** A walk passes the steps that do not hold the target. */
  lemma {:induction false} WalkPasses(
    pre: seq<Step>, post: seq<Step>, scope: seq<TokenDescriptor>, target: string, catalog: Catalog)
    requires target !in Ids(pre)
    ensures Walk(pre + post, scope, Some(target), catalog)
            == Walk(post, scope + AllProduce(pre, catalog), Some(target), catalog)
  {
    hide WalkStep, IdsOf, StepProduces;
    if pre == [] {
      assert pre + post == post && scope + AllProduce(pre, catalog) == scope;
    } else {
      assert (pre + post)[1..] == pre[1..] + post;
      StepGathers(pre[0], scope, Some(target), catalog);
      var next := scope + StepProduces(pre[0], catalog);
      WalkPasses(pre[1..], post, next, target, catalog);
      assert next + AllProduce(pre[1..], catalog) == scope + AllProduce(pre, catalog);
    }
  }

  lemma WalkReaches(steps: seq<Step>, k: nat, scope: seq<TokenDescriptor>, target: string, catalog: Catalog)
    requires k < |steps| && target !in Ids(steps[..k])
    requires WalkStep(steps[k], scope + AllProduce(steps[..k], catalog), Some(target), catalog).found
    ensures Walk(steps, scope, Some(target), catalog)
            == WalkStep(steps[k], scope + AllProduce(steps[..k], catalog), Some(target), catalog)
  {
    hide WalkStep, Ids, AllProduce;
    assert steps == steps[..k] + steps[k..];
    WalkPasses(steps[..k], steps[k..], scope, target, catalog);
  }

  lemma {:induction false} FindTokenByKey(scope: seq<TokenDescriptor>, r: TokenRef, s: TokenRef)
    requires Key(r) == Key(s)
    ensures FindToken(scope, r) == FindToken(scope, s)
  {
    if scope != [] {
      FindTokenByKey(scope[1..], r, s);
    }
  }

  /**
   * Edits a step cannot see: recipes that agree before the target give it the
   * same scope, whatever comes after it, in sibling arms, or in other blocks.
   */
  lemma {:induction false} UnseenEdits(
    a: seq<Step>, b: seq<Step>, scope: seq<TokenDescriptor>, target: string, catalog: Catalog)
    requires SameBefore(a, b, target, catalog)
    ensures Walk(a, scope, Some(target), catalog) == Walk(b, scope, Some(target), catalog)
    ensures Walk(a, scope, Some(target), catalog).found
    decreases a, 0
  {
    hide SameBeforeIn, WalkStep, Walk, Ids, AllProduce;
    var k, l :| 0 <= k < |a| && 0 <= l < |b| && SameBeforeAt(a, k, b, l, target, catalog)
      && SameBeforeIn(a[k], b[l], target, catalog);
    var here := scope + AllProduce(a[..k], catalog);
    UnseenEditsIn(a[k], b[l], here, target, catalog);
    WalkReaches(a, k, scope, target, catalog);
    WalkReaches(b, l, scope, target, catalog);
  }

  lemma {:induction false} UnseenEditsIn(
    s: Step, t: Step, scope: seq<TokenDescriptor>, target: string, catalog: Catalog)
    requires SameBeforeIn(s, t, target, catalog)
    ensures WalkStep(s, scope, Some(target), catalog) == WalkStep(t, scope, Some(target), catalog)
    ensures WalkStep(s, scope, Some(target), catalog).found
    decreases s, 1
  {
    OneStep(s, scope, Some(target), catalog);
    OneStep(t, scope, Some(target), catalog);
    hide WalkStep, Walk, WalkBranches, SameBefore, SameBeforeBranches, Ids, CurrentItemToken;
    if s.id == target || t.id == target {
    } else if s.If? {
      if SameBefore(s.thenSteps, t.thenSteps, target, catalog) {
        UnseenEdits(s.thenSteps, t.thenSteps, scope, target, catalog);
      } else {
        WalkGathers(s.thenSteps, scope, Some(target), catalog);
        WalkGathers(t.thenSteps, scope, Some(target), catalog);
        UnseenEdits(s.otherwise, t.otherwise, scope, target, catalog);
      }
    } else if s.Repeat? {
      SameItem(s.items, t.items, scope);
      UnseenEdits(s.steps, t.steps, scope + CurrentItemToken(s.items, scope), target, catalog);
    } else if s.Parallel? {
      UnseenEditsInBranches(s.branches, t.branches, scope, target, catalog);
    } else {
      UnseenEdits(s.steps, t.steps, scope, target, catalog);
    }
  }

  lemma SameItem(items: TokenRef, items': TokenRef, scope: seq<TokenDescriptor>)
    requires Key(items) == Key(items')
    ensures CurrentItemToken(items, scope) == CurrentItemToken(items', scope)
  {
    FindTokenByKey(scope, items, items');
  }

  lemma {:induction false} BranchesPass(
    pre: seq<Branch>, post: seq<Branch>, scope: seq<TokenDescriptor>, target: string, catalog: Catalog)
    requires target !in BranchIds(pre)
    ensures WalkBranches(pre + post, scope, Some(target), catalog) == WalkBranches(post, scope, Some(target), catalog)
  {
    hide Walk, Ids;
    if pre == [] {
      assert pre + post == post;
    } else {
      assert (pre + post)[1..] == pre[1..] + post;
      WalkGathers(pre[0].steps, scope, Some(target), catalog);
      BranchesPass(pre[1..], post, scope, target, catalog);
    }
  }

  lemma BranchReached(bs: seq<Branch>, i: nat, scope: seq<TokenDescriptor>, target: string, catalog: Catalog)
    requires i < |bs| && target !in BranchIds(bs[..i]) && Walk(bs[i].steps, scope, Some(target), catalog).found
    ensures WalkBranches(bs, scope, Some(target), catalog) == Walk(bs[i].steps, scope, Some(target), catalog)
  {
    hide Walk, BranchIds;
    assert bs == bs[..i] + bs[i..];
    BranchesPass(bs[..i], bs[i..], scope, target, catalog);
  }

  lemma {:induction false} UnseenEditsInBranches(
    bs: seq<Branch>, cs: seq<Branch>, scope: seq<TokenDescriptor>, target: string, catalog: Catalog)
    requires SameBeforeBranches(bs, cs, target, catalog)
    ensures WalkBranches(bs, scope, Some(target), catalog) == WalkBranches(cs, scope, Some(target), catalog)
    ensures WalkBranches(bs, scope, Some(target), catalog).found
    decreases bs, 0
  {
    hide Walk, WalkBranches, SameBefore, BranchIds;
    var i, j :| 0 <= i < |bs| && 0 <= j < |cs|
      && target !in BranchIds(bs[..i]) && target !in BranchIds(cs[..j])
      && SameBefore(bs[i].steps, cs[j].steps, target, catalog);
    UnseenEdits(bs[i].steps, cs[j].steps, scope, target, catalog);
    BranchReached(bs, i, scope, target, catalog);
    BranchReached(cs, j, scope, target, catalog);
  }

  /** The definition-level statement: scopes do not change under edits the target cannot see. */
  lemma ScopeIsCausal(d: Definition, steps: seq<Step>, target: string, catalog: Catalog)
    requires SameBefore(d.steps, steps, target, catalog)
    ensures ScopeAt(d, catalog, Some(target)) == ScopeAt(d.(steps := steps), catalog, Some(target))
  {
    UnseenEdits(d.steps, steps, BaseScope(d.triggers), target, catalog);
  }

  // ----- which edits those are

  lemma {:induction false} FirstHolder(steps: seq<Step>, target: string) returns (k: nat)
    requires target in Ids(steps)
    ensures k < |steps| && target in IdsOf(steps[k]) && target !in Ids(steps[..k])
  {
    hide IdsOf;
    if target in IdsOf(steps[0]) {
      k := 0;
    } else {
      var k' := FirstHolder(steps[1..], target);
      k := k' + 1;
      assert steps[..k] == [steps[0]] + steps[1..][..k'];
      IdsAppend([steps[0]], steps[1..][..k']);
    }
  }

  lemma {:induction false} SameBeforeSelf(a: seq<Step>, target: string, catalog: Catalog)
    requires target in Ids(a)
    ensures SameBefore(a, a, target, catalog)
    decreases a, 0
  {
    hide SameBeforeIn, IdsOf, Ids;
    var k := FirstHolder(a, target);
    SameBeforeInSelf(a[k], target, catalog);
    assert SameBeforeAt(a, k, a, k, target, catalog);
  }

  lemma {:induction false} SameBeforeInSelf(s: Step, target: string, catalog: Catalog)
    requires target in IdsOf(s)
    ensures SameBeforeIn(s, s, target, catalog)
    decreases s, 1
  {
    hide SameBefore, SameBeforeBranches, Ids, BranchIds;
    if s.id == target {
    } else if s.If? {
      if target in Ids(s.thenSteps) {
        SameBeforeSelf(s.thenSteps, target, catalog);
      } else {
        SameBeforeSelf(s.otherwise, target, catalog);
      }
    } else if s.Parallel? {
      SameBranchesSelf(s.branches, target, catalog);
    } else {
      SameBeforeSelf(s.steps, target, catalog);
    }
  }

  lemma {:induction false} SameBranchesSelf(bs: seq<Branch>, target: string, catalog: Catalog)
    requires target in BranchIds(bs)
    ensures SameBeforeBranches(bs, bs, target, catalog)
    decreases bs, 0
  {
    hide SameBefore, Ids;
    var i := FirstBranch(bs, target);
    SameBeforeSelf(bs[i].steps, target, catalog);
  }

  lemma {:induction false} FirstBranch(bs: seq<Branch>, target: string) returns (i: nat)
    requires target in BranchIds(bs)
    ensures i < |bs| && target in Ids(bs[i].steps) && target !in BranchIds(bs[..i])
  {
    hide Ids;
    if target in Ids(bs[0].steps) {
      i := 0;
    } else {
      var i' := FirstBranch(bs[1..], target);
      i := i' + 1;
      assert bs[..i] == [bs[0]] + bs[1..][..i'];
      assert bs[..i][1..] == bs[1..][..i'];
    }
  }

  /**
   * With the target inside `x`: earlier steps may be exchanged for others that
   * produce the same tokens (a repeat, loop, retry or parallel block for any
   * other), and everything after `x` for anything.
   */
  lemma AroundTheTarget(
    pre: seq<Step>, pre': seq<Step>, x: Step, post: seq<Step>, post': seq<Step>, target: string, catalog: Catalog)
    requires target !in Ids(pre) && target !in Ids(pre') && target in IdsOf(x)
    requires AllProduce(pre, catalog) == AllProduce(pre', catalog)
    ensures SameBefore(pre + [x] + post, pre' + [x] + post', target, catalog)
  {
    hide SameBeforeIn, IdsOf, Ids, AllProduce;
    var a, b := pre + [x] + post, pre' + [x] + post';
    SameBeforeInSelf(x, target, catalog);
    assert a[..|pre|] == pre && b[..|pre'|] == pre' && a[|pre|] == x && b[|pre'|] == x;
    assert SameBeforeAt(a, |pre|, b, |pre'|, target, catalog);
  }

  lemma BlocksProduceNothing(s: Step, catalog: Catalog)
    requires s.Repeat? || s.Loop? || s.Retry? || s.Parallel?
    ensures StepProduces(s, catalog) == []
  {
  }

  // ----- a scope with two current items

  /** A step in a repeat in a repeat sees two tokens with one reference, and names and references are no inverses. */
  lemma NestedRepeatsClash(
    triggers: seq<Trigger>, a: string, items: TokenRef, b: string, items': TokenRef, inner: Step, catalog: Catalog)
    requires inner.id != a && inner.id != b
    requires var base := BaseScope(triggers);
             FindToken(base, items).Some? && FindToken(base + CurrentItemToken(items, base), items').Some?
    ensures var d := Definition(triggers, [Repeat(a, items, [Repeat(b, items', [inner])])]);
            !Coherent(Build(ScopeAt(d, catalog, Some(inner.id))))
  {
    hide BaseScope, Build, Coherent, FindToken;
    var base := BaseScope(triggers);
    var outerScope := base + CurrentItemToken(items, base);
    var scope := outerScope + CurrentItemToken(items', outerScope);
    var target := Some(inner.id);
    WalkHere(inner, [], scope, catalog);
    var middle := Repeat(b, items', [inner]);
    assert WalkStep(middle, outerScope, target, catalog) == WalkResult(true, scope);
    assert Walk([middle], outerScope, target, catalog) == WalkResult(true, scope);
    var outer := Repeat(a, items, [middle]);
    assert WalkStep(outer, base, target, catalog) == WalkResult(true, scope);
    assert Walk([outer], base, target, catalog) == WalkResult(true, scope);
    assert scope[|base|].ref == scope[|base| + 1].ref;
    SharedRefBreaks(scope, |base|, |base| + 1);
  }

  lemma WalkHere(step: Step, rest: seq<Step>, scope: seq<TokenDescriptor>, catalog: Catalog)
    ensures Walk([step] + rest, scope, Some(step.id), catalog) == WalkResult(true, scope)
  {
  }
}
