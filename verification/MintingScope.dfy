/** What a typed name means after steps were inserted. */
module MintingScope {
  import opened CharClasses
  import opened Automation
  import opened Naming
  import opened NamespaceLaws
  import opened Minting
  import opened MintingLaws
  import opened Scope

  // ----- growth survives a second pass

  lemma {:induction false} GrownIds(a: seq<Step>, b: seq<Step>, avoid: set<string>)
    requires GrownFrom(a, b, avoid)
    ensures Ids(a) <= Ids(b) && Ids(b) * avoid <= Ids(a)
    decreases b, 0
  {
    hide IdsOf, GrownStep;
    if b != [] {
      if IdsOf(b[0]) !! avoid && GrownFrom(a, b[1..], avoid) {
        GrownIds(a, b[1..], avoid);
      } else {
        GrownStepIds(a[0], b[0], avoid);
        GrownIds(a[1..], b[1..], avoid);
      }
    }
  }

  lemma {:induction false} GrownStepIds(s: Step, t: Step, avoid: set<string>)
    requires GrownStep(s, t, avoid)
    ensures IdsOf(s) <= IdsOf(t) && IdsOf(t) * avoid <= IdsOf(s)
    decreases t, 1
  {
    hide Ids, BranchIds, GrownFrom, GrownBranches;
    if s != t {
      if s.If? {
        GrownIds(s.thenSteps, t.thenSteps, avoid);
        GrownIds(s.otherwise, t.otherwise, avoid);
      } else if s.Parallel? {
        GrownBranchIds(s.branches, t.branches, avoid);
      } else {
        GrownIds(s.steps, t.steps, avoid);
      }
    }
  }

  lemma {:induction false} GrownBranchIds(bs: seq<Branch>, cs: seq<Branch>, avoid: set<string>)
    requires GrownBranches(bs, cs, avoid)
    ensures BranchIds(bs) <= BranchIds(cs) && BranchIds(cs) * avoid <= BranchIds(bs)
    decreases cs, 0
  {
    hide Ids, GrownFrom;
    if cs != [] {
      if Ids(cs[0].steps) !! avoid && GrownBranches(bs, cs[1..], avoid) {
        GrownBranchIds(bs, cs[1..], avoid);
      } else {
        GrownIds(bs[0].steps, cs[0].steps, avoid);
        GrownBranchIds(bs[1..], cs[1..], avoid);
      }
    }
  }

  lemma {:induction false} StampIds(steps: seq<Step>, minted: map<string, string>)
    ensures Ids(StampAll(steps, minted)) == Ids(steps)
    decreases steps, 0
  {
    hide IdsOf, Stamp;
    if steps != [] {
      StampStepIds(steps[0], minted);
      StampIds(steps[1..], minted);
      assert StampAll(steps, minted)[1..] == StampAll(steps[1..], minted);
    }
  }

  lemma {:induction false} StampStepIds(step: Step, minted: map<string, string>)
    ensures IdsOf(Stamp(step, minted)) == IdsOf(step)
    decreases step, 1
  {
    hide Ids, StampAll;
    if step.If? {
      StampIds(step.thenSteps, minted);
      StampIds(step.otherwise, minted);
    } else if step.Repeat? {
      StampIds(step.steps, minted);
    }
  }

  ghost predicate Untouched(leaves: seq<Step>, minted: map<string, string>) {
    forall s :: s in leaves ==> StampLeaf(s, minted) == s
  }

  lemma UntouchedParts(a: seq<Step>, b: seq<Step>, minted: map<string, string>)
    requires Untouched(a + b, minted)
    ensures Untouched(a, minted) && Untouched(b, minted)
  {
    hide StampLeaf;
    assert forall s :: s in a || s in b ==> s in a + b;
  }

  lemma {:induction false} StampFixed(steps: seq<Step>, minted: map<string, string>)
    requires Untouched(Leaves(steps), minted)
    ensures StampAll(steps, minted) == steps
    decreases steps, 0
  {
    hide LeavesOf, Stamp, Untouched;
    if steps != [] {
      LeavesCons(steps);
      UntouchedParts(LeavesOf(steps[0]), Leaves(steps[1..]), minted);
      StampStepFixed(steps[0], minted);
      StampFixed(steps[1..], minted);
      assert steps == [steps[0]] + steps[1..];
    }
  }

  lemma {:induction false} StampStepFixed(step: Step, minted: map<string, string>)
    requires Untouched(LeavesOf(step), minted)
    ensures Stamp(step, minted) == step
    decreases step, 1
  {
    hide Leaves, LeavesOf, StampAll, StampLeaf;
    LeavesOfBlocks(step);
    if step.If? {
      UntouchedParts(Leaves(step.thenSteps), Leaves(step.otherwise), minted);
      StampFixed(step.thenSteps, minted);
      StampFixed(step.otherwise, minted);
    } else if step.Repeat? {
      StampFixed(step.steps, minted);
    }
  }

  /** Stamping names on the steps that were added leaves a grown tree. */
  lemma {:induction false} GrownStamped(a: seq<Step>, b: seq<Step>, avoid: set<string>, minted: map<string, string>)
    requires GrownFrom(a, b, avoid) && Untouched(Leaves(a), minted)
    ensures GrownFrom(a, StampAll(b, minted), avoid)
    decreases b, 0
  {
    hide IdsOf, GrownStep, LeavesOf, Stamp, Untouched;
    if b != [] {
      var b' := StampAll(b, minted);
      assert b'[0] == Stamp(b[0], minted) && b'[1..] == StampAll(b[1..], minted);
      if IdsOf(b[0]) !! avoid && GrownFrom(a, b[1..], avoid) {
        StampStepIds(b[0], minted);
        GrownStamped(a, b[1..], avoid, minted);
      } else {
        LeavesCons(a);
        UntouchedParts(LeavesOf(a[0]), Leaves(a[1..]), minted);
        GrownStepStamped(a[0], b[0], avoid, minted);
        GrownStamped(a[1..], b[1..], avoid, minted);
      }
    }
  }

  lemma {:induction false} GrownStepStamped(s: Step, t: Step, avoid: set<string>, minted: map<string, string>)
    requires GrownStep(s, t, avoid) && Untouched(LeavesOf(s), minted)
    ensures GrownStep(s, Stamp(t, minted), avoid)
    decreases t, 1
  {
    hide GrownFrom, GrownBranches, Leaves, LeavesOf, StampAll, Untouched;
    LeavesOfBlocks(s);
    if s == t {
      StampStepFixed(s, minted);
    } else if s.If? {
      UntouchedParts(Leaves(s.thenSteps), Leaves(s.otherwise), minted);
      GrownStamped(s.thenSteps, t.thenSteps, avoid, minted);
      GrownStamped(s.otherwise, t.otherwise, avoid, minted);
    } else if s.Repeat? {
      GrownStamped(s.steps, t.steps, avoid, minted);
    }
  }

  // ----- what a grown tree puts in scope

  /** Two tokens that are named alike wherever they stand, and lead to the same place. */
  predicate Alike(d: TokenDescriptor, e: TokenDescriptor) {
    && Key(d.ref) == Key(e.ref) && d.sourceKind == e.sourceKind
    && VariableNameFor(d) == VariableNameFor(e) && d.nameOrdinal == e.nameOrdinal
  }

  /** The tokens of `ds` are there in `es`, in their order, with others between them. */
  ghost predicate Sub(ds: seq<TokenDescriptor>, es: seq<TokenDescriptor>)
    decreases |es|
  {
    if es == [] then ds == []
    else
      var e, before := es[|es| - 1], es[..|es| - 1];
      || Sub(ds, before)
      || (ds != [] && Alike(ds[|ds| - 1], e) && Sub(ds[..|ds| - 1], before))
  }

  lemma {:induction false} SubAppend(
    a: seq<TokenDescriptor>, b: seq<TokenDescriptor>, c: seq<TokenDescriptor>, d: seq<TokenDescriptor>)
    requires Sub(a, b) && Sub(c, d)
    ensures Sub(a + c, b + d)
    decreases |d|
  {
    hide Alike;
    if d == [] {
      assert a + c == a && b + d == b;
    } else {
      var d' := d[..|d| - 1];
      assert (b + d)[..|b + d| - 1] == b + d' && (b + d)[|b + d| - 1] == d[|d| - 1];
      if Sub(c, d') {
        SubAppend(a, b, c, d');
      } else {
        var c' := c[..|c| - 1];
        assert (a + c)[..|a + c| - 1] == a + c' && (a + c)[|a + c| - 1] == c[|c| - 1];
        SubAppend(a, b, c', d');
      }
    }
  }

  lemma {:induction false} SubSelf(ds: seq<TokenDescriptor>)
    ensures Sub(ds, ds) && Sub([], ds)
  {
    if ds != [] {
      SubSelf(ds[..|ds| - 1]);
    }
  }

  /** What follows in the longer list may be anything. */
  lemma SubGrows(ds: seq<TokenDescriptor>, es: seq<TokenDescriptor>, fs: seq<TokenDescriptor>)
    requires Sub(ds, es)
    ensures Sub(ds, es + fs)
  {
    hide Sub;
    SubSelf(fs);
    SubAppend(ds, es, [], fs);
    assert ds + [] == ds;
  }

  /** A step shows no other outputs by growing, only more of them. */
  lemma {:induction false} GrownProduces(a: seq<Step>, b: seq<Step>, avoid: set<string>, catalog: Catalog)
    requires GrownFrom(a, b, avoid)
    ensures Sub(AllProduce(a, catalog), AllProduce(b, catalog))
    decreases b, 0
  {
    hide IdsOf, GrownStep, StepProduces, Sub;
    if b == [] {
      SubSelf([]);
    } else {
      var first, rest := StepProduces(b[0], catalog), AllProduce(b[1..], catalog);
      if IdsOf(b[0]) !! avoid && GrownFrom(a, b[1..], avoid) {
        GrownProduces(a, b[1..], avoid, catalog);
        SubSelf(first);
        SubAppend([], first, AllProduce(a, catalog), rest);
        assert [] + AllProduce(a, catalog) == AllProduce(a, catalog);
      } else {
        GrownStepProduces(a[0], b[0], avoid, catalog);
        GrownProduces(a[1..], b[1..], avoid, catalog);
        SubAppend(StepProduces(a[0], catalog), first, AllProduce(a[1..], catalog), rest);
      }
    }
  }

  lemma {:induction false} GrownStepProduces(s: Step, t: Step, avoid: set<string>, catalog: Catalog)
    requires GrownStep(s, t, avoid)
    ensures Sub(StepProduces(s, catalog), StepProduces(t, catalog))
    decreases t, 1
  {
    hide GrownFrom, GrownBranches, AllProduce, Sub, StepLabel;
    SubSelf(StepProduces(s, catalog));
    if s != t && s.If? {
      GrownProduces(s.thenSteps, t.thenSteps, avoid, catalog);
      GrownProduces(s.otherwise, t.otherwise, avoid, catalog);
      SubAppend(AllProduce(s.thenSteps, catalog), AllProduce(t.thenSteps, catalog),
                AllProduce(s.otherwise, catalog), AllProduce(t.otherwise, catalog));
    }
  }

  lemma {:induction false} FoundIff(scope: seq<TokenDescriptor>, ref: TokenRef)
    ensures FindToken(scope, ref).Some? <==> exists i :: 0 <= i < |scope| && Key(scope[i].ref) == Key(ref)
  {
    if scope != [] {
      FoundIff(scope[1..], ref);
      if i :| 0 <= i < |scope| && Key(scope[i].ref) == Key(ref) {
        if i > 0 {
          assert scope[1..][i - 1] == scope[i];
        }
      }
    }
  }

  lemma {:induction false} SubFinds(ds: seq<TokenDescriptor>, es: seq<TokenDescriptor>, i: nat) returns (j: nat)
    requires Sub(ds, es) && i < |ds|
    ensures j < |es| && Alike(ds[i], es[j])
    decreases |es|
  {
    hide Alike;
    var before := es[..|es| - 1];
    if Sub(ds, before) {
      j := SubFinds(ds, before, i);
    } else if i == |ds| - 1 {
      j := |es| - 1;
    } else {
      j := SubFinds(ds[..|ds| - 1], before, i);
    }
  }

  /** A list that was in scope still is, so a repeat still has its current item. */
  lemma ItemStays(items: TokenRef, ds: seq<TokenDescriptor>, es: seq<TokenDescriptor>)
    requires Sub(ds, es)
    ensures Sub(CurrentItemToken(items, ds), CurrentItemToken(items, es))
  {
    hide Sub, FindToken;
    FoundIff(ds, items);
    FoundIff(es, items);
    SubSelf(CurrentItemToken(items, es));
    if i :| 0 <= i < |ds| && Key(ds[i].ref) == Key(items) {
      var j := SubFinds(ds, es, i);
      OneAlike(CurrentItemToken(items, ds), CurrentItemToken(items, es));
    }
  }

  lemma OneAlike(ds: seq<TokenDescriptor>, es: seq<TokenDescriptor>)
    requires |ds| == |es| == 1 && Alike(ds[0], es[0])
    ensures Sub(ds, es)
  {
    assert ds[..0] == [] && es[..0] == [];
  }

  /** `r` stops where `r'` does, with no more in scope. */
  ghost predicate Below(r: WalkResult, r': WalkResult) {
    r.found == r'.found && Sub(r.scope, r'.scope)
  }

  lemma {:induction false} SameWalk(
    steps: seq<Step>, ds: seq<TokenDescriptor>, es: seq<TokenDescriptor>, target: Option<string>, catalog: Catalog)
    requires Sub(ds, es)
    ensures Below(Walk(steps, ds, target, catalog), Walk(steps, es, target, catalog))
    decreases steps, 0
  {
    hide WalkStep, Sub;
    if steps != [] {
      SameStep(steps[0], ds, es, target, catalog);
      var r, r' := WalkStep(steps[0], ds, target, catalog), WalkStep(steps[0], es, target, catalog);
      if !r.found {
        SameWalk(steps[1..], r.scope, r'.scope, target, catalog);
      }
    }
  }

  lemma {:induction false} SameStep(
    step: Step, ds: seq<TokenDescriptor>, es: seq<TokenDescriptor>, target: Option<string>, catalog: Catalog)
    requires Sub(ds, es)
    ensures Below(WalkStep(step, ds, target, catalog), WalkStep(step, es, target, catalog))
    decreases step, 1
  {
    OneStep(step, ds, target, catalog);
    OneStep(step, es, target, catalog);
    SubSelf(StepProduces(step, catalog));
    SubAppend(ds, es, StepProduces(step, catalog), StepProduces(step, catalog));
    hide Walk, WalkStep, WalkBranches, Sub, StepProduces, CurrentItemToken;
    if target == Some(step.id) {
    } else if step.If? {
      SameWalk(step.thenSteps, ds, es, target, catalog);
      SameWalk(step.otherwise, ds, es, target, catalog);
    } else if step.Repeat? {
      ItemStays(step.items, ds, es);
      SubAppend(ds, es, CurrentItemToken(step.items, ds), CurrentItemToken(step.items, es));
      SameWalk(step.steps, ds + CurrentItemToken(step.items, ds), es + CurrentItemToken(step.items, es),
               target, catalog);
    } else if step.Loop? || step.Retry? {
      SameWalk(step.steps, ds, es, target, catalog);
    } else if step.Parallel? {
      SameBranches(step.branches, ds, es, target, catalog);
    }
  }

  lemma {:induction false} SameBranches(
    branches: seq<Branch>, ds: seq<TokenDescriptor>, es: seq<TokenDescriptor>, target: Option<string>,
    catalog: Catalog)
    requires Sub(ds, es)
    ensures Below(WalkBranches(branches, ds, target, catalog), WalkBranches(branches, es, target, catalog))
    decreases branches, 0
  {
    hide Walk, Sub;
    if branches != [] {
      SameWalk(branches[0].steps, ds, es, target, catalog);
      SameBranches(branches[1..], ds, es, target, catalog);
    }
  }

  /** A step of the smaller tree sees, in the grown one, everything it saw. */
  lemma {:induction false} GrownWalk(
    a: seq<Step>, b: seq<Step>, ds: seq<TokenDescriptor>, es: seq<TokenDescriptor>, target: string, catalog: Catalog)
    requires GrownFrom(a, b, {target}) && Sub(ds, es)
    ensures Below(Walk(a, ds, Some(target), catalog), Walk(b, es, Some(target), catalog))
    decreases b, 0
  {
    hide WalkStep, IdsOf, GrownStep, StepProduces, Sub;
    if b != [] {
      StepGathers(b[0], es, Some(target), catalog);
      if IdsOf(b[0]) !! {target} && GrownFrom(a, b[1..], {target}) {
        SubGrows(ds, es, StepProduces(b[0], catalog));
        GrownWalk(a, b[1..], ds, es + StepProduces(b[0], catalog), target, catalog);
      } else {
        GrownStepWalk(a[0], b[0], ds, es, target, catalog);
        var r, r' := WalkStep(a[0], ds, Some(target), catalog), WalkStep(b[0], es, Some(target), catalog);
        if !r.found {
          GrownWalk(a[1..], b[1..], r.scope, r'.scope, target, catalog);
        }
      }
    }
  }

  lemma {:induction false} GrownStepWalk(
    s: Step, t: Step, ds: seq<TokenDescriptor>, es: seq<TokenDescriptor>, target: string, catalog: Catalog)
    requires GrownStep(s, t, {target}) && Sub(ds, es)
    ensures Below(WalkStep(s, ds, Some(target), catalog), WalkStep(t, es, Some(target), catalog))
    decreases t, 1
  {
    OneStep(s, ds, Some(target), catalog);
    OneStep(t, es, Some(target), catalog);
    GrownStepProduces(s, t, {target}, catalog);
    SubAppend(ds, es, StepProduces(s, catalog), StepProduces(t, catalog));
    hide Walk, WalkStep, WalkBranches, Sub, StepProduces, CurrentItemToken, GrownFrom, GrownBranches;
    if s == t {
      SameStep(s, ds, es, Some(target), catalog);
    } else if s.id == target {
    } else if s.If? {
      GrownWalk(s.thenSteps, t.thenSteps, ds, es, target, catalog);
      GrownWalk(s.otherwise, t.otherwise, ds, es, target, catalog);
    } else if s.Loop? || s.Retry? {
      GrownWalk(s.steps, t.steps, ds, es, target, catalog);
    } else if s.Parallel? {
      GrownBranchWalk(s.branches, t.branches, ds, es, target, catalog);
    } else {
      ItemStays(s.items, ds, es);
      SubAppend(ds, es, CurrentItemToken(s.items, ds), CurrentItemToken(s.items, es));
      GrownWalk(s.steps, t.steps, ds + CurrentItemToken(s.items, ds), es + CurrentItemToken(s.items, es),
                target, catalog);
    }
  }

  lemma {:induction false} GrownBranchWalk(
    bs: seq<Branch>, cs: seq<Branch>, ds: seq<TokenDescriptor>, es: seq<TokenDescriptor>, target: string,
    catalog: Catalog)
    requires GrownBranches(bs, cs, {target}) && Sub(ds, es)
    ensures Below(WalkBranches(bs, ds, Some(target), catalog), WalkBranches(cs, es, Some(target), catalog))
    decreases cs, 0
  {
    hide Walk, Ids, Sub, GrownFrom;
    if cs != [] {
      if Ids(cs[0].steps) !! {target} && GrownBranches(bs, cs[1..], {target}) {
        WalkGathers(cs[0].steps, es, Some(target), catalog);
        GrownBranchWalk(bs, cs[1..], ds, es, target, catalog);
      } else {
        GrownWalk(bs[0].steps, cs[0].steps, ds, es, target, catalog);
        GrownBranchWalk(bs[1..], cs[1..], ds, es, target, catalog);
      }
    }
  }

  // ----- names in a scope that holds another one

  /** Every token is found under its nominal name exactly when no two ask for the same. */
  lemma NominalIff(ds: seq<TokenDescriptor>)
    ensures (forall i :: 0 <= i < |ds| ==> NameAt(ds, i) == Some(Nominal(ds[i]))) <==> NominalsDistinct(ds)
  {
    hide Nominal;
    if forall i :: 0 <= i < |ds| ==> NameAt(ds, i) == Some(Nominal(ds[i])) {
      NamesAreDistinct(ds);
      forall i, j | 0 <= i < j < |ds| ensures Nominal(ds[i]) != Nominal(ds[j]) {
        assert NameAt(ds, i) == Some(Nominal(ds[i])) && NameAt(ds, j) == Some(Nominal(ds[j]));
      }
    }
    if NominalsDistinct(ds) {
      forall i | 0 <= i < |ds| ensures NameAt(ds, i) == Some(Nominal(ds[i])) {
        PrefixDistinct(ds, i);
        NominalNamespace(ds[..i]);
      }
    }
  }

  lemma PrefixDistinct(ds: seq<TokenDescriptor>, i: nat)
    requires NominalsDistinct(ds) && i <= |ds|
    ensures NominalsDistinct(ds[..i])
  {
    hide Nominal;
  }

  // ----- where the tokens of a scope stand in a grown one

  /** `at[i]` is where the `i`-th token of `ds` stands in `es`; the other positions of `es` hold inserted tokens. */
  ghost predicate Embeds(ds: seq<TokenDescriptor>, es: seq<TokenDescriptor>, at: seq<nat>) {
    && |at| == |ds|
    && (forall i :: 0 <= i < |at| ==> at[i] < |es| && Alike(ds[i], es[at[i]]))
    && (forall i, j :: 0 <= i < j < |at| ==> at[i] < at[j])
  }

  lemma {:induction false} EmbeddingOf(ds: seq<TokenDescriptor>, es: seq<TokenDescriptor>) returns (at: seq<nat>)
    requires Sub(ds, es)
    ensures Embeds(ds, es, at)
    decreases |es|
  {
    hide Alike;
    if es == [] {
      at := [];
    } else {
      var k := |es| - 1;
      if Sub(ds, es[..k]) {
        at := EmbeddingOf(ds, es[..k]);
      } else {
        at := EmbeddingOf(ds[..|ds| - 1], es[..k]);
        at := at + [k];
      }
    }
  }

  /** Every token of the old scope is named as it was. */
  ghost predicate NamesStay(ds: seq<TokenDescriptor>, es: seq<TokenDescriptor>, at: seq<nat>)
    requires Embeds(ds, es, at)
  {
    forall i :: 0 <= i < |ds| ==> NameAt(es, at[i]) == NameAt(ds, i)
  }

  /** No inserted token is given a name that was in use. */
  ghost predicate SparesNames(ds: seq<TokenDescriptor>, es: seq<TokenDescriptor>, at: seq<nat>) {
    forall j: nat :: j < |es| && j !in at && NameAt(es, j).Some? ==> NameAt(es, j).value !in Build(ds).byName
  }

  /** With more names taken, but not the one given, an alike token is given the same. */
  lemma AssignStays(k: set<string>, k': set<string>, d: TokenDescriptor, e: TokenDescriptor)
    requires Alike(d, e) && k <= k' && (Assign(k, d).Some? ==> Assign(k, d).value !in k')
    ensures Assign(k', e) == Assign(k, d)
  {
    hide VariableNameFor, Suffixed;
    assert Nominal(d) == Nominal(e);
    if Nominal(d) in k && !d.sourceKind.FromVariable? {
      var base := VariableNameFor(d);
      var n, n' := FirstFree(base, k, 2), FirstFree(base, k', 2);
      assert n < n' ==> Suffixed(base, n) in k';
      assert n' < n ==> Suffixed(base, n') in k;
    }
  }

  lemma PrefixName(ds: seq<TokenDescriptor>, k: nat, i: nat)
    requires i < k <= |ds|
    ensures NameAt(ds[..k], i) == NameAt(ds, i)
  {
    hide Build;
    assert ds[..k][..i] == ds[..i];
  }

  /** A name taken in a prefix is the name of one of its tokens. */
  lemma TakenBy(ds: seq<TokenDescriptor>, k: nat, n: string) returns (i: nat)
    requires k <= |ds| && n in Build(ds[..k]).byName
    ensures i < k && NameAt(ds, i) == Some(n)
  {
    hide Build, NameAt;
    i := NamesComeFromTokens(ds[..k], n);
    PrefixName(ds, k, i);
  }

  lemma NameStays(ds: seq<TokenDescriptor>, es: seq<TokenDescriptor>, at: seq<nat>, i: nat)
    requires Embeds(ds, es, at) && SparesNames(ds, es, at) && i < |ds|
    requires forall h :: 0 <= h < i ==> NameAt(es, at[h]) == NameAt(ds, h)
    ensures NameAt(es, at[i]) == NameAt(ds, i)
  {
    hide Build, Alike, SparesNames;
    var k, k' := Build(ds[..i]).byName.Keys, Build(es[..at[i]]).byName.Keys;
    forall n | n in k ensures n in k' {
      hide NameAt;
      var h := TakenBy(ds, i, n);
      NameAtIsBound(es, at[h], at[i]);
    }
    if Assign(k, ds[i]).Some? && Assign(k, ds[i]).value in k' {
      StolenName(ds, es, at, i);
    }
    AssignStays(k, k', ds[i], es[at[i]]);
  }

  lemma StolenName(ds: seq<TokenDescriptor>, es: seq<TokenDescriptor>, at: seq<nat>, i: nat)
    requires Embeds(ds, es, at) && SparesNames(ds, es, at) && i < |ds| && NameAt(ds, i).Some?
    requires forall h :: 0 <= h < i ==> NameAt(es, at[h]) == NameAt(ds, h)
    ensures NameAt(ds, i).value !in Build(es[..at[i]]).byName
  {
    hide Build, Alike, NameAt;
    NamesAreDistinct(ds);
    forall j: nat | j < at[i] ensures NameAt(es, j) != NameAt(ds, i) {
      if j in at {
        var h :| 0 <= h < |at| && at[h] == j;
        assert h < i;
      }
    }
    if NameAt(ds, i).value in Build(es[..at[i]]).byName {
      var j := TakenBy(es, at[i], NameAt(ds, i).value);
    }
  }

  lemma {:induction false} NamesStayUpTo(ds: seq<TokenDescriptor>, es: seq<TokenDescriptor>, at: seq<nat>, k: nat)
    requires Embeds(ds, es, at) && SparesNames(ds, es, at) && k <= |ds|
    ensures forall i :: 0 <= i < k ==> NameAt(es, at[i]) == NameAt(ds, i)
  {
    hide Alike, NameAt, SparesNames;
    if k > 0 {
      NamesStayUpTo(ds, es, at, k - 1);
      NameStays(ds, es, at, k - 1);
    }
  }

  /** However a scope grows: its tokens keep their names exactly when no inserted token takes one of them. */
  lemma NamesStayIff(ds: seq<TokenDescriptor>, es: seq<TokenDescriptor>, at: seq<nat>)
    requires Embeds(ds, es, at)
    ensures NamesStay(ds, es, at) <==> SparesNames(ds, es, at)
  {
    hide Alike, NameAt, Build;
    if SparesNames(ds, es, at) {
      NamesStayUpTo(ds, es, at, |ds|);
    }
    if NamesStay(ds, es, at) {
      forall j: nat | j < |es| && j !in at && NameAt(es, j).Some? ensures NameAt(es, j).value !in Build(ds).byName {
        if NameAt(es, j).value in Build(ds).byName {
          NameIsNotTaken(ds, es, at, j);
        }
      }
    }
  }

  lemma NameIsNotTaken(ds: seq<TokenDescriptor>, es: seq<TokenDescriptor>, at: seq<nat>, j: nat)
    requires Embeds(ds, es, at) && NamesStay(ds, es, at) && j < |es| && j !in at && NameAt(es, j).Some?
    ensures NameAt(es, j).value !in Build(ds).byName
  {
    hide Alike, NameAt, Build;
    NamesAreDistinct(es);
    forall i | 0 <= i < |ds| ensures NameAt(ds, i) != NameAt(es, j) {
      assert NameAt(es, at[i]) == NameAt(ds, i) && at[i] in at;
    }
    if NameAt(es, j).value in Build(ds).byName {
      var i := NamesComeFromTokens(ds, NameAt(es, j).value);
    }
  }

  /** Every name that could be typed leads to the token it led to. */
  ghost predicate MeaningsStay(ds: seq<TokenDescriptor>, es: seq<TokenDescriptor>) {
    forall n :: n in Build(ds).byName ==>
      n in Build(es).byName && Key(Build(es).byName[n].ref) == Key(Build(ds).byName[n].ref)
  }

  lemma NamesCarryMeaning(ds: seq<TokenDescriptor>, es: seq<TokenDescriptor>, at: seq<nat>)
    requires Embeds(ds, es, at) && NamesStay(ds, es, at)
    ensures MeaningsStay(ds, es)
  {
    hide NameAt, Build, VariableNameFor;
    NamesAreDistinct(es);
    forall n | n in Build(ds).byName
      ensures n in Build(es).byName && Key(Build(es).byName[n].ref) == Key(Build(ds).byName[n].ref)
    {
      var i := NamesComeFromTokens(ds, n);
      assert NameAt(es, at[i]) == Some(n);
    }
  }

  /** Where no two tokens share a reference, what the names mean stays exactly when the names do. */
  lemma MeaningsStayIff(ds: seq<TokenDescriptor>, es: seq<TokenDescriptor>, at: seq<nat>)
    requires Embeds(ds, es, at) && RefsDistinct(es)
    ensures MeaningsStay(ds, es) <==> SparesNames(ds, es, at)
  {
    hide NameAt, Build, Alike, SparesNames, NamesStay, MeaningsStay;
    NamesStayIff(ds, es, at);
    if SparesNames(ds, es, at) {
      NamesCarryMeaning(ds, es, at);
    }
    if MeaningsStay(ds, es) {
      MeaningsCarryNames(ds, es, at);
    }
  }

  lemma MeaningsCarryNames(ds: seq<TokenDescriptor>, es: seq<TokenDescriptor>, at: seq<nat>)
    requires Embeds(ds, es, at) && RefsDistinct(es) && MeaningsStay(ds, es)
    ensures NamesStay(ds, es, at)
  {
    hide NameAt, Build, Alike, RefsDistinct, MeaningsStay;
    forall i | 0 <= i < |ds| ensures NameAt(es, at[i]) == NameAt(ds, i) {
      if NameAt(ds, i).Some? {
        MeaningCarriesName(ds, es, at, i);
      } else {
        UnnamedStays(ds, es, at, i);
      }
    }
  }

  lemma AlikeKeys(ds: seq<TokenDescriptor>, es: seq<TokenDescriptor>, at: seq<nat>, i: nat)
    requires Embeds(ds, es, at) && i < |ds|
    ensures at[i] < |es| && Key(ds[i].ref) == Key(es[at[i]].ref)
  {
  }

  lemma MeaningCarriesName(ds: seq<TokenDescriptor>, es: seq<TokenDescriptor>, at: seq<nat>, i: nat)
    requires Embeds(ds, es, at) && RefsDistinct(es) && MeaningsStay(ds, es) && i < |ds| && NameAt(ds, i).Some?
    ensures NameAt(es, at[i]) == NameAt(ds, i)
  {
    hide NameAt, Build, Alike;
    NamesAreDistinct(ds);
    var n := NameAt(ds, i).value;
    assert n in Build(ds).byName && Build(ds).byName[n] == ds[i];
    var j := NamesComeFromTokens(es, n);
    AlikeKeys(ds, es, at, i);
    assert Key(es[j].ref) == Key(es[at[i]].ref);
  }

  lemma UnnamedStays(ds: seq<TokenDescriptor>, es: seq<TokenDescriptor>, at: seq<nat>, i: nat)
    requires Embeds(ds, es, at) && RefsDistinct(es) && MeaningsStay(ds, es) && i < |ds| && NameAt(ds, i).None?
    ensures NameAt(es, at[i]).None?
  {
    hide Build, VariableNameFor, Key, RefsDistinct, MeaningsStay;
    assert Nominal(es[at[i]]) == Nominal(ds[i]);
    hide NameAt, Nominal;
    NamesAreDistinct(ds);
    var h := TakenBy(ds, i, Nominal(ds[i]));
    MeaningCarriesName(ds, es, at, h);
    NameAtIsBound(es, at[h], at[i]);
    NoneIfTaken(es, at[i]);
  }

  lemma NoneIfTaken(es: seq<TokenDescriptor>, j: nat)
    requires j < |es| && es[j].sourceKind.FromVariable? && Nominal(es[j]) in Build(es[..j]).byName
    ensures NameAt(es, j).None?
  {
  }

  /** Distinct nominal names are enough. */
  lemma DistinctNominalsSpare(ds: seq<TokenDescriptor>, es: seq<TokenDescriptor>, at: seq<nat>)
    requires Embeds(ds, es, at) && NominalsDistinct(es)
    ensures SparesNames(ds, es, at)
  {
    hide Build, VariableNameFor, NameAt;
    NominalIff(es);
    forall i, j | 0 <= i < j < |ds| ensures Nominal(ds[i]) != Nominal(ds[j]) {
      assert Nominal(es[at[i]]) == Nominal(ds[i]) && Nominal(es[at[j]]) == Nominal(ds[j]);
    }
    NominalIff(ds);
    forall i | 0 <= i < |ds| ensures NameAt(es, at[i]) == NameAt(ds, i) {
      assert Nominal(es[at[i]]) == Nominal(ds[i]);
    }
    NamesStayIff(ds, es, at);
  }

  // ----- the promise of minting

  lemma MintedStays(d: Definition, grown: Definition, catalog: Catalog, avoid: set<string>)
    requires GrownFrom(MintOutputNames(d, catalog).steps, grown.steps, avoid) && UniqueIds(Leaves(grown.steps))
    ensures GrownFrom(MintOutputNames(d, catalog).steps, MintOutputNames(grown, catalog).steps, avoid)
  {
    hide MintOutputNames, Leaves, GrownFrom, StampAll, UniqueIds, MintedNames, Unsettled, LeavesStay;
    var a, minted := MintOutputNames(d, catalog).steps, MintedNames(grown, catalog);
    MintingSettles(d, catalog);
    GrownKeepsLeaves(a, grown.steps, avoid);
    ProducersStay(Leaves(a), Leaves(grown.steps), avoid);
    forall s | s in Leaves(a) ensures StampLeaf(s, minted) == s {
      if IsProducing(s) {
        NamedIffUnsettled(grown, catalog, s);
      }
      StampNames(s, minted);
    }
    GrownStamped(a, grown.steps, avoid, minted);
    MintingStamps(grown, catalog);
  }

  /** What a step sees of a definition once its names are minted. */
  function SeenAt(d: Definition, catalog: Catalog, target: string): seq<TokenDescriptor> {
    ScopeAt(MintOutputNames(d, catalog), catalog, Some(target))
  }

  /** `grown` is `d`, once minted, with steps inserted anywhere, none of them with the target's id. */
  ghost predicate Inserts(d: Definition, grown: Definition, catalog: Catalog, target: string) {
    && GrownFrom(MintOutputNames(d, catalog).steps, grown.steps, {target})
    && UniqueIds(Leaves(grown.steps)) && grown.triggers == d.triggers
  }

  lemma ScopeGrows(d: Definition, grown: Definition, catalog: Catalog, target: string)
    requires Inserts(d, grown, catalog, target)
    ensures Sub(SeenAt(d, catalog, target), SeenAt(grown, catalog, target))
  {
    hide Leaves, GrownFrom, UniqueIds, MintedNames, Walk, Sub, BaseScope;
    var base := BaseScope(d.triggers);
    MintedStays(d, grown, catalog, {target});
    SubSelf(base);
    GrownWalk(MintOutputNames(d, catalog).steps, MintOutputNames(grown, catalog).steps, base, base, target, catalog);
  }

  /**
   * Mint, insert steps anywhere in the tree, mint again. At every step that was
   * there the tokens it saw are still in scope, in their order; and wherever they
   * stand, each keeps its name if and only if no inserted token is given a name
   * that was in use. Then every name that could be typed leads where it led.
   */
  lemma InsertionKeepsMeanings(d: Definition, grown: Definition, catalog: Catalog, target: string)
    requires Inserts(d, grown, catalog, target)
    ensures var ds, es := SeenAt(d, catalog, target), SeenAt(grown, catalog, target);
            && (exists at: seq<nat> :: Embeds(ds, es, at))
            && (forall at: seq<nat> :: Embeds(ds, es, at) ==>
                  && (NamesStay(ds, es, at) <==> SparesNames(ds, es, at))
                  && (SparesNames(ds, es, at) ==> MeaningsStay(ds, es)))
  {
    hide Embeds, SparesNames, NamesStay, MeaningsStay, Inserts, Sub, SeenAt;
    var ds, es := SeenAt(d, catalog, target), SeenAt(grown, catalog, target);
    ScopeGrows(d, grown, catalog, target);
    var _ := EmbeddingOf(ds, es);
    forall at: seq<nat> | Embeds(ds, es, at)
      ensures NamesStay(ds, es, at) <==> SparesNames(ds, es, at)
      ensures SparesNames(ds, es, at) ==> MeaningsStay(ds, es)
    {
      NamesStayIff(ds, es, at);
      if SparesNames(ds, es, at) {
        NamesCarryMeaning(ds, es, at);
      }
    }
  }

  /** In particular when the tokens now in scope ask for distinct names. */
  lemma DistinctNamesKeepMeanings(d: Definition, grown: Definition, catalog: Catalog, target: string)
    requires Inserts(d, grown, catalog, target) && NominalsDistinct(SeenAt(grown, catalog, target))
    ensures MeaningsStay(SeenAt(d, catalog, target), SeenAt(grown, catalog, target))
  {
    hide Embeds, SparesNames, NamesStay, MeaningsStay, Inserts, SeenAt, NominalsDistinct;
    var ds, es := SeenAt(d, catalog, target), SeenAt(grown, catalog, target);
    InsertionKeepsMeanings(d, grown, catalog, target);
    var at: seq<nat> :| Embeds(ds, es, at);
    DistinctNominalsSpare(ds, es, at);
  }

  // ----- which names an inserted token can take

  /** The first output of a step this pass has named, given the name it stores. */
  ghost predicate FirstMinted(grown: Definition, catalog: Catalog, e: TokenDescriptor, name: string) {
    exists b :: b in Leaves(MintOutputNames(grown, catalog).steps) && b.id in MintedNames(grown, catalog)
      && IsProducing(b) && b.outputName == Some(name)
      && StepProduces(b, catalog) != [] && StepProduces(b, catalog)[0] == e
  }

  /** The names the pass looks out for when it names a step: those of built-ins, triggers and settled steps. */
  function LookedOutFor(grown: Definition, catalog: Catalog): set<string> {
    BaseNames(grown) + Reserved(grown.steps, catalog)
  }

  lemma {:induction false} MintsAvoid(
    steps: seq<Step>, m: Mint, reserved: set<string>, avoided: set<string>, catalog: Catalog)
    requires avoided <= m.claimed + reserved
    requires forall id :: id in m.minted ==> m.minted[id] !in avoided
    ensures var m' := MintSteps(steps, m, reserved, catalog);
            m.claimed <= m'.claimed && forall id :: id in m'.minted ==> m'.minted[id] !in avoided
    decreases steps, 0
  {
    hide MintStep;
    if steps != [] {
      MintStepAvoids(steps[0], m, reserved, avoided, catalog);
      MintsAvoid(steps[1..], MintStep(steps[0], m, reserved, catalog), reserved, avoided, catalog);
    }
  }

  lemma {:induction false} MintStepAvoids(
    step: Step, m: Mint, reserved: set<string>, avoided: set<string>, catalog: Catalog)
    requires avoided <= m.claimed + reserved
    requires forall id :: id in m.minted ==> m.minted[id] !in avoided
    ensures var m' := MintStep(step, m, reserved, catalog);
            m.claimed <= m'.claimed && forall id :: id in m'.minted ==> m'.minted[id] !in avoided
    decreases step, 1
  {
    hide MintSteps, MintStep, StepProduces, NamesClaimed, VariableNameFor;
    MintOne(step, m, reserved, catalog);
    if step.If? {
      MintsAvoid(step.thenSteps, m, reserved, avoided, catalog);
      MintsAvoid(step.otherwise, MintSteps(step.thenSteps, m, reserved, catalog), reserved, avoided, catalog);
    } else if step.Repeat? {
      MintsAvoid(step.steps, m.(claimed := m.claimed + {"item"}), reserved, avoided, catalog);
    }
  }

  /** A name minted is none the pass looks out for. */
  lemma FirstMintedAvoids(grown: Definition, catalog: Catalog, e: TokenDescriptor, name: string)
    requires FirstMinted(grown, catalog, e, name)
    ensures name !in LookedOutFor(grown, catalog)
  {
    hide MintSteps, Leaves, Reserved, BaseNames, StepProduces, StampAll, StampLeaf;
    var minted := MintedNames(grown, catalog);
    var b :| b in Leaves(MintOutputNames(grown, catalog).steps) && b.id in minted && IsProducing(b)
      && b.outputName == Some(name);
    MintsAvoid(grown.steps, Mint(BaseNames(grown), map[]), Reserved(grown.steps, catalog),
               LookedOutFor(grown, catalog), catalog);
    MintingStamps(grown, catalog);
    LeavesOfStamped(grown.steps, minted);
    StampLeavesAt(Leaves(grown.steps), minted);
    var i :| 0 <= i < |Leaves(grown.steps)| && StampLeaf(Leaves(grown.steps)[i], minted) == b;
    StampNames(Leaves(grown.steps)[i], minted);
  }

  /** The names in use an inserted token has to spare: under a minted name, those the pass does not look out for. */
  ghost function ToSpare(
    grown: Definition, catalog: Catalog, used: set<string>, e: TokenDescriptor, name: string): set<string> {
    if FirstMinted(grown, catalog, e, name) then used - LookedOutFor(grown, catalog) else used
  }

  /**
   * The same condition, in terms of what minting checks. It looks at the first
   * output of a step only, and at the names of built-ins, triggers and settled
   * steps: so what is left to check are the names given to later outputs, to
   * variables and to items, and, for a minted name, those in use by an item, a
   * variable under a sanitized name, or a step in a block that is never named.
   */
  lemma InsertionKeepsNamesIff(d: Definition, grown: Definition, catalog: Catalog, target: string, at: seq<nat>)
    requires Inserts(d, grown, catalog, target)
    requires Embeds(SeenAt(d, catalog, target), SeenAt(grown, catalog, target), at)
    ensures var ds, es := SeenAt(d, catalog, target), SeenAt(grown, catalog, target);
            NamesStay(ds, es, at) <==>
            forall j: nat :: j < |es| && j !in at && NameAt(es, j).Some? ==>
              NameAt(es, j).value !in ToSpare(grown, catalog, Build(ds).byName.Keys, es[j], NameAt(es, j).value)
  {
    hide Embeds, NamesStay, Inserts, SeenAt, NameAt, Build, FirstMinted, LookedOutFor;
    var ds, es := SeenAt(d, catalog, target), SeenAt(grown, catalog, target);
    NamesStayIff(ds, es, at);
    forall j: nat | j < |es| && j !in at && NameAt(es, j).Some?
      ensures NameAt(es, j).value in ToSpare(grown, catalog, Build(ds).byName.Keys, es[j], NameAt(es, j).value)
              <==> NameAt(es, j).value in Build(ds).byName
    {
      if FirstMinted(grown, catalog, es[j], NameAt(es, j).value) {
        FirstMintedAvoids(grown, catalog, es[j], NameAt(es, j).value);
      }
    }
  }

  /** Where the pass looks out for every name in use, the first outputs it names need no check. */
  lemma LaterOutputsDecide(d: Definition, grown: Definition, catalog: Catalog, target: string, at: seq<nat>)
    requires Inserts(d, grown, catalog, target)
    requires Embeds(SeenAt(d, catalog, target), SeenAt(grown, catalog, target), at)
    requires Build(SeenAt(d, catalog, target)).byName.Keys <= LookedOutFor(grown, catalog)
    ensures var ds, es := SeenAt(d, catalog, target), SeenAt(grown, catalog, target);
            NamesStay(ds, es, at) <==>
            forall j: nat :: j < |es| && j !in at && NameAt(es, j).Some? ==>
              FirstMinted(grown, catalog, es[j], NameAt(es, j).value)
              || NameAt(es, j).value !in Build(ds).byName
  {
    hide Embeds, NamesStay, Inserts, SeenAt, NameAt, Build, FirstMinted, LookedOutFor;
    InsertionKeepsNamesIff(d, grown, catalog, target, at);
  }

  /** A name that is minted is the name of no output of a settled step, wherever that step sits in the tree. */
  lemma MintedSparesSettled(
    d: Definition, grown: Definition, catalog: Catalog, target: string, e: TokenDescriptor, name: string, s: Step)
    requires Inserts(d, grown, catalog, target) && FirstMinted(grown, catalog, e, name)
    requires s in Leaves(MintOutputNames(d, catalog).steps) && IsProducing(s) && s.outputName.Some?
    ensures name !in Names(s, catalog) && name !in BaseNames(grown)
  {
    hide FirstMinted, MintOutputNames, Leaves, Names, BaseNames, GrownFrom, UniqueIds;
    FirstMintedAvoids(grown, catalog, e, name);
    GrownKeepsLeaves(MintOutputNames(d, catalog).steps, grown.steps, {target});
    ProducersStay(Leaves(MintOutputNames(d, catalog).steps), Leaves(grown.steps), {target});
    SettledIsReserved(Leaves(grown.steps), s, catalog);
  }

  lemma {:induction false} SettledIsReserved(leaves: seq<Step>, s: Step, catalog: Catalog)
    requires s in leaves && IsProducing(s) && s.outputName.Some?
    ensures Names(s, catalog) <= ReservedBy(leaves, catalog)
  {
    hide Names;
    if s != leaves[0] {
      SettledIsReserved(leaves[1..], s, catalog);
    }
  }
}
