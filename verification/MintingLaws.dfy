/** A minting pass settles every step once and rewrites nothing. */
module MintingLaws {
  import opened CharClasses
  import opened Automation
  import opened Minting
  import opened ScopePath
  import opened Scope

  // ----- idempotence

  ghost predicate Settled(steps: seq<Step>, catalog: Catalog) {
    forall s :: s in Leaves(steps) ==> !Unsettled(s, catalog)
  }

  lemma LeavesCons(steps: seq<Step>)
    requires steps != []
    ensures Leaves(steps) == LeavesOf(steps[0]) + Leaves(steps[1..])
  {
  }

  lemma LeavesOfBlocks(step: Step)
    ensures step.If? ==> LeavesOf(step) == Leaves(step.thenSteps) + Leaves(step.otherwise)
    ensures step.Repeat? ==> LeavesOf(step) == Leaves(step.steps)
    ensures !step.If? && !step.Repeat? ==> LeavesOf(step) == [step]
  {
    hide Leaves;
  }

  /** A pass over settled steps chooses nothing. */
  lemma {:induction false} SettledMintsNothing(steps: seq<Step>, m: Mint, reserved: set<string>, catalog: Catalog)
    requires Settled(steps, catalog)
    ensures MintSteps(steps, m, reserved, catalog).minted == m.minted
    decreases steps, 0
  {
    hide MintStep, LeavesOf, Unsettled;
    if steps != [] {
      LeavesCons(steps);
      SettledStepMintsNothing(steps[0], m, reserved, catalog);
      assert forall s :: s in Leaves(steps[1..]) ==> s in Leaves(steps);
      SettledMintsNothing(steps[1..], MintStep(steps[0], m, reserved, catalog), reserved, catalog);
    }
  }

  lemma {:induction false} SettledStepMintsNothing(step: Step, m: Mint, reserved: set<string>, catalog: Catalog)
    requires forall s :: s in LeavesOf(step) ==> !Unsettled(s, catalog)
    ensures MintStep(step, m, reserved, catalog).minted == m.minted
    decreases step, 1
  {
    hide Leaves, LeavesOf, Unsettled, MintSteps;
    LeavesOfBlocks(step);
    if step.If? {
      assert forall s :: s in Leaves(step.thenSteps) || s in Leaves(step.otherwise) ==> s in LeavesOf(step);
      SettledMintsNothing(step.thenSteps, m, reserved, catalog);
      SettledMintsNothing(step.otherwise, MintSteps(step.thenSteps, m, reserved, catalog), reserved, catalog);
    } else if step.Repeat? {
      SettledMintsNothing(step.steps, m.(claimed := m.claimed + {"item"}), reserved, catalog);
    } else {
      assert step in LeavesOf(step);
    }
  }

  /** A pass names every step that waits for a name, and forgets none it has named. */
  lemma {:induction false} MintCovers(steps: seq<Step>, m: Mint, reserved: set<string>, catalog: Catalog)
    ensures m.minted.Keys <= MintSteps(steps, m, reserved, catalog).minted.Keys
    ensures forall s :: s in Leaves(steps) && Unsettled(s, catalog) ==>
      s.id in MintSteps(steps, m, reserved, catalog).minted
    decreases steps, 0
  {
    hide MintStep, LeavesOf, Unsettled;
    if steps != [] {
      LeavesCons(steps);
      MintCoversStep(steps[0], m, reserved, catalog);
      MintCovers(steps[1..], MintStep(steps[0], m, reserved, catalog), reserved, catalog);
    }
  }

  lemma {:induction false} MintCoversStep(step: Step, m: Mint, reserved: set<string>, catalog: Catalog)
    ensures m.minted.Keys <= MintStep(step, m, reserved, catalog).minted.Keys
    ensures forall s :: s in LeavesOf(step) && Unsettled(s, catalog) ==>
      s.id in MintStep(step, m, reserved, catalog).minted
    decreases step, 1
  {
    hide Leaves, LeavesOf, MintSteps, Unsettled;
    LeavesOfBlocks(step);
    if step.If? {
      MintCovers(step.thenSteps, m, reserved, catalog);
      MintCovers(step.otherwise, MintSteps(step.thenSteps, m, reserved, catalog), reserved, catalog);
    } else if step.Repeat? {
      MintCovers(step.steps, m.(claimed := m.claimed + {"item"}), reserved, catalog);
    }
  }

  lemma StampSettles(step: Step, minted: map<string, string>, catalog: Catalog)
    requires !step.If? && !step.Repeat? && (Unsettled(step, catalog) ==> step.id in minted)
    ensures !Unsettled(StampLeaf(step, minted), catalog)
  {
    hide StepProduces;
    StampKeepsOutputs(step, minted, catalog, None);
  }

  lemma {:induction false} LeavesAreLeaves(steps: seq<Step>)
    ensures forall s :: s in Leaves(steps) ==> !s.If? && !s.Repeat?
    decreases steps, 0
  {
    hide LeavesOf;
    if steps != [] {
      LeavesOfAreLeaves(steps[0]);
      LeavesAreLeaves(steps[1..]);
    }
  }

  lemma {:induction false} LeavesOfAreLeaves(step: Step)
    ensures forall s :: s in LeavesOf(step) ==> !s.If? && !s.Repeat?
    decreases step, 1
  {
    hide Leaves;
    if step.If? {
      LeavesAreLeaves(step.thenSteps);
      LeavesAreLeaves(step.otherwise);
    } else if step.Repeat? {
      LeavesAreLeaves(step.steps);
    }
  }

  lemma MintingSettles(d: Definition, catalog: Catalog)
    ensures Settled(MintOutputNames(d, catalog).steps, catalog)
  {
    hide MintSteps, Leaves, Unsettled, StampAll, StampLeaf, Reserved;
    var minted := MintedNames(d, catalog);
    var leaves := Leaves(d.steps);
    MintCovers(d.steps, Mint(BaseNames(d), map[]), Reserved(d.steps, catalog), catalog);
    MintingStamps(d, catalog);
    LeavesOfStamped(d.steps, minted);
    StampLeavesAt(leaves, minted);
    LeavesAreLeaves(d.steps);
    forall s | s in StampLeaves(leaves, minted) ensures !Unsettled(s, catalog) {
      var i :| 0 <= i < |leaves| && StampLeaves(leaves, minted)[i] == s;
      assert leaves[i] in leaves;
      StampSettles(leaves[i], minted, catalog);
    }
  }

  /** A second pass returns its input unchanged. */
  lemma MintingIsIdempotent(d: Definition, catalog: Catalog)
    ensures MintOutputNames(MintOutputNames(d, catalog), catalog) == MintOutputNames(d, catalog)
  {
    hide MintSteps, Settled, Reserved, StampAll;
    var d' := MintOutputNames(d, catalog);
    MintingSettles(d, catalog);
    SettledMintsNothing(d'.steps, Mint(BaseNames(d'), map[]), Reserved(d'.steps, catalog), catalog);
  }

  // ----- with unique ids, a pass rewrites no stored name

  ghost predicate UniqueIds(leaves: seq<Step>) {
    forall i, j :: 0 <= i < j < |leaves| ==> leaves[i].id != leaves[j].id
  }

  /** A pass chooses names only for steps that wait for one. */
  lemma {:induction false} MintTouches(steps: seq<Step>, m: Mint, reserved: set<string>, catalog: Catalog, id: string)
    requires forall s :: s in Leaves(steps) && s.id == id ==> !Unsettled(s, catalog)
    ensures var m' := MintSteps(steps, m, reserved, catalog).minted;
            (id in m' <==> id in m.minted) && (id in m' ==> m'[id] == m.minted[id])
    decreases steps, 0
  {
    hide MintStep, LeavesOf, Unsettled;
    if steps != [] {
      LeavesCons(steps);
      assert forall s :: s in LeavesOf(steps[0]) || s in Leaves(steps[1..]) ==> s in Leaves(steps);
      MintTouchesStep(steps[0], m, reserved, catalog, id);
      MintTouches(steps[1..], MintStep(steps[0], m, reserved, catalog), reserved, catalog, id);
    }
  }

  lemma {:induction false} MintTouchesStep(step: Step, m: Mint, reserved: set<string>, catalog: Catalog, id: string)
    requires forall s :: s in LeavesOf(step) && s.id == id ==> !Unsettled(s, catalog)
    ensures var m' := MintStep(step, m, reserved, catalog).minted;
            (id in m' <==> id in m.minted) && (id in m' ==> m'[id] == m.minted[id])
    decreases step, 1
  {
    hide Leaves, LeavesOf, MintSteps, Unsettled;
    LeavesOfBlocks(step);
    if step.If? {
      assert forall s :: s in Leaves(step.thenSteps) || s in Leaves(step.otherwise) ==> s in LeavesOf(step);
      MintTouches(step.thenSteps, m, reserved, catalog, id);
      MintTouches(step.otherwise, MintSteps(step.thenSteps, m, reserved, catalog), reserved, catalog, id);
    } else if step.Repeat? {
      MintTouches(step.steps, m.(claimed := m.claimed + {"item"}), reserved, catalog, id);
    } else {
      assert step in LeavesOf(step);
    }
  }

  /**
   * Minting changes exactly the steps that produce something and have no name
   * yet, and in them nothing but the name.
   */
  lemma MintingOnlyAddsNames(d: Definition, catalog: Catalog)
    requires UniqueIds(Leaves(d.steps))
    ensures var before, after := Leaves(d.steps), Leaves(MintOutputNames(d, catalog).steps);
            && |after| == |before|
            && forall i :: 0 <= i < |before| ==>
                 if Unsettled(before[i], catalog) then
                   exists name :: after[i] == before[i].(outputName := Some(name))
                 else after[i] == before[i]
  {
    hide MintSteps, Leaves, StampAll, Reserved, StepProduces, UniqueIds, MintedNames, StampLeaf;
    var minted := MintedNames(d, catalog);
    var leaves := Leaves(d.steps);
    MintingStamps(d, catalog);
    LeavesOfStamped(d.steps, minted);
    StampLeavesAt(leaves, minted);
    var after := Leaves(MintOutputNames(d, catalog).steps);
    forall i | 0 <= i < |leaves|
      ensures if Unsettled(leaves[i], catalog) then exists name :: after[i] == leaves[i].(outputName := Some(name))
              else after[i] == leaves[i]
    {
      assert leaves[i] in leaves;
      NamedIffUnsettled(d, catalog, leaves[i]);
      StampNames(leaves[i], minted);
    }
  }

  lemma StampNames(s: Step, minted: map<string, string>)
    ensures StampLeaf(s, minted) == if s.id in minted && IsProducing(s) then s.(outputName := Some(minted[s.id])) else s
  {
  }

  lemma NamedIffUnsettled(d: Definition, catalog: Catalog, s: Step)
    requires UniqueIds(Leaves(d.steps)) && s in Leaves(d.steps)
    ensures s.id in MintedNames(d, catalog) <==> Unsettled(s, catalog)
  {
    hide MintSteps, Leaves, StampAll, Reserved, StepProduces;
    var leaves := Leaves(d.steps);
    var m := Mint(BaseNames(d), map[]);
    MintCovers(d.steps, m, Reserved(d.steps, catalog), catalog);
    if !Unsettled(s, catalog) {
      forall t | t in leaves && t.id == s.id ensures !Unsettled(t, catalog) {
        var i :| 0 <= i < |leaves| && leaves[i] == s;
        var j :| 0 <= j < |leaves| && leaves[j] == t;
      }
      MintTouches(d.steps, m, Reserved(d.steps, catalog), catalog, s.id);
    }
  }

  /** `b` is `a` with steps added, anywhere in the tree, none of them with an id to avoid. */
  ghost predicate GrownFrom(a: seq<Step>, b: seq<Step>, avoid: set<string>)
    decreases b, 0
  {
    if b == [] then a == []
    else
      || (IdsOf(b[0]) !! avoid && GrownFrom(a, b[1..], avoid))
      || (a != [] && GrownStep(a[0], b[0], avoid) && GrownFrom(a[1..], b[1..], avoid))
  }

  ghost predicate GrownStep(s: Step, t: Step, avoid: set<string>)
    decreases t, 1
  {
    || s == t
    || (s.If? && t.If? && s.id == t.id
        && GrownFrom(s.thenSteps, t.thenSteps, avoid) && GrownFrom(s.otherwise, t.otherwise, avoid))
    || (s.Repeat? && t.Repeat? && s.id == t.id && s.items == t.items && GrownFrom(s.steps, t.steps, avoid))
    || (s.Loop? && t.Loop? && s.id == t.id && s.isWhile == t.isWhile && GrownFrom(s.steps, t.steps, avoid))
    || (s.Retry? && t.Retry? && s.id == t.id && GrownFrom(s.steps, t.steps, avoid))
    || (s.Parallel? && t.Parallel? && s.id == t.id && GrownBranches(s.branches, t.branches, avoid))
  }

  ghost predicate GrownBranches(bs: seq<Branch>, cs: seq<Branch>, avoid: set<string>)
    decreases cs, 0
  {
    if cs == [] then bs == []
    else
      || (Ids(cs[0].steps) !! avoid && GrownBranches(bs, cs[1..], avoid))
      || (bs != [] && GrownFrom(bs[0].steps, cs[0].steps, avoid) && GrownBranches(bs[1..], cs[1..], avoid))
  }

  /** Each leaf is still there; one that is no loop, retry or parallel block is there as it was. */
  ghost predicate LeavesStay(a: seq<Step>, b: seq<Step>, avoid: set<string>) {
    forall s :: s in a ==> exists t :: t in b && GrownStep(s, t, avoid)
  }

  lemma LeavesStayJoin(a: seq<Step>, a': seq<Step>, b: seq<Step>, b': seq<Step>, avoid: set<string>)
    requires LeavesStay(a, b, avoid) && LeavesStay(a', b', avoid)
    ensures LeavesStay(a + a', b + b', avoid)
  {
    hide GrownStep;
    forall s | s in a + a' ensures exists t :: t in b + b' && GrownStep(s, t, avoid) {
      if s in a {
        var t :| t in b && GrownStep(s, t, avoid);
        assert t in b + b';
      } else {
        var t :| t in b' && GrownStep(s, t, avoid);
        assert t in b + b';
      }
    }
  }

  lemma {:induction false} GrownKeepsLeaves(a: seq<Step>, b: seq<Step>, avoid: set<string>)
    requires GrownFrom(a, b, avoid)
    ensures LeavesStay(Leaves(a), Leaves(b), avoid)
    decreases b, 0
  {
    hide LeavesOf, GrownStep, IdsOf, LeavesStay;
    if b == [] {
      NoLeaves(Leaves(b), avoid);
    } else {
      LeavesCons(b);
      if IdsOf(b[0]) !! avoid && GrownFrom(a, b[1..], avoid) {
        GrownKeepsLeaves(a, b[1..], avoid);
        NoLeaves(LeavesOf(b[0]), avoid);
        LeavesStayJoin([], Leaves(a), LeavesOf(b[0]), Leaves(b[1..]), avoid);
        assert [] + Leaves(a) == Leaves(a);
      } else {
        LeavesCons(a);
        GrownStepKeepsLeaves(a[0], b[0], avoid);
        GrownKeepsLeaves(a[1..], b[1..], avoid);
        LeavesStayJoin(LeavesOf(a[0]), Leaves(a[1..]), LeavesOf(b[0]), Leaves(b[1..]), avoid);
      }
    }
  }

  lemma NoLeaves(b: seq<Step>, avoid: set<string>)
    ensures LeavesStay([], b, avoid)
  {
  }

  lemma SameLeavesStay(a: seq<Step>, avoid: set<string>)
    ensures LeavesStay(a, a, avoid)
  {
    forall s | s in a ensures exists t :: t in a && GrownStep(s, t, avoid) {
      assert GrownStep(s, s, avoid);
    }
  }

  lemma {:induction false} GrownStepKeepsLeaves(s: Step, t: Step, avoid: set<string>)
    requires GrownStep(s, t, avoid)
    ensures LeavesStay(LeavesOf(s), LeavesOf(t), avoid)
    decreases t, 1
  {
    hide Leaves, GrownFrom, GrownBranches, LeavesOf;
    LeavesOfBlocks(s);
    LeavesOfBlocks(t);
    if s == t {
      SameLeavesStay(LeavesOf(s), avoid);
    } else if s.If? {
      hide GrownStep, LeavesStay;
      GrownKeepsLeaves(s.thenSteps, t.thenSteps, avoid);
      GrownKeepsLeaves(s.otherwise, t.otherwise, avoid);
      LeavesStayJoin(Leaves(s.thenSteps), Leaves(s.otherwise), Leaves(t.thenSteps), Leaves(t.otherwise), avoid);
    } else if s.Repeat? {
      GrownKeepsLeaves(s.steps, t.steps, avoid);
    } else {
      assert t in [t];
    }
  }

  /** A producing step that stays is the same step. */
  lemma ProducersStay(a: seq<Step>, b: seq<Step>, avoid: set<string>)
    requires LeavesStay(a, b, avoid)
    ensures forall s :: s in a && IsProducing(s) ==> s in b
  {
    hide GrownFrom, GrownBranches;
  }

  /**
   * Insertion stability: mint, add steps anywhere, mint again; every step of the
   * first result is still there, with the name it had. A block that minting does
   * not enter may have grown inside.
   */
  lemma InsertionKeepsNames(d: Definition, grown: Definition, catalog: Catalog)
    requires GrownFrom(MintOutputNames(d, catalog).steps, grown.steps, {}) && UniqueIds(Leaves(grown.steps))
    ensures var before := Leaves(MintOutputNames(d, catalog).steps);
            var after := Leaves(MintOutputNames(grown, catalog).steps);
            && LeavesStay(before, after, {})
            && forall s :: s in before && !s.Loop? && !s.Retry? && !s.Parallel? ==> s in after
  {
    hide Leaves, MintOutputNames, GrownFrom, GrownBranches, Unsettled;
    var d' := MintOutputNames(d, catalog);
    MintingSettles(d, catalog);
    GrownKeepsLeaves(d'.steps, grown.steps, {});
    MintingOnlyAddsNames(grown, catalog);
    LeavesAreLeaves(d'.steps);
    var before, after := Leaves(grown.steps), Leaves(MintOutputNames(grown, catalog).steps);
    forall s | s in Leaves(d'.steps)
      ensures exists t :: t in after && GrownStep(s, t, {})
      ensures !s.Loop? && !s.Retry? && !s.Parallel? ==> s in after
    {
      var t :| t in before && GrownStep(s, t, {});
      var i :| 0 <= i < |before| && before[i] == t;
      SettledAfterGrowth(s, t, catalog);
      assert after[i] == t;
    }
  }

  lemma SettledAfterGrowth(s: Step, t: Step, catalog: Catalog)
    requires GrownStep(s, t, {}) && !Unsettled(s, catalog)
    ensures !Unsettled(t, catalog)
  {
    hide GrownFrom, GrownBranches, StepProduces;
  }

  // ----- trimming

  predicate IsBlank(s: string) {
    forall i :: 0 <= i < |s| ==> IsSpace(s[i])
  }

  lemma {:induction false} TrimmedStart(s: string) returns (a: string)
    ensures s == a + TrimStart(s) && IsBlank(a) && (TrimStart(s) != "" ==> !IsSpace(TrimStart(s)[0]))
  {
    if s != "" && IsSpace(s[0]) {
      var a' := TrimmedStart(s[1..]);
      a := [s[0]] + a';
    } else {
      a := "";
    }
  }

  lemma {:induction false} TrimmedEnd(s: string) returns (b: string)
    ensures s == TrimEnd(s) + b && IsBlank(b) && (TrimEnd(s) != "" ==> !IsSpace(TrimEnd(s)[|TrimEnd(s)| - 1]))
  {
    if s != "" && IsSpace(s[|s| - 1]) {
      var b' := TrimmedEnd(s[..|s| - 1]);
      b := b' + [s[|s| - 1]];
      assert s == s[..|s| - 1] + [s[|s| - 1]];
    } else {
      b := "";
    }
  }

  /** Trimming takes the white space at both ends and nothing else. */
  lemma TrimStrips(s: string) returns (a: string, b: string)
    ensures s == a + Trim(s) + b && IsBlank(a) && IsBlank(b)
    ensures Trim(s) != "" ==> !IsSpace(Trim(s)[0]) && !IsSpace(Trim(s)[|Trim(s)| - 1])
  {
    hide TrimStart, TrimEnd;
    a := TrimmedStart(s);
    b := TrimmedEnd(TrimStart(s));
    assert a + (Trim(s) + b) == a + Trim(s) + b;
  }

  /** A user's variable claims the name as it is read without blanks around it, and a blank one claims none. */
  lemma VariableClaims(step: Step, catalog: Catalog)
    requires step.SetVariable?
    ensures Names(step, catalog) == {} <==> IsBlank(step.name)
    ensures Names(step, catalog) == {step.name} <==>
      step.name != "" && !IsSpace(step.name[0]) && !IsSpace(step.name[|step.name| - 1])
  {
    hide Trim;
    var a, b := TrimStrips(step.name);
    var t := Trim(step.name);
    if t == "" {
      BlankBoth(a, b);
    } else {
      NotBlankInside(step.name, a, t, b);
    }
    if step.name != "" {
      BlankEnds(step.name, a, t, b);
    }
  }

  lemma BlankBoth(a: string, b: string)
    requires IsBlank(a) && IsBlank(b)
    ensures IsBlank(a + "" + b)
  {
  }

  lemma NotBlankInside(s: string, a: string, t: string, b: string)
    requires s == a + t + b && t != "" && !IsSpace(t[0])
    ensures !IsBlank(s)
  {
    assert s[|a|] == t[0];
  }

  lemma BlankEnds(s: string, a: string, t: string, b: string)
    requires s == a + t + b && s != "" && IsBlank(a) && IsBlank(b)
    ensures s == t || IsSpace(s[0]) || IsSpace(s[|s| - 1])
  {
    if a != "" {
      assert s[0] == a[0];
    } else if b != "" {
      assert s[|s| - 1] == b[|b| - 1];
    }
  }

  // ----- which steps a pass reaches

  /** A way to a step that is neither an `if` nor a `repeat`, through such blocks only. */
  predicate Reaches(steps: seq<Step>, path: seq<Turn>, leaf: Step)
    decreases |path|
  {
    && path != [] && path[0].index < |steps|
    && var step := steps[path[0].index];
       if |path| == 1 then step == leaf && !step.If? && !step.Repeat?
       else
         && (step.If? || step.Repeat?) && path[0].arm < |Arms(step)|
         && Reaches(Arms(step)[path[0].arm], path[1..], leaf)
  }

  lemma {:induction false} LeafHasWay(steps: seq<Step>, leaf: Step) returns (path: seq<Turn>)
    requires leaf in Leaves(steps)
    ensures Reaches(steps, path, leaf)
    decreases steps, 0
  {
    hide LeavesOf;
    if leaf in LeavesOf(steps[0]) {
      path := LeafHasWayIn(steps, leaf);
    } else {
      var rest := LeafHasWay(steps[1..], leaf);
      path := [Turn(rest[0].index + 1, rest[0].arm)] + rest[1..];
      assert path[1..] == rest[1..] && steps[1..][rest[0].index] == steps[path[0].index];
    }
  }

  lemma {:induction false} LeafHasWayIn(steps: seq<Step>, leaf: Step) returns (path: seq<Turn>)
    requires steps != [] && leaf in LeavesOf(steps[0])
    ensures Reaches(steps, path, leaf)
    decreases steps[0], 1
  {
    hide Leaves;
    var step := steps[0];
    if step.If? {
      var arm := if leaf in Leaves(step.thenSteps) then 0 else 1;
      var rest := LeafHasWay(if arm == 0 then step.thenSteps else step.otherwise, leaf);
      path := [Turn(0, arm)] + rest;
      assert path[1..] == rest;
    } else if step.Repeat? {
      var rest := LeafHasWay(step.steps, leaf);
      path := [Turn(0, 0)] + rest;
      assert path[1..] == rest;
    } else {
      path := [Turn(0, 0)];
    }
  }

  lemma {:induction false} LeavesAt(steps: seq<Step>, k: nat)
    requires k < |steps|
    ensures forall leaf :: leaf in LeavesOf(steps[k]) ==> leaf in Leaves(steps)
  {
    hide LeavesOf;
    if k > 0 {
      LeavesAt(steps[1..], k - 1);
    }
  }

  lemma {:induction false} WayEndsInLeaf(steps: seq<Step>, path: seq<Turn>, leaf: Step)
    requires Reaches(steps, path, leaf)
    ensures leaf in Leaves(steps)
    decreases |path|
  {
    hide Leaves;
    LeavesAt(steps, path[0].index);
    if |path| > 1 {
      WayEndsInLeaf(Arms(steps[path[0].index])[path[0].arm], path[1..], leaf);
    }
  }

  /** A pass reaches the steps that `if` and `repeat` blocks alone lead to, whatever the depth. */
  lemma ReachedIff(steps: seq<Step>, leaf: Step)
    ensures leaf in Leaves(steps) <==> exists path: seq<Turn> :: Reaches(steps, path, leaf)
  {
    hide Leaves, Reaches;
    if leaf in Leaves(steps) {
      var path := LeafHasWay(steps, leaf);
    }
    forall path: seq<Turn> | Reaches(steps, path, leaf) ensures leaf in Leaves(steps) {
      WayEndsInLeaf(steps, path, leaf);
    }
  }
}
