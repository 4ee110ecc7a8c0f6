/** What a newly minted name differs from, and how it reads back. */
module MintingFresh {
  import opened CharClasses
  import opened Automation
  import opened Naming
  import opened SnakeCase
  import opened Minting
  import opened MintingLaws

  // ----- regions

  /** The steps of a region: both arms of an `if` belong to it, a repeat body does not. */
  function RegionLeaves(steps: seq<Step>): seq<Step>
    decreases steps, 0
  {
    if steps == [] then [] else RegionLeavesOf(steps[0]) + RegionLeaves(steps[1..])
  }

  function RegionLeavesOf(step: Step): seq<Step>
    decreases step, 1
  {
    if step.If? then RegionLeaves(step.thenSteps) + RegionLeaves(step.otherwise)
    else if step.Repeat? then []
    else [step]
  }

  /** `a` comes before `b`, in the region of `b` or one that encloses it. */
  ghost predicate Precedes(steps: seq<Step>, a: Step, b: Step)
    decreases steps, 0
  {
    steps != [] &&
    (|| (a in RegionLeavesOf(steps[0]) && b in Leaves(steps[1..]))
     || PrecedesIn(steps[0], a, b)
     || Precedes(steps[1..], a, b))
  }

  ghost predicate PrecedesIn(step: Step, a: Step, b: Step)
    decreases step, 1
  {
    if step.If? then
      || (a in RegionLeaves(step.thenSteps) && b in Leaves(step.otherwise))
      || Precedes(step.thenSteps, a, b)
      || Precedes(step.otherwise, a, b)
    else step.Repeat? && Precedes(step.steps, a, b)
  }

  ghost predicate InRepeat(steps: seq<Step>, b: Step)
    decreases steps, 0
  {
    steps != [] && (InRepeatOf(steps[0], b) || InRepeat(steps[1..], b))
  }

  ghost predicate InRepeatOf(step: Step, b: Step)
    decreases step, 1
  {
    if step.If? then InRepeat(step.thenSteps, b) || InRepeat(step.otherwise, b)
    else step.Repeat? && b in Leaves(step.steps)
  }

  function RegionNames(steps: seq<Step>, catalog: Catalog): set<string>
    decreases steps, 0
  {
    if steps == [] then {} else RegionNamesOf(steps[0], catalog) + RegionNames(steps[1..], catalog)
  }

  function RegionNamesOf(step: Step, catalog: Catalog): set<string>
    decreases step, 1
  {
    if step.If? then RegionNames(step.thenSteps, catalog) + RegionNames(step.otherwise, catalog)
    else if step.Repeat? then {}
    else Names(step, catalog)
  }

  lemma {:induction false} RegionNamesHold(steps: seq<Step>, a: Step, catalog: Catalog)
    requires a in RegionLeaves(steps)
    ensures Names(a, catalog) <= RegionNames(steps, catalog)
    decreases steps, 0
  {
    hide Names, RegionLeavesOf, RegionNamesOf;
    if a in RegionLeavesOf(steps[0]) {
      RegionNamesHoldOf(steps[0], a, catalog);
    } else {
      RegionNamesHold(steps[1..], a, catalog);
    }
  }

  lemma {:induction false} RegionNamesHoldOf(step: Step, a: Step, catalog: Catalog)
    requires a in RegionLeavesOf(step)
    ensures Names(a, catalog) <= RegionNamesOf(step, catalog)
    decreases step, 1
  {
    hide Names, RegionLeaves, RegionNames;
    if step.If? {
      if a in RegionLeaves(step.thenSteps) {
        RegionNamesHold(step.thenSteps, a, catalog);
      } else {
        RegionNamesHold(step.otherwise, a, catalog);
      }
    }
  }

  // ----- one reading of the result

  /** Every new name, in order, avoids what its region and the enclosing ones have claimed so far, and `reserved`. */
  ghost predicate FreshIn(
    steps: seq<Step>, before: set<string>, reserved: set<string>, news: set<string>, catalog: Catalog)
    decreases steps, 0
  {
    steps == [] ||
    (&& FreshStep(steps[0], before, reserved, news, catalog)
     && FreshIn(steps[1..], before + RegionNamesOf(steps[0], catalog), reserved, news, catalog))
  }

  ghost predicate FreshStep(step: Step, before: set<string>, reserved: set<string>, news: set<string>, catalog: Catalog)
    decreases step, 1
  {
    if step.If? then
      && FreshIn(step.thenSteps, before, reserved, news, catalog)
      && FreshIn(step.otherwise, before + RegionNames(step.thenSteps, catalog), reserved, news, catalog)
    else if step.Repeat? then FreshIn(step.steps, before + {"item"}, reserved, news, catalog)
    else step.id in news ==> FreshLeaf(step, before + reserved, catalog) && LeastLeaf(step, before + reserved, catalog)
  }

  ghost predicate FreshLeaf(step: Step, taken: set<string>, catalog: Catalog) {
    && IsProducing(step) && step.outputName.Some? && step.outputName.value !in taken
    && StepProduces(step, catalog) != []
    && step.outputName.value == NameWith(VariableNameFor(StepProduces(step, catalog)[0]), OutputNameOrdinal(step))
  }

  /** A name tried before `name`: the base, or a smaller suffix of it. */
  ghost predicate PassedOver(base: string, name: string, c: string) {
    || (c == base && name != base)
    || (exists m: nat, n: nat :: 2 <= m < n && name == Suffixed(base, n) && c == Suffixed(base, m))
  }

  /** Every name tried before the stored one was taken. */
  ghost predicate LeastLeaf(step: Step, taken: set<string>, catalog: Catalog) {
    IsProducing(step) && step.outputName.Some? && StepProduces(step, catalog) != [] ==>
      forall c :: PassedOver(VariableNameFor(StepProduces(step, catalog)[0]), step.outputName.value, c) ==> c in taken
  }

  lemma {:induction false} FreshAvoids(
    steps: seq<Step>, before: set<string>, reserved: set<string>, news: set<string>, catalog: Catalog, b: Step)
    requires FreshIn(steps, before, reserved, news, catalog) && b in Leaves(steps) && b.id in news
    ensures FreshLeaf(b, before + reserved, catalog)
    ensures InRepeat(steps, b) ==> FreshLeaf(b, {"item"}, catalog)
    ensures forall a :: Precedes(steps, a, b) ==> b.outputName.value !in Names(a, catalog)
    decreases steps, 0
  {
    hide FreshStep, Names, RegionNamesOf, LeavesOf, RegionLeavesOf, InRepeatOf, PrecedesIn, FreshLeaf, NameWith;
    LeavesCons(steps);
    var later := before + RegionNamesOf(steps[0], catalog);
    if b in LeavesOf(steps[0]) {
      FreshStepAvoids(steps[0], before, reserved, news, catalog, b);
    } else {
      PrecedesNotIn(steps[0], b);
    }
    if b in Leaves(steps[1..]) {
      FreshAvoids(steps[1..], later, reserved, news, catalog, b);
      FewerTaken(b, later + reserved, before + reserved, catalog);
      FreshLeafAvoids(b, later + reserved, catalog);
      forall a | a in RegionLeavesOf(steps[0]) ensures b.outputName.value !in Names(a, catalog) {
        RegionNamesHoldOf(steps[0], a, catalog);
        FewerTaken(b, later + reserved, Names(a, catalog), catalog);
        FreshLeafAvoids(b, Names(a, catalog), catalog);
      }
    } else {
      PrecedesNotInAll(steps[1..], b);
    }
  }

  lemma FewerTaken(b: Step, taken: set<string>, fewer: set<string>, catalog: Catalog)
    requires FreshLeaf(b, taken, catalog) && fewer <= taken
    ensures FreshLeaf(b, fewer, catalog)
  {
  }

  lemma FreshLeafAvoids(b: Step, taken: set<string>, catalog: Catalog)
    requires FreshLeaf(b, taken, catalog)
    ensures IsProducing(b) && b.outputName.Some? && b.outputName.value !in taken
  {
  }

  /** A name of a region is a name of one of its steps. */
  lemma {:induction false} RegionNamesFrom(steps: seq<Step>, c: string, catalog: Catalog) returns (a: Step)
    requires c in RegionNames(steps, catalog)
    ensures a in RegionLeaves(steps) && c in Names(a, catalog)
    decreases steps, 0
  {
    hide Names, RegionLeavesOf, RegionNamesOf;
    if c in RegionNamesOf(steps[0], catalog) {
      a := RegionNamesFromStep(steps[0], c, catalog);
    } else {
      a := RegionNamesFrom(steps[1..], c, catalog);
    }
  }

  lemma {:induction false} RegionNamesFromStep(step: Step, c: string, catalog: Catalog) returns (a: Step)
    requires c in RegionNamesOf(step, catalog)
    ensures a in RegionLeavesOf(step) && c in Names(a, catalog)
    decreases step, 1
  {
    hide Names, RegionLeaves, RegionNames;
    if step.If? {
      if c in RegionNames(step.thenSteps, catalog) {
        a := RegionNamesFrom(step.thenSteps, c, catalog);
      } else {
        a := RegionNamesFrom(step.otherwise, c, catalog);
      }
    } else {
      a := step;
    }
  }

  /** Why a name was not free for `b`. */
  ghost predicate TakenFor(
    steps: seq<Step>, before: set<string>, reserved: set<string>, catalog: Catalog, b: Step, c: string) {
    || c in before + reserved
    || (c == "item" && InRepeat(steps, b))
    || (exists a :: Precedes(steps, a, b) && c in Names(a, catalog))
  }

  ghost predicate TakenForIn(
    step: Step, before: set<string>, reserved: set<string>, catalog: Catalog, b: Step, c: string) {
    || c in before + reserved
    || (c == "item" && InRepeatOf(step, b))
    || (exists a :: PrecedesIn(step, a, b) && c in Names(a, catalog))
  }

  ghost predicate PassedOverBy(b: Step, catalog: Catalog, c: string) {
    && IsProducing(b) && b.outputName.Some? && StepProduces(b, catalog) != []
    && PassedOver(VariableNameFor(StepProduces(b, catalog)[0]), b.outputName.value, c)
  }

  lemma {:induction false} PassedOverWasTaken(
    steps: seq<Step>, before: set<string>, reserved: set<string>, news: set<string>, catalog: Catalog, b: Step,
    c: string)
    requires FreshIn(steps, before, reserved, news, catalog) && b in Leaves(steps) && b.id in news
    requires PassedOverBy(b, catalog, c)
    ensures TakenFor(steps, before, reserved, catalog, b, c)
    decreases steps, 0
  {
    hide FreshStep, Names, RegionNamesOf, LeavesOf, RegionLeavesOf, InRepeatOf, PrecedesIn, PassedOverBy;
    LeavesCons(steps);
    if b in LeavesOf(steps[0]) {
      PassedOverWasTakenIn(steps[0], before, reserved, news, catalog, b, c);
    } else {
      var later := before + RegionNamesOf(steps[0], catalog);
      PassedOverWasTaken(steps[1..], later, reserved, news, catalog, b, c);
      if c in RegionNamesOf(steps[0], catalog) {
        var a := RegionNamesFromStep(steps[0], c, catalog);
        assert Precedes(steps, a, b);
      }
    }
  }

  lemma {:induction false} PassedOverWasTakenIn(
    step: Step, before: set<string>, reserved: set<string>, news: set<string>, catalog: Catalog, b: Step, c: string)
    requires FreshStep(step, before, reserved, news, catalog) && b in LeavesOf(step) && b.id in news
    requires PassedOverBy(b, catalog, c)
    ensures TakenForIn(step, before, reserved, catalog, b, c)
    decreases step, 1
  {
    hide FreshIn, Names, RegionNames, RegionLeaves, Leaves, LeavesOf, InRepeat, Precedes, FreshLeaf, PassedOver;
    LeavesOfBlocks(step);
    if step.If? {
      if b in Leaves(step.thenSteps) {
        PassedOverWasTaken(step.thenSteps, before, reserved, news, catalog, b, c);
      } else {
        var later := before + RegionNames(step.thenSteps, catalog);
        PassedOverWasTaken(step.otherwise, later, reserved, news, catalog, b, c);
        if c in RegionNames(step.thenSteps, catalog) {
          var a := RegionNamesFrom(step.thenSteps, c, catalog);
          assert PrecedesIn(step, a, b);
        }
      }
    } else if step.Repeat? {
      PassedOverWasTaken(step.steps, before + {"item"}, reserved, news, catalog, b, c);
    }
  }

  lemma {:induction false} PrecedesNotInAll(steps: seq<Step>, b: Step)
    requires b !in Leaves(steps)
    ensures !InRepeat(steps, b) && forall a :: !Precedes(steps, a, b)
    decreases steps, 0
  {
    hide LeavesOf, RegionLeavesOf, InRepeatOf, PrecedesIn;
    if steps != [] {
      LeavesCons(steps);
      PrecedesNotIn(steps[0], b);
      PrecedesNotInAll(steps[1..], b);
    }
  }

  lemma {:induction false} PrecedesNotIn(step: Step, b: Step)
    requires b !in LeavesOf(step)
    ensures !InRepeatOf(step, b) && forall a :: !PrecedesIn(step, a, b)
    decreases step, 1
  {
    hide Leaves, LeavesOf, InRepeat, Precedes, RegionLeaves;
    LeavesOfBlocks(step);
    if step.If? {
      PrecedesNotInAll(step.thenSteps, b);
      PrecedesNotInAll(step.otherwise, b);
    } else if step.Repeat? {
      PrecedesNotInAll(step.steps, b);
    }
  }

  lemma {:induction false} FreshStepAvoids(
    step: Step, before: set<string>, reserved: set<string>, news: set<string>, catalog: Catalog, b: Step)
    requires FreshStep(step, before, reserved, news, catalog) && b in LeavesOf(step) && b.id in news
    ensures FreshLeaf(b, before + reserved, catalog)
    ensures InRepeatOf(step, b) ==> FreshLeaf(b, {"item"}, catalog)
    ensures forall a :: PrecedesIn(step, a, b) ==> b.outputName.value !in Names(a, catalog)
    decreases step, 1
  {
    hide FreshIn, Names, RegionNames, RegionLeaves, Leaves, LeavesOf, InRepeat, Precedes, FreshLeaf, NameWith;
    LeavesOfBlocks(step);
    if step.If? {
      var later := before + RegionNames(step.thenSteps, catalog);
      if b in Leaves(step.thenSteps) {
        FreshAvoids(step.thenSteps, before, reserved, news, catalog, b);
      } else {
        PrecedesNotInAll(step.thenSteps, b);
      }
      if b in Leaves(step.otherwise) {
        FreshAvoids(step.otherwise, later, reserved, news, catalog, b);
        FewerTaken(b, later + reserved, before + reserved, catalog);
        FreshLeafAvoids(b, later + reserved, catalog);
        forall a | a in RegionLeaves(step.thenSteps) ensures b.outputName.value !in Names(a, catalog) {
          RegionNamesHold(step.thenSteps, a, catalog);
          FewerTaken(b, later + reserved, Names(a, catalog), catalog);
          FreshLeafAvoids(b, Names(a, catalog), catalog);
        }
      } else {
        PrecedesNotInAll(step.otherwise, b);
      }
    } else if step.Repeat? {
      FreshAvoids(step.steps, before + {"item"}, reserved, news, catalog, b);
      FewerTaken(b, before + {"item"} + reserved, before + reserved, catalog);
      FewerTaken(b, before + {"item"} + reserved, {"item"}, catalog);
    }
  }

  // ----- the pass produces such a result

  /** `minted` is, on these leaves, what the pass ended with: a name for each that waited, none for the others. */
  ghost predicate Agrees(minted: map<string, string>, leaves: seq<Step>, end: map<string, string>, catalog: Catalog) {
    forall s :: s in leaves ==>
      if Unsettled(s, catalog) then s.id in minted && s.id in end && minted[s.id] == end[s.id] else s.id !in minted
  }

  /** Each name the pass picks reads back: its base was taken, or does not itself look suffixed. */
  ghost predicate AllReadBack(steps: seq<Step>, m: Mint, reserved: set<string>, catalog: Catalog)
    decreases steps, 0
  {
    steps == [] ||
    (&& ReadsBackIn(steps[0], m, reserved, catalog)
     && AllReadBack(steps[1..], MintStep(steps[0], m, reserved, catalog), reserved, catalog))
  }

  ghost predicate ReadsBackIn(step: Step, m: Mint, reserved: set<string>, catalog: Catalog)
    decreases step, 1
  {
    if step.If? then
      && AllReadBack(step.thenSteps, m, reserved, catalog)
      && AllReadBack(step.otherwise, MintSteps(step.thenSteps, m, reserved, catalog), reserved, catalog)
    else if step.Repeat? then AllReadBack(step.steps, m.(claimed := m.claimed + {"item"}), reserved, catalog)
    else LeafReadsBack(step, m.claimed + reserved, catalog)
  }

  ghost predicate LeafReadsBack(step: Step, taken: set<string>, catalog: Catalog) {
    Unsettled(step, catalog) ==>
      var base := VariableNameFor(StepProduces(step, catalog)[0]);
      base in taken || OrdinalOf(base) == None
  }

  /** A stored name is read back with the ordinal it was minted with, unless its base alone looks suffixed. */
  lemma StoredNameReadsBack(base: string, taken: set<string>)
    ensures OrdinalOf(MintFor(base, taken).name) == MintFor(base, taken).ordinal
            <==> base in taken || OrdinalOf(base) == None
  {
    if base in taken {
      OrdinalOfSuffixed(base, FirstFree(base, taken, 2));
    }
  }

  /** A free base that looks suffixed is stored as it is, and read back with an ordinal nobody minted. */
  lemma SuffixedBaseMisreads(base: string, taken: set<string>)
    requires base !in taken && OrdinalOf(base).Some?
    ensures var stored := MintFor(base, taken).name;
            stored == base && NameWith(base, OrdinalOf(stored)) == Suffixed(base, OrdinalOf(base).value) != stored
  {
  }

  lemma MintedLeaf(
    step: Step, m: Mint, reserved: set<string>, minted: map<string, string>, catalog: Catalog)
    requires !step.If? && !step.Repeat? && LeafReadsBack(step, m.claimed + reserved, catalog)
    requires Agrees(minted, [step], MintLeaf(step, m, reserved, catalog).minted, catalog)
    ensures MintLeaf(step, m, reserved, catalog).claimed == m.claimed + Names(StampLeaf(step, minted), catalog)
    ensures step.id in minted ==> FreshLeaf(StampLeaf(step, minted), m.claimed + reserved, catalog)
    ensures step.id in minted ==> LeastLeaf(StampLeaf(step, minted), m.claimed + reserved, catalog)
  {
    hide StepProduces, NamesOfAll, VariableNameFor, OrdinalOf, MintFor, PassedOver;
    assert step in [step];
    if Unsettled(step, catalog) {
      var base := VariableNameFor(StepProduces(step, catalog)[0]);
      var pick := MintFor(base, m.claimed + reserved);
      StoredNameReadsBack(base, m.claimed + reserved);
      StampKeepsOutputs(step, minted, catalog, pick.ordinal);
      assert StampLeaf(step, minted) == step.(outputName := Some(pick.name));
      LeastPick(base, m.claimed + reserved);
    }
  }

  lemma LeastPick(base: string, taken: set<string>)
    ensures forall c :: PassedOver(base, MintFor(base, taken).name, c) ==> c in taken
  {
    hide Suffixed;
    var name := MintFor(base, taken).name;
    forall n: nat ensures Suffixed(base, n) != base {
      SuffixIsLonger(base, n);
    }
    forall c | PassedOver(base, name, c) ensures c in taken {
      if c != base {
        var m: nat, n: nat :| 2 <= m < n && name == Suffixed(base, n) && c == Suffixed(base, m);
        var k: nat :| 2 <= k && name == Suffixed(base, k) && forall l: nat :: 2 <= l < k ==> Suffixed(base, l) in taken;
        SuffixedInjective(base, n, k);
      }
    }
  }

  lemma SuffixIsLonger(base: string, n: nat)
    ensures Suffixed(base, n) != base
  {
  }

  /** What the pass ended with restricts to the part before and the part after. */
  lemma AgreesSplit(
    a: seq<Step>, rest: seq<Step>, m: Mint, reserved: set<string>, minted: map<string, string>, catalog: Catalog)
    requires UniqueIds(a + Leaves(rest))
    requires forall s :: s in a && Unsettled(s, catalog) ==> s.id in m.minted
    requires Agrees(minted, a + Leaves(rest), MintSteps(rest, m, reserved, catalog).minted, catalog)
    ensures Agrees(minted, a, m.minted, catalog)
    ensures Agrees(minted, Leaves(rest), MintSteps(rest, m, reserved, catalog).minted, catalog)
  {
    hide MintSteps, Leaves, Unsettled;
    assert forall s :: s in a || s in Leaves(rest) ==> s in a + Leaves(rest);
    forall s | s in a && Unsettled(s, catalog)
      ensures s.id in minted && minted[s.id] == m.minted[s.id]
    {
      NotLater(a, Leaves(rest), s);
      MintTouches(rest, m, reserved, catalog, s.id);
    }
  }

  lemma NotLater(a: seq<Step>, b: seq<Step>, s: Step)
    requires UniqueIds(a + b) && s in a
    ensures forall t :: t in b ==> t.id != s.id
  {
    var i :| 0 <= i < |a| && a[i] == s;
    forall t | t in b ensures t.id != s.id {
      var j :| 0 <= j < |b| && b[j] == t;
      assert (a + b)[i] == s && (a + b)[|a| + j] == t;
    }
  }

  lemma UniqueParts(a: seq<Step>, b: seq<Step>)
    requires UniqueIds(a + b)
    ensures UniqueIds(a) && UniqueIds(b)
  {
    forall i, j | 0 <= i < j < |a| ensures a[i].id != a[j].id {
      assert (a + b)[i] == a[i] && (a + b)[j] == a[j];
    }
    forall i, j | 0 <= i < j < |b| ensures b[i].id != b[j].id {
      assert (a + b)[|a| + i] == b[i] && (a + b)[|a| + j] == b[j];
    }
  }

  lemma {:induction false} MintedIsFresh(
    steps: seq<Step>, m: Mint, reserved: set<string>, minted: map<string, string>, catalog: Catalog)
    requires UniqueIds(Leaves(steps)) && AllReadBack(steps, m, reserved, catalog)
    requires Agrees(minted, Leaves(steps), MintSteps(steps, m, reserved, catalog).minted, catalog)
    ensures var steps' := StampAll(steps, minted);
            && MintSteps(steps, m, reserved, catalog).claimed == m.claimed + RegionNames(steps', catalog)
            && FreshIn(steps', m.claimed, reserved, minted.Keys, catalog)
    decreases steps, 0
  {
    hide MintStep, Stamp, LeavesOf, UniqueIds, ReadsBackIn, Agrees, Names, FreshStep, RegionNamesOf, Unsettled;
    if steps != [] {
      var head, rest := steps[0], steps[1..];
      var m1 := MintStep(head, m, reserved, catalog);
      LeavesCons(steps);
      UniqueParts(LeavesOf(head), Leaves(rest));
      MintCoversStep(head, m, reserved, catalog);
      AgreesSplit(LeavesOf(head), rest, m1, reserved, minted, catalog);
      MintedStepIsFresh(head, m, reserved, minted, catalog);
      MintedIsFresh(rest, m1, reserved, minted, catalog);
      StampCons(steps, minted);
    }
  }

  lemma StampCons(steps: seq<Step>, minted: map<string, string>)
    requires steps != []
    ensures StampAll(steps, minted) == [Stamp(steps[0], minted)] + StampAll(steps[1..], minted)
    ensures StampAll(steps, minted)[1..] == StampAll(steps[1..], minted)
  {
    hide Stamp;
  }

  lemma {:induction false} MintedStepIsFresh(
    step: Step, m: Mint, reserved: set<string>, minted: map<string, string>, catalog: Catalog)
    requires UniqueIds(LeavesOf(step)) && ReadsBackIn(step, m, reserved, catalog)
    requires Agrees(minted, LeavesOf(step), MintStep(step, m, reserved, catalog).minted, catalog)
    ensures var step' := Stamp(step, minted);
            && MintStep(step, m, reserved, catalog).claimed == m.claimed + RegionNamesOf(step', catalog)
            && FreshStep(step', m.claimed, reserved, minted.Keys, catalog)
    decreases step, 1
  {
    hide MintSteps, MintStep, MintLeaf, StampAll, StampLeaf, Leaves, LeavesOf, UniqueIds, AllReadBack, Agrees, Names,
         LeafReadsBack, FreshIn, RegionNames, FreshLeaf, LeastLeaf, Unsettled;
    LeavesOfBlocks(step);
    MintOne(step, m, reserved, catalog);
    if step.If? {
      var a, b := step.thenSteps, step.otherwise;
      var m1 := MintSteps(a, m, reserved, catalog);
      UniqueParts(Leaves(a), Leaves(b));
      MintCovers(a, m, reserved, catalog);
      AgreesSplit(Leaves(a), b, m1, reserved, minted, catalog);
      MintedIsFresh(a, m, reserved, minted, catalog);
      MintedIsFresh(b, m1, reserved, minted, catalog);
    } else if step.Repeat? {
      MintedIsFresh(step.steps, m.(claimed := m.claimed + {"item"}), reserved, minted, catalog);
    } else {
      MintedLeaf(step, m, reserved, minted, catalog);
      StampedLeafStays(step, minted);
    }
  }

  lemma StampedLeafStays(step: Step, minted: map<string, string>)
    requires !step.If? && !step.Repeat?
    ensures var s := StampLeaf(step, minted); !s.If? && !s.Repeat? && s.id == step.id
  {
  }

  /** The steps of the result whose name is new. */
  ghost predicate IsNew(d: Definition, catalog: Catalog, b: Step) {
    exists s :: s in Leaves(d.steps) && s.id == b.id && Unsettled(s, catalog)
  }

  /**
   * Every new name is the name its step's first output is addressed by, and it
   * differs from every settled name of the definition, from the built-in and
   * trigger names, from every name claimed earlier in its region or an
   * enclosing one (both arms of an `if` being one region), and, inside a
   * repeat, from `item`.
   */
  lemma MintedNamesAreFresh(d: Definition, catalog: Catalog, b: Step)
    requires UniqueIds(Leaves(d.steps))
    requires AllReadBack(d.steps, Mint(BaseNames(d), map[]), Reserved(d.steps, catalog), catalog)
    requires var result := MintOutputNames(d, catalog).steps; b in Leaves(result) && IsNew(d, catalog, b)
    ensures IsProducing(b) && b.outputName.Some? && StepProduces(b, catalog) != []
    ensures var result, name := MintOutputNames(d, catalog).steps, b.outputName.value;
            && name == NameWith(VariableNameFor(StepProduces(b, catalog)[0]), OutputNameOrdinal(b))
            && name !in Reserved(d.steps, catalog) + BaseNames(d)
            && (InRepeat(result, b) ==> name != "item")
            && forall a :: Precedes(result, a, b) ==> name !in Names(a, catalog)
  {
    hide MintSteps, Leaves, StampAll, Reserved, Unsettled, BaseNames, FreshIn, Precedes, InRepeat, Names,
         AllReadBack, UniqueIds, StepProduces;
    var minted := MintedNames(d, catalog);
    var m, reserved := Mint(BaseNames(d), map[]), Reserved(d.steps, catalog);
    MintingStamps(d, catalog);
    AgreesWithItself(d, catalog);
    MintedIsFresh(d.steps, m, reserved, minted, catalog);
    MintCovers(d.steps, m, reserved, catalog);
    FreshAvoids(StampAll(d.steps, minted), m.claimed, reserved, minted.Keys, catalog, b);
  }

  /**
   * A new name is the first of base, `_2`, `_3`, … that was free: each one before
   * it is a settled name, a built-in or trigger name, a name claimed earlier in
   * the step's region or an enclosing one, or, inside a repeat, `item`.
   */
  lemma MintedNamesAreLeast(d: Definition, catalog: Catalog, b: Step, c: string)
    requires UniqueIds(Leaves(d.steps))
    requires AllReadBack(d.steps, Mint(BaseNames(d), map[]), Reserved(d.steps, catalog), catalog)
    requires var result := MintOutputNames(d, catalog).steps; b in Leaves(result) && IsNew(d, catalog, b)
    requires PassedOverBy(b, catalog, c)
    ensures TakenFor(MintOutputNames(d, catalog).steps, BaseNames(d), Reserved(d.steps, catalog), catalog, b, c)
  {
    hide MintSteps, Leaves, StampAll, Reserved, Unsettled, BaseNames, FreshIn, TakenFor, AllReadBack, UniqueIds,
         PassedOverBy;
    var minted := MintedNames(d, catalog);
    var m, reserved := Mint(BaseNames(d), map[]), Reserved(d.steps, catalog);
    MintingStamps(d, catalog);
    AgreesWithItself(d, catalog);
    MintedIsFresh(d.steps, m, reserved, minted, catalog);
    MintCovers(d.steps, m, reserved, catalog);
    PassedOverWasTaken(StampAll(d.steps, minted), m.claimed, reserved, minted.Keys, catalog, b, c);
  }

  /** The stored name is the one the step's first output is addressed by. */
  predicate Addressed(b: Step, catalog: Catalog) {
    && IsProducing(b) && b.outputName.Some? && StepProduces(b, catalog) != []
    && b.outputName.value == NameWith(VariableNameFor(StepProduces(b, catalog)[0]), OutputNameOrdinal(b))
  }

  lemma MisreadLeaf(step: Step, m: Mint, reserved: set<string>, minted: map<string, string>, catalog: Catalog)
    requires !step.If? && !step.Repeat? && !LeafReadsBack(step, m.claimed + reserved, catalog)
    requires Agrees(minted, [step], MintLeaf(step, m, reserved, catalog).minted, catalog)
    ensures Unsettled(step, catalog) && !Addressed(StampLeaf(step, minted), catalog)
  {
    hide StepProduces, NamesOfAll, VariableNameFor, OrdinalOf, Suffixed;
    assert step in [step];
    var base := VariableNameFor(StepProduces(step, catalog)[0]);
    SuffixedBaseMisreads(base, m.claimed + reserved);
    StampKeepsOutputs(step, minted, catalog, None);
    assert StampLeaf(step, minted) == step.(outputName := Some(base));
  }

  lemma {:induction false} SomeMisread(
    steps: seq<Step>, m: Mint, reserved: set<string>, minted: map<string, string>, catalog: Catalog)
    returns (s: Step)
    requires UniqueIds(Leaves(steps)) && !AllReadBack(steps, m, reserved, catalog)
    requires Agrees(minted, Leaves(steps), MintSteps(steps, m, reserved, catalog).minted, catalog)
    ensures s in Leaves(steps) && Unsettled(s, catalog) && !Addressed(StampLeaf(s, minted), catalog)
    decreases steps, 0
  {
    hide MintStep, LeavesOf, UniqueIds, ReadsBackIn, Agrees, Unsettled, Addressed;
    var head, rest := steps[0], steps[1..];
    var m1 := MintStep(head, m, reserved, catalog);
    LeavesCons(steps);
    UniqueParts(LeavesOf(head), Leaves(rest));
    MintCoversStep(head, m, reserved, catalog);
    AgreesSplit(LeavesOf(head), rest, m1, reserved, minted, catalog);
    if !ReadsBackIn(head, m, reserved, catalog) {
      s := SomeMisreadIn(head, m, reserved, minted, catalog);
    } else {
      s := SomeMisread(rest, m1, reserved, minted, catalog);
    }
  }

  lemma {:induction false} SomeMisreadIn(
    step: Step, m: Mint, reserved: set<string>, minted: map<string, string>, catalog: Catalog)
    returns (s: Step)
    requires UniqueIds(LeavesOf(step)) && !ReadsBackIn(step, m, reserved, catalog)
    requires Agrees(minted, LeavesOf(step), MintStep(step, m, reserved, catalog).minted, catalog)
    ensures s in LeavesOf(step) && Unsettled(s, catalog) && !Addressed(StampLeaf(s, minted), catalog)
    decreases step, 1
  {
    hide MintSteps, MintStep, MintLeaf, StampLeaf, Leaves, LeavesOf, UniqueIds, AllReadBack, Agrees, LeafReadsBack,
         Unsettled, Addressed;
    LeavesOfBlocks(step);
    MintOne(step, m, reserved, catalog);
    if step.If? {
      var a, b := step.thenSteps, step.otherwise;
      var m1 := MintSteps(a, m, reserved, catalog);
      UniqueParts(Leaves(a), Leaves(b));
      MintCovers(a, m, reserved, catalog);
      AgreesSplit(Leaves(a), b, m1, reserved, minted, catalog);
      if !AllReadBack(a, m, reserved, catalog) {
        s := SomeMisread(a, m, reserved, minted, catalog);
      } else {
        s := SomeMisread(b, m1, reserved, minted, catalog);
      }
    } else if step.Repeat? {
      s := SomeMisread(step.steps, m.(claimed := m.claimed + {"item"}), reserved, minted, catalog);
    } else {
      MisreadLeaf(step, m, reserved, minted, catalog);
      s := step;
    }
  }

  /** Every new name is the name in use if and only if every name the pass picks reads back. */
  lemma NewNamesAddressIff(d: Definition, catalog: Catalog)
    requires UniqueIds(Leaves(d.steps))
    ensures AllReadBack(d.steps, Mint(BaseNames(d), map[]), Reserved(d.steps, catalog), catalog) <==>
      forall b :: b in Leaves(MintOutputNames(d, catalog).steps) && IsNew(d, catalog, b) ==> Addressed(b, catalog)
  {
    hide MintSteps, Leaves, StampAll, Reserved, Unsettled, BaseNames, AllReadBack, UniqueIds, StepProduces, NameWith,
         StampLeaf;
    var m, reserved, minted := Mint(BaseNames(d), map[]), Reserved(d.steps, catalog), MintedNames(d, catalog);
    if AllReadBack(d.steps, m, reserved, catalog) {
      forall b | b in Leaves(MintOutputNames(d, catalog).steps) && IsNew(d, catalog, b) ensures Addressed(b, catalog) {
        MintedNamesAreFresh(d, catalog, b);
      }
    } else {
      AgreesWithItself(d, catalog);
      var s := SomeMisread(d.steps, m, reserved, minted, catalog);
      MintingStamps(d, catalog);
      LeavesOfStamped(d.steps, minted);
      StampLeavesAt(Leaves(d.steps), minted);
      var i :| 0 <= i < |Leaves(d.steps)| && Leaves(d.steps)[i] == s;
      StampNames(s, minted);
      assert StampLeaves(Leaves(d.steps), minted)[i] == StampLeaf(s, minted);
      assert IsNew(d, catalog, StampLeaf(s, minted));
    }
  }

  lemma AgreesWithItself(d: Definition, catalog: Catalog)
    requires UniqueIds(Leaves(d.steps))
    ensures Agrees(MintedNames(d, catalog), Leaves(d.steps), MintedNames(d, catalog), catalog)
  {
    hide MintSteps, Leaves, Reserved, Unsettled, BaseNames;
    var m, reserved := Mint(BaseNames(d), map[]), Reserved(d.steps, catalog);
    var leaves := Leaves(d.steps);
    MintCovers(d.steps, m, reserved, catalog);
    forall s | s in leaves && !Unsettled(s, catalog) ensures s.id !in MintedNames(d, catalog) {
      forall t | t in leaves && t.id == s.id ensures !Unsettled(t, catalog) {
        var i :| 0 <= i < |leaves| && leaves[i] == s;
        var j :| 0 <= j < |leaves| && leaves[j] == t;
        assert i == j;
      }
      MintTouches(d.steps, m, reserved, catalog, s.id);
    }
  }

  // ----- a first base name that looks suffixed

  const QUESTION := AskMe("s", None, "", [FormField("q_2", TextField, None, None)])

  lemma QuestionOrdinal()
    ensures OrdinalOf("q_2") == Some(2)
  {
    OrdinalOfSuffixed("q", 2);
    assert Decimal(2) == "2" && Suffixed("q", 2) == "q_2";
  }

  lemma QuestionProduces()
    ensures var ds := StepProduces(QUESTION, []); |ds| == 1 && VariableNameFor(ds[0]) == "q_2"
    ensures Unsettled(QUESTION, []) && OrdinalOf("q_2") == Some(2)
  {
    hide Snake, OrdinalOf;
    var f := FormField("q_2", TextField, None, None);
    assert [f][1..] == [];
    assert FormOutputs("s", "Ask me", [f][1..]) == [];
    SanitizeKeepsIff("q_2");
    QuestionOrdinal();
  }

  /**
   * A form whose first field is keyed `q_2`, after a variable named `q_2_2`: the
   * form stores `q_2`, is addressed as `q_2_2`, and so clashes with the variable.
   */
  lemma SuffixedBaseClashes(m: Mint, reserved: set<string>)
    requires "q_2" !in m.claimed + reserved
    ensures var minted := MintLeaf(QUESTION, m, reserved, []).minted;
            var b := StampLeaf(QUESTION, minted);
            b.outputName == Some("q_2") && Names(b, []) == {"q_2_2"} == Names(SetVariable("v", "q_2_2", []), [])
  {
    hide StepProduces, VariableNameFor, OrdinalOf, MintFor;
    QuestionProduces();
    var minted := MintLeaf(QUESTION, m, reserved, []).minted;
    SuffixedBaseMisreads("q_2", m.claimed + reserved);
    var b := StampLeaf(QUESTION, minted);
    StampKeepsOutputs(QUESTION, minted, [], Some(2));
    OneName(StepProduces(QUESTION, []), Some(2));
    assert Decimal(2) == "2";
    assert Suffixed("q_2", 2) == "q_2_2";
    assert Trim("q_2_2") == "q_2_2";
  }

  lemma OneName(ds: seq<TokenDescriptor>, ordinal: Option<nat>)
    requires |ds| == 1
    ensures NamesOfAll(ds, ordinal) == {NameWith(VariableNameFor(ds[0]), ordinal)}
  {
    assert ds[1..] == [];
  }
}
