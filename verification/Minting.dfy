/** Minting: pinning a stored name to every producing step that has an output and lacks one. */
module Minting {
  import opened CharClasses
  import opened Automation
  import opened Naming

  function TrimStart(s: string): string {
    if s != "" && IsSpace(s[0]) then TrimStart(s[1..]) else s
  }

  function TrimEnd(s: string): string {
    if s != "" && IsSpace(s[|s| - 1]) then TrimEnd(s[..|s| - 1]) else s
  }

  function Trim(s: string): string {
    TrimEnd(TrimStart(s))
  }

  function NameWith(base: string, ordinal: Option<nat>): string {
    match ordinal
    case None => base
    case Some(n) => Suffixed(base, n)
  }

  function NamesOfAll(ds: seq<TokenDescriptor>, ordinal: Option<nat>): set<string> {
    if ds == [] then {} else {NameWith(VariableNameFor(ds[0]), ordinal)} + NamesOfAll(ds[1..], ordinal)
  }

  /** The names one step claims: a variable's own name, or each output of a producing step at `ordinal`. */
  function NamesClaimed(step: Step, catalog: Catalog, ordinal: Option<nat>): set<string> {
    if step.SetVariable? then
      var trimmed := Trim(step.name);
      if trimmed == "" then {} else {trimmed}
    else if !IsProducing(step) then {}
    else NamesOfAll(StepProduces(step, catalog), ordinal)
  }

  /** The names a step claims at its stored ordinal. */
  function Names(step: Step, catalog: Catalog): set<string> {
    NamesClaimed(step, catalog, OutputNameOrdinal(step))
  }

  /** The steps a minting pass reaches: it descends into `if` and `repeat` only. */
  function Leaves(steps: seq<Step>): seq<Step>
    decreases steps, 0
  {
    if steps == [] then [] else LeavesOf(steps[0]) + Leaves(steps[1..])
  }

  function LeavesOf(step: Step): seq<Step>
    decreases step, 1
  {
    if step.If? then Leaves(step.thenSteps) + Leaves(step.otherwise)
    else if step.Repeat? then Leaves(step.steps)
    else [step]
  }

  /** Whether a step still waits for its name. */
  predicate Unsettled(step: Step, catalog: Catalog) {
    IsProducing(step) && step.outputName.None? && StepProduces(step, catalog) != []
  }

  /** The names of every step whose ordinal is settled, anywhere in the definition. */
  function Reserved(steps: seq<Step>, catalog: Catalog): set<string> {
    ReservedBy(Leaves(steps), catalog)
  }

  function ReservedBy(leaves: seq<Step>, catalog: Catalog): set<string> {
    if leaves == [] then {}
    else
      (if IsProducing(leaves[0]) && leaves[0].outputName.None? then {} else Names(leaves[0], catalog))
      + ReservedBy(leaves[1..], catalog)
  }

  datatype Pick = Pick(name: string, ordinal: Option<nat>)

  /** The base name if it is free, else its least free suffix from 2 on. */
  function MintFor(base: string, taken: set<string>): (pick: Pick)
    ensures pick.name !in taken && pick.name == NameWith(base, pick.ordinal)
    ensures base !in taken ==> pick.ordinal == None
    ensures base in taken ==> LeastFree(base, taken, Some(pick.name))
  {
    if base !in taken then Pick(base, None)
    else
      var n := FirstFree(base, taken, 2);
      Pick(Suffixed(base, n), Some(n))
  }

  /** `claimed` grows along a region; `minted` holds the names chosen by this pass. */
  datatype Mint = Mint(claimed: set<string>, minted: map<string, string>)

  function MintSteps(steps: seq<Step>, m: Mint, reserved: set<string>, catalog: Catalog): Mint
    decreases steps, 0
  {
    if steps == [] then m else MintSteps(steps[1..], MintStep(steps[0], m, reserved, catalog), reserved, catalog)
  }

  function MintStep(step: Step, m: Mint, reserved: set<string>, catalog: Catalog): Mint
    decreases step, 1
  {
    if step.If? then MintSteps(step.otherwise, MintSteps(step.thenSteps, m, reserved, catalog), reserved, catalog)
    else if step.Repeat? then
      m.(minted := MintSteps(step.steps, m.(claimed := m.claimed + {"item"}), reserved, catalog).minted)
    else MintLeaf(step, m, reserved, catalog)
  }

  function MintLeaf(step: Step, m: Mint, reserved: set<string>, catalog: Catalog): Mint {
    if Unsettled(step, catalog) then
      var pick := MintFor(VariableNameFor(StepProduces(step, catalog)[0]), m.claimed + reserved);
      Mint(m.claimed + NamesClaimed(step, catalog, pick.ordinal), m.minted[step.id := pick.name])
    else m.(claimed := m.claimed + Names(step, catalog))
  }

  /** The pass as a loop that grows its sets in place; a repeat body starts from a copy. */
  method MintWalk(steps: seq<Step>, claimedIn: set<string>, mintedIn: map<string, string>, reserved: set<string>,
                  catalog: Catalog)
    returns (claimed: set<string>, minted: map<string, string>)
    ensures Mint(claimed, minted) == MintSteps(steps, Mint(claimedIn, mintedIn), reserved, catalog)
    decreases steps
  {
    hide MintSteps, MintStep, StepProduces, NamesOfAll, FirstFree, Trim;
    claimed, minted := claimedIn, mintedIn;
    assert steps[0..] == steps;
    for i := 0 to |steps|
      invariant MintSteps(steps[i..], Mint(claimed, minted), reserved, catalog)
                == MintSteps(steps, Mint(claimedIn, mintedIn), reserved, catalog)
    {
      var step := steps[i];
      NextMint(steps, i, Mint(claimed, minted), reserved, catalog);
      MintOne(step, Mint(claimed, minted), reserved, catalog);
      if step.SetVariable? {
        var trimmed := Trim(step.name);
        if trimmed != "" {
          claimed := claimed + {trimmed};
        } else {
          assert claimed + {} == claimed;
        }
        continue;
      }
      if step.If? {
        claimed, minted := MintWalk(step.thenSteps, claimed, minted, reserved, catalog);
        claimed, minted := MintWalk(step.otherwise, claimed, minted, reserved, catalog);
        continue;
      }
      if step.Repeat? {
        var inner := claimed + {"item"};
        inner, minted := MintWalk(step.steps, inner, minted, reserved, catalog);
        continue;
      }
      if !IsProducing(step) {
        assert claimed + {} == claimed;
        continue;
      }
      var descriptors := StepProduces(step, catalog);
      if |descriptors| == 0 {
        NothingClaimed(step, catalog, OutputNameOrdinal(step));
        assert claimed + {} == claimed;
        continue;
      }
      var ordinal := OutputNameOrdinal(step);
      if step.outputName.None? {
        var pick := MintFor(VariableNameFor(descriptors[0]), claimed + reserved);
        minted := minted[step.id := pick.name];
        ordinal := pick.ordinal;
      }
      claimed := claimed + NamesClaimed(step, catalog, ordinal);
    }
    NoMoreMints(steps, Mint(claimed, minted), reserved, catalog);
  }

  lemma NothingClaimed(step: Step, catalog: Catalog, ordinal: Option<nat>)
    requires IsProducing(step) && StepProduces(step, catalog) == []
    ensures NamesClaimed(step, catalog, ordinal) == {}
  {
  }

  lemma NextMint(steps: seq<Step>, i: nat, m: Mint, reserved: set<string>, catalog: Catalog)
    requires i < |steps|
    ensures MintSteps(steps[i..], m, reserved, catalog)
            == MintSteps(steps[i + 1..], MintStep(steps[i], m, reserved, catalog), reserved, catalog)
  {
    hide MintStep;
    assert steps[i..][1..] == steps[i + 1..];
  }

  lemma NoMoreMints(steps: seq<Step>, m: Mint, reserved: set<string>, catalog: Catalog)
    ensures MintSteps(steps[|steps|..], m, reserved, catalog) == m
  {
  }

  lemma MintOne(step: Step, m: Mint, reserved: set<string>, catalog: Catalog)
    ensures step.If? ==>
      MintStep(step, m, reserved, catalog)
      == MintSteps(step.otherwise, MintSteps(step.thenSteps, m, reserved, catalog), reserved, catalog)
    ensures step.Repeat? ==>
      MintStep(step, m, reserved, catalog)
      == m.(minted := MintSteps(step.steps, m.(claimed := m.claimed + {"item"}), reserved, catalog).minted)
    ensures !step.If? && !step.Repeat? ==> MintStep(step, m, reserved, catalog) == MintLeaf(step, m, reserved, catalog)
  {
    hide MintSteps, MintLeaf;
  }

  function Stamp(step: Step, minted: map<string, string>): Step
    decreases step, 1
  {
    if step.If? then
      step.(thenSteps := StampAll(step.thenSteps, minted), otherwise := StampAll(step.otherwise, minted))
    else if step.Repeat? then Repeat(step.id, step.items, StampAll(step.steps, minted))
    else StampLeaf(step, minted)
  }

  function StampLeaf(step: Step, minted: map<string, string>): Step {
    if step.id in minted && IsProducing(step) then step.(outputName := Some(minted[step.id])) else step
  }

  function StampAll(steps: seq<Step>, minted: map<string, string>): seq<Step>
    decreases steps, 0
  {
    if steps == [] then [] else [Stamp(steps[0], minted)] + StampAll(steps[1..], minted)
  }

  /** The names built-in and trigger tokens take. */
  function BaseNames(d: Definition): set<string> {
    Build(BaseScope(d.triggers)).byName.Keys
  }

  function MintedNames(d: Definition, catalog: Catalog): map<string, string> {
    MintSteps(d.steps, Mint(BaseNames(d), map[]), Reserved(d.steps, catalog), catalog).minted
  }

  function MintOutputNames(d: Definition, catalog: Catalog): Definition {
    var minted := MintedNames(d, catalog);
    if minted == map[] then d else d.(steps := StampAll(d.steps, minted))
  }

  // ----- stamping, leaf by leaf

  function StampLeaves(leaves: seq<Step>, minted: map<string, string>): seq<Step> {
    if leaves == [] then [] else [StampLeaf(leaves[0], minted)] + StampLeaves(leaves[1..], minted)
  }

  lemma {:induction false} StampLeavesAppend(a: seq<Step>, b: seq<Step>, minted: map<string, string>)
    ensures StampLeaves(a + b, minted) == StampLeaves(a, minted) + StampLeaves(b, minted)
  {
    hide StampLeaf;
    if a == [] {
      assert a + b == b;
    } else {
      assert (a + b)[1..] == a[1..] + b;
      StampLeavesAppend(a[1..], b, minted);
    }
  }

  /** Stamping changes leaves only, one by one. */
  lemma {:induction false} LeavesOfStamped(steps: seq<Step>, minted: map<string, string>)
    ensures Leaves(StampAll(steps, minted)) == StampLeaves(Leaves(steps), minted)
    decreases steps, 0
  {
    hide StampLeaf, Stamp, LeavesOf;
    if steps != [] {
      assert StampAll(steps, minted)[1..] == StampAll(steps[1..], minted);
      LeavesOfStampedStep(steps[0], minted);
      LeavesOfStamped(steps[1..], minted);
      StampLeavesAppend(LeavesOf(steps[0]), Leaves(steps[1..]), minted);
    }
  }

  lemma {:induction false} LeavesOfStampedStep(step: Step, minted: map<string, string>)
    ensures LeavesOf(Stamp(step, minted)) == StampLeaves(LeavesOf(step), minted)
    decreases step, 1
  {
    hide Leaves, StampAll;
    if step.If? {
      LeavesOfStamped(step.thenSteps, minted);
      LeavesOfStamped(step.otherwise, minted);
      StampLeavesAppend(Leaves(step.thenSteps), Leaves(step.otherwise), minted);
    } else if step.Repeat? {
      LeavesOfStamped(step.steps, minted);
    } else {
      assert StampLeaves([step], minted) == [StampLeaf(step, minted)] + StampLeaves([], minted);
    }
  }

  lemma {:induction false} StampLeavesAt(leaves: seq<Step>, minted: map<string, string>)
    ensures |StampLeaves(leaves, minted)| == |leaves|
    ensures forall i :: 0 <= i < |leaves| ==> StampLeaves(leaves, minted)[i] == StampLeaf(leaves[i], minted)
  {
    hide StampLeaf;
    if leaves != [] {
      StampLeavesAt(leaves[1..], minted);
    }
  }

  lemma {:induction false} StampNothing(steps: seq<Step>)
    ensures StampAll(steps, map[]) == steps
    decreases steps, 0
  {
    hide Stamp;
    if steps != [] {
      StampNothingIn(steps[0]);
      StampNothing(steps[1..]);
      assert steps == [steps[0]] + steps[1..];
    }
  }

  lemma {:induction false} StampNothingIn(step: Step)
    ensures Stamp(step, map[]) == step
    decreases step, 1
  {
    hide StampAll;
    if step.If? {
      StampNothing(step.thenSteps);
      StampNothing(step.otherwise);
    } else if step.Repeat? {
      StampNothing(step.steps);
    }
  }

  lemma MintingStamps(d: Definition, catalog: Catalog)
    ensures MintOutputNames(d, catalog) == d.(steps := StampAll(d.steps, MintedNames(d, catalog)))
  {
    hide StampAll, MintSteps, Reserved, BaseNames;
    if MintedNames(d, catalog) == map[] {
      StampNothing(d.steps);
    }
  }

  // ----- what stamping leaves alone

  /** A stamp changes no output, only the ordinal the outputs carry. */
  lemma StampKeepsOutputs(step: Step, minted: map<string, string>, catalog: Catalog, ordinal: Option<nat>)
    requires !step.If?
    ensures |StepProduces(StampLeaf(step, minted), catalog)| == |StepProduces(step, catalog)|
    ensures StepProduces(step, catalog) != [] ==>
      VariableNameFor(StepProduces(StampLeaf(step, minted), catalog)[0])
      == VariableNameFor(StepProduces(step, catalog)[0])
    ensures NamesClaimed(StampLeaf(step, minted), catalog, ordinal) == NamesClaimed(step, catalog, ordinal)
  {
    hide AgentOutputs, FormOutputs, ActionOutputs, OrdinalOf, FindAction, Or, VariableNameFor, NamesOfAll, Trim;
    var step' := StampLeaf(step, minted);
    assert ProducedBy(step', catalog) == ProducedBy(step, catalog);
    OrdinalsDoNotMatter(ProducedBy(step, catalog), OutputNameOrdinal(step), ordinal);
    OrdinalsDoNotMatter(ProducedBy(step, catalog), OutputNameOrdinal(step'), ordinal);
  }

  function Stamped(ds: seq<TokenDescriptor>, stored: Option<nat>): seq<TokenDescriptor> {
    match stored
    case None => ds
    case Some(n) => WithOrdinal(ds, n)
  }

  lemma {:induction false} OrdinalsDoNotMatter(ds: seq<TokenDescriptor>, stored: Option<nat>, ordinal: Option<nat>)
    ensures |Stamped(ds, stored)| == |ds|
    ensures ds != [] ==> VariableNameFor(Stamped(ds, stored)[0]) == VariableNameFor(ds[0])
    ensures NamesOfAll(Stamped(ds, stored), ordinal) == NamesOfAll(ds, ordinal)
  {
    hide SanitizeVariableName, Suffixed;
    if ds != [] {
      OrdinalsDoNotMatter(ds[1..], stored, ordinal);
      assert Stamped(ds, stored)[1..] == Stamped(ds[1..], stored);
    }
  }
}
