/** Two insertions after which a typed name leads to another step: by a later output, and by a first output. */
module MintingInputs {
  import opened CharClasses
  import opened Automation
  import opened Naming
  import opened SnakeCase
  import opened NamespaceLaws
  import opened Minting
  import opened MintingLaws
  import opened MintingScope
  import opened Scope
  import opened ScopeLaws

  // ----- inserting at the top

  lemma {:induction false} GrownSelf(a: seq<Step>, avoid: set<string>)
    ensures GrownFrom(a, a, avoid)
  {
    hide IdsOf;
    if a != [] {
      GrownSelf(a[1..], avoid);
    }
  }

  lemma InsertedFirst(d: Definition, x: Step, target: string)
    requires MintOutputNames(d, []) == d && target !in IdsOf(x) && UniqueIds(Leaves([x] + d.steps))
    ensures Inserts(d, d.(steps := [x] + d.steps), [], target)
  {
    hide MintOutputNames, Leaves, IdsOf, GrownStep, UniqueIds;
    GrownSelf(d.steps, {target});
    assert ([x] + d.steps)[1..] == d.steps;
  }

  /** A minted definition with a step on top: the pass names that step, if any. */
  lemma NothingElseMinted(d: Definition)
    requires Settled(d.steps, [])
    ensures MintOutputNames(d, []) == d
  {
    hide MintSteps, Settled, BaseNames, Reserved;
    SettledMintsNothing(d.steps, Mint(BaseNames(d), map[]), Reserved(d.steps, []), []);
  }

  // ----- a later output takes a name

  /** The first token that asks for a name keeps it, whatever comes after. */
  lemma FirstKeepsName(ds: seq<TokenDescriptor>, i: nat)
    requires i < |ds| && NominalsDistinct(ds[..i + 1])
    ensures Nominal(ds[i]) in Build(ds).byName && Build(ds).byName[Nominal(ds[i])] == ds[i]
  {
    hide Nominal, Build;
    NominalNamespace(ds[..i + 1]);
    assert ds[..i + 1][i] == ds[i];
    AppendKeepsNames(ds[..i + 1], ds[i + 1..]);
    assert ds[..i + 1] + ds[i + 1..] == ds;
  }

  function Form(name: Option<string>): Step {
    AskMe("f", name, "", [
      FormField("x", TextField, None, None), FormField("agent_result", TextField, None, None)])
  }

  const AGENT := AskAgent("a", Some("agent_result"), [], None, [])
  const READER := Notify("t", [])

  lemma LowerName(s: string)
    requires s != "" && forall i :: 0 <= i < |s| ==> 'a' <= s[i] <= 'z' || s[i] == '_'
    ensures SanitizeVariableName(s) == s && OrdinalOf(s) == None
  {
    SanitizeKeepsIff(s);
  }

  function FormTokens(): seq<TokenDescriptor> {
    [Descriptor("f", "x", "x", Text, FromAskMe, "Ask me"),
     Descriptor("f", "agent_result", "agent_result", Text, FromAskMe, "Ask me")]
  }

  function AgentTokens(): seq<TokenDescriptor> {
    [Descriptor("a", "result", "Result", Text, FromAgent, "Ask agent"),
     Descriptor("a", "chatId", "Chat", Text, FromAgent, "Ask agent")]
  }

  lemma FormProduces(name: Option<string>)
    requires name.Some? ==> OrdinalOf(name.value) == None
    ensures StepProduces(Form(name), []) == FormTokens()
  {
    var fs := Form(name).formFields;
    assert fs[1..] == [fs[1]] && fs[1..][1..] == [];
    assert FormOutputs("f", "Ask me", fs[1..][1..]) == [];
  }

  lemma AgentProduces()
    ensures StepProduces(AGENT, []) == AgentTokens()
  {
    LowerName("agent_result");
  }

  lemma NominalsOf()
    ensures Nominal(BuiltinTokens()[0]) == "today" && Nominal(BuiltinTokens()[1]) == "now"
    ensures Nominal(FormTokens()[0]) == "x" && Nominal(FormTokens()[1]) == "agent_result" == Nominal(AgentTokens()[0])
    ensures Nominal(AgentTokens()[1]) == "agent_" + SanitizeVariableName("chatId")
  {
    hide Snake, SanitizeVariableName;
    LowerName("today");
    LowerName("now");
    LowerName("x");
    LowerName("agent_result");
    LowerName("result");
    assert "agent_" + "result" == "agent_result";
  }

  lemma ScopeAtReader(pre: seq<Step>)
    requires "t" !in Ids(pre)
    ensures ScopeAt(Definition([], pre + [READER]), [], Some("t")) == BuiltinTokens() + AllProduce(pre, [])
  {
    hide AllProduce, Ids, Descriptor;
    assert BaseScope([]) == BuiltinTokens();
    WalkPasses(pre, [READER], BaseScope([]), "t", []);
    WalkHere(READER, [], BaseScope([]) + AllProduce(pre, []), []);
    assert [READER] + [] == [READER];
  }

  lemma ProduceCons(s: Step, rest: seq<Step>)
    ensures AllProduce([s] + rest, []) == StepProduces(s, []) + AllProduce(rest, [])
    ensures Ids([s] + rest) == IdsOf(s) + Ids(rest)
  {
    hide StepProduces, IdsOf;
    assert ([s] + rest)[1..] == rest;
  }

  lemma MintCons(s: Step, rest: seq<Step>, m: Mint, reserved: set<string>)
    requires !s.If? && !s.Repeat?
    ensures MintSteps([s] + rest, m, reserved, []) == MintSteps(rest, MintLeaf(s, m, reserved, []), reserved, [])
    ensures Leaves([s] + rest) == [s] + Leaves(rest)
  {
    hide MintLeaf;
    assert ([s] + rest)[1..] == rest;
  }

  lemma StampCons(s: Step, rest: seq<Step>, minted: map<string, string>)
    requires !s.If? && !s.Repeat?
    ensures StampAll([s] + rest, minted) == [StampLeaf(s, minted)] + StampAll(rest, minted)
  {
    hide StampLeaf;
    assert ([s] + rest)[1..] == rest;
  }

  lemma ReservedCons(s: Step, rest: seq<Step>)
    ensures ReservedBy([s] + rest, []) ==
      (if IsProducing(s) && s.outputName.None? then {} else Names(s, [])) + ReservedBy(rest, [])
  {
    hide Names;
    assert ([s] + rest)[1..] == rest;
  }

  /** The names that are taken or reserved when the form comes to be named. */
  lemma FreeForForm(taken: set<string>)
    requires taken == Build(BaseScope([])).byName.Keys + Names(AGENT, [])
    ensures "x" !in taken
  {
    hide Nominal, Build, NameAt, Names, Descriptor;
    NominalsOf();
    AgentProduces();
    AgentNames();
    assert BaseScope([]) == BuiltinTokens();
    if "x" in Build(BuiltinTokens()).byName {
      var i := NamesComeFromTokens(BuiltinTokens(), "x");
      assert NameAt(BuiltinTokens(), i) == Some("x");
      NominalIff(BuiltinTokens());
    }
  }

  lemma AgentNames()
    ensures "x" !in Names(AGENT, [])
  {
    hide SanitizeVariableName;
    AgentProduces();
    LowerName("agent_result");
    var ds := AgentTokens();
    assert ds[1..] == [ds[1]] && ds[1..][1..] == [];
    assert NamesOfAll(ds, None) == {VariableNameFor(ds[0])} + ({VariableNameFor(ds[1])} + {});
  }

  lemma FormMints(reserved: set<string>, claimed: set<string>)
    requires "x" !in claimed + reserved
    ensures MintLeaf(Form(None), Mint(claimed, map[]), reserved, []).minted == map["f" := "x"]
  {
    hide StepProduces, NamesClaimed, FirstFree, SanitizeVariableName, OrdinalOf;
    FormProduces(None);
    NominalsOf();
    assert VariableNameFor(FormTokens()[0]) == "x";
  }

  lemma AgentMintsNothing(m: Mint, reserved: set<string>)
    ensures MintLeaf(AGENT, m, reserved, []).minted == m.minted && MintLeaf(READER, m, reserved, []).minted == m.minted
  {
  }

  lemma ReservedHere()
    ensures Reserved([Form(None), AGENT, READER], []) == Names(AGENT, [])
  {
    hide Names;
    MintCons(Form(None), [AGENT, READER], Mint({}, map[]), {});
    MintCons(AGENT, [READER], Mint({}, map[]), {});
    MintCons(READER, [], Mint({}, map[]), {});
    assert [AGENT] + [READER] == [AGENT, READER] && [Form(None)] + [AGENT, READER] == [Form(None), AGENT, READER];
    assert [READER] + [] == [READER];
    ReservedCons(Form(None), [AGENT, READER]);
    ReservedCons(AGENT, [READER]);
    ReservedCons(READER, []);
    NothingNamed();
  }

  lemma MintedHere(claimed: set<string>, reserved: set<string>)
    requires "x" !in claimed + reserved
    ensures MintSteps([Form(None), AGENT, READER], Mint(claimed, map[]), reserved, []).minted == map["f" := "x"]
  {
    hide MintLeaf;
    var m := Mint(claimed, map[]);
    FormMints(reserved, claimed);
    var m1 := MintLeaf(Form(None), m, reserved, []);
    var m2 := MintLeaf(AGENT, m1, reserved, []);
    AgentMintsNothing(m1, reserved);
    AgentMintsNothing(m2, reserved);
    assert [AGENT] + [READER] == [AGENT, READER] && [Form(None)] + [AGENT, READER] == [Form(None), AGENT, READER];
    assert [READER] + [] == [READER];
    MintCons(Form(None), [AGENT, READER], m, reserved);
    MintCons(AGENT, [READER], m1, reserved);
    MintCons(READER, [], m2, reserved);
  }

  lemma StampedHere()
    ensures StampAll([Form(None), AGENT, READER], map["f" := "x"]) == [Form(Some("x")), AGENT, READER]
  {
    var minted := map["f" := "x"];
    assert [AGENT] + [READER] == [AGENT, READER] && [Form(None)] + [AGENT, READER] == [Form(None), AGENT, READER];
    assert [READER] + [] == [READER];
    StampCons(Form(None), [AGENT, READER], minted);
    StampCons(AGENT, [READER], minted);
    StampCons(READER, [], minted);
  }

  lemma InsertedFormIsNamed()
    ensures MintOutputNames(Definition([], [Form(None), AGENT, READER]), [])
            == Definition([], [Form(Some("x")), AGENT, READER])
  {
    hide MintSteps, StampAll, Names, BaseScope, Build, Reserved;
    var steps := [Form(None), AGENT, READER];
    var d := Definition([], steps);
    ReservedHere();
    FreeForForm(BaseNames(d) + Reserved(steps, []));
    MintedHere(BaseNames(d), Reserved(steps, []));
    StampedHere();
    MintingStamps(d, []);
  }

  lemma NothingNamed()
    ensures Names(READER, []) == {}
  {
  }

  lemma NoSteps()
    ensures AllProduce([], []) == [] && Ids([]) == {}
  {
  }

  lemma BelowIsSettled()
    ensures Settled([AGENT, READER], []) && UniqueIds(Leaves([Form(None)] + [AGENT, READER]))
  {
    hide MintLeaf;
    assert [AGENT] + [READER] == [AGENT, READER] && [READER] + [] == [READER];
    MintCons(Form(None), [AGENT, READER], Mint({}, map[]), {});
    MintCons(AGENT, [READER], Mint({}, map[]), {});
    MintCons(READER, [], Mint({}, map[]), {});
    assert Leaves([Form(None)] + [AGENT, READER]) == [Form(None), AGENT, READER];
  }

  /**
   * A form with the fields `x` and `agent_result`, inserted above an agent step
   * that stores `agent_result`, stores `x`; below both, `agent_result` led to the
   * agent and now leads to the form.
   */
  lemma InsertedFormTakesTheName()
    ensures var d, grown := Definition([], [AGENT, READER]), Definition([], [Form(None), AGENT, READER]);
            var before, after := Build(SeenAt(d, [], "t")).byName, Build(SeenAt(grown, [], "t")).byName;
            && Inserts(d, grown, [], "t") && MintOutputNames(grown, []).steps == [Form(Some("x")), AGENT, READER]
            && "agent_result" in before && before["agent_result"].ref.stepId == "a"
            && "agent_result" in after && after["agent_result"].ref.stepId == "f"
  {
    hide Build, Nominal, MintOutputNames, ScopeAt, BuiltinTokens, FormTokens, AgentTokens, Inserts, Settled, Leaves,
         UniqueIds;
    var d := Definition([], [AGENT, READER]);
    BelowIsSettled();
    NothingElseMinted(d);
    InsertedFirst(d, Form(None), "t");
    assert [Form(None)] + d.steps == [Form(None), AGENT, READER];
    InsertedFormIsNamed();
    ScopesHere();
    ScopeBefore();
    ScopeAfter();
  }

  lemma ScopesHere()
    ensures ScopeAt(Definition([], [AGENT, READER]), [], Some("t")) == BuiltinTokens() + AgentTokens()
    ensures ScopeAt(Definition([], [Form(Some("x")), AGENT, READER]), [], Some("t"))
            == BuiltinTokens() + (FormTokens() + AgentTokens())
  {
    hide StepProduces, AllProduce, Ids, ScopeAt, BuiltinTokens, FormTokens, AgentTokens;
    AgentProduces();
    LowerName("x");
    FormProduces(Some("x"));
    ProduceCons(AGENT, []);
    ProduceCons(Form(Some("x")), [AGENT]);
    NoSteps();
    assert [AGENT] + [] == [AGENT] && [Form(Some("x"))] + [AGENT] == [Form(Some("x")), AGENT];
    ScopeAtReader([AGENT]);
    ScopeAtReader([Form(Some("x")), AGENT]);
    assert [AGENT] + [READER] == [AGENT, READER];
    assert [Form(Some("x")), AGENT] + [READER] == [Form(Some("x")), AGENT, READER];
    assert AgentTokens() + [] == AgentTokens();
  }

  lemma ScopeBefore()
    ensures var before := Build(BuiltinTokens() + AgentTokens()).byName;
            "agent_result" in before && before["agent_result"].ref.stepId == "a"
  {
    hide Build, Nominal, Descriptor;
    NominalsOf();
    RefsOf();
    FirstKeepsName(BuiltinTokens() + AgentTokens(), 2);
  }

  lemma ScopeAfter()
    ensures var after := Build(BuiltinTokens() + (FormTokens() + AgentTokens())).byName;
            "agent_result" in after && after["agent_result"].ref.stepId == "f"
  {
    hide Build, Nominal, Descriptor;
    NominalsOf();
    RefsOf();
    FirstKeepsName(BuiltinTokens() + (FormTokens() + AgentTokens()), 3);
  }

  lemma RefsOf()
    ensures AgentTokens()[0].ref.stepId == "a" && FormTokens()[1].ref.stepId == "f"
  {
  }

  // ----- a first output takes the name of an item

  function ItemForm(name: Option<string>): Step {
    AskMe("f", name, "", [FormField("item", TextField, None, None)])
  }

  const LIST := TokenRef(STEP_BUILTIN, "today", None)
  const ROUND := Repeat("r", LIST, [READER])
  const ITEM_FIELD := Descriptor("f", "item", "item", Text, FromAskMe, "Ask me")
  const ITEM := Descriptor(STEP_CURRENT, "item", "Current item", Text, FromItem, "Repeat")

  lemma ItemFormProduces(name: Option<string>)
    requires name.Some? ==> OrdinalOf(name.value) == None
    ensures StepProduces(ItemForm(name), []) == [ITEM_FIELD] && Nominal(ITEM_FIELD) == "item" == Nominal(ITEM)
  {
    var fs := ItemForm(name).formFields;
    assert fs[1..] == [];
    assert FormOutputs("f", "Ask me", fs[1..]) == [];
    LowerName("item");
  }

  lemma RoundIsSettled()
    ensures Settled([ROUND], []) && Leaves([ROUND]) == [READER] && UniqueIds(Leaves([ItemForm(None)] + [ROUND]))
    ensures ReservedBy([ItemForm(None), READER], []) == {}
  {
    hide Names;
    LeavesCons([ROUND]);
    LeavesOfBlocks(ROUND);
    LeavesCons([READER]);
    LeavesOfBlocks(READER);
    assert [ROUND][1..] == [] && [READER][1..] == [] && Leaves([]) == [];
    MintCons(ItemForm(None), [ROUND], Mint({}, map[]), {});
    ReservedCons(ItemForm(None), [READER]);
    ReservedCons(READER, []);
    assert [ItemForm(None)] + [READER] == [ItemForm(None), READER] && [READER] + [] == [READER];
    NothingNamed();
  }

  lemma ItemIsMinted(claimed: set<string>)
    requires "item" !in claimed
    ensures MintSteps([ItemForm(None)] + [ROUND], Mint(claimed, map[]), {}, []).minted == map["f" := "item"]
  {
    hide MintSteps, StepProduces, NamesClaimed, FirstFree, SanitizeVariableName, OrdinalOf, Settled;
    var m := Mint(claimed, map[]);
    ItemFormProduces(None);
    var m1 := MintLeaf(ItemForm(None), m, {}, []);
    assert VariableNameFor(ITEM_FIELD) == "item";
    assert m1.minted == map["f" := "item"];
    MintCons(ItemForm(None), [ROUND], m, {});
    RoundIsSettled();
    SettledMintsNothing([ROUND], m1, {}, []);
  }

  lemma ItemIsFree()
    ensures "item" !in Build(BuiltinTokens()).byName
  {
    hide Nominal, Build, NameAt;
    NominalsOf();
    if "item" in Build(BuiltinTokens()).byName {
      var i := NamesComeFromTokens(BuiltinTokens(), "item");
      NominalIff(BuiltinTokens());
    }
  }

  lemma ItemFormIsNamed()
    ensures MintOutputNames(Definition([], [ItemForm(None), ROUND]), [])
            == Definition([], [ItemForm(Some("item")), ROUND])
  {
    hide MintSteps, StampAll, Leaves, Build;
    var steps := [ItemForm(None)] + [ROUND];
    var d := Definition([], steps);
    assert steps == [ItemForm(None), ROUND] && BaseScope([]) == BuiltinTokens();
    RoundIsSettled();
    MintCons(ItemForm(None), [ROUND], Mint({}, map[]), {});
    assert Reserved(steps, []) == {};
    ItemIsFree();
    ItemIsMinted(BaseNames(d));
    MintingStamps(d, []);
    StampCons(ItemForm(None), [ROUND], map["f" := "item"]);
    RoundStamped(map["f" := "item"]);
  }

  lemma RoundStamped(minted: map<string, string>)
    requires "t" !in minted
    ensures StampAll([ROUND], minted) == [ROUND]
  {
    hide StampAll;
    RoundIsSettled();
    StampFixed([ROUND], minted);
  }

  lemma RoundScope(pre: seq<Step>)
    requires "t" !in Ids(pre)
    ensures ScopeAt(Definition([], pre + [ROUND]), [], Some("t")) == BuiltinTokens() + AllProduce(pre, []) + [ITEM]
  {
    hide AllProduce, Ids, Descriptor, FindToken;
    var scope := BuiltinTokens() + AllProduce(pre, []);
    assert BaseScope([]) == BuiltinTokens();
    WalkPasses(pre, [ROUND], BuiltinTokens(), "t", []);
    ItemInScope(scope);
    WalkHere(READER, [], scope + [ITEM], []);
    assert [READER] + [] == [READER];
    assert WalkStep(ROUND, scope, Some("t"), []) == WalkResult(true, scope + [ITEM]);
  }

  lemma ItemInScope(scope: seq<TokenDescriptor>)
    requires |scope| >= 2 && scope[..2] == BuiltinTokens()
    ensures CurrentItemToken(LIST, scope) == [ITEM]
  {
    assert scope[0] == BuiltinTokens()[0] && Key(scope[0].ref) == Key(LIST);
  }

  /**
   * Nor are first outputs safe: a form with the field `item`, inserted above a
   * repeat, stores `item`; inside the repeat `item` led to the current item and
   * now leads to the form.
   */
  lemma FirstOutputTakesItem()
    ensures var d, grown := Definition([], [ROUND]), Definition([], [ItemForm(None), ROUND]);
            var before, after := Build(SeenAt(d, [], "t")).byName, Build(SeenAt(grown, [], "t")).byName;
            && Inserts(d, grown, [], "t") && MintOutputNames(grown, []).steps == [ItemForm(Some("item")), ROUND]
            && "item" in before && before["item"].ref.stepId == STEP_CURRENT
            && "item" in after && after["item"].ref.stepId == "f"
  {
    hide Build, Nominal, MintOutputNames, ScopeAt, BuiltinTokens, Inserts, Settled, Leaves, UniqueIds;
    var d := Definition([], [ROUND]);
    RoundIsSettled();
    NothingElseMinted(d);
    InsertedFirst(d, ItemForm(None), "t");
    assert [ItemForm(None)] + d.steps == [ItemForm(None), ROUND];
    ItemFormIsNamed();
    ItemScopes();
    ItemBefore();
    ItemAfter();
  }

  lemma ItemScopes()
    ensures ScopeAt(Definition([], [ROUND]), [], Some("t")) == BuiltinTokens() + [ITEM]
    ensures ScopeAt(Definition([], [ItemForm(Some("item")), ROUND]), [], Some("t"))
            == BuiltinTokens() + [ITEM_FIELD, ITEM]
  {
    hide StepProduces, AllProduce, Ids, ScopeAt, BuiltinTokens, SanitizeVariableName, Nominal, Descriptor;
    LowerName("item");
    ItemFormProduces(Some("item"));
    NoSteps();
    ProduceCons(ItemForm(Some("item")), []);
    assert [ItemForm(Some("item"))] + [] == [ItemForm(Some("item"))];
    RoundScope([]);
    RoundScope([ItemForm(Some("item"))]);
    assert [] + [ROUND] == [ROUND] && [ItemForm(Some("item"))] + [ROUND] == [ItemForm(Some("item")), ROUND];
    assert BuiltinTokens() + [] + [ITEM] == BuiltinTokens() + [ITEM];
    assert BuiltinTokens() + ([ITEM_FIELD] + []) + [ITEM] == BuiltinTokens() + [ITEM_FIELD, ITEM];
  }

  lemma ItemBefore()
    ensures var before := Build(BuiltinTokens() + [ITEM]).byName;
            "item" in before && before["item"].ref.stepId == STEP_CURRENT
  {
    hide Build, Nominal, SanitizeVariableName;
    NominalsOf();
    ItemFormProduces(None);
    FirstKeepsName(BuiltinTokens() + [ITEM], 2);
  }

  lemma ItemAfter()
    ensures var after := Build(BuiltinTokens() + [ITEM_FIELD, ITEM]).byName;
            "item" in after && after["item"].ref.stepId == "f"
  {
    hide Build, Nominal, SanitizeVariableName;
    NominalsOf();
    ItemFormProduces(None);
    FirstKeepsName(BuiltinTokens() + [ITEM_FIELD, ITEM], 2);
  }
}
