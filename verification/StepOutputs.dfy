/** Which outputs triggers and steps put out, one by one. */
module StepOutputs {
  import opened CharClasses
  import opened Automation
  import opened Naming
  import opened SnakeCase
  import opened NamespaceLaws

  function KindOf(step: Step): SourceKind
    requires IsProducing(step) || step.SetVariable?
  {
    match step
    case AskAgent(_, _, _, _, _) => FromAgent
    case AskMe(_, _, _, _) => FromAskMe
    case RunAction(_, _, _, _) => FromAction
    case SetVariable(_, _, _) => FromVariable
  }

  /** The token of an output of the step: it refers to the step and carries the step's stored ordinal. */
  predicate IsOutput(d: TokenDescriptor, step: Step, catalog: Catalog, output: string)
    requires IsProducing(step) || step.SetVariable?
  {
    && d.ref == TokenRef(step.id, output, None) && d.nameOrdinal == OutputNameOrdinal(step)
    && d.sourceKind == KindOf(step) && d.source == StepLabel(step, catalog)
  }

  /** What a step stores as its name changes nothing but the ordinals. */
  lemma StampedOutputs(step: Step, catalog: Catalog)
    ensures var ds, ds' := ProducedBy(step, catalog), StepProduces(step, catalog);
            |ds'| == |ds| && forall k :: 0 <= k < |ds| ==>
              ds'[k] == if OutputNameOrdinal(step).None? then ds[k]
                        else ds[k].(nameOrdinal := OutputNameOrdinal(step))
  {
    hide ProducedBy, OutputNameOrdinal;
  }

  lemma {:induction false} AgentOutputAt(id: string, source: string, expects: seq<ExpectedOutput>, k: nat)
    requires k < |expects|
    ensures |AgentOutputs(id, source, expects)| == |expects|
    ensures AgentOutputs(id, source, expects)[k] ==
            Descriptor(id, expects[k].key, Capitalize(expects[k].key), expects[k].valueType, FromAgent, source).(
              options := expects[k].options)
  {
    hide Capitalize;
    if |expects| > 1 {
      AgentOutputAt(id, source, expects[1..], if k > 0 then k - 1 else 0);
    }
  }

  /** An agent puts out its result, its chat, and what it is expected to, in this order. */
  lemma AgentPutsOut(step: Step, catalog: Catalog, k: nat)
    requires step.AskAgent? && k < 2 + |step.expects|
    ensures var ds := StepProduces(step, catalog);
            && |ds| == 2 + |step.expects|
            && IsOutput(ds[k], step, catalog,
                        if k == 0 then "result" else if k == 1 then "chatId" else step.expects[k - 2].key)
            && (k >= 2 ==>
                  ds[k].valueType == step.expects[k - 2].valueType && ds[k].options == step.expects[k - 2].options)
  {
    hide StepProduces, AgentOutputs, StepLabel, OutputNameOrdinal, Capitalize;
    var source := StepLabel(step, catalog);
    if step.expects == [] {
      NoExpectations(step.id, source);
    } else {
      AgentOutputAt(step.id, source, step.expects, if k >= 2 then k - 2 else 0);
    }
    StampedOutputs(step, catalog);
  }

  lemma NoExpectations(id: string, source: string)
    ensures AgentOutputs(id, source, []) == []
  {
  }

  lemma {:induction false} ActionOutputAt(
    id: string, source: string, actionId: string, outputs: seq<ActionOutput>, k: nat)
    requires k < |outputs|
    ensures |ActionOutputs(id, source, actionId, outputs)| == |outputs|
    ensures var d := ActionOutputs(id, source, actionId, outputs)[k];
            && d.ref == TokenRef(id, outputs[k].name, None) && d.nameOrdinal.None?
            && d.sourceKind == FromAction && d.source == source
            && (d.valueType == List <==> outputs[k].outputType.ListOutput?)
            && (d.fields.Some? <==> outputs[k].outputType.ListOutput? && actionId == "github.list_prs")
  {
    hide OutputLabel;
    if |outputs| > 1 {
      ActionOutputAt(id, source, actionId, outputs[1..], if k > 0 then k - 1 else 0);
    }
  }

  /** The catalog's first entry with the id. */
  predicate IsEntry(catalog: Catalog, id: string, k: nat) {
    k < |catalog| && catalog[k].id == id && forall j :: 0 <= j < k ==> catalog[j].id != id
  }

  lemma {:induction false} FoundEntry(catalog: Catalog, id: string)
    ensures FindAction(catalog, id).None? <==> forall j :: 0 <= j < |catalog| ==> catalog[j].id != id
    ensures forall k: nat :: IsEntry(catalog, id, k) ==> FindAction(catalog, id) == Some(catalog[k])
  {
    if catalog != [] && catalog[0].id != id {
      FoundEntry(catalog[1..], id);
      forall k: nat | IsEntry(catalog, id, k) ensures FindAction(catalog, id) == Some(catalog[k]) {
        assert IsEntry(catalog[1..], id, k - 1);
      }
    }
  }

  /** An action puts out what the catalog's first entry for it says, in order; an unknown one puts out nothing. */
  lemma ActionPutsOut(step: Step, catalog: Catalog, e: nat, k: nat)
    requires step.RunAction?
    ensures (forall j :: 0 <= j < |catalog| ==> catalog[j].id != step.actionId) ==> StepProduces(step, catalog) == []
    ensures IsEntry(catalog, step.actionId, e) && k < |catalog[e].outputs| ==>
      var ds, o := StepProduces(step, catalog), catalog[e].outputs[k];
      && |ds| == |catalog[e].outputs| && IsOutput(ds[k], step, catalog, o.name)
      && (ds[k].valueType == List <==> o.outputType.ListOutput?)
      && (ds[k].fields.Some? <==> o.outputType.ListOutput? && step.actionId == "github.list_prs")
  {
    hide StepLabel, OutputNameOrdinal, FindAction, ActionOutputs;
    FoundEntry(catalog, step.actionId);
    var source := StepLabel(step, catalog);
    if IsEntry(catalog, step.actionId, e) && k < |catalog[e].outputs| {
      ActionOutputAt(step.id, source, step.actionId, catalog[e].outputs, k);
      StampedOutputs(step, catalog);
    }
  }

  // ----- a form

  /** The places of the fields with a key, in order. */
  predicate AreKeyed(fs: seq<FormField>, at: seq<nat>) {
    && (forall j :: 0 <= j < |at| ==> at[j] < |fs|)
    && (forall j, k :: 0 <= j < k < |at| ==> at[j] < at[k])
    && (forall i :: 0 <= i < |fs| ==> (fs[i].key != "" <==> i in at))
  }

  /** The token of a field: a blank title gives way to the key. */
  predicate IsOfField(d: TokenDescriptor, id: string, source: string, f: FormField) {
    && d.ref == TokenRef(id, f.key, None) && d.options == f.options && d.nameOrdinal.None?
    && d.sourceKind == FromAskMe && d.source == source && d.valueType == AskMeType(f.fieldType)
    && d.title == if f.title.None? || f.title.value == "" then f.key else f.title.value
  }

  predicate FieldsAt(ds: seq<TokenDescriptor>, id: string, source: string, fs: seq<FormField>, at: seq<nat>) {
    && |at| == |ds|
    && forall j :: 0 <= j < |at| ==> at[j] < |fs| && IsOfField(ds[j], id, source, fs[at[j]])
  }

  lemma {:induction false} FormOutputsAt(id: string, source: string, fs: seq<FormField>) returns (at: seq<nat>)
    ensures AreKeyed(fs, at) && FieldsAt(FormOutputs(id, source, fs), id, source, fs, at)
  {
    hide IsOfField;
    if fs == [] {
      at := [];
    } else {
      var rest := FormOutputsAt(id, source, fs[1..]);
      var later := seq(|rest|, j requires 0 <= j < |rest| => rest[j] + 1);
      KeyedLater(fs, rest, later);
      at := if fs[0].key == "" then later else [0] + later;
      FieldsLater(FormOutputs(id, source, fs[1..]), id, source, fs, rest, later);
      FormCons(id, source, fs);
    }
  }

  lemma FormCons(id: string, source: string, fs: seq<FormField>)
    requires fs != []
    ensures var all, rest := FormOutputs(id, source, fs), FormOutputs(id, source, fs[1..]);
            if fs[0].key == "" then all == rest
            else all != [] && IsOfField(all[0], id, source, fs[0]) && all == [all[0]] + rest
  {
  }

  lemma FieldsLater(
    ds: seq<TokenDescriptor>, id: string, source: string, fs: seq<FormField>, rest: seq<nat>, later: seq<nat>)
    requires fs != [] && FieldsAt(ds, id, source, fs[1..], rest) && |later| == |rest|
    requires forall j :: 0 <= j < |rest| ==> later[j] == rest[j] + 1
    ensures FieldsAt(ds, id, source, fs, later)
    ensures forall d :: IsOfField(d, id, source, fs[0]) ==> FieldsAt([d] + ds, id, source, fs, [0] + later)
  {
    hide IsOfField;
    forall j | 0 <= j < |rest| ensures IsOfField(ds[j], id, source, fs[later[j]]) {
      assert fs[1..][rest[j]] == fs[later[j]];
    }
  }

  lemma KeyedLater(fs: seq<FormField>, rest: seq<nat>, later: seq<nat>)
    requires fs != [] && AreKeyed(fs[1..], rest) && |later| == |rest|
    requires forall j :: 0 <= j < |rest| ==> later[j] == rest[j] + 1
    ensures AreKeyed(fs, if fs[0].key == "" then later else [0] + later)
  {
    forall i | 1 <= i < |fs| ensures fs[i].key != "" <==> i in later {
      assert fs[1..][i - 1] == fs[i];
      if i - 1 in rest {
        var j :| 0 <= j < |rest| && rest[j] == i - 1;
        assert later[j] == i;
      }
    }
  }

  /**
   * A form puts out its fields with a key, in order, each token with the type,
   * the options and the title of its field.
   */
  lemma FormPutsOut(step: Step, catalog: Catalog) returns (at: seq<nat>)
    requires step.AskMe?
    ensures AreKeyed(step.formFields, at) && |at| == |StepProduces(step, catalog)|
    ensures forall j :: 0 <= j < |at| ==>
      at[j] < |step.formFields| && var d, f := StepProduces(step, catalog)[j], step.formFields[at[j]];
      && d.nameOrdinal == OutputNameOrdinal(step)
      && IsOfField(d.(nameOrdinal := None), step.id, StepLabel(step, catalog), f)
  {
    hide StepLabel, OutputNameOrdinal, FormOutputs, AreKeyed, StepProduces;
    at := FormOutputsAt(step.id, StepLabel(step, catalog), step.formFields);
    StampedOutputs(step, catalog);
  }

  // ----- triggers

  lemma {:induction false} TriggerPutsOut(triggers: seq<Trigger>, d: TokenDescriptor)
    ensures d in TriggerTokens(triggers) <==> exists t :: t in triggers && d in TokensOfTrigger(t)
  {
    hide TokensOfTrigger;
    if triggers != [] {
      TriggerPutsOut(triggers[1..], d);
      if exists t :: t in triggers && d in TokensOfTrigger(t) {
        var t :| t in triggers && d in TokensOfTrigger(t);
        assert t == triggers[0] || t in triggers[1..];
      }
    }
  }

  lemma BuiltinNames()
    ensures Nominal(BuiltinTokens()[0]) == "today" && Nominal(BuiltinTokens()[1]) == "now"
  {
    hide SanitizeVariableName;
    SanitizeKeepsIff("today");
    SanitizeKeepsIff("now");
  }

  lemma TriggerNames(t: Trigger, d: TokenDescriptor)
    requires d in TokensOfTrigger(t)
    ensures Nominal(d) in {"trigger_result", "trigger_chat_id"} <==> t.Event?
    ensures Nominal(d) == "trigger_payload" <==> t.Webhook?
  {
    hide VariableNameFor;
    TypedNames(d);
  }

  lemma HasToken(triggers: seq<Trigger>, t: Trigger, k: nat) returns (i: nat)
    requires t in triggers && k < |TokensOfTrigger(t)|
    ensures i < |BaseScope(triggers)| && BaseScope(triggers)[i] == TokensOfTrigger(t)[k]
  {
    hide TokensOfTrigger, TriggerTokens, BuiltinTokens;
    var d := TokensOfTrigger(t)[k];
    TriggerPutsOut(triggers, d);
    assert d in TriggerTokens(triggers) && d in BaseScope(triggers);
    i :| 0 <= i < |BaseScope(triggers)| && BaseScope(triggers)[i] == d;
  }

  lemma EventNames(triggers: seq<Trigger>)
    requires Event in triggers
    ensures "trigger_result" in Build(BaseScope(triggers)).byName
    ensures "trigger_chat_id" in Build(BaseScope(triggers)).byName
  {
    hide Build, VariableNameFor;
    var i := HasToken(triggers, Event, 0);
    var j := HasToken(triggers, Event, 1);
    AskedIsNamed(BaseScope(triggers), i);
    AskedIsNamed(BaseScope(triggers), j);
    TypedNames(BaseScope(triggers)[i]);
    TypedNames(BaseScope(triggers)[j]);
  }

  lemma WebhookNames(triggers: seq<Trigger>)
    requires Webhook in triggers
    ensures "trigger_payload" in Build(BaseScope(triggers)).byName
  {
    hide Build, VariableNameFor;
    var i := HasToken(triggers, Webhook, 0);
    AskedIsNamed(BaseScope(triggers), i);
    TypedNames(BaseScope(triggers)[i]);
  }

  /**
   * What can be typed before the first step: the built-ins, and a trigger's names
   * if and only if there is such a trigger; any other name has a suffix.
   */
  lemma NamesAtTheTop(triggers: seq<Trigger>, name: string)
    ensures var names := Build(BaseScope(triggers)).byName;
            && (name in {"today", "now"} ==> name in names)
            && (name in {"trigger_result", "trigger_chat_id"} ==> (name in names <==> Event in triggers))
            && (name == "trigger_payload" ==> (name in names <==> Webhook in triggers))
            && (name in names && OrdinalOf(name).None? ==>
                  name in {"today", "now", "trigger_result", "trigger_chat_id", "trigger_payload"})
  {
    hide Build, VariableNameFor, Nominal, TokensOfTrigger, OrdinalOf, TriggerTokens, BuiltinTokens;
    var ds := BaseScope(triggers);
    BuiltinNames();
    PlainNames();
    AskedBuiltins(triggers);
    if Event in triggers {
      EventNames(triggers);
    }
    if Webhook in triggers {
      WebhookNames(triggers);
    }
    if name in Build(ds).byName && OrdinalOf(name).None? {
      NamedIsAsked(ds, name);
      var i :| 0 <= i < |ds| && name == Nominal(ds[i]);
      if ds[i] in TriggerTokens(triggers) {
        TriggerPutsOut(triggers, ds[i]);
        var t :| t in triggers && ds[i] in TokensOfTrigger(t);
        TriggerNames(t, ds[i]);
        TriggerKinds(t, ds[i]);
      }
    }
  }

  lemma TriggerKinds(t: Trigger, d: TokenDescriptor)
    requires d in TokensOfTrigger(t)
    ensures t.Event? || t.Webhook?
  {
  }

  lemma AskedBuiltins(triggers: seq<Trigger>)
    ensures var names := Build(BaseScope(triggers)).byName; "today" in names && "now" in names
    ensures forall d :: d in BaseScope(triggers) ==>
      d in TriggerTokens(triggers) || Nominal(d) == "today" || Nominal(d) == "now"
  {
    hide Build, Nominal, TriggerTokens;
    BuiltinNames();
    AskedIsNamed(BaseScope(triggers), 0);
    AskedIsNamed(BaseScope(triggers), 1);
  }

  /** None of these names ends in an ordinal. */
  lemma PlainNames()
    ensures OrdinalOf("trigger_result").None? && OrdinalOf("trigger_chat_id").None?
    ensures OrdinalOf("trigger_payload").None?
  {
  }
}
