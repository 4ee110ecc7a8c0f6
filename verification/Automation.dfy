/** The automation definition and the tokens its triggers and steps produce. */
module Automation {
  import opened CharClasses

  const STEP_TRIGGER := "trigger"
  const STEP_BUILTIN := "builtin"
  const STEP_CURRENT := "current"

  datatype TokenRef = TokenRef(stepId: string, output: string, field: Option<string>)

  datatype ChipPart = Lit(text: string) | Token(token: TokenRef)

  type ChipText = seq<ChipPart>

  datatype ValueType = Text | Number | List | Choice | Date | Object

  datatype SourceKind = FromBuiltin | FromTrigger | FromAgent | FromAskMe | FromAction | FromItem | FromVariable

  datatype TokenDescriptor = TokenDescriptor(
    ref: TokenRef,
    title: string,
    valueType: ValueType,
    sourceKind: SourceKind,
    source: string,
    fields: Option<seq<string>>,
    options: Option<seq<string>>,
    nameOrdinal: Option<nat>)

  datatype ExpectedOutput = ExpectedOutput(key: string, valueType: ValueType, options: Option<seq<string>>)

  datatype FieldType = TextField | NumberField | ChoiceField | MultiField | TextareaField

  datatype FormField = FormField(key: string, fieldType: FieldType, title: Option<string>, options: Option<seq<string>>)

  datatype OutputType = TextOutput | NumberOutput | ListOutput | RecordOutput

  datatype ActionOutput = ActionOutput(name: string, outputType: OutputType)

  datatype ActionEntry = ActionEntry(id: string, title: string, outputs: seq<ActionOutput>)

  type Catalog = seq<ActionEntry>

  datatype Step =
    | AskAgent(id: string, outputName: Option<string>, prompt: ChipText, branchName: Option<ChipText>,
               expects: seq<ExpectedOutput>)
    | AskMe(id: string, outputName: Option<string>, title: string, formFields: seq<FormField>)
    | RunAction(id: string, outputName: Option<string>, actionId: string, params: map<string, ChipText>)
    | Notify(id: string, message: ChipText)
    | SetVariable(id: string, name: string, value: ChipText)
    | Wait(id: string)
    | Break(id: string)
    | If(id: string, thenSteps: seq<Step>, otherwise: seq<Step>)
    | Repeat(id: string, items: TokenRef, steps: seq<Step>)
    | Loop(id: string, isWhile: bool, steps: seq<Step>)
    | Retry(id: string, steps: seq<Step>)
    | Parallel(id: string, branches: seq<Branch>)

  datatype Branch = Branch(steps: seq<Step>)

  datatype Trigger = Schedule | Event | Webhook

  datatype Definition = Definition(triggers: seq<Trigger>, steps: seq<Step>)

  /** The steps that carry a stored `outputName`. */
  predicate IsProducing(step: Step) {
    step.AskAgent? || step.AskMe? || step.RunAction?
  }

  // ----- what triggers and built-ins produce

  function Descriptor(stepId: string, output: string, title: string, valueType: ValueType, sourceKind: SourceKind,
                      source: string): TokenDescriptor {
    TokenDescriptor(TokenRef(stepId, output, None), title, valueType, sourceKind, source, None, None, None)
  }

  function BuiltinTokens(): seq<TokenDescriptor> {
    [Descriptor(STEP_BUILTIN, "today", "Today", Date, FromBuiltin, "Built-in"),
     Descriptor(STEP_BUILTIN, "now", "Now", Date, FromBuiltin, "Built-in")]
  }

  function TokensOfTrigger(trigger: Trigger): seq<TokenDescriptor> {
    match trigger
    case Schedule => []
    case Event =>
      [Descriptor(STEP_TRIGGER, "result", "Result", Text, FromTrigger, "Trigger"),
       Descriptor(STEP_TRIGGER, "chatId", "Chat", Text, FromTrigger, "Trigger")]
    case Webhook => [Descriptor(STEP_TRIGGER, "payload", "Payload", Object, FromTrigger, "Trigger")]
  }

  function TriggerTokens(triggers: seq<Trigger>): seq<TokenDescriptor> {
    if triggers == [] then [] else TokensOfTrigger(triggers[0]) + TriggerTokens(triggers[1..])
  }

  function BaseScope(triggers: seq<Trigger>): seq<TokenDescriptor> {
    BuiltinTokens() + TriggerTokens(triggers)
  }

  method CollectTriggerTokens(triggers: seq<Trigger>) returns (out: seq<TokenDescriptor>)
    ensures out == TriggerTokens(triggers)
  {
    hide Descriptor, TriggerTokens;
    out := [];
    assert triggers[0..] == triggers;
    for i := 0 to |triggers|
      invariant out + TriggerTokens(triggers[i..]) == TriggerTokens(triggers)
    {
      NextTrigger(triggers, i);
      if triggers[i].Event? {
        out := out + [Descriptor(STEP_TRIGGER, "result", "Result", Text, FromTrigger, "Trigger"),
                      Descriptor(STEP_TRIGGER, "chatId", "Chat", Text, FromTrigger, "Trigger")];
      } else if triggers[i].Webhook? {
        out := out + [Descriptor(STEP_TRIGGER, "payload", "Payload", Object, FromTrigger, "Trigger")];
      }
    }
    NoMoreTriggers(triggers);
  }

  lemma NextTrigger(triggers: seq<Trigger>, i: nat)
    requires i < |triggers|
    ensures TriggerTokens(triggers[i..]) == TokensOfTrigger(triggers[i]) + TriggerTokens(triggers[i + 1..])
  {
    hide Descriptor;
    assert triggers[i..][1..] == triggers[i + 1..];
  }

  lemma NoMoreTriggers(triggers: seq<Trigger>)
    ensures TriggerTokens(triggers[|triggers|..]) == []
  {
  }

  // ----- decimal ordinals

  function DigitValue(c: char): nat
    requires IsDigit(c)
  {
    c as int - '0' as int
  }

  function DigitChar(d: nat): char
    requires d < 10
  {
    ('0' as int + d) as char
  }

  function Decimal(n: nat): string {
    if n < 10 then [DigitChar(n)] else Decimal(n / 10) + [DigitChar(n % 10)]
  }

  predicate AllDigits(s: string) {
    forall i :: 0 <= i < |s| ==> IsDigit(s[i])
  }

  function DecimalValue(s: string): nat
    requires AllDigits(s)
  {
    if s == "" then 0 else 10 * DecimalValue(s[..|s| - 1]) + DigitValue(s[|s| - 1])
  }

  lemma {:induction false} DecimalRoundTrip(n: nat)
    ensures Decimal(n) != "" && AllDigits(Decimal(n)) && DecimalValue(Decimal(n)) == n
  {
    if n >= 10 {
      DecimalRoundTrip(n / 10);
      assert Decimal(n)[..|Decimal(n)| - 1] == Decimal(n / 10);
    } else {
      assert Decimal(n)[..0] == "";
    }
  }

  /** How many digits `s` ends with. */
  function TrailingDigits(s: string): nat
    ensures TrailingDigits(s) <= |s| && AllDigits(s[|s| - TrailingDigits(s)..])
  {
    if s == "" || !IsDigit(s[|s| - 1]) then 0
    else
      var k := TrailingDigits(s[..|s| - 1]);
      assert s[|s| - 1 - k..] == s[..|s| - 1][|s| - 1 - k..] + [s[|s| - 1]];
      1 + k
  }

  /** The ordinal of a stored name: the number after a trailing underscore. */
  function OrdinalOf(name: string): Option<nat> {
    var k := TrailingDigits(name);
    if 0 < k < |name| && name[|name| - k - 1] == '_' then Some(DecimalValue(name[|name| - k..])) else None
  }

  function Suffixed(base: string, ordinal: nat): string {
    base + "_" + Decimal(ordinal)
  }

  lemma {:induction false} TrailingDigitsOf(a: string, d: string)
    requires AllDigits(d) && (a == "" || !IsDigit(a[|a| - 1]))
    ensures TrailingDigits(a + d) == |d|
    decreases |d|
  {
    if d == "" {
      assert a + d == a;
    } else {
      assert (a + d)[..|a + d| - 1] == a + d[..|d| - 1];
      TrailingDigitsOf(a, d[..|d| - 1]);
    }
  }

  lemma OrdinalOfSuffixed(base: string, ordinal: nat)
    ensures OrdinalOf(Suffixed(base, ordinal)) == Some(ordinal)
  {
    var d := Decimal(ordinal);
    DecimalRoundTrip(ordinal);
    TrailingDigitsOf(base + "_", d);
    assert Suffixed(base, ordinal)[|base| + 1..] == d;
  }

  lemma SuffixedInjective(base: string, m: nat, n: nat)
    requires Suffixed(base, m) == Suffixed(base, n)
    ensures m == n
  {
    OrdinalOfSuffixed(base, m);
    OrdinalOfSuffixed(base, n);
  }

  // ----- what steps produce

  function Capitalize(s: string): string {
    if s != "" && 'a' <= s[0] <= 'z' then [(s[0] as int - 32) as char] + s[1..] else s
  }

  function OutputLabel(name: string): string {
    var labels := map[
      "output" := "Output", "exitCode" := "Exit code", "content" := "File text", "status" := "Status",
      "body" := "Response", "prUrl" := "PR URL", "prNumber" := "PR number", "prs" := "Open PRs",
      "pageUrl" := "Page URL", "workItemId" := "Work item ID", "url" := "URL", "result" := "Result"];
    if name in labels then labels[name] else Capitalize(name)
  }

  function FindAction(catalog: Catalog, id: string): Option<ActionEntry> {
    if catalog == [] then None
    else if catalog[0].id == id then Some(catalog[0])
    else FindAction(catalog[1..], id)
  }

  function Or(s: string, fallback: string): string {
    if s == "" then fallback else s
  }

  function StepLabel(step: Step, catalog: Catalog): string {
    match step
    case AskAgent(_, _, _, _, _) => "Ask agent"
    case AskMe(_, _, title, _) => Or(title, "Ask me")
    case RunAction(_, _, actionId, _) =>
      (match FindAction(catalog, actionId) case None => "Run an action" case Some(a) => Or(a.title, "Run an action"))
    case Notify(_, _) => "Notify me"
    case Wait(_) => "Wait"
    case SetVariable(_, name, _) => if name == "" then "Set a value" else "Set " + name
    case If(_, _, _) => "If … otherwise"
    case Repeat(_, _, _) => "Repeat for each"
    case Loop(_, isWhile, _) => if isWhile then "Repeat while" else "Repeat until"
    case Break(_) => "Stop the loop"
    case Retry(_, _) => "Retry on failure"
    case Parallel(_, _) => "Run in parallel"
  }

  function AgentOutputs(id: string, source: string, expects: seq<ExpectedOutput>): seq<TokenDescriptor> {
    if expects == [] then []
    else
      var e := expects[0];
      [Descriptor(id, e.key, Capitalize(e.key), e.valueType, FromAgent, source).(options := e.options)]
      + AgentOutputs(id, source, expects[1..])
  }

  function AskMeType(t: FieldType): ValueType {
    match t
    case MultiField => List
    case ChoiceField => Choice
    case NumberField => Number
    case TextField => Text
    case TextareaField => Text
  }

  function FormOutputs(id: string, source: string, formFields: seq<FormField>): seq<TokenDescriptor> {
    if formFields == [] then []
    else
      var f := formFields[0];
      var rest := FormOutputs(id, source, formFields[1..]);
      if f.key == "" then rest
      else
        var title := if f.title.Some? then Or(f.title.value, f.key) else f.key;
        [Descriptor(id, f.key, title, AskMeType(f.fieldType), FromAskMe, source).(options := f.options)] + rest
  }

  function ActionType(t: OutputType): ValueType {
    match t
    case TextOutput => Text
    case NumberOutput => Number
    case ListOutput => List
    case RecordOutput => Object
  }

  function ActionOutputs(id: string, source: string, actionId: string, outputs: seq<ActionOutput>)
    : seq<TokenDescriptor>
  {
    if outputs == [] then []
    else
      var o := outputs[0];
      var itemFields :=
        if o.outputType.ListOutput? && actionId == "github.list_prs" then Some(["url", "title", "number", "author"])
        else None;
      [Descriptor(id, o.name, OutputLabel(o.name), ActionType(o.outputType), FromAction, source).(fields := itemFields)]
      + ActionOutputs(id, source, actionId, outputs[1..])
  }

  function ProducedBy(step: Step, catalog: Catalog): seq<TokenDescriptor>
    decreases step, 0
  {
    var source := StepLabel(step, catalog);
    match step
    case AskAgent(id, _, _, _, expects) =>
      [Descriptor(id, "result", "Result", Text, FromAgent, source),
       Descriptor(id, "chatId", "Chat", Text, FromAgent, source)] + AgentOutputs(id, source, expects)
    case AskMe(id, _, _, formFields) => FormOutputs(id, source, formFields)
    case RunAction(id, _, actionId, _) =>
      (match FindAction(catalog, actionId)
       case None => []
       case Some(a) => ActionOutputs(id, source, actionId, a.outputs))
    case SetVariable(id, name, _) => [Descriptor(id, "value", name, Text, FromVariable, source)]
    case If(_, thenSteps, otherwise) => AllProduce(thenSteps, catalog) + AllProduce(otherwise, catalog)
    case Notify(_, _) => []
    case Wait(_) => []
    case Break(_) => []
    case Repeat(_, _, _) => []
    case Loop(_, _, _) => []
    case Retry(_, _) => []
    case Parallel(_, _) => []
  }

  function AllProduce(steps: seq<Step>, catalog: Catalog): seq<TokenDescriptor>
    decreases steps, 0
  {
    if steps == [] then [] else StepProduces(steps[0], catalog) + AllProduce(steps[1..], catalog)
  }

  /** The ordinal of a step's stored name, or `None` for the unsuffixed first holder. */
  function OutputNameOrdinal(step: Step): Option<nat> {
    if IsProducing(step) && step.outputName.Some? then OrdinalOf(step.outputName.value) else None
  }

  function WithOrdinal(ds: seq<TokenDescriptor>, ordinal: nat): seq<TokenDescriptor> {
    seq(|ds|, i requires 0 <= i < |ds| => ds[i].(nameOrdinal := Some(ordinal)))
  }

  /** The tokens a step produces, each stamped with the step's stored ordinal. */
  function StepProduces(step: Step, catalog: Catalog): seq<TokenDescriptor>
    decreases step, 1
  {
    var produced := ProducedBy(step, catalog);
    match OutputNameOrdinal(step)
    case None => produced
    case Some(n) => WithOrdinal(produced, n)
  }
}
