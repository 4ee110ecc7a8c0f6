/** A whole definition through the editor: `{token}` parts to names on load, names back to parts on save. */
module DefinitionTrip {
  import opened CharClasses
  import opened Automation
  import opened Naming
  import opened Scope
  import opened ScopeLaws
  import opened ChipConvert
  import opened ChipRoundTrip
  import opened ChipCanonical
  import opened StepChipText

  /** The namespace a step's own fields are read in. */
  function NamespaceAt(d: Definition, catalog: Catalog, id: string): Namespace {
    Build(ScopeAt(d, catalog, Some(id)))
  }

  function TextToChipText(text: string): ChipText {
    if text == "" then [] else [Lit(text)]
  }

  ghost function Loading(d: Definition, catalog: Catalog): Mapper {
    (v: ChipText, owner: Step) => TextToChipText(PrintParts(v, NamespaceAt(d, catalog, owner.id), true))
  }

  ghost function Saving(d: Definition, catalog: Catalog): Mapper {
    (v: ChipText, owner: Step) =>
      var ns := NamespaceAt(d, catalog, owner.id);
      Parts(PrintParts(v, ns, true), ns)
  }

  /** On load: every field becomes plain text. */
  ghost function NormalizeDefinition(d: Definition, catalog: Catalog): Definition {
    d.(steps := MapSteps(d.steps, Loading(d, catalog)))
  }

  /** On save: every name in scope becomes a token again. */
  ghost function DefinitionTextToRefs(d: Definition, catalog: Catalog): Definition {
    d.(steps := MapSteps(d.steps, Saving(d, catalog)))
  }

  ghost function IsCanonicalIn(d: Definition, catalog: Catalog): (ChipText, Step) -> bool {
    (v: ChipText, owner: Step) => Canonical(v, Build(ScopeAt(d, catalog, Some(owner.id))), true, false)
  }

  lemma PlainTextPrints(text: string, ns: Namespace)
    ensures PrintParts(TextToChipText(text), ns, true) == text
  {
    if text != "" {
      PrintLit(text, [], ns, true);
    }
  }

  /** Two predicates that agree on every owner with an id in `ids` hold of the same fields. */
  lemma {:induction false} SameFields(
    steps: seq<Step>, ids: set<string>, p: (ChipText, Step) -> bool, q: (ChipText, Step) -> bool)
    requires Ids(steps) <= ids
    requires forall v: ChipText, o: Step :: o.id in ids ==> p(v, o) == q(v, o)
    ensures EachField(steps, p) <==> EachField(steps, q)
    decreases steps, 0
  {
    hide EachFieldOf, IdsOf;
    if steps != [] {
      SameFieldsOf(steps[0], ids, p, q);
      SameFields(steps[1..], ids, p, q);
    }
  }

  lemma {:induction false} SameFieldsOf(
    step: Step, ids: set<string>, p: (ChipText, Step) -> bool, q: (ChipText, Step) -> bool)
    requires IdsOf(step) <= ids
    requires forall v: ChipText, o: Step :: o.id in ids ==> p(v, o) == q(v, o)
    ensures EachFieldOf(step, p) <==> EachFieldOf(step, q)
    decreases step, 1
  {
    hide EachField, EachFieldIn, Ids, BranchIds;
    assert step.id in ids;
    match step {
      case If(_, thenSteps, otherwise) =>
        SameFields(thenSteps, ids, p, q);
        SameFields(otherwise, ids, p, q);
      case Repeat(_, _, steps) => SameFields(steps, ids, p, q);
      case Loop(_, _, steps) => SameFields(steps, ids, p, q);
      case Retry(_, steps) => SameFields(steps, ids, p, q);
      case Parallel(_, branches) => SameFieldsIn(branches, ids, p, q);
      case _ =>
    }
  }

  lemma {:induction false} SameFieldsIn(
    branches: seq<Branch>, ids: set<string>, p: (ChipText, Step) -> bool, q: (ChipText, Step) -> bool)
    requires BranchIds(branches) <= ids
    requires forall v: ChipText, o: Step :: o.id in ids ==> p(v, o) == q(v, o)
    ensures EachFieldIn(branches, p) <==> EachFieldIn(branches, q)
    decreases branches, 0
  {
    hide EachField, Ids;
    if branches != [] {
      SameFields(branches[0].steps, ids, p, q);
      SameFieldsIn(branches[1..], ids, p, q);
    }
  }

  /** Loading changes no scope, so saving reads each field with the names it was written with. */
  lemma SavingAfterLoading(d: Definition, catalog: Catalog, v: ChipText, owner: Step)
    ensures var d' := NormalizeDefinition(d, catalog);
            var ns := NamespaceAt(d, catalog, owner.id);
            Then(Loading(d, catalog), Saving(d', catalog))(v, owner) == Parts(PrintParts(v, ns, true), ns)
  {
    hide PrintParts, Parts, Build, ScopeAt, MapSteps;
    MapKeepsScope(d, Loading(d, catalog), catalog, Some(owner.id));
    PlainTextPrints(PrintParts(v, NamespaceAt(d, catalog, owner.id), true), NamespaceAt(d, catalog, owner.id));
  }

  /**
   * A definition survives the trip through the editor exactly when every field,
   * at any depth, is canonical in its own step's scope.
   */
  lemma DefinitionSurvives(d: Definition, catalog: Catalog)
    ensures DefinitionTextToRefs(NormalizeDefinition(d, catalog), catalog) == d
            <==> EachField(d.steps, IsCanonicalIn(d, catalog))
  {
    hide PrintParts, Parts, Build, ScopeAt, MapSteps, EachField, Canonical, Ids, Loading, Saving;
    var d' := NormalizeDefinition(d, catalog);
    var f, g := Loading(d, catalog), Saving(d', catalog);
    SavingIsById(d', catalog);
    MapTwice(d.steps, f, g);
    MapIsIdentity(d.steps, Then(f, g));
    forall v: ChipText, o: Step | o.id in Ids(d.steps)
      ensures FixedBy(Then(f, g))(v, o) == IsCanonicalIn(d, catalog)(v, o)
    {
      SavingAfterLoading(d, catalog, v, o);
      BuiltIsSound(ScopeAt(d, catalog, Some(o.id)));
      StructuralRoundTrip(v, NamespaceAt(d, catalog, o.id));
    }
    SameFields(d.steps, Ids(d.steps), FixedBy(Then(f, g)), IsCanonicalIn(d, catalog));
  }

  lemma SavingIsById(d: Definition, catalog: Catalog)
    ensures ById(Saving(d, catalog))
  {
    hide PrintParts, Parts, NamespaceAt;
  }

  // ----- what each direction leaves

  /** Plain text: nothing, or one literal that is not empty. */
  predicate IsPlain(v: ChipText) {
    v == [] || (|v| == 1 && v[0].Lit? && v[0].text != "")
  }

  function PlainText(v: ChipText): string
    requires IsPlain(v)
  {
    if v == [] then "" else v[0].text
  }

  /** The loaded field is plain text: the old field printed with the names in scope at its own step. */
  ghost function IsLoaded(d: Definition, catalog: Catalog): (ChipText, ChipText, Step) -> bool {
    (v: ChipText, w: ChipText, owner: Step) =>
      IsPlain(w) && PlainText(w) == PrintParts(v, Build(ScopeAt(d, catalog, Some(owner.id))), true)
  }

  /** The saved field is what the text of a plain one reads as, with the names in scope at its own step. */
  ghost function IsSavedText(d: Definition, catalog: Catalog): (ChipText, ChipText, Step) -> bool {
    (v: ChipText, w: ChipText, owner: Step) =>
      IsPlain(v) ==> w == Parts(PlainText(v), Build(ScopeAt(d, catalog, Some(owner.id))))
  }

  /** After loading every field, at any depth, is the plain text of what it was, and nothing else has changed. */
  lemma LoadingLeavesText(d: Definition, catalog: Catalog)
    ensures var d' := NormalizeDefinition(d, catalog);
            d'.triggers == d.triggers && EachPair(d.steps, d'.steps, IsLoaded(d, catalog))
  {
    hide PrintParts, Build, ScopeAt, MapSteps, EachPair;
    MapRelates(d.steps, Loading(d, catalog), IsLoaded(d, catalog));
  }

  /** Saving turns each plain field, at any depth, into what its text reads as; nothing else changes. */
  lemma SavingReadsText(d: Definition, catalog: Catalog)
    ensures var d' := DefinitionTextToRefs(d, catalog);
            d'.triggers == d.triggers && EachPair(d.steps, d'.steps, IsSavedText(d, catalog))
  {
    hide PrintParts, Parts, Build, ScopeAt, MapSteps, EachPair;
    forall v: ChipText, o: Step ensures IsSavedText(d, catalog)(v, Saving(d, catalog)(v, o), o) {
      if IsPlain(v) {
        assert TextToChipText(PlainText(v)) == v;
        PlainTextPrints(PlainText(v), NamespaceAt(d, catalog, o.id));
      }
    }
    MapRelates(d.steps, Saving(d, catalog), IsSavedText(d, catalog));
  }

  /** Edits a step cannot see change neither how its fields are loaded nor how they are saved. */
  lemma UnseenEditsKeepFields(d: Definition, steps: seq<Step>, catalog: Catalog, v: ChipText, owner: Step)
    requires SameBefore(d.steps, steps, owner.id, catalog)
    ensures Loading(d, catalog)(v, owner) == Loading(d.(steps := steps), catalog)(v, owner)
    ensures Saving(d, catalog)(v, owner) == Saving(d.(steps := steps), catalog)(v, owner)
  {
    hide PrintParts, Parts, Build, ScopeAt, SameBefore;
    ScopeIsCausal(d, steps, owner.id, catalog);
  }
}
