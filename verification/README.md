# Mainframe, modelled and proved in Dafny

This project models the parts of Mainframe where the logic is hardest to get right, and proves what they promise.

**The `$name` domain of automations.** A field of a recipe is edited as text with `$name.path` and `${name.path}`
references and saved as structural parts. `VariableText` gives the grammar of references and reads a text into tokens;
`Extraction`, `Rewriting`, `Renaming` and `ChipConvert` hold the index loops, each proved to compute a map over those tokens.
`ReferenceLaws` says what becomes of one reference and one token. `Naming`, `SnakeCase` and `NamespaceLaws` assign names
to the tokens in scope, `StepOutputs` says which there are; `Scope`, `ScopeLaws` and `ScopePath` walk the step tree;
`Minting*` pins names to steps and shows what they then mean; `ChipRoundTrip`, `ChipCanonical`, `StepChipText` and `DefinitionTrip`
are the two conversions and their round trips, from one field up to a whole definition.

**The adapter catalog.** `Registry` is the daemon's refresh as interleaved steps of any number of callers, with cancellation;
`RegistryRuns` proves what holds over all runs and ties the registry object to those steps, `RegistryOutcomes` what a run
comes to. `AdapterCatalog` is the client
that merges listings and events, and follows the registry through a network that reorders and repeats; `SeedGuard` is the
generation guard of its fetches.

**Terminals.** `Terminals` is the manager, its reader threads and the reap channel as a state machine; `TerminalLaws` proves
that no session is lost and none lingers; `TerminalOutcomes` says who was killed and what
each reader put out; `TerminalManager` holds the methods and the reader loop.

**The workspace.** `LayoutPlacement` places the two surfaces; `RunPane` has the reducers on panes and tabs, `RunPaneLaws`,
`RunPaneOps` and `RunPaneMoves` their laws, stated on the multiset of all tabs, `RunPaneOrder` where each tab then stands;
`LayoutActions` is one step of the store, `LayoutLaws` and `LayoutEffects` what a step keeps, lets go, lights and shows,
`LayoutBooks` the accounts over all sessions and whole runs, `LayoutStore` the store itself, valid when its books balance.

**Three scanners.** `MaskLexer` blanks literals and comments of Rust source in place; `Versions` has the two searches for
`N.N.N`; `Base64` the encoder for file contents.

Code that changes state step by step is written as methods and classes here, tied to a function that the lemmas are about.
Interleavings are state machines whose steps are the points where the original can be interrupted.

Where the code and its documentation differ, the model follows the code:

- The two conversions are called inverses (`chip-text-convert.ts:6-12`). They are, exactly on the inputs that
  `TextRoundTrip`, `StructuralRoundTrip` and `DefinitionSurvives` characterise: a braced reference at a word boundary is
  reprinted bare, a literal that extends a bare reference is absorbed by it, and a second name of one reference is
  reprinted as the other.
- Names are said to be fixed by the stored ordinal. A first output whose own name ends in `_` and digits is stored
  unsuffixed and read back with an ordinal (`SuffixedBaseClashes`); `NewNamesAddressIff` is the exact condition.
- A stored ordinal is said to make a typed name mean the same step wherever it sits. Inserting steps above keeps that if
  and only if no inserted token is given a name that was in use (`InsertionKeepsMeanings`, `InsertionKeepsNamesIff`).
  Minting checks the first output of a step only, so a later one can take a name (`InsertedFormTakesTheName`); and it does
  not look out for the item of a repeat further down (`FirstOutputTakesItem`).
- `nameFor` is meant as the inverse of `byName`; two event triggers break it, and so does every repeat in a repeat
  whose lists are in scope (`TwoEventTriggersClash`, `NestedRepeatsClash`, `CoherentIff`).
- The revision guard does not cover `installed`: the last verdict decides, in an event or a listing, however stale
  (`InstalledIsTheLastVerdict`, `LastVerdictDecides`).
- A refresh that is cancelled while it probes keeps its slot: no later caller gets to probe that adapter (`SlotTakenIff`).
- Loading is said to leave a token without a name as text that is reported. When another token has that name by then,
  saving turns it into a token of that one (`DanglingToken`).
- Seeding is meant for the time before the first refresh; `ReseedingIsSafeIff` says exactly when it is safe later.
- One preview per pane and scope is kept by every action of the store that fits, but not by `moveTabToPaneEdge`, which the store does
  not call (`MoveLaw`, `MovingDoublesPreviews`).
- Focusing a tab that is not in the pane leaves the pane without a valid active tab (`BadFocusBreaks`).
- The restore after a chat split is not the inverse of the move when the chat is not lit (`SplitThenUnsplit`).
- A terminal id used again can lose the new session, exactly when an earlier reader of the id has not reported its end or
  the report is not drained (`InsertIsSafeIff`, `KilledIdIsNotSafe`).
- Kill-before-remove holds on the closing paths. A workspace that was never saved under a session, and a session that is
  pruned, take their terminals and URL tabs with them, and the store kills and releases nothing (`MoveBalancesIff`,
  `LosingLosesATab`).

## Model

| member | source | states |
|---|---|---|
| Extraction.ScanPathSegment | packages/types/src/automation-domain/variables.ts:44-48 | the index loop stops exactly behind the run of name characters |
| Extraction.ScanName | packages/types/src/automation-domain/variables.ts:38-41 | a name starts with a letter or underscore; the result is behind it, or where it started |
| Extraction.ScanBody | packages/types/src/automation-domain/variables.ts:56-68 | the `name.path` read from an index is the grammar's body there; nothing moves when there is no name; a period that no segment follows is left alone |
| Extraction.ExtractVariableRefs | packages/types/src/automation-domain/variables.ts:80-100 | the loop that jumps over each reference returns what trying every index in turn returns |
| Extraction.ExtractionMeetsGrammar | packages/types/src/automation-domain/variables.ts:70-100 | a reference is returned if and only if the grammar admits it; the references are in order and disjoint, and hold no second `$` |
| VariableText.ReadsGrammatical | packages/types/src/automation-domain/variables.ts:50-68 | every longest reference the grammar admits at the head of a text is the one read there |
| VariableText.ReadIsGrammatical | packages/types/src/automation-domain/variables.ts:50-68 | whatever is read at the head of a text is a legal, longest reference, in the spelling that stands there |
| VariableText.LexPrints | packages/types/src/automation-domain/variables.ts:70-100 | reading a whole text into characters and references loses nothing: written out again it is the text |
| VariableText.LexOfPrinted | packages/types/src/automation-domain/variables.ts:70-100 | a token list that is legal in its context, once written, reads back as itself |
| VariableText.RefHeadLocal | packages/types/src/automation-domain/variables.ts:80-98 | what is read at a `$` does not depend on anything from the next `$` on |
| Rewriting.RenderVariableText | packages/types/src/automation-domain/variables.ts:149-159 | the cursor loop renders each known reference and leaves an unknown one as it is spelled |
| Rewriting.SpliceIsSubst | packages/types/src/automation-domain/variables.ts:149-159 | copying the slices between chosen references and writing new text in their places is the same as rewriting token by token, for every choice |
| ReferenceLaws.ReferenceIsRendered | packages/types/src/automation-domain/variables.ts:149-159 | each reference of a text is rendered on its own, as its value at its path or as it is spelled, and the text on its sides as if it were alone |
| ReferenceLaws.UnknownStays | packages/types/src/automation-domain/variables.ts:149-159 | a text in which nothing refers to a value is rendered as it is |
| Renaming.RenameVariableRefs | packages/types/src/automation-domain/variables.ts:243-253 | the loop rewrites exactly the references to the old name, each in its own spelling |
| Renaming.RenamedReads | packages/types/src/automation-domain/variables.ts:242-253 | for a legal new name, a renamed text reads as the renamed tokens: no reference appears, vanishes or grows |
| Renaming.RenamingPreservesRendering | packages/types/src/automation-domain/variables.ts:149-253 | for a legal new name that is neither mentioned nor defined, the renamed text under the renamed values renders as before |
| Renaming.RenamingBack | packages/types/src/automation-domain/variables.ts:242-253 | renaming back restores the text if and only if the text did not mention the new name (or the names are equal) |
| Automation.CollectTriggerTokens | packages/types/src/automation-domain/tokens.ts:83-115 | the loop over triggers gathers the tokens of each, in order |
| StepOutputs.NamesAtTheTop | packages/types/src/automation-domain/tokens.ts:58-115 | what can be typed before the first step: the built-ins, and the names of a trigger if and only if there is such a trigger; every other name has a suffix |
| StepOutputs.AgentPutsOut | packages/types/src/automation-domain/tokens.ts:218-253 | an agent puts out its result, its chat and each expected key in order, with its type and options, all with the ordinal stored |
| StepOutputs.FormPutsOut | packages/types/src/automation-domain/tokens.ts:254-267 | a form puts out exactly its fields with a key, in order, each token with the type, the options and the title of its field |
| StepOutputs.ActionPutsOut | packages/types/src/automation-domain/tokens.ts:268-284 | an action puts out what the first catalog entry for it says, in order, and nothing when the catalog has none |
| Automation.OrdinalOfSuffixed | packages/types/src/automation-domain/tokens.ts:203-207 | the ordinal parsed from a suffixed name is the ordinal that was written |
| Naming.SanitizedIsValid | packages/types/src/automation-domain/variables.ts:164-172 | sanitizing any text gives one legal identifier |
| SnakeCase.SanitizeKeepsIff | packages/types/src/automation-domain/variables.ts:164-172 | a text is kept as it is if and only if it is a lower-case name already; so sanitizing twice is sanitizing once |
| SnakeCase.CamelBecomesSnake | packages/types/src/automation-domain/variables.ts:165-169 | words run together in camel case become the words with underscores between them |
| SnakeCase.SnakeAppend | packages/types/src/automation-domain/variables.ts:165-169 | two texts side by side are folded each on its own, with an underscore between them exactly where a lower-case letter or digit meets a capital |
| SnakeCase.TypedNames | packages/types/src/automation-domain/variables.ts:174-190 | what is typed for the outputs of triggers and agents and for the item of a repeat |
| SnakeCase.AuthoredNames | packages/types/src/automation-domain/variables.ts:180-189 | any other token is typed as it was authored if and only if that is a lower-case name |
| Naming.BaseNameIsValid | packages/types/src/automation-domain/variables.ts:174-190 | the base name of every descriptor is one legal identifier |
| Naming.FirstFree | packages/types/src/automation-domain/variables.ts:226-228 | the suffix search ends, with the least suffix whose name is free |
| Naming.Assign | packages/types/src/automation-domain/variables.ts:222-232 | the name given is free: the nominal one whenever that is free, else none for a user variable, else the base with the least free suffix |
| Naming.BuildVariableNamespace | packages/types/src/automation-domain/variables.ts:217-235 | the loop over descriptors builds the namespace defined by adding them one at a time |
| NamespaceLaws.NamesAreValid | packages/types/src/automation-domain/variables.ts:217-235 | every name of a namespace can be typed and read back |
| NamespaceLaws.NamesAreDistinct | packages/types/src/automation-domain/variables.ts:213-232 | two tokens never get one name, each name leads to its own token, and only a repeated user variable stays unnamed |
| NamespaceLaws.AppendKeepsNames | packages/types/src/automation-domain/variables.ts:205-210 | descriptors that come later rebind no name |
| NamespaceLaws.CoherentIff | packages/types/src/automation-domain/variables.ts:192-235 | `byName` and `nameFor` are inverse if and only if no two tokens of the scope that get a name share a reference |
| NamespaceLaws.DistinctRefsAreCoherent | packages/types/src/automation-domain/variables.ts:192-235 | `byName` and `nameFor` are inverse for every scope with distinct references |
| NamespaceLaws.SharedRefBreaks | packages/types/src/automation-domain/variables.ts:230-234 | two tokens with one reference, neither a user variable, always break the inverse |
| NamespaceLaws.LastNameWins | packages/types/src/automation-domain/variables.ts:230-235 | `nameFor` gives the name of the last token of the reference that was named, and none if and only if no token of it was |
| NamespaceLaws.TwoEventTriggersClash | packages/types/src/automation-domain/tokens.ts:83-103 | in the scope of a definition with two event triggers `nameFor` does not invert `byName` |
| NamespaceLaws.OrderDoesNotMatter | packages/types/src/automation-domain/variables.ts:205-211 | when the nominal names are distinct, every permutation of the scope gives the same names, and with distinct references the same namespace |
| Scope.WalkLoop | packages/types/src/automation-domain/token-scope.ts:32-70 | the loop with its early returns computes the recursive walk |
| Scope.WalkGathers | packages/types/src/automation-domain/token-scope.ts:32-70 | a walk finds its target if and only if the target is in the tree; a whole walk adds what every step produces, in order |
| ScopePath.ScopeIsSeenAlongTheWay | packages/types/src/automation-domain/token-scope.ts:32-85 | the scope of every step is what is seen on the way to it: built-ins and triggers, then list by list what the steps passed by produce, and the current item of each repeat entered |
| ScopePath.CurrentItemIff | packages/types/src/automation-domain/token-scope.ts:13-25 | a repeat has a current item if and only if the list it goes over is in scope, and the item has the fields of the first token with that reference |
| ScopePath.WhatLeaks | packages/types/src/automation-domain/token-scope.ts:39-67 | what a block leaves to the steps behind it: an `if` what its two arms would one after the other, any other block nothing |
| ScopeLaws.UnseenEdits | packages/types/src/automation-domain/token-scope.ts:32-70 | lists of steps that agree before the target, along the way to it, give it the same scope |
| ScopeLaws.ScopeIsCausal | packages/types/src/automation-domain/token-scope.ts:78-85 | two definitions that agree before the target give it the same scope |
| ScopeLaws.SameBeforeSelf | packages/types/src/automation-domain/token-scope.ts:72-85 | every definition agrees with itself before each of its steps, so the relation covers every target |
| ScopeLaws.AroundTheTarget | packages/types/src/automation-domain/token-scope.ts:46-67 | agreement before the target allows any edit after the block that holds the target, and any exchange before it that produces the same tokens |
| ScopeLaws.NestedRepeatsClash | packages/types/src/automation-domain/token-scope.ts:44-56 | inside a repeat in a repeat two tokens share one reference, so there `nameFor` never inverts `byName` |
| ChipConvert.ChipTextToText | packages/types/src/automation-domain/chip-text-convert.ts:35-49 | the loop that chooses each spelling from the text written so far prints the parts in context |
| ReferenceLaws.TokenIsOneReference | packages/types/src/automation-domain/chip-text-convert.ts:35-49 | a token is written as one reference that reads back where it stands, by its name in scope, or by its sanitized output when it has none |
| ReferenceLaws.DanglingToken | packages/types/src/automation-domain/chip-text-convert.ts:30-75 | a token nothing names any more comes back from load and save as that text, unless another token has the name by now: then as that token |
| ChipConvert.TextToRefs | packages/types/src/automation-domain/chip-text-convert.ts:61-75 | the cursor loop gives the parts of the text's tokens: known references become tokens, the rest merges into literals |
| ChipConvert.SplitOfJoin | packages/types/src/automation-domain/chip-text-convert.ts:43-69 | a dotted path survives being joined into a field and split again |
| ChipConvert.JoinOfSplit | packages/types/src/automation-domain/chip-text-convert.ts:43-69 | a field survives being split into a path and joined again |
| ChipRoundTrip.BuiltIsSound | packages/types/src/automation-domain/variables.ts:217-235 | every namespace built from descriptors is fit for the round trips: well formed, all names legal |
| ChipRoundTrip.TextRoundTrip | packages/types/src/automation-domain/chip-text-convert.ts:35-75 | text to parts to text is the identity if and only if every known reference is bare where a bare `$` opens one, braced elsewhere, and named as `nameFor` gives its token back; unknown names survive verbatim |
| ChipRoundTrip.TextRoundTripWhenCoherent | packages/types/src/automation-domain/chip-text-convert.ts:35-75 | where names and references are inverse, it is the identity if and only if every known braced reference sits mid-word |
| ChipCanonical.SavedIsCanonical | packages/types/src/automation-domain/chip-text-convert.ts:61-75 | what saving writes is canonical if and only if no literal in it extends a bare reference that loading would write before it |
| ChipCanonical.StructuralRoundTrip | packages/types/src/automation-domain/chip-text-convert.ts:6-75 | parts to text to parts is the identity if and only if the parts are canonical |
| StepChipText.MapKeepsScope | packages/types/src/automation-domain/step-chip-text.ts:12-50 | rewriting chip text, by any mapper, changes the scope of no step |
| StepChipText.MapIsIdentity | packages/types/src/automation-domain/step-chip-text.ts:12-50 | the traversal changes nothing if and only if the mapper changes no field, at any depth |
| StepChipText.MapTwice | packages/types/src/automation-domain/step-chip-text.ts:12-50 | two traversals are one, when the second looks at the owner's id only |
| StepChipText.MapRelates | packages/types/src/automation-domain/step-chip-text.ts:12-50 | whatever relation the mapper puts between a field and its image holds between all fields of a step and its image, at any depth, and nothing else changes |
| DefinitionTrip.DefinitionSurvives | packages/types/src/automation-domain/chip-text-convert.ts:77-119 | for every definition: load then save gives it back if and only if every field is canonical in the scope of its own step |
| DefinitionTrip.LoadingLeavesText | packages/types/src/automation-domain/chip-text-convert.ts:77-104 | after loading, every field at any depth is one plain string, or none when empty: the old field as it is written in the scope of its own step |
| DefinitionTrip.SavingReadsText | packages/types/src/automation-domain/chip-text-convert.ts:77-119 | saving turns every plain field, at any depth, into what its text reads as in the scope of its own step, and changes nothing else |
| DefinitionTrip.UnseenEditsKeepFields | packages/types/src/automation-domain/chip-text-convert.ts:77-119 | edits a step cannot see change neither how its fields are loaded nor how they are saved |
| Minting.MintFor | packages/types/src/automation-domain/output-name.ts:166-172 | the name minted is free: the base unless that is taken, and then the base with the least free suffix |
| Minting.MintWalk | packages/types/src/automation-domain/output-name.ts:174-208 | the loop over growing sets, with a copy for each repeat body, computes the recursive pass |
| MintingLaws.VariableClaims | packages/types/src/automation-domain/output-name.ts:43-46 | a user variable claims its own name if that has no blanks around it, and none if and only if it is blank |
| MintingLaws.MintingSettles | packages/types/src/automation-domain/output-name.ts:224-236 | after a pass no reachable step with an output lacks a name |
| MintingLaws.ReachedIff | packages/types/src/automation-domain/output-name.ts:174-222 | a pass reaches exactly the steps that `if` and `repeat` blocks alone lead to, at any depth |
| MintingLaws.MintingIsIdempotent | packages/types/src/automation-domain/output-name.ts:224-236 | a second pass returns its input |
| MintingLaws.MintingOnlyAddsNames | packages/types/src/automation-domain/output-name.ts:210-236 | with unique ids a pass changes exactly the steps that waited for a name, and in them nothing but the name |
| MintingLaws.InsertionKeepsNames | packages/types/src/automation-domain/output-name.ts:210-236 | mint, add steps anywhere, mint again: every step is still there with the name it has stored, only blocks grow inside |
| MintingScope.NamesStayIff | packages/types/src/automation-domain/variables.ts:205-232 | however tokens are inserted into a scope: each old token keeps its name if and only if no inserted one is given a name that was in use |
| MintingScope.InsertionKeepsMeanings | packages/types/src/automation-domain/output-name.ts:1-19 | mint, insert steps anywhere in the tree, mint again: at every step that was there the old tokens are still in scope in order, each keeps its name if and only if no inserted token is given a name in use, and then each name that could be typed leads where it led |
| MintingScope.InsertionKeepsNamesIff | packages/types/src/automation-domain/output-name.ts:166-208 | the same in terms of what minting checks: an inserted token given its minted name only has to spare names in use that the pass does not look out for, every other inserted token all names in use |
| MintingScope.LaterOutputsDecide | packages/types/src/automation-domain/output-name.ts:187-206 | where the pass looks out for every name in use, the old tokens keep their names if and only if no other inserted token than the minted first outputs takes one |
| MintingScope.MintedSparesSettled | packages/types/src/automation-domain/output-name.ts:8-13 | a minted name is no name of a settled step anywhere in the if/repeat tree, and none of a built-in or trigger |
| MintingScope.MeaningsStayIff | packages/types/src/automation-domain/variables.ts:205-235 | where references are distinct, what the typed names mean stays if and only if no inserted token takes one of them |
| MintingScope.DistinctNamesKeepMeanings | packages/types/src/automation-domain/output-name.ts:1-19 | every name keeps its meaning when the tokens now in scope ask for distinct names |
| MintingScope.NominalIff | packages/types/src/automation-domain/variables.ts:222-232 | every token of a scope is found under the name it asks for if and only if no two ask for the same |
| MintingInputs.InsertedFormTakesTheName | packages/types/src/automation-domain/output-name.ts:187-206 | a form with fields `x` and `agent_result` inserted above the step that stores `agent_result`: the form stores `x`, and below it `agent_result` now leads to the form |
| MintingInputs.FirstOutputTakesItem | packages/types/src/automation-domain/output-name.ts:187-206 | a form with the field `item` inserted above a repeat stores `item`, and inside the repeat `item` now leads to the form |
| MintingFresh.MintedNamesAreFresh | packages/types/src/automation-domain/output-name.ts:174-208 | a new name differs from all reserved names and all names claimed earlier in its region or one around it, both `if` arms being one region; inside a repeat it is not `item` |
| MintingFresh.MintedNamesAreLeast | packages/types/src/automation-domain/output-name.ts:166-208 | when a new name has a suffix, the base name and each smaller suffix of it are reserved, base names, claimed earlier in its region or one around it, or `item` inside a repeat |
| MintingFresh.NewNamesAddressIff | packages/types/src/automation-domain/output-name.ts:166-208 | every new name is the one its step is addressed by if and only if each name picked had a base that was taken or does not end in `_` and digits |
| MintingFresh.StoredNameReadsBack | packages/types/src/automation-domain/output-name.ts:166-206 | a stored name reads back with the ordinal it was minted with if and only if its base was taken or does not itself end in `_` and digits |
| MintingFresh.SuffixedBaseClashes | packages/types/src/automation-domain/tokens.ts:203-221 | a form whose field is keyed `q_2` is addressed as `q_2_2` and clashes with a variable of that name |
| Registry.NextKeepsInv | packages/core-rs/crates/mainframe-adapter-api/src/lib.rs:238-411 | every step of every caller, cancellation included, keeps the invariant |
| Registry.PublishedGrows | packages/core-rs/crates/mainframe-adapter-api/src/lib.rs:367-411 | no step changes the models a revision was published with |
| RegistryRuns.RegistryIsSafe | packages/core-rs/crates/mainframe-adapter-api/src/lib.rs:238-411 | in every state of every run: one refresh per adapter at a time, events numbered 2, 3, 4, … per adapter, and the stored snapshot never behind an emitted event |
| RegistryRuns.RevisionDeterminesModels | packages/core-rs/crates/mainframe-adapter-api/src/lib.rs:367-411 | no revision is seen with two model lists, in any two states of a run |
| RegistryOutcomes.SnapshotsTell | packages/core-rs/crates/mainframe-adapter-api/src/lib.rs:367-411 | in every state of a run a snapshot has the last verdict on the installation, the last version and the last models that were written for it, and one revision for each time models were |
| RegistryOutcomes.EventsTell | packages/core-rs/crates/mainframe-adapter-api/src/lib.rs:390-411 | in every state of a run the events of an adapter are, in order, those of the writes that found models, once each; the last one may be owed |
| RegistryOutcomes.NothingBeforeAllowed | packages/core-rs/crates/mainframe-adapter-api/src/lib.rs:240-243 | until refreshes are allowed no caller gets past the entrance: nothing is probed, stored or sent |
| RegistryOutcomes.SucceededIff | packages/core-rs/crates/mainframe-adapter-api/src/lib.rs:345-347 | an adapter is done with if and only if a live catalog of it came back |
| RegistryOutcomes.NothingAfterSuccess | packages/core-rs/crates/mainframe-adapter-api/src/lib.rs:240-243 | from then on no caller gets past the entrance for it that was not past it before |
| RegistryOutcomes.SlotTakenIff | packages/core-rs/crates/mainframe-adapter-api/src/lib.rs:244-261 | a slot is taken if and only if a caller holds it or one was cancelled while it probed |
| RegistryRuns.ReseedingIsSafeIff | packages/core-rs/crates/mainframe-adapter-api/src/lib.rs:177-196 | seeding again keeps, in every continuation, events behind snapshots and one model list per revision, if and only if no seeded adapter has an event out or owed or first showed other models |
| RegistryRuns.AdapterRegistry.SeedStaticSnapshots | packages/core-rs/crates/mainframe-adapter-api/src/lib.rs:178-196 | the object is reseeded for its registered adapters, no others; the laws then hold for ever if and only if that was safe |
| RegistryRuns.AdapterRegistry.Enter | packages/core-rs/crates/mainframe-adapter-api/src/lib.rs:238-258 | a caller is skipped exactly when refreshing is off or has succeeded, waits only on a taken slot, and otherwise is the one task that holds it; each way as steps of the machine |
| RegistryRuns.AdapterRegistry.ApplyRefresh | packages/core-rs/crates/mainframe-adapter-api/src/lib.rs:367-411 | as steps of the machine: snapshot first, event second, returned in this order; no event without models; nothing for an adapter without a snapshot |
| RegistryRuns.AdapterRegistry.Finish | packages/core-rs/crates/mainframe-adapter-api/src/lib.rs:259-356 | as steps of the machine that keep the invariant: a live catalog is remembered, and afterwards no task holds the slot, so the next caller gets it |
| RegistryRuns.AdapterRegistry.Abandon | packages/core-rs/crates/mainframe-adapter-api/src/lib.rs:259-281 | a probe that fails or has nothing to ask gives the slot back, by steps of the machine, and writes nothing |
| AdapterCatalog.AdaptersStore.SeedAdapters | packages/ui/src/store/adapters.ts:30-49 | the loop merges a listing entry by entry, models only when newer |
| AdapterCatalog.AdaptersStore.ApplyAdapterModels | packages/ui/src/store/adapters.ts:54-89 | an event is applied as specified, with a placeholder for an unknown adapter |
| AdapterCatalog.AdaptersStore.ResetRevisionBaseline | packages/ui/src/store/adapters.ts:93-99 | every revision is dropped, nothing else |
| AdapterCatalog.CatalogConverges | packages/ui/src/store/adapters.ts:25-99 | since the last reset, for every order and repetition of messages, the revision is the highest delivered and the models are those published under it |
| AdapterCatalog.DeliverRaises | packages/ui/src/store/adapters.ts:25-89 | for every catalog and every list of messages the revision becomes the highest there was or came |
| AdapterCatalog.RevisionsNeverDecrease | packages/ui/src/store/adapters.ts:25-89 | delivering more, whatever it is, never takes a revision back |
| AdapterCatalog.OrderAndRepetitionDoNotMatter | packages/ui/src/store/adapters.ts:25-89 | two clients that received the same messages agree, in whatever order and number |
| AdapterCatalog.ClientFollowsRegistry | packages/ui/src/store/adapters.ts:25-99 | end to end: fed from any run of the registry, the client shows what the registry showed at the highest delivered revision |
| AdapterCatalog.InstalledIsTheLastVerdict | packages/ui/src/store/adapters.ts:25-89 | for every list of messages, listings included: `installed` is the last verdict delivered, however stale, and unchanged when there is none |
| AdapterCatalog.LastVerdictDecides | packages/ui/src/store/adapters.ts:25-89 | two deliveries of the same messages agree on `installed` if and only if they agree on the last verdict |
| AdapterCatalog.IdentityIsTheLastEntry | packages/ui/src/store/adapters.ts:25-89 | for every catalog and list of messages: name and capabilities are those of the last listing entry delivered for the adapter; with none they stay, or are the placeholder of an adapter first seen in an event |
| AdapterCatalog.OffersComeWhole | packages/ui/src/store/adapters.ts:36-89 | models, revision and source go together: those of one message delivered, or as they were, and as they were whenever the revision is |
| AdapterCatalog.ModelsSurviveReset | packages/ui/src/store/adapters.ts:93-99 | what was shown before a reset of the baseline stays in view until a message brings a revision |
| AdapterCatalog.OrderDecidesInstalled | packages/ui/src/store/adapters.ts:51-66 | in every catalog, two orders of two events for one adapter agree on `installed` if and only if the verdicts are equal |
| SeedGuard.AppliedInOrder | packages/ui/src/store/adapters-seed.ts:4-42 | over every order of starting, superseding, settling and failing, the applied generations increase strictly |
| SeedGuard.NothingOlderIsApplied | packages/ui/src/store/adapters-seed.ts:4-42 | after a switch, a newer fetch or an invalidation, in every continuation, only fetches begun by it or later are applied |
| SeedGuard.AppliedIff | packages/ui/src/store/adapters-seed.ts:4-42 | a fetch was applied if and only if its answer came while it was the current one |
| SeedGuard.PendingIff | packages/ui/src/store/adapters-seed.ts:21-42 | a fetch is under way if and only if it was begun and its promise has not settled |
| SeedGuard.CatalogIsDelivered | packages/ui/src/store/adapters-seed.ts:4-42 | from a switch to the next one the catalog is that of the switch, without revisions, with the events and the answers of current fetches delivered in order, so the laws of the catalog hold of it |
| SeedGuard.SeedFetches.InvalidateSeedFetches | packages/ui/src/store/adapters-seed.ts:8-10 | a step of the guard that keeps its invariant: every fetch under way is superseded |
| SeedGuard.SeedFetches.SeedAdaptersFor | packages/ui/src/store/adapters-seed.ts:21-29 | a step of the guard: a generation no fetch had begins, is current and under way, and the baseline is dropped |
| SeedGuard.SeedFetches.RefreshAdapters | packages/ui/src/store/adapters-seed.ts:35-42 | the same step without touching the baseline |
| SeedGuard.SeedFetches.Answered | packages/ui/src/store/adapters-seed.ts:24-27 | a step of the guard: the answer is merged if and only if its generation is current |
| TerminalLaws.StepKeepsInv | packages/app-tauri/src-tauri/src/terminal/mod.rs:75-185 | every step of the manager and the readers keeps the invariant, ids being safe |
| TerminalLaws.NoLostNoPhantomSession | packages/app-tauri/src-tauri/src/terminal/mod.rs:77-185 | in every interleaving a session is mapped if and only if nobody killed it and its end is not both reported and drained |
| TerminalLaws.DrainsRemoveOnlyEnded | packages/app-tauri/src-tauri/src/terminal/mod.rs:77-88 | a drain removes only sessions whose reader has ended |
| TerminalLaws.ExitIsLast | packages/app-tauri/src-tauri/src/terminal/reader.rs:24-33 | each reader fires its exit at most once and emits no data after it |
| TerminalLaws.InsertIsSafeIff | packages/app-tauri/src-tauri/src/terminal/mod.rs:100-148 | a session inserted under an id can never be lost if and only if every earlier reader of the id has reported its end and the report is drained |
| TerminalLaws.KilledIdIsNotSafe | packages/app-tauri/src-tauri/src/terminal/mod.rs:169-176 | right after a kill the id is not safe to use again |
| TerminalLaws.ReusedIdLosesSession | packages/app-tauri/src-tauri/src/terminal/mod.rs:77-176 | a run that spawns and kills reaches a state in which the same id again can lose its live session |
| TerminalOutcomes.KilledIff | packages/app-tauri/src-tauri/src/terminal/mod.rs:169-184 | in every run a session counts as killed if and only if a kill found it mapped, under its id or with all of them |
| TerminalOutcomes.OutputsTell | packages/app-tauri/src-tauri/src/terminal/reader.rs:14-34 | in every run a reader puts out data once for each time it reads some, and its exit when it fires it, in this order |
| TerminalManager.RunReaderLoop | packages/app-tauri/src-tauri/src/terminal/reader.rs:14-34 | the effects, in order: every chunk up to the first end or error, then one exit, then one report |
| TerminalManager.ForwardedIs | packages/app-tauri/src-tauri/src/terminal/reader.rs:25-31 | the chunks forwarded are those up to the first end or error, one by one |
| TerminalManager.Manager.DrainReaped | packages/app-tauri/src-tauri/src/terminal/mod.rs:77-88 | the drain takes every reported id, then removes those sessions |
| TerminalManager.Manager.Count | packages/app-tauri/src-tauri/src/terminal/mod.rs:90-93 | drain, then the number of sessions |
| TerminalManager.Manager.Spawn | packages/app-tauri/src-tauri/src/terminal/mod.rs:100-148 | drain, insert, start the reader, in this order; a failure changes nothing but the drain |
| TerminalManager.Manager.Write | packages/app-tauri/src-tauri/src/terminal/mod.rs:150-156 | drain, then success if and only if the id is mapped and the write and the flush go through |
| TerminalManager.Manager.Kill | packages/app-tauri/src-tauri/src/terminal/mod.rs:169-176 | one session goes, its reader will meet its end |
| TerminalManager.Manager.KillAll | packages/app-tauri/src-tauri/src/terminal/mod.rs:178-184 | all sessions go |
| LayoutPlacement.PlaceKeepsValid | packages/ui/src/store/layout-placement.ts:29-51 | placing keeps the arrangement legal and lights the surface |
| LayoutPlacement.RemoveKeepsValid | packages/ui/src/store/layout-placement.ts:53-67 | removing keeps it legal and takes the surface away unless it is the only one |
| LayoutPlacement.RepositionKeepsValid | packages/ui/src/store/layout-placement.ts:70-86 | repositioning keeps it legal and puts the surface on the side it was dropped on; the chat never goes to the strip |
| LayoutPlacement.OthersStayLit | packages/ui/src/store/layout-placement.ts:35-67 | neither placing nor removing one surface hides another |
| LayoutPlacement.PlacedWhere | packages/ui/src/store/layout-placement.ts:29-51 | placed beside each other, the chat is on the left; a lit surface stays where it is |
| LayoutPlacement.RemovedLeaves | packages/ui/src/store/layout-placement.ts:53-67 | what is left has the row to itself, and the chat comes back where nothing is left |
| LayoutPlacement.RepositionedWhere | packages/ui/src/store/layout-placement.ts:70-86 | a surface dropped on the row stands on its side of what is there, and above the workspace in the strip is the chat |
| LayoutPlacement.FloorIff | packages/ui/src/store/layout-placement.ts:88-107 | a lit surface may not be hidden if and only if the other one is not lit |
| LayoutPlacement.SplitAndRestore | packages/ui/src/store/layout-placement.ts:70-86 | parking the workspace and restoring it is the identity if and only if the chat is lit |
| RunPaneOps.CloseLaw | packages/ui/src/store/run-pane.ts:148-159 | the invariant is kept and exactly the named tab of the named pane goes |
| RunPaneOps.ClosePaneLaw | packages/ui/src/store/run-pane.ts:164-168 | exactly the tabs of the pane go |
| RunPaneOps.ReleaseLaw | packages/ui/src/store/run-pane.ts:196-206 | exactly the tabs of the scope go |
| RunPaneOrder.CloseRemains | packages/ui/src/store/run-pane.ts:148-159 | the tabs and panes that stay keep their order; each pane shows the tab it showed, or its last one when that tab went; the shares are even again with one pane |
| RunPaneOrder.ClosePaneRemains | packages/ui/src/store/run-pane.ts:164-168 | the other pane stays as it was, with all of the room |
| RunPaneOrder.ReleaseRemains | packages/ui/src/store/run-pane.ts:196-206 | the same for the tabs of every other scope |
| RunPaneOps.ActivateLaw | packages/ui/src/store/run-pane.ts:137-142 | focusing a tab that is there keeps the invariant and every tab |
| RunPaneOps.BadFocusBreaks | packages/ui/src/store/run-pane.ts:137-142 | the invariant survives focusing if and only if the tab is in the pane or no pane has that id |
| RunPaneOps.AddLaw | packages/ui/src/store/run-pane.ts:106-134 | a duplicate is focused, a new tab joins the target pane, and a pane that is gone is the one failure; the shape survives if and only if no open tab clashes, the preview rule if and only if the slot is free |
| RunPaneOps.AddFocuses | packages/ui/src/store/run-pane.ts:106-134 | the tab that is duplicated has the focus, or else the tab that joined |
| RunPaneOrder.AddPlaces | packages/ui/src/store/run-pane.ts:106-134 | a new tab comes last in the pane named, or else in the first, and nothing else moves; a repeated one changes the focus of its pane alone |
| RunPaneOps.AddToNothing | packages/ui/src/store/run-pane.ts:106-134 | with no workspace one is made, unless a pane that cannot exist is named |
| RunPaneMoves.RetargetLaw | packages/ui/src/store/run-pane.ts:216-229 | retargeting keeps the invariant, and the ids of every kind of tab |
| RunPaneMoves.RetargetShows | packages/ui/src/store/run-pane.ts:208-229 | afterwards a URL tab of the same scope shows the address: the tab itself or the sibling that held it |
| RunPaneOrder.RetargetPlaces | packages/ui/src/store/run-pane.ts:216-229 | the sibling at the address gets the focus and nothing else changes, or the tab shows address and title where it stands |
| RunPaneMoves.ReplaceLaw | packages/ui/src/store/run-pane.ts:225-228 | exchanging a tab for one with its id is a swap in the multiset of tabs |
| RunPaneMoves.PromoteInPanes | packages/ui/src/store/run-pane-file-tabs.ts:145-156 | the loop computes the promotion and reports a change if and only if the state differs |
| RunPaneMoves.PromoteLaw | packages/ui/src/store/run-pane-file-tabs.ts:145-156 | promoting keeps the invariant and all ids; no tab with the id is a preview afterwards |
| RunPaneOrder.PromotePlaces | packages/ui/src/store/run-pane-file-tabs.ts:145-156 | a promoted tab stays where it stands, and no other tab, focus or pane changes |
| RunPaneMoves.OpenLaw | packages/ui/src/store/run-pane-file-tabs.ts:111-138 | opening keeps the invariant, focuses a tab on the file, and makes room by at most one tab: the same file, or the preview of the same pane and scope |
| RunPaneOrder.OpenPlaces | packages/ui/src/store/run-pane-file-tabs.ts:70-138 | a file that is open is shown where it stands, never turned back into a preview, a diff with the sides given; a new tab comes into the pane named or the first, in the first preview of the scope or last; nothing else moves |
| RunPaneMoves.OpenInNothing | packages/ui/src/store/run-pane-file-tabs.ts:111-138 | with no workspace a valid one is made with that tab alone |
| RunPaneMoves.MoveLaw | packages/ui/src/store/run-pane-file-tabs.ts:164-171 | for every edge and run a move keeps the multiset of tabs, the ids and the shape; the preview rule survives if and only if the tab lands well |
| RunPaneMoves.MoveFocuses | packages/ui/src/store/run-pane-file-tabs.ts:158-171 | the moved tab has the focus where it lands; the only tab of a workspace stays put |
| RunPaneOrder.MovePlaces | packages/ui/src/store/run-pane-file-tabs.ts:158-171 | a moved tab leaves its pane as if closed and comes last in the first pane, or beside a single pane makes its own on the side of the edge |
| RunPaneMoves.DropSides | packages/ui/src/store/run-pane.ts:250-255 | on the left and the top edge the new pane is first, on the right and the bottom second; left and right stand side by side, top and bottom are stacked |
| RunPaneMoves.MoveSides | packages/ui/src/store/run-pane-file-tabs.ts:158-171 | a tab of a single pane, moved to an edge, stands there alone, and the others stay together, in order, in the pane they were in |
| RunPaneMoves.MovingDoublesPreviews | packages/ui/src/store/run-pane-file-tabs.ts:15-171 | a split workspace where joining the panes leaves two previews of one scope in one pane |
| LayoutLaws.CloseAccount | packages/ui/src/store/layout.ts:251-261 | what closing a tab disposes of is what leaves the run, once |
| LayoutLaws.ClosePaneAccount | packages/ui/src/store/layout.ts:263-272 | what closing a pane disposes of is what leaves the run, once |
| LayoutLaws.ReleaseAccount | packages/ui/src/store/layout.ts:274-283 | what releasing a launch scope disposes of is what leaves the run, once |
| LayoutLaws.StepLaw | packages/ui/src/store/layout.ts:157-283 | terminals killed and URL tabs released are exactly those that leave, once, and only the three closing actions drop any; the arrangement stays legal if and only if the action fits |
| LayoutBooks.MoveBalancesIff | packages/ui/src/store/layout.ts:116-289 | over all sessions: a move keeps every workspace legal and the accounts of killed terminals and released URL tabs balanced if and only if it fits, reuses no id, and takes no workspace with such a tab out of the store |
| LayoutBooks.LosingLosesATab | packages/ui/src/store/layout.ts:144-151 | a move that does take one out leaves a terminal or URL tab that is open nowhere and was never let go |
| LayoutBooks.UnsavedTerminalIsLost | packages/ui/src/store/layout.ts:116-151 | a terminal opened before the first session is shown is lost when it is |
| LayoutBooks.EveryRunAccounts | packages/ui/src/store/layout.ts:116-289 | after any run of actions, switches and clean-ups without such a move: a terminal was killed if and only if it was open once and is open in no session any more, URL tabs likewise, and nothing twice |
| LayoutLaws.PlaceWorkspaceLaw | packages/ui/src/store/layout.ts:127-136 | placing the workspace, split or not, keeps the arrangement legal and lights it |
| LayoutEffects.LightedWorkspace | packages/ui/src/store/layout.ts:127-136 | the workspace is lit in the strip while the chat is split, to go back to the right of the chat; otherwise at once to the right of the chat |
| LayoutEffects.LitAfter | packages/ui/src/store/layout.ts:157-283 | which surfaces every action leaves lit, if and only if |
| LayoutEffects.SplitWhere | packages/ui/src/store/layout.ts:186-195 | a split puts the workspace to the right or into the strip as asked; asked beside the chat while that is split, into the strip for now |
| LayoutEffects.RestoresOnce | packages/ui/src/store/layout.ts:206-211 | after a restore no side is remembered, and a second one does nothing |
| LayoutEffects.AskedIsShown | packages/ui/src/store/layout.ts:213-249 | the file, tab or address an action is about is what the workspace then shows, with the focus; a promoted file is no preview |
| LayoutEffects.WritesIff | packages/ui/src/store/layout.ts:157-225 | toggling, splitting, parking, restoring and promoting write the workspace if and only if they change it |
| LayoutEffects.SavedAgainIff | packages/ui/src/store/layout.ts:116-125 | a session pruned while on screen is remembered again once such an action changes its workspace, not before |
| LayoutEffects.SharesAddUp | packages/ui/src/store/layout.ts:172-184 | the shares of the row and of the height add up to one, the first one as asked for between 0.18 and 0.82 and kept within, and nothing else changes |
| LayoutEffects.SessionComesBack | packages/ui/src/store/layout.ts:116-151 | whatever is done in other sessions meanwhile, a saved session comes back with the layout and the panes it was left with |
| LayoutEffects.ShownIsSaved | packages/ui/src/store/layout.ts:144-151 | a session that is shown is remembered from then on, and no other session changes |
| LayoutEffects.BackAtOnceIff | packages/ui/src/store/layout.ts:144-151 | leaving and coming back at once restores the workspace if and only if it was saved or is a first one |
| LayoutLaws.ParkedComesBack | packages/ui/src/store/layout.ts:127-136 | a workspace lit under a chat split ends, after the split, where it would have been placed without one |
| LayoutLaws.SplitThenUnsplit | packages/ui/src/store/layout.ts:199-211 | the store's move and restore undo each other if and only if the chat is lit |
| LayoutStore.Store.constructor | packages/ui/src/store/layout.ts:138-142 | the store starts with balanced books |
| LayoutStore.Store.WriteWorkspace | packages/ui/src/store/layout.ts:116-125 | the workspace is shown, and remembered for the active session if there is one |
| LayoutStore.Store.PlaceTheWorkspace | packages/ui/src/store/layout.ts:130-136 | the placement under a visible chat split is claimed as a system move |
| LayoutStore.Store.SetActiveSession | packages/ui/src/store/layout.ts:144-151 | the session's own workspace, or a first one, is shown and no session changes; the books stay balanced if and only if the workspace left was saved or holds no terminal and no URL tab |
| LayoutStore.Store.PruneSessions | packages/ui/src/store/layout.ts:285-289 | the sessions not in the list are forgotten; the books stay balanced if and only if none of them that was away holds a terminal or a URL tab |
| LayoutStore.Store.ToggleSurface | packages/ui/src/store/layout.ts:157-170 | hides a lit surface unless it is the only one, places an unlit one; panes untouched, the step of the state machine in the active session and no other |
| LayoutStore.Store.SetTopFrac | packages/ui/src/store/layout.ts:172-178 | the two surfaces of the top row share it by the clamped fraction; nothing with one surface |
| LayoutStore.Store.SetVFrac | packages/ui/src/store/layout.ts:180-184 | top row and strip share the height by the clamped fraction |
| LayoutStore.Store.SplitSurface | packages/ui/src/store/layout.ts:186-195 | places the workspace beside or below as asked; nothing when it is placed already or the strip is taken |
| LayoutStore.Store.MoveWorkspaceForChatSplit | packages/ui/src/store/layout.ts:199-204 | a workspace in the top row goes to the strip and the side it came from is remembered |
| LayoutStore.Store.RestoreWorkspaceAfterChatSplit | packages/ui/src/store/layout.ts:206-211 | a workspace parked by the move returns to its side; the side is forgotten either way |
| LayoutStore.Store.OpenFile | packages/ui/src/store/layout.ts:213-218 | the reducer's run is shown and the workspace lit; the id returned is that of the focused tab |
| LayoutStore.Store.PromoteFile | packages/ui/src/store/layout.ts:220-225 | the promoted run, written only when something changed |
| LayoutStore.Store.AddTab | packages/ui/src/store/layout.ts:227-236 | the tab is added and the workspace lit; false, and no change at all, if and only if the named pane is gone |
| LayoutStore.Store.ActivateTab | packages/ui/src/store/layout.ts:238-242 | the tab is focused; nothing without a workspace |
| LayoutStore.Store.SetUrlTabTarget | packages/ui/src/store/layout.ts:244-249 | the retargeted run, written only when something changed |
| LayoutStore.Store.DisposeTab | packages/ui/src/store/layout.ts:254-256 | the terminal is killed or the URL tab released, by the kind of the tab found, before it is removed |
| LayoutStore.Store.CloseTab | packages/ui/src/store/layout.ts:251-261 | what leaves is disposed of and logged, then removed; an emptied workspace takes its surface away |
| LayoutStore.Store.CloseAllIn | packages/ui/src/store/layout.ts:263-272 | the terminals and URL tabs of the pane are disposed of and logged, then the pane is removed |
| LayoutStore.Store.ReleaseScope | packages/ui/src/store/layout.ts:274-283 | the terminals and URL tabs of the scope are disposed of and logged, then its tabs are removed |
| MaskLexer.ScanBlock | packages/core-rs/tools/verify_gate.py:80-93 | the depth counter ends where the nested comment ends |
| MaskLexer.ScanQuoted | packages/core-rs/tools/verify_gate.py:157-168 | the scan ends behind the closing quote, past every escape |
| MaskLexer.FindTerminator | packages/core-rs/tools/verify_gate.py:107-109 | the first quote followed by enough hashes ends a raw string |
| MaskLexer.Blank | packages/core-rs/tools/verify_gate.py:61-64 | exactly the range is blanked, newlines stay |
| MaskLexer.MaskCode | packages/core-rs/tools/verify_gate.py:53-154 | the pass over a character array, one walk, computes the recursive masking |
| MaskLexer.MaskShowsCode | packages/core-rs/tools/verify_gate.py:53-154 | every text splits into literals, comments and code, and however it is split, the output shows each character of the code and blanks each other one |
| MaskLexer.RegionIff | packages/core-rs/tools/verify_gate.py:66-168 | the scan at a place ends where a line comment, block comment, raw, byte or plain string or char literal that opens there ends, each described without a scan, and finds nothing, as for a lifetime, exactly when none opens |
| MaskLexer.MaskKeepsLines | packages/core-rs/tools/verify_gate.py:53-57 | length and newlines stay, and characters change to spaces only |
| MaskLexer.MaskLeavesNoOpener | packages/core-rs/tools/verify_gate.py:53-57 | no quote, no line comment and no block comment opener is left |
| MaskLexer.MaskIsIdempotent | packages/core-rs/tools/verify_gate.py:53-154 | masking twice is masking once |
| MaskLexer.RegionStopsClean | packages/core-rs/tools/verify_gate.py:98-127 | a blanked region ends at the end of the text, before a newline, or in a character no identifier holds |
| MaskLexer.StringIsOneRegion | packages/core-rs/tools/verify_gate.py:121-126 | a well-formed string literal is blanked to its closing quote, whatever it escapes |
| MaskLexer.CommentIsOneRegion | packages/core-rs/tools/verify_gate.py:80-96 | a block comment is blanked to its own end, however deep comments nest in it |
| MaskLexer.RawIsOneRegion | packages/core-rs/tools/verify_gate.py:100-112 | a raw string is blanked through quotes with fewer hashes |
| Versions.ParseVersion | packages/core-rs/crates/mainframe-adapter-api/src/lib.rs:66-99 | the scan that restarts at every position finds the leftmost greedy match of `\d+\.\d+\.\d+` (`resolve_executable.rs` holds the same text) |
| Versions.FirstVersionTriple | packages/core-rs/crates/mainframe-adapter-claude/src/adapter.rs:30-59 | the scan that skips what it has read finds the leftmost greedy match too |
| Versions.FirstTripleIsUnique | packages/core-rs/crates/mainframe-adapter-api/src/resolve_executable.rs:103-136 | the answer is determined, so all the scanners agree on every text |
| Versions.NoLongerMatch | packages/core-rs/crates/mainframe-adapter-api/src/lib.rs:66-99 | no match that starts where the leftmost one does is longer |
| Base64.Base64Encode | packages/app-tauri/src-tauri/src/commands/fs.rs:88-103 | the loop over chunks computes the encoding |
| Base64.DecodeEncode | packages/app-tauri/src-tauri/src/commands/fs.rs:88-103 | the length is four for every three bytes begun, and a strict decoder of section 4 of RFC 4648 gives the bytes back |
| Base64.EncodeDecode | packages/app-tauri/src-tauri/src/commands/fs.rs:88-103 | every text that decoder accepts is the encoding of what it decodes to |
| Base64.SymbolsSpellTheBits | packages/app-tauri/src-tauri/src/commands/fs.rs:88-103 | symbol k is that of the alphabet for the six bits from 6k on, highest bit first, and padding where no bit is left |

## Left out

- MintingFresh.MintedNamesAreFresh: is stated for definitions with unique step ids in which each picked name reads back, because otherwise a stored name is not the name in use (`NewNamesAddressIff`, `SuffixedBaseClashes`).
- MintingFresh.MintedNamesAreLeast: is stated for the same definitions.
- LayoutLaws.StepLaw: takes for granted, when a file is opened, that the new tab id is new and the kind is one of a file, as the id generator and the types of the code do.
- LayoutBooks.EveryRunAccounts: leaves out workspaces restored from storage after a reload; a run starts with an empty store.
- `resize` of a terminal, which changes no state that is modelled.
- AdapterCatalog.ClientFollowsRegistry: assumes one daemon since the last reset of the baseline.
- React components, HTTP, WebSocket, process spawning, files and the terminal emulator: steps with an arbitrary outcome, or absent.
- Digging into JSON values and turning them into text: one function from a value and a path to text.
- Non-ASCII letters: character classes and letter case are ASCII ones, except in `MaskLexer`, which leaves them open; texts are sequences of Dafny characters, not UTF-16 units.
- Ordinals are natural numbers: a stored suffix too long for a JavaScript number is read exactly.
- A reference key is a pair, not a string joined by a NUL character.
- Fields of steps and descriptors that nothing here reads: conditions, adapters, models, descriptions.
- `variableNamesClashingWith`, `variableNamesInDefinition`, `renameVariableInDefinition` and the messages of validation.
- That a refresh ever finishes, and the two-second cap on listing: only safety holds; the skip in end-to-end tests is one more way for a probe to find nothing.
- Random ids of panes and tabs are parameters.
- Persisting and migrating remembered sessions.
- `test_block_line_mask` and the pattern search over masked lines.
- The shifts and masks of the base64 encoder are written as division and remainder, its table as ranges.
