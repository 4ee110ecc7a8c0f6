/** The accounts of terminals and URL tabs over all sessions. */
module LayoutBooks {
  import opened CharClasses
  import opened LayoutPlacement
  import opened RunPane
  import opened RunPaneLaws
  import opened RunPaneOps
  import opened RunPaneMoves
  import opened LayoutActions
  import opened LayoutLaws

  /** What the store is asked to do: an action in the workspace on screen, another session, or a clean-up. */
  datatype Move = Do(action: Action) | Show(sessionId: string) | Prune(valid: set<string>)

  /** The store with its books: every terminal and URL tab that was ever open, and those let go, in order. */
  datatype Ledger = Ledger(
    ws: Ws,
    sessions: map<string, SessionWorkspace>,
    active: Option<string>,
    terminals: set<string>,
    urls: set<string>,
    killed: seq<string>,
    released: seq<string>)

  function EverOpen(l: Ledger, kind: TabKind): set<string> {
    if kind == Terminal then l.terminals else l.urls
  }

  function LetGo(l: Ledger, kind: TabKind): seq<string> {
    if kind == Terminal then l.killed else l.released
  }

  function Remembered(l: Ledger, ws: Ws): map<string, SessionWorkspace> {
    if l.active.None? then l.sessions else l.sessions[l.active.value := SessionWorkspace(ws.layout, ws.run)]
  }

  function WorkspaceOf(l: Ledger, s: string): SessionWorkspace {
    if s in l.sessions then l.sessions[s] else SessionWorkspace(INITIAL_LAYOUT, None)
  }

  function Shown(l: Ledger, s: string): Ledger {
    var w := WorkspaceOf(l, s);
    l.(ws := Ws(w.layout, w.run, l.ws.moved), sessions := l.sessions[s := w], active := Some(s))
  }

  function Pruned(l: Ledger, valid: set<string>): Ledger {
    l.(sessions := map s | s in l.sessions && s in valid :: l.sessions[s])
  }

  /** Can be done at all. */
  predicate Possible(l: Ledger, m: Move) {
    m.Do? && m.action.OpenFile? && l.ws.run.Some? ==> l.ws.run.value.panes != []
  }

  function Acted(l: Ledger, a: Action): Ledger
    requires Possible(l, Do(a))
  {
    var d := Act(l.ws, a);
    l.(ws := d.ws, sessions := if Writes(l.ws, a) then Remembered(l, d.ws) else l.sessions,
       killed := l.killed + d.killed, released := l.released + d.released)
  }

  ghost function Done(l: Ledger, a: Action): Ledger
    requires Possible(l, Do(a))
  {
    var l' := Acted(l, a);
    l'.(terminals := l.terminals + Live(l'.ws, Terminal), urls := l.urls + Live(l'.ws, Url))
  }

  ghost function After(l: Ledger, m: Move): Ledger
    requires Possible(l, m)
  {
    match m
    case Do(a) => Done(l, a)
    case Show(s) => Shown(l, s)
    case Prune(valid) => Pruned(l, valid)
  }

  // ----- the books

  /** A session that is remembered and not on screen. */
  predicate Away(l: Ledger, s: string) {
    s in l.sessions && l.active != Some(s)
  }

  ghost function IdsIn(l: Ledger, s: string, kind: TabKind): set<string> {
    if s in l.sessions then IdsOf(AllOf(l.sessions[s].run), kind) else {}
  }

  ghost function Elsewhere(l: Ledger, kind: TabKind): set<string> {
    set s, id | s in l.sessions && l.active != Some(s) && id in IdsIn(l, s, kind) :: id
  }

  /** What is on screen is what its session remembers; every workspace is legal. */
  ghost predicate Arranged(l: Ledger) {
    && ValidWs(l.ws)
    && (l.active.Some? && l.active.value in l.sessions ==>
          l.sessions[l.active.value] == SessionWorkspace(l.ws.layout, l.ws.run))
    && forall s :: s in l.sessions ==> ValidWs(Ws(l.sessions[s].layout, l.sessions[s].run, None))
  }

  /** No two workspaces hold the same terminal or URL tab. */
  ghost predicate Apart(l: Ledger, kind: TabKind) {
    && (forall s :: Away(l, s) ==> IdsIn(l, s, kind) !! Live(l.ws, kind))
    && (forall s, s' :: Away(l, s) && Away(l, s') && s != s' ==> IdsIn(l, s, kind) !! IdsIn(l, s', kind))
  }

  /** What was let go is what was open once and is now open nowhere, once each. */
  ghost predicate BalancedIn(l: Ledger, kind: TabKind) {
    && Apart(l, kind)
    && Live(l.ws, kind) + Elsewhere(l, kind) <= EverOpen(l, kind)
    && Elements(LetGo(l, kind)) == EverOpen(l, kind) - (Live(l.ws, kind) + Elsewhere(l, kind))
    && NoRepeats(LetGo(l, kind))
  }

  ghost predicate Balanced(l: Ledger) {
    Arranged(l) && BalancedIn(l, Terminal) && BalancedIn(l, Url)
  }

  /** The action fits, and a terminal or URL tab that comes in does not take the id of an earlier one. */
  ghost predicate Legal(l: Ledger, m: Move) {
    m.Do? ==>
      && Fits(l.ws, m.action)
      && (Born(l.ws, m.action, Terminal) !! l.terminals) && (Born(l.ws, m.action, Url) !! l.urls)
  }

  predicate IsSaved(l: Ledger) {
    l.active.Some? && l.active.value in l.sessions
  }

  ghost predicate Holds(run: Option<RunState>) {
    exists t :: t in AllOf(run) && Held(t.kind)
  }

  /** A workspace that holds a terminal or a URL tab leaves the store, and nobody lets the tab go. */
  ghost predicate Loses(l: Ledger, m: Move) {
    match m
    case Do(_) => false
    case Show(_) => !IsSaved(l) && Holds(l.ws.run)
    case Prune(valid) => exists s :: Away(l, s) && s !in valid && Holds(l.sessions[s].run)
  }

  lemma HoldsIs(run: Option<RunState>)
    ensures Holds(run) <==> IdsOf(AllOf(run), Terminal) != {} || IdsOf(AllOf(run), Url) != {}
  {
    hide AllOf;
    InIdsOf(AllOf(run), Terminal);
    InIdsOf(AllOf(run), Url);
  }

  lemma InIdsOf(tabs: multiset<RunTab>, kind: TabKind)
    ensures IdsOf(tabs, kind) != {} <==> exists t :: t in tabs && t.kind == kind
  {
    if t :| t in tabs && t.kind == kind {
      assert t.id in IdsOf(tabs, kind);
    }
  }

  // ----- an action in the workspace on screen

  lemma AwayKept(l: Ledger, a: Action, kind: TabKind)
    requires Possible(l, Do(a))
    ensures var l' := Done(l, a);
            && (forall s :: Away(l', s) <==> Away(l, s))
            && (forall s :: Away(l, s) ==> l'.sessions[s] == l.sessions[s])
            && Elsewhere(l', kind) == Elsewhere(l, kind)
  {
    hide Act, Writes, Live, IdsIn;
    var l' := Done(l, a);
    forall s | Away(l, s) ensures IdsIn(l', s, kind) == IdsIn(l, s, kind) {
      SameSessionSameIds(l, l', s, kind);
    }
    assert forall s, id :: s in l'.sessions && l'.active != Some(s) && id in IdsIn(l', s, kind)
                           <==> s in l.sessions && l.active != Some(s) && id in IdsIn(l, s, kind);
  }

  lemma SameSessionSameIds(l: Ledger, l': Ledger, s: string, kind: TabKind)
    requires s in l.sessions && s in l'.sessions && l'.sessions[s].run == l.sessions[s].run
    ensures IdsIn(l', s, kind) == IdsIn(l, s, kind)
  {
  }

  lemma BooksStep(l: Ledger, a: Action, kind: TabKind)
    requires Balanced(l) && Legal(l, Do(a)) && Held(kind)
    requires Possible(l, Do(a)) && Accounted(l.ws, a, Act(l.ws, a), kind)
    ensures BalancedIn(Done(l, a), kind)
  {
    hide Act, Live, Fits, NoRepeats, ValidWs, Elsewhere, IdsIn, Away, Arranged, Writes, Apart, Born;
    var d, l' := Act(l.ws, a), Done(l, a);
    var was, dropped := LetGo(l, kind), Dropped(d, kind);
    assert LetGo(l', kind) == was + dropped;
    assert EverOpen(l', kind) == EverOpen(l, kind) + Live(d.ws, kind);
    assert Elements(was + dropped) == Elements(was) + Elements(dropped);
    AwayKept(l, a, kind);
    ShownApart(l, kind);
    assert Born(l.ws, a, kind) !! EverOpen(l, kind);
    forall id | id in was ensures id !in dropped {
      assert id in Elements(was) && id !in Elements(dropped);
    }
    JoinNoRepeats(was, dropped);
    StaysApart(l, a, kind);
  }

  lemma ShownApart(l: Ledger, kind: TabKind)
    requires Apart(l, kind)
    ensures Live(l.ws, kind) !! Elsewhere(l, kind)
  {
    hide Live, IdsIn;
    forall id | id in Elsewhere(l, kind) ensures id !in Live(l.ws, kind) {
      var s :| s in l.sessions && l.active != Some(s) && id in IdsIn(l, s, kind);
      assert Away(l, s);
    }
  }

  lemma AwayIdsElsewhere(l: Ledger, s: string, kind: TabKind)
    requires Away(l, s)
    ensures IdsIn(l, s, kind) <= Elsewhere(l, kind)
  {
    hide IdsIn;
  }

  lemma StaysApart(l: Ledger, a: Action, kind: TabKind)
    requires Apart(l, kind) && Possible(l, Do(a))
    requires Live(Done(l, a).ws, kind) !! Elsewhere(l, kind)
    ensures Apart(Done(l, a), kind)
  {
    hide Act, Live, Writes, Elsewhere, Done;
    var l' := Done(l, a);
    AwayKept(l, a, kind);
    forall s | Away(l', s) ensures IdsIn(l', s, kind) == IdsIn(l, s, kind) && IdsIn(l', s, kind) !! Live(l'.ws, kind) {
      AwayIdsElsewhere(l, s, kind);
    }
  }

  lemma StaysArranged(l: Ledger, a: Action)
    requires Arranged(l) && Possible(l, Do(a)) && ValidWs(Act(l.ws, a).ws)
    requires !Writes(l.ws, a) ==> Act(l.ws, a).ws.layout == l.ws.layout && Act(l.ws, a).ws.run == l.ws.run
    ensures Arranged(Done(l, a))
  {
    hide Act, Live, Writes, ValidRun, ValidLayout;
  }

  /** Where the store writes nothing, nothing but the side of a parked workspace has changed. */
  lemma UnwrittenIsSame(ws: Ws, a: Action)
    requires a.OpenFile? && ws.run.Some? ==> ws.run.value.panes != []
    requires !Writes(ws, a)
    ensures Act(ws, a).ws.layout == ws.layout && Act(ws, a).ws.run == ws.run
  {
    hide OpenFileTab, AddRunTab, CloseRunTab, ClosePane, ReleaseRunScope, PlaceWorkspace, RemoveSurface,
         RepositionInLayout;
    if a.SetUrlTarget? && ws.run.Some? {
      UnretargetedIsSame(ws.run.value, a.tabId, a.url, a.title);
    }
  }

  lemma UnretargetedIsSame(run: RunState, tabId: string, url: string, title: string)
    requires !Retargets(run, tabId, url)
    ensures RetargetUrlTab(run, tabId, url, title) == run
  {
    hide FindHolder, FindTab;
  }

  lemma ActionBalances(l: Ledger, a: Action)
    requires Balanced(l) && Legal(l, Do(a))
    ensures Possible(l, Do(a)) && Balanced(Done(l, a))
  {
    hide Act, Live, Fits, Writes, BalancedIn, Accounted, ValidWs, Born;
    StepLaw(l.ws, a, Terminal);
    StepLaw(l.ws, a, Url);
    BooksStep(l, a, Terminal);
    BooksStep(l, a, Url);
    if !Writes(l.ws, a) {
      UnwrittenIsSame(l.ws, a);
    }
    StaysArranged(l, a);
  }

  /** A tab that comes in under the id of an earlier one unbalances the books. */
  lemma ReuseUnbalances(l: Ledger, a: Action, kind: TabKind, id: string)
    requires Balanced(l) && Held(kind) && Fits(l.ws, a) && Possible(l, Do(a))
    requires id in Born(l.ws, a, kind) && id in EverOpen(l, kind)
    ensures !Balanced(Done(l, a))
  {
    hide Act, Live, Fits, Writes, ValidWs, Elsewhere, Arranged, Apart, Away, IdsIn, NoRepeats;
    var l' := Done(l, a);
    BalancedIsValid(l);
    HasPanes(l.ws);
    AddStep(l.ws, a, kind);
    BornIsNew(l.ws, a, kind, id);
    NoDrop(l.ws, a, kind);
    AwayKept(l, a, kind);
    assert LetGo(l', kind) == LetGo(l, kind);
    if Balanced(l') {
      ShownApart(l', kind);
    }
  }

  lemma BalancedIsValid(l: Ledger)
    requires Balanced(l)
    ensures ValidWs(l.ws)
  {
    hide BalancedIn;
  }

  lemma BornIsNew(ws: Ws, a: Action, kind: TabKind, id: string)
    requires ValidWs(ws) && Fits(ws, a) && id in Born(ws, a, kind)
    ensures id !in Live(ws, kind)
  {
    hide Duplicates, All, PreviewFits, Clash;
    if ws.run.Some? {
      ShapeHasPanes(ws.run.value);
      InIds(All(ws.run.value.panes), kind, id);
    } else {
      assert AllOf(None) == multiset{};
    }
  }

  /** An action leads from balanced books to balanced books exactly when it is legal. */
  lemma ActionBalancesIff(l: Ledger, a: Action)
    requires Balanced(l) && (a.OpenFile? ==> Legal(l, Do(a)))
    ensures Possible(l, Do(a)) && (Balanced(Done(l, a)) <==> Legal(l, Do(a)))
  {
    hide Act, Live, Fits, Writes, BalancedIn, Accounted, ValidWs, Born;
    if Legal(l, Do(a)) {
      ActionBalances(l, a);
    } else {
      StepLaw(l.ws, a, Terminal);
      if Fits(l.ws, a) {
        var kind := if Born(l.ws, a, Terminal) !! l.terminals then Url else Terminal;
        var id :| id in Born(l.ws, a, kind) && id in EverOpen(l, kind);
        ReuseUnbalances(l, a, kind, id);
      }
    }
  }

  // ----- another session on screen

  /** Who is away after the switch: everyone who was but the one shown, and the one shown before if it was saved. */
  lemma AwayAfterShow(l: Ledger, s: string, x: string, kind: TabKind)
    requires Arranged(l)
    ensures Away(Shown(l, s), x) <==> x != s && (Away(l, x) || (IsSaved(l) && l.active == Some(x)))
    ensures Away(Shown(l, s), x) ==>
      IdsIn(Shown(l, s), x, kind) == if Away(l, x) then IdsIn(l, x, kind) else Live(l.ws, kind)
  {
    hide ValidWs, IdsOf, AllOf;
  }

  lemma ShownIds(l: Ledger, s: string, kind: TabKind)
    requires Arranged(l)
    ensures Live(Shown(l, s).ws, kind) ==
      if l.active == Some(s) && IsSaved(l) then Live(l.ws, kind) else if Away(l, s) then IdsIn(l, s, kind) else {}
  {
    hide ValidWs;
    assert AllOf(None) == multiset{} && IdsOf(multiset{}, kind) == {};
  }

  lemma ShowApart(l: Ledger, s: string, kind: TabKind)
    requires Arranged(l) && Apart(l, kind)
    ensures Apart(Shown(l, s), kind)
  {
    hide Arranged, Live, Shown, Away;
    var l' := Shown(l, s);
    ShownIds(l, s, kind);
    forall x | Away(l', x)
      ensures IdsIn(l', x, kind) == if Away(l, x) then IdsIn(l, x, kind) else Live(l.ws, kind)
      ensures x != s && (Away(l, x) || (IsSaved(l) && l.active == Some(x)))
    {
      AwayAfterShow(l, s, x, kind);
    }
  }

  lemma InElsewhere(l: Ledger, kind: TabKind, id: string)
    ensures id in Elsewhere(l, kind) <==> exists s :: Away(l, s) && id in IdsIn(l, s, kind)
  {
    hide IdsIn;
    if id in Elsewhere(l, kind) {
      var s :| s in l.sessions && l.active != Some(s) && id in IdsIn(l, s, kind);
      assert Away(l, s);
    }
  }

  /** A switch keeps every id but those of a workspace that was not saved. */
  lemma ShowTotal(l: Ledger, s: string, kind: TabKind)
    requires Arranged(l)
    ensures var l' := Shown(l, s);
      Live(l'.ws, kind) + Elsewhere(l', kind)
      == Elsewhere(l, kind) + if IsSaved(l) then Live(l.ws, kind) else {}
  {
    hide Arranged, Live, Shown, Away, Elsewhere, IdsIn;
    var l' := Shown(l, s);
    ShownIds(l, s, kind);
    forall id ensures id in Live(l'.ws, kind) + Elsewhere(l', kind)
        <==> id in Elsewhere(l, kind) || (IsSaved(l) && id in Live(l.ws, kind))
    {
      InElsewhere(l, kind, id);
      InElsewhere(l', kind, id);
      ShowTotalAt(l, s, kind, id);
    }
  }

  lemma ShowTotalAt(l: Ledger, s: string, kind: TabKind, id: string)
    requires Arranged(l)
    ensures var l' := Shown(l, s);
      id in Live(l'.ws, kind) || (exists x :: Away(l', x) && id in IdsIn(l', x, kind))
      <==> (exists x :: Away(l, x) && id in IdsIn(l, x, kind)) || (IsSaved(l) && id in Live(l.ws, kind))
  {
    hide Arranged, Live, Shown, Away, IdsIn;
    var l' := Shown(l, s);
    ShownIds(l, s, kind);
    if x :| Away(l', x) && id in IdsIn(l', x, kind) {
      AwayAfterShow(l, s, x, kind);
    }
    if x :| Away(l, x) && id in IdsIn(l, x, kind) {
      AwayAfterShow(l, s, x, kind);
      AwayIsOff(l, x);
    }
    if IsSaved(l) {
      AwayAfterShow(l, s, l.active.value, kind);
      AwayIsOff(l, l.active.value);
    }
  }

  lemma AwayIsOff(l: Ledger, s: string)
    ensures Away(l, s) ==> l.active != Some(s)
  {
  }

  // ----- sessions cleaned up

  lemma AwayAfterPrune(l: Ledger, valid: set<string>, s: string, kind: TabKind)
    ensures Away(Pruned(l, valid), s) <==> Away(l, s) && s in valid
    ensures Away(Pruned(l, valid), s) ==> IdsIn(Pruned(l, valid), s, kind) == IdsIn(l, s, kind)
  {
    hide IdsOf, AllOf;
  }

  lemma PruneKeeps(l: Ledger, valid: set<string>, kind: TabKind)
    requires Apart(l, kind)
    ensures var l' := Pruned(l, valid);
      && Apart(l', kind) && l'.ws == l.ws
      && (forall s :: Away(l', s) <==> Away(l, s) && s in valid)
      && (forall s :: Away(l', s) ==> IdsIn(l', s, kind) == IdsIn(l, s, kind))
  {
    hide Live, IdsIn, Away;
    forall s {
      AwayAfterPrune(l, valid, s, kind);
    }
  }

  /** What a clean-up takes away are the ids of the sessions it drops, which are nowhere else. */
  lemma PruneTotal(l: Ledger, valid: set<string>, kind: TabKind)
    requires Apart(l, kind)
    ensures var l' := Pruned(l, valid);
      var now, then' := Live(l'.ws, kind) + Elsewhere(l', kind), Live(l.ws, kind) + Elsewhere(l, kind);
      now <= then' && (now == then' <==> forall s :: Away(l, s) && s !in valid ==> IdsIn(l, s, kind) == {})
  {
    hide Live, Away, IdsIn, Elsewhere, Pruned;
    var l' := Pruned(l, valid);
    PruneKeeps(l, valid, kind);
    ShownApart(l, kind);
    forall id ensures id in Elsewhere(l', kind) <==> exists s :: Away(l, s) && s in valid && id in IdsIn(l, s, kind) {
      InElsewhere(l', kind, id);
    }
    forall id ensures id in Elsewhere(l, kind) <==> exists s :: Away(l, s) && id in IdsIn(l, s, kind) {
      InElsewhere(l, kind, id);
    }
    if s :| Away(l, s) && s !in valid && IdsIn(l, s, kind) != {} {
      var id :| id in IdsIn(l, s, kind);
      assert id in Elsewhere(l, kind) && id !in Elsewhere(l', kind);
    }
  }

  // ----- exactly when the books balance

  lemma QuietBalance(l: Ledger, l': Ledger, kind: TabKind)
    requires BalancedIn(l, kind) && Apart(l', kind)
    requires EverOpen(l', kind) == EverOpen(l, kind) && LetGo(l', kind) == LetGo(l, kind)
    requires Live(l'.ws, kind) + Elsewhere(l', kind) <= Live(l.ws, kind) + Elsewhere(l, kind)
    ensures BalancedIn(l', kind) <==>
      Live(l'.ws, kind) + Elsewhere(l', kind) == Live(l.ws, kind) + Elsewhere(l, kind)
  {
    hide Live, Elsewhere, Apart, NoRepeats;
    var now, then' := Live(l'.ws, kind) + Elsewhere(l', kind), Live(l.ws, kind) + Elsewhere(l, kind);
    if BalancedIn(l', kind) {
      forall id | id in then' ensures id in now {
        assert id !in Elements(LetGo(l, kind));
      }
    }
  }

  lemma ShowBalances(l: Ledger, s: string)
    requires Balanced(l)
    ensures Balanced(Shown(l, s)) <==> !Loses(l, Show(s))
  {
    hide Live, Elsewhere, Apart, NoRepeats, Holds, IsSaved, ValidWs, BalancedIn;
    var l' := Shown(l, s);
    ShowArranged(l, s);
    BalancedApart(l);
    forall kind ensures kind == Terminal || kind == Url ==>
        (BalancedIn(l', kind) <==> IsSaved(l) || Live(l.ws, kind) == {})
    {
      if kind == Terminal || kind == Url {
        ShowApart(l, s, kind);
        ShowTotal(l, s, kind);
        ShownApart(l, kind);
        QuietBalance(l, l', kind);
      }
    }
    HoldsIs(l.ws.run);
    LiveIs(l);
  }

  lemma LiveIs(l: Ledger)
    ensures Live(l.ws, Terminal) == IdsOf(AllOf(l.ws.run), Terminal) && Live(l.ws, Url) == IdsOf(AllOf(l.ws.run), Url)
  {
  }

  lemma BalancedApart(l: Ledger)
    requires Balanced(l)
    ensures Apart(l, Terminal) && Apart(l, Url)
  {
  }

  lemma ShowArranged(l: Ledger, s: string)
    requires Arranged(l)
    ensures Arranged(Shown(l, s))
  {
    assert AllOf(None) == multiset{};
  }

  lemma PruneBalances(l: Ledger, valid: set<string>)
    requires Balanced(l)
    ensures Balanced(Pruned(l, valid)) <==> !Loses(l, Prune(valid))
  {
    hide Live, Elsewhere, Apart, NoRepeats, Holds, ValidWs, BalancedIn, IdsIn;
    var l' := Pruned(l, valid);
    BalancedApart(l);
    forall kind ensures kind == Terminal || kind == Url ==>
        (BalancedIn(l', kind) <==> forall s :: Away(l, s) && s !in valid ==> IdsIn(l, s, kind) == {})
    {
      if kind == Terminal || kind == Url {
        PruneKeeps(l, valid, kind);
        PruneTotal(l, valid, kind);
        QuietBalance(l, l', kind);
      }
    }
    forall s | Away(l, s)
      ensures Holds(l.sessions[s].run) <==> IdsIn(l, s, Terminal) != {} || IdsIn(l, s, Url) != {}
    {
      HoldsIs(l.sessions[s].run);
      IdsInIs(l, s);
    }
  }

  lemma IdsInIs(l: Ledger, s: string)
    requires s in l.sessions
    ensures IdsIn(l, s, Terminal) == IdsOf(AllOf(l.sessions[s].run), Terminal)
    ensures IdsIn(l, s, Url) == IdsOf(AllOf(l.sessions[s].run), Url)
  {
  }

  /**
   * From balanced books, a move leads to balanced books if and only if it is
   * legal and takes no workspace with a terminal or a URL tab out of the store.
   */
  lemma MoveBalancesIff(l: Ledger, m: Move)
    requires Balanced(l) && (m.Do? && m.action.OpenFile? ==> Legal(l, m))
    ensures Possible(l, m) && (Balanced(After(l, m)) <==> Legal(l, m) && !Loses(l, m))
  {
    hide Balanced, Done, Shown, Pruned, Away, Holds, IsSaved, Fits, Born;
    match m
    case Do(a) => ActionBalancesIff(l, a);
    case Show(s) => ShowBalances(l, s);
    case Prune(valid) => PruneBalances(l, valid);
  }

  /** Open in the workspace on screen or in a session that is away. */
  ghost predicate OpenSomewhere(l: Ledger, kind: TabKind, id: string) {
    id in Live(l.ws, kind) || exists s :: Away(l, s) && id in IdsIn(l, s, kind)
  }

  lemma OpenIs(l: Ledger, kind: TabKind, id: string)
    ensures OpenSomewhere(l, kind, id) <==> id in Live(l.ws, kind) + Elsewhere(l, kind)
  {
    hide Live, Elsewhere, Away, IdsIn;
    InElsewhere(l, kind, id);
  }

  /** What losing means: a terminal or URL tab that was open, is open nowhere, and was never let go. */
  lemma LosingLosesATab(l: Ledger, m: Move) returns (kind: TabKind, id: string)
    requires Balanced(l) && Loses(l, m)
    ensures Possible(l, m) && Held(kind)
    ensures var l' := After(l, m);
            id in EverOpen(l', kind) && id !in LetGo(l', kind) && !OpenSomewhere(l', kind, id)
  {
    hide Live, Elsewhere, Apart, NoRepeats, Arranged, IdsIn, Shown, Pruned, IsSaved, AllOf, OpenSomewhere;
    BalancedApart(l);
    if m.Show? {
      var t :| t in AllOf(l.ws.run) && Held(t.kind);
      kind, id := t.kind, t.id;
      InIds(AllOf(l.ws.run), kind, id);
      LiveIs(l);
      ShowTotal(l, m.sessionId, kind);
      ShownApart(l, kind);
      ShownBooks(l, m.sessionId);
    } else {
      var s :| Away(l, s) && s !in m.valid && Holds(l.sessions[s].run);
      var t :| t in AllOf(l.sessions[s].run) && Held(t.kind);
      kind, id := t.kind, t.id;
      InIds(AllOf(l.sessions[s].run), kind, id);
      IdsInIs(l, s);
      PrunedGone(l, m.valid, s, kind, id);
    }
    OpenIs(After(l, m), kind, id);
    assert id !in Elements(LetGo(l, kind));
  }

  lemma ShownBooks(l: Ledger, s: string)
    ensures forall kind ::
      EverOpen(Shown(l, s), kind) == EverOpen(l, kind) && LetGo(Shown(l, s), kind) == LetGo(l, kind)
  {
  }

  lemma PrunedGone(l: Ledger, valid: set<string>, s: string, kind: TabKind, id: string)
    requires Apart(l, kind) && Away(l, s) && s !in valid && id in IdsIn(l, s, kind)
    ensures var l' := Pruned(l, valid);
      && id in Elsewhere(l, kind) && id !in Live(l'.ws, kind) + Elsewhere(l', kind)
      && EverOpen(l', kind) == EverOpen(l, kind) && LetGo(l', kind) == LetGo(l, kind)
  {
    hide Live, Elsewhere, Away, IdsIn;
    var l' := Pruned(l, valid);
    PruneKeeps(l, valid, kind);
    InElsewhere(l, kind, id);
    InElsewhere(l', kind, id);
  }

  // ----- whole runs

  ghost predicate LegalRun(l: Ledger, moves: seq<Move>)
    decreases |moves|
  {
    moves == [] ||
    (Possible(l, moves[0]) && Legal(l, moves[0]) && !Loses(l, moves[0]) && LegalRun(After(l, moves[0]), moves[1..]))
  }

  ghost function AfterAll(l: Ledger, moves: seq<Move>): Ledger
    requires LegalRun(l, moves)
    decreases |moves|
  {
    if moves == [] then l else AfterAll(After(l, moves[0]), moves[1..])
  }

  /** The store as it starts. */
  ghost function Started(): Ledger {
    Ledger(Ws(INITIAL_LAYOUT, None, None), map[], None, {}, {}, [], [])
  }

  lemma {:induction false} RunsStayBalanced(l: Ledger, moves: seq<Move>)
    requires Balanced(l) && LegalRun(l, moves)
    ensures Balanced(AfterAll(l, moves))
    decreases |moves|
  {
    hide Balanced, After, Legal, Loses;
    if moves != [] {
      MoveBalancesIff(l, moves[0]);
      RunsStayBalanced(After(l, moves[0]), moves[1..]);
    }
  }

  lemma StartedBalanced()
    ensures Balanced(Started())
  {
    assert IdsOf(multiset{}, Terminal) == {} && IdsOf(multiset{}, Url) == {};
  }

  /**
   * After any run of actions, switches and clean-ups that take no terminal or URL
   * tab out of the store: every workspace is legal, a terminal was killed exactly
   * when it was open once and is open in no session any more, a URL tab released
   * likewise, and nothing was let go twice.
   */
  lemma EveryRunAccounts(moves: seq<Move>)
    requires LegalRun(Started(), moves)
    ensures var l := AfterAll(Started(), moves);
            && Arranged(l)
            && (forall id :: id in l.killed <==> id in l.terminals && !OpenSomewhere(l, Terminal, id))
            && (forall id :: id in l.released <==> id in l.urls && !OpenSomewhere(l, Url, id))
            && NoRepeats(l.killed) && NoRepeats(l.released)
  {
    hide AfterAll, LegalRun, Arranged, Live, NoRepeats, Elsewhere, Apart, Away, IdsIn;
    StartedBalanced();
    RunsStayBalanced(Started(), moves);
    var l := AfterAll(Started(), moves);
    forall id ensures id in l.killed <==> id in l.terminals && !OpenSomewhere(l, Terminal, id) {
      assert id in l.killed <==> id in Elements(l.killed);
      InElsewhere(l, Terminal, id);
    }
    forall id ensures id in l.released <==> id in l.urls && !OpenSomewhere(l, Url, id) {
      assert id in l.released <==> id in Elements(l.released);
      InElsewhere(l, Url, id);
    }
  }

  lemma FirstTerminal(tab: RunTab)
    requires tab.kind == Terminal
    ensures var l := After(Started(), Do(AddTab(tab, None, "pane", false)));
            l.sessions == map[] && l.active.None? && tab.id in l.terminals && l.killed == []
  {
    hide AddRunTab, PlaceWorkspace, IdsOf, All;
    AddToNothing(tab, None, "pane");
    InIds(multiset{tab}, Terminal, tab.id);
  }

  /** The store fresh from the start, a terminal, and the first session: the terminal is lost. */
  lemma UnsavedTerminalIsLost(tab: RunTab)
    requires tab.kind == Terminal
    ensures var inUse := After(Started(), Do(AddTab(tab, None, "pane", false)));
            var l := After(inUse, Show("session"));
            tab.id in l.terminals && tab.id !in l.killed && !OpenSomewhere(l, Terminal, tab.id)
  {
    hide Done, Started;
    FirstTerminal(tab);
    assert AllOf(None) == multiset{} && IdsOf(multiset{}, Terminal) == {};
  }
}
