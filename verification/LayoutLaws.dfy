/** What one step of the layout store keeps, and what it lets go: the disposed tabs are those that have left. */
module LayoutLaws {
  import opened CharClasses
  import opened LayoutPlacement
  import opened RunPane
  import opened RunPaneLaws
  import opened RunPaneOps
  import opened RunPaneMoves
  import opened LayoutActions

  ghost predicate ValidWs(ws: Ws) {
    ValidLayout(ws.layout) && Valid(ws.run)
  }

  ghost function Live(ws: Ws, kind: TabKind): set<string> {
    IdsOf(AllOf(ws.run), kind)
  }

  function Dropped(d: Done, kind: TabKind): seq<string> {
    if kind == Terminal then d.killed else if kind == Url then d.released else []
  }

  predicate NoRepeats(ids: seq<string>) {
    forall i, j :: 0 <= i < j < |ids| ==> ids[i] != ids[j]
  }

  // ----- placement

  lemma PlaceWorkspaceLaw(ws: Ws, splitVisible: bool)
    requires ValidLayout(ws.layout)
    ensures var ws' := PlaceWorkspace(ws, splitVisible);
            ValidLayout(ws'.layout) && IsLit(ws'.layout, Workspace) && ws'.run == ws.run
  {
    PlaceKeepsValid(ws.layout, Workspace);
    ValidLayouts(ws.layout);
  }

  /** What is lit while the chat is split ends beside the chat when the split goes, as if there had been none. */
  lemma ParkedComesBack(ws: Ws)
    requires ValidLayout(ws.layout) && !IsLit(ws.layout, Workspace)
    ensures ActOnLayout(PlaceWorkspace(ws, true), RestoreAfterChatSplit).layout == PlaceInLayout(ws.layout, Workspace)
  {
    hide Without;
    ValidLayouts(ws.layout);
    WithoutSmall([Chat], Workspace);
  }

  /** The whole store step: parking for a split and restoring undoes itself exactly when the chat is lit. */
  lemma SplitThenUnsplit(ws: Ws)
    requires ValidLayout(ws.layout) && Workspace in ws.layout.top && ws.moved.None?
    ensures ActOnLayout(ActOnLayout(ws, MoveForChatSplit), RestoreAfterChatSplit) == ws <==> IsLit(ws.layout, Chat)
  {
    SplitAndRestore(ws.layout);
    ValidLayouts(ws.layout);
  }

  lemma LayoutStep(ws: Ws, a: Action)
    requires ValidLayout(ws.layout)
    ensures ValidLayout(ActOnLayout(ws, a).layout) && ActOnLayout(ws, a).run == ws.run
  {
    hide PlaceInLayout, RemoveSurface, RepositionInLayout;
    match a
    case ToggleSurface(s, splitVisible) =>
      RemoveKeepsValid(ws.layout, s);
      PlaceKeepsValid(ws.layout, s);
      PlaceWorkspaceLaw(ws, splitVisible);
    case SplitSurface(sideBySide, splitVisible) =>
      PlaceWorkspaceLaw(ws, splitVisible);
      ValidLayouts(ws.layout);
    case MoveForChatSplit => RepositionKeepsValid(ws.layout, Workspace, Bottom);
    case RestoreAfterChatSplit =>
      if ws.moved.Some? {
        RepositionKeepsValid(ws.layout, Workspace, ws.moved.value);
      }
    case _ =>
  }

  // ----- the ids that closing drops

  function Elements(ids: seq<string>): set<string> {
    set id | id in ids
  }

  lemma InIds(tabs: multiset<RunTab>, kind: TabKind, id: string)
    ensures id in IdsOf(tabs, kind) <==> exists t :: t in tabs && t.kind == kind && t.id == id
  {
  }

  ghost predicate Leaves(before: multiset<RunTab>, after: multiset<RunTab>, kind: TabKind, id: string) {
    exists t :: t in before && t !in after && t.kind == kind && t.id == id
  }

  /** With unique ids, the ids that are gone are those of the tabs that are gone. */
  lemma GoneId(before: multiset<RunTab>, after: multiset<RunTab>, kind: TabKind, id: string)
    requires NoClash(before) && forall t :: t in after ==> t in before
    ensures id in IdsOf(before, kind) && id !in IdsOf(after, kind) <==> Leaves(before, after, kind, id)
    ensures id in IdsOf(after, kind) ==> id in IdsOf(before, kind)
  {
    hide IdsOf, NoClash;
    InIds(before, kind, id);
    InIds(after, kind, id);
    if Leaves(before, after, kind, id) {
      var t :| t in before && t !in after && t.kind == kind && t.id == id;
      OnlyOneWithId(before, t);
    }
  }

  lemma Account(before: multiset<RunTab>, after: multiset<RunTab>, kind: TabKind, dropped: seq<string>)
    requires NoClash(before) && forall t :: t in after ==> t in before
    requires forall id :: id in dropped <==> Leaves(before, after, kind, id)
    ensures Elements(dropped) == IdsOf(before, kind) - IdsOf(after, kind)
    ensures IdsOf(after, kind) <= IdsOf(before, kind)
  {
    hide NoClash, Leaves, IdsOf;
    forall id ensures id in Elements(dropped) <==> id in IdsOf(before, kind) - IdsOf(after, kind) {
      GoneId(before, after, kind, id);
    }
    forall id | id in IdsOf(after, kind) ensures id in IdsOf(before, kind) {
      GoneId(before, after, kind, id);
    }
  }

  lemma {:induction false} IdsOfKindAre(tabs: seq<RunTab>, kind: TabKind, id: string)
    ensures id in IdsOfKind(tabs, kind) <==> exists t :: t in tabs && t.kind == kind && t.id == id
  {
    if tabs != [] {
      IdsOfKindAre(tabs[1..], kind, id);
      assert tabs == [tabs[0]] + tabs[1..];
      assert forall t :: t in tabs <==> t == tabs[0] || t in tabs[1..];
    }
  }

  lemma OneTabWithId(run: RunState, paneId: string, tabId: string, t: RunTab)
    requires Shape(run.panes) && InPane(run, paneId, t) && t.id == tabId
    ensures FindPane(run.panes, paneId).Some?
    ensures FindTab(run.panes[FindPane(run.panes, paneId).value].tabs, (u: RunTab) => u.id == tabId) == Some(t)
  {
    hide All, PaneShape, NoClash;
    var i :| 0 <= i < |run.panes| && run.panes[i].id == paneId && t in run.panes[i].tabs;
    OnlyPane(run.panes, i, paneId);
    CountIn(run.panes, i, t);
  }

  lemma FoundInPane(run: RunState, paneId: string, tabId: string, kind: TabKind)
    requires Shape(run.panes)
    ensures |IdIfKind(run, paneId, tabId, kind)| <= 1
    ensures forall id :: id in IdIfKind(run, paneId, tabId, kind) <==>
              exists t :: InPane(run, paneId, t) && t.id == tabId && t.kind == kind && t.id == id
  {
    hide All, PaneShape, NoClash;
    var pane := FindPane(run.panes, paneId);
    if pane.Some? {
      var found := FindTab(run.panes[pane.value].tabs, (u: RunTab) => u.id == tabId);
      if found.Some? {
        assert InPane(run, paneId, found.value);
      }
    }
    forall t | InPane(run, paneId, t) && t.id == tabId && t.kind == kind
      ensures IdIfKind(run, paneId, tabId, kind) == [tabId]
    {
      OneTabWithId(run, paneId, tabId, t);
    }
  }

  lemma InPaneInAll(run: RunState, paneId: string, t: RunTab)
    requires InPane(run, paneId, t)
    ensures t in All(run.panes)
  {
    hide All;
    InAll(run.panes, t);
  }

  /** Closing a tab drops its id if it is of the kind, and no other. */
  lemma CloseAccount(run: RunState, paneId: string, tabId: string, kind: TabKind)
    requires Shape(run.panes)
    ensures var r, dropped := CloseRunTab(run, paneId, tabId), IdIfKind(run, paneId, tabId, kind);
            && Elements(dropped) == IdsOf(All(run.panes), kind) - IdsOf(AllOf(r), kind)
            && IdsOf(AllOf(r), kind) <= IdsOf(All(run.panes), kind) && NoRepeats(dropped)
  {
    hide All, PaneShape, NoClash, IdIfKind, IdsOf, InPane, CloseRunTab;
    var r, dropped := CloseRunTab(run, paneId, tabId), IdIfKind(run, paneId, tabId, kind);
    CloseLaw(run, paneId, tabId);
    FoundInPane(run, paneId, tabId, kind);
    forall id ensures id in dropped <==> Leaves(All(run.panes), AllOf(r), kind, id) {
      if id in dropped {
        var t :| InPane(run, paneId, t) && t.id == tabId && t.kind == kind && t.id == id;
        InPaneInAll(run, paneId, t);
      }
    }
    Account(All(run.panes), AllOf(r), kind, dropped);
  }

  lemma InPaneIds(run: RunState, paneId: string, kind: TabKind, id: string)
    requires Shape(run.panes)
    ensures id in TabIdsInPane(run, paneId, kind)
            <==> exists t :: InPane(run, paneId, t) && t.kind == kind && t.id == id
  {
    hide All, PaneShape, NoClash, IdsOfKind;
    var pane := FindPane(run.panes, paneId);
    if pane.Some? {
      IdsOfKindAre(run.panes[pane.value].tabs, kind, id);
      forall t ensures InPane(run, paneId, t) <==> t in run.panes[pane.value].tabs {
      }
    }
  }

  lemma ClosePaneAccount(run: RunState, paneId: string, kind: TabKind)
    requires Shape(run.panes)
    ensures var r, dropped := ClosePane(run, paneId), TabIdsInPane(run, paneId, kind);
            && Elements(dropped) == IdsOf(All(run.panes), kind) - IdsOf(AllOf(r), kind)
            && IdsOf(AllOf(r), kind) <= IdsOf(All(run.panes), kind) && NoRepeats(dropped)
  {
    hide All, PaneShape, NoClash, IdsOf, InPane, ClosePane, TabIdsInPane;
    var r, dropped := ClosePane(run, paneId), TabIdsInPane(run, paneId, kind);
    ClosePaneLaw(run, paneId);
    forall id ensures id in dropped <==> Leaves(All(run.panes), AllOf(r), kind, id) {
      InPaneIds(run, paneId, kind, id);
      if id in dropped {
        var t :| InPane(run, paneId, t) && t.kind == kind && t.id == id;
        InPaneInAll(run, paneId, t);
      }
    }
    Account(All(run.panes), AllOf(r), kind, dropped);
    PaneIdsOnce(run, paneId, kind);
  }

  /** Tabs that do not clash list each id once. */
  lemma {:induction false} IdsOnce(tabs: seq<RunTab>, kind: TabKind)
    requires NoClash(multiset(tabs))
    ensures NoRepeats(IdsOfKind(tabs, kind))
  {
    if tabs != [] {
      var rest := tabs[1..];
      assert tabs == [tabs[0]] + rest;
      ConsMultiset(tabs[0], rest);
      NoClashSub(multiset(rest), multiset(tabs));
      IdsOnce(rest, kind);
      IdsOfKindAre(rest, kind, tabs[0].id);
      if tabs[0].id in IdsOfKind(rest, kind) {
        var t :| t in rest && t.kind == kind && t.id == tabs[0].id;
        TwiceClashes(tabs[0], multiset(rest), t);
      }
    }
  }

  lemma TwiceClashes(t: RunTab, rest: multiset<RunTab>, u: RunTab)
    requires NoClash(multiset{t} + rest) && u in rest
    ensures t.id != u.id
  {
    var all := multiset{t} + rest;
    assert t in all && u in all;
    assert all[t] == 1 + rest[t];
  }

  lemma PaneIdsOnce(run: RunState, paneId: string, kind: TabKind)
    requires Shape(run.panes)
    ensures NoRepeats(TabIdsInPane(run, paneId, kind))
  {
    hide All, PaneShape, NoClash, IdsOfKind;
    var pane := FindPane(run.panes, paneId);
    if pane.Some? {
      AllUpdate(run.panes, pane.value, run.panes[pane.value]);
      NoClashSub(multiset(run.panes[pane.value].tabs), All(run.panes));
      IdsOnce(run.panes[pane.value].tabs, kind);
    }
  }

  lemma {:induction false} ScopeIds(panes: seq<Pane>, scopeKey: string, kind: TabKind, id: string)
    ensures id in TabIdsForScope(panes, scopeKey, kind) <==>
            exists t :: t in All(panes) && t.scopeKey == Some(scopeKey) && t.kind == kind && t.id == id
  {
    if panes != [] {
      hide IdsOfKind, Keep;
      ScopeIds(panes[1..], scopeKey, kind, id);
      var kept := Keep(panes[0].tabs, (t: RunTab) => t.scopeKey == Some(scopeKey));
      KeepIs(panes[0].tabs, (t: RunTab) => t.scopeKey == Some(scopeKey));
      IdsOfKindAre(kept, kind, id);
      forall t ensures t in All(panes) <==> t in panes[0].tabs || t in All(panes[1..]) {
        InFirst(panes, t);
      }
      if id in IdsOfKind(kept, kind) {
        var t :| t in kept && t.kind == kind && t.id == id;
        assert t in All(panes);
      }
    }
  }

  lemma InFirst(panes: seq<Pane>, t: RunTab)
    requires panes != []
    ensures t in All(panes) <==> t in panes[0].tabs || t in All(panes[1..])
  {
    assert t in panes[0].tabs <==> t in multiset(panes[0].tabs);
  }

  lemma {:induction false} ScopeIdsOnce(panes: seq<Pane>, scopeKey: string, kind: TabKind)
    requires NoClash(All(panes))
    ensures NoRepeats(TabIdsForScope(panes, scopeKey, kind))
  {
    if panes != [] {
      hide IdsOfKind, Keep, NoClash;
      var rest := TabIdsForScope(panes[1..], scopeKey, kind);
      NoClashSub(All(panes[1..]), All(panes));
      ScopeIdsOnce(panes[1..], scopeKey, kind);
      var keep := (t: RunTab) => t.scopeKey == Some(scopeKey);
      var kept := Keep(panes[0].tabs, keep);
      KeepIs(panes[0].tabs, keep);
      NoClashSub(multiset(kept), All(panes));
      IdsOnce(kept, kind);
      forall id | id in IdsOfKind(kept, kind) ensures id !in rest {
        IdsOfKindAre(kept, kind, id);
        ScopeIds(panes[1..], scopeKey, kind, id);
        IdOnlyFirst(panes, id);
      }
      JoinNoRepeats(IdsOfKind(kept, kind), rest);
      assert TabIdsForScope(panes, scopeKey, kind) == IdsOfKind(kept, kind) + rest;
    }
  }

  lemma IdOnlyFirst(panes: seq<Pane>, id: string)
    requires panes != [] && NoClash(All(panes))
    ensures (exists t :: t in panes[0].tabs && t.id == id) ==> forall u :: u in All(panes[1..]) ==> u.id != id
  {
    hide NoClash;
    forall t, u | t in panes[0].tabs && t.id == id && u in All(panes[1..]) && u.id == id ensures false {
      InFirst(panes, t);
      InFirst(panes, u);
      OnlyOneWithId(All(panes), t);
      assert u == t;
      NotTwice(panes, t);
    }
  }

  lemma JoinNoRepeats(a: seq<string>, b: seq<string>)
    requires NoRepeats(a) && NoRepeats(b) && forall id :: id in a ==> id !in b
    ensures NoRepeats(a + b)
  {
    forall i, j | 0 <= i < j < |a + b| ensures (a + b)[i] != (a + b)[j] {
      if i < |a| <= j {
        assert a[i] in a && b[j - |a|] in b;
      }
    }
  }

  lemma ReleaseAccount(run: RunState, scopeKey: string, kind: TabKind)
    requires Shape(run.panes)
    ensures var r, dropped := ReleaseRunScope(run, scopeKey), TabIdsForScope(run.panes, scopeKey, kind);
            && Elements(dropped) == IdsOf(All(run.panes), kind) - IdsOf(AllOf(r), kind)
            && IdsOf(AllOf(r), kind) <= IdsOf(All(run.panes), kind) && NoRepeats(dropped)
  {
    hide All, PaneShape, NoClash, IdsOf, ReleaseRunScope, TabIdsForScope;
    var r, dropped := ReleaseRunScope(run, scopeKey), TabIdsForScope(run.panes, scopeKey, kind);
    ReleaseLaw(run, scopeKey);
    forall id ensures id in dropped <==> Leaves(All(run.panes), AllOf(r), kind, id) {
      ScopeIds(run.panes, scopeKey, kind, id);
    }
    Account(All(run.panes), AllOf(r), kind, dropped);
    ScopeIdsOnce(run.panes, scopeKey, kind);
  }

  // ----- one step

  predicate Closes(a: Action) {
    a.CloseTab? || a.CloseAllIn? || a.ReleaseScope?
  }

  /** The id an action brings in, if it brings in a tab of the kind. */
  ghost function Born(ws: Ws, a: Action, kind: TabKind): set<string> {
    if a.AddTab? && a.tab.kind == kind && Brings(ws, a.tab, a.inPane, a.newPane) then {a.tab.id} else {}
  }

  predicate Held(kind: TabKind) {
    kind == Terminal || kind == Url
  }

  /** What one step may do to the terminals or the URL tabs of a workspace. */
  ghost predicate Accounted(ws: Ws, a: Action, d: Done, kind: TabKind) {
    && Elements(Dropped(d, kind)) == Live(ws, kind) - Live(d.ws, kind) && NoRepeats(Dropped(d, kind))
    && Live(d.ws, kind) <= Live(ws, kind) + Born(ws, a, kind)
    && (!Closes(a) ==> Live(ws, kind) <= Live(d.ws, kind))
  }

  lemma SameLive(ws: Ws, a: Action, d: Done, kind: TabKind)
    requires Live(d.ws, kind) == Live(ws, kind) && Dropped(d, kind) == []
    ensures Accounted(ws, a, d, kind)
  {
    hide Live;
  }

  lemma NonFileIds(before: multiset<RunTab>, gone: multiset<RunTab>, shown: RunTab, kind: TabKind)
    requires gone <= before && Held(kind) && IsFileTab(shown) && forall t :: t in gone ==> IsFileTab(t)
    ensures IdsOf(before - gone + multiset{shown}, kind) == IdsOf(before, kind)
  {
    var after := before - gone + multiset{shown};
    forall t ensures t in after && t.kind == kind <==> t in before && t.kind == kind {
    }
    SameKindSameIds(before, after, kind);
  }

  lemma SameKindSameIds(a: multiset<RunTab>, b: multiset<RunTab>, kind: TabKind)
    requires forall t :: t in a && t.kind == kind <==> t in b && t.kind == kind
    ensures IdsOf(a, kind) == IdsOf(b, kind)
  {
  }

  lemma OpenStep(ws: Ws, a: Action, kind: TabKind)
    requires a.OpenFile? && ValidWs(ws) && Fits(ws, a) && Held(kind)
    ensures ws.run.Some? ==> ws.run.value.panes != []
    ensures ValidWs(Act(ws, a).ws) && Live(Act(ws, a).ws, kind) == Live(ws, kind)
  {
    hide All, Shape, OnePreviewEach, IdsOf, OpenFileTab, PlaceWorkspace, SameFile;
    PlaceWorkspaceLaw(ws, a.splitVisible);
    if ws.run.Some? {
      ShapeHasPanes(ws.run.value);
      var gone, shown := OpenLaw(ws.run.value, a.target, a.mode, a.inPane, a.newPane, a.newTab);
      OpenedAreFiles(a.target, gone, shown);
      NonFileIds(All(ws.run.value.panes), gone, shown, kind);
    } else {
      OpenInNothing(a.target, a.mode, a.inPane, a.newPane, a.newTab);
      var tab := BuildFileTab(a.target, a.mode, a.newTab);
      BuiltIs(a.target, a.mode, a.newTab);
      NonFileIds(multiset{}, multiset{}, tab, kind);
      assert multiset{} - multiset{} + multiset{tab} == multiset{tab};
    }
  }

  lemma ShapeHasPanes(run: RunState)
    requires Shape(run.panes)
    ensures run.panes != []
  {
  }

  lemma OpenedAreFiles(target: FileTarget, gone: multiset<RunTab>, shown: RunTab)
    requires IsFileKind(target.kind) && SameFile(target, shown)
    requires forall t :: t in gone ==> SameFile(target, t) || IsPreviewIn(t, target.scopeKey)
    ensures IsFileTab(shown) && forall t :: t in gone ==> IsFileTab(t)
  {
  }

  lemma AddedIds(before: multiset<RunTab>, tab: RunTab, kind: TabKind)
    ensures IdsOf(before + multiset{tab}, kind) == IdsOf(before, kind) + if tab.kind == kind then {tab.id} else {}
  {
    forall id ensures id in IdsOf(before + multiset{tab}, kind) <==>
                      id in IdsOf(before, kind) || (tab.kind == kind && id == tab.id) {
      InIds(before + multiset{tab}, kind, id);
      InIds(before, kind, id);
      if id in IdsOf(before, kind) {
        var t :| t in before && t.kind == kind && t.id == id;
        assert t in before + multiset{tab};
      }
      assert tab in before + multiset{tab};
    }
  }

  lemma AddedRun(ws: Ws, tab: RunTab, inPane: Option<string>, newPane: string)
    requires ws.run.Some? && Valid(ws.run)
    ensures var run, r := ws.run.value, AddRunTab(ws.run, tab, inPane, newPane);
      && run.panes != []
      && (r.Some? ==>
            AllOf(r) == All(run.panes) + if Brings(ws, tab, inPane, newPane) then multiset{tab} else multiset{})
      && (r.None? ==> !Brings(ws, tab, inPane, newPane))
      && (r.Some? ==> (Valid(r) <==> (Brings(ws, tab, inPane, newPane) ==>
            CanJoin(tab, All(run.panes)) && PreviewFits(tab, run.panes[TargetOf(run.panes, inPane).value].tabs))))
  {
    hide All, Shape, OnePreviewEach, AddRunTab, Duplicates, CanJoin, PreviewFits, TargetOf;
    ShapeHasPanes(ws.run.value);
    AddLaw(ws.run.value, tab, inPane, newPane);
  }

  /** The tab comes in or it does not; the workspace stays legal exactly when one that comes in fits. */
  lemma AddStep(ws: Ws, a: Action, kind: TabKind)
    requires a.AddTab? && ValidWs(ws)
    ensures ValidWs(Act(ws, a).ws) <==> Fits(ws, a)
    ensures Live(Act(ws, a).ws, kind) == Live(ws, kind) + Born(ws, a, kind)
  {
    hide All, ValidRun, ValidLayout, IdsOf, AddRunTab, PlaceWorkspace, CanJoin, PreviewFits, Brings, TargetOf;
    PlaceWorkspaceLaw(ws, a.splitVisible);
    if ws.run.Some? {
      AddedRun(ws, a.tab, a.inPane, a.newPane);
    } else {
      AddedToNothing(ws, a.tab, a.inPane, a.newPane);
    }
    AddedLive(ws, a, kind);
  }

  lemma RunAfterAdd(ws: Ws, a: Action)
    requires a.AddTab?
    ensures var r := AddRunTab(ws.run, a.tab, a.inPane, a.newPane); Act(ws, a).ws.run == if r.Some? then r else ws.run
  {
    hide AddRunTab, PlaceWorkspace;
  }

  lemma AddedLive(ws: Ws, a: Action, kind: TabKind)
    requires a.AddTab? && ValidWs(ws)
    ensures Live(Act(ws, a).ws, kind) == Live(ws, kind) + Born(ws, a, kind)
  {
    hide All, ValidRun, ValidLayout, IdsOf, AddRunTab, CanJoin, PreviewFits, Brings, TargetOf, Act, AllOf;
    AddedIds(AllOf(ws.run), a.tab, kind);
    RunAfterAdd(ws, a);
    if ws.run.Some? {
      AddedRun(ws, a.tab, a.inPane, a.newPane);
      AllOfSome(ws.run);
    } else {
      AddedToNothing(ws, a.tab, a.inPane, a.newPane);
    }
  }

  lemma AllOfSome(run: Option<RunState>)
    requires run.Some?
    ensures AllOf(run) == All(run.value.panes) && AllOf(run) + multiset{} == AllOf(run)
  {
  }

  lemma AddedToNothing(ws: Ws, tab: RunTab, inPane: Option<string>, newPane: string)
    requires ws.run.None?
    ensures var r := AddRunTab(ws.run, tab, inPane, newPane);
      && (r.Some? <==> Brings(ws, tab, inPane, newPane))
      && (r.Some? ==> Valid(r) && AllOf(r) == AllOf(ws.run) + multiset{tab})
  {
    hide ValidRun, AddRunTab;
    AddToNothing(tab, inPane, newPane);
    assert multiset{} + multiset{tab} == multiset{tab};
  }

  /** Focusing changes no tab, and leaves a legal workspace exactly when the tab is in the pane. */
  lemma FocusStep(ws: Ws, a: Action, kind: TabKind)
    requires a.ActivateTab? && ValidWs(ws)
    ensures ValidWs(Act(ws, a).ws) <==> Fits(ws, a)
    ensures Live(Act(ws, a).ws, kind) == Live(ws, kind)
  {
    hide All, IdsOf, Shape, OnePreviewEach, ActivateRunTab, CanFocus;
    if ws.run.Some? {
      BadFocusBreaks(ws.run.value, a.paneId, a.tabId);
      if CanFocus(ws.run.value.panes, a.paneId, a.tabId) {
        ActivateLaw(ws.run.value, a.paneId, a.tabId);
      }
      FocusKeepsTabs(ws.run.value, a.paneId, a.tabId);
    }
  }

  lemma FocusKeepsTabs(run: RunState, paneId: string, tabId: string)
    ensures All(ActivateRunTab(run, paneId, tabId).panes) == All(run.panes)
  {
    hide All;
    SameTabsSameAll(run.panes, ActivateRunTab(run, paneId, tabId).panes);
  }

  /** Promoting and retargeting touch neither the surfaces nor the ids. */
  lemma RunOnlyStep(ws: Ws, a: Action, kind: TabKind)
    requires (a.PromoteFile? || a.SetUrlTarget?) && ValidWs(ws) && Held(kind)
    ensures ValidWs(Act(ws, a).ws) && Live(Act(ws, a).ws, kind) == Live(ws, kind)
  {
    hide All, IdsOf, Shape, OnePreviewEach, PromoteFileTab, RetargetUrlTab;
    if ws.run.Some? {
      match a
      case PromoteFile(tabId) => PromoteLaw(ws.run.value, tabId, kind);
      case SetUrlTarget(tabId, url, title) => RetargetLaw(ws.run.value, tabId, url, title, kind);
      case _ =>
    }
  }

  lemma AfterClosingLaw(ws: Ws, run: Option<RunState>)
    requires ValidLayout(ws.layout) && Valid(run)
    ensures ValidWs(AfterClosing(ws, run)) && AfterClosing(ws, run).run == run
  {
    RemoveKeepsValid(ws.layout, Workspace);
  }

  lemma CloseStep(ws: Ws, a: Action, kind: TabKind)
    requires Closes(a) && ValidWs(ws) && Held(kind)
    ensures ValidWs(Act(ws, a).ws) && Accounted(ws, a, Act(ws, a), kind)
  {
    hide All, IdsOf, Shape, OnePreviewEach, AfterClosing, CloseRunTab, ClosePane, ReleaseRunScope, IdIfKind,
         TabIdsInPane, TabIdsForScope, NoRepeats, ValidLayout;
    if ws.run.Some? {
      var run := ws.run.value;
      match a
      case CloseTab(paneId, tabId) =>
        CloseLaw(run, paneId, tabId);
        CloseAccount(run, paneId, tabId, kind);
        AfterClosingLaw(ws, CloseRunTab(run, paneId, tabId));
      case CloseAllIn(paneId) =>
        ClosePaneLaw(run, paneId);
        ClosePaneAccount(run, paneId, kind);
        AfterClosingLaw(ws, ClosePane(run, paneId));
      case ReleaseScope(scopeKey) =>
        ReleaseLaw(run, scopeKey);
        ReleaseAccount(run, scopeKey, kind);
        AfterClosingLaw(ws, ReleaseRunScope(run, scopeKey));
      case _ =>
    } else {
      NothingDropped();
    }
  }

  lemma NothingDropped()
    ensures NoRepeats([]) && Elements([]) == {}
  {
  }

  predicate OnRun(a: Action) {
    a.OpenFile? || a.AddTab? || a.PromoteFile? || a.ActivateTab? || a.SetUrlTarget?
  }

  lemma LayoutOnlyStep(ws: Ws, a: Action, kind: TabKind)
    requires !OnRun(a) && !Closes(a) && ValidWs(ws)
    ensures ValidWs(Act(ws, a).ws) && Live(Act(ws, a).ws, kind) == Live(ws, kind) && Dropped(Act(ws, a), kind) == []
  {
    hide ActOnLayout, ValidRun, AllOf;
    LayoutStep(ws, a);
    assert Act(ws, a) == Done(ActOnLayout(ws, a), [], []);
  }

  /**
   * What an action kills or releases is exactly what leaves the workspace, once
   * each, and only the three closing actions drop anything; the arrangement stays
   * legal exactly when the action fits.
   */
  lemma StepLaw(ws: Ws, a: Action, kind: TabKind)
    requires ValidWs(ws) && Held(kind) && (a.OpenFile? ==> Fits(ws, a))
    ensures ws.run.Some? ==> ws.run.value.panes != []
    ensures Accounted(ws, a, Act(ws, a), kind)
    ensures ValidWs(Act(ws, a).ws) <==> Fits(ws, a)
  {
    hide Act, Live, ValidWs, Fits, NoRepeats, Accounted;
    HasPanes(ws);
    if Closes(a) {
      CloseStep(ws, a, kind);
    } else {
      NoDrop(ws, a, kind);
      if a.OpenFile? {
        OpenStep(ws, a, kind);
        SameLive(ws, a, Act(ws, a), kind);
      } else if a.AddTab? {
        AddStep(ws, a, kind);
        GrownLive(ws, a, Act(ws, a), kind);
      } else if a.ActivateTab? {
        FocusStep(ws, a, kind);
        SameLive(ws, a, Act(ws, a), kind);
      } else if OnRun(a) {
        RunOnlyStep(ws, a, kind);
        SameLive(ws, a, Act(ws, a), kind);
      } else {
        LayoutOnlyStep(ws, a, kind);
        SameLive(ws, a, Act(ws, a), kind);
      }
    }
    OthersFit(ws, a);
  }

  lemma OthersFit(ws: Ws, a: Action)
    ensures !a.OpenFile? && !a.AddTab? && !a.ActivateTab? ==> Fits(ws, a)
  {
  }

  lemma HasPanes(ws: Ws)
    requires ValidWs(ws)
    ensures ws.run.Some? ==> ws.run.value.panes != []
  {
    if ws.run.Some? {
      ShapeHasPanes(ws.run.value);
    }
  }

  lemma NoDrop(ws: Ws, a: Action, kind: TabKind)
    requires !Closes(a) && (ws.run.Some? ==> ws.run.value.panes != [])
    ensures Dropped(Act(ws, a), kind) == []
  {
    hide ActOnLayout, OpenFileTab, AddRunTab;
  }

  lemma GrownLive(ws: Ws, a: Action, d: Done, kind: TabKind)
    requires Live(d.ws, kind) == Live(ws, kind) + Born(ws, a, kind) && Dropped(d, kind) == []
    ensures Accounted(ws, a, d, kind)
  {
    hide Live;
  }
}
