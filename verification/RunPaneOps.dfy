/** Reducer by reducer: the invariant is kept, and the tabs that come and go are exactly these. */
module RunPaneOps {
  import opened CharClasses
  import opened RunPane
  import opened RunPaneLaws

  ghost function AllOf(run: Option<RunState>): multiset<RunTab> {
    match run
    case None => multiset{}
    case Some(r) => All(r.panes)
  }

  /** The invariant without the preview rule. */
  ghost predicate Shaped(run: Option<RunState>) {
    run.Some? ==> Shape(run.value.panes)
  }

  ghost predicate Valid(run: Option<RunState>) {
    run.Some? ==> ValidRun(run.value)
  }

  // ----- closing

  ghost predicate InPane(run: RunState, paneId: string, t: RunTab) {
    exists i :: 0 <= i < |run.panes| && run.panes[i].id == paneId && t in run.panes[i].tabs
  }

  /** What `Rebuilt` makes of panes that shrank. */
  lemma RebuiltLaw(run: RunState, panes: seq<Pane>)
    requires Shape(run.panes) && |panes| == |run.panes|
    requires forall i :: 0 <= i < |panes| ==>
      && panes[i].id == run.panes[i].id && (panes[i].tabs == [] || PaneShape(panes[i]))
      && multiset(panes[i].tabs) <= multiset(run.panes[i].tabs)
      && (OnePreview(run.panes[i].tabs) ==> OnePreview(panes[i].tabs))
    ensures var r := Rebuilt(run, NonEmpty(panes));
            && Shaped(r) && (ValidRun(run) ==> Valid(r)) && AllOf(r) == All(panes) <= All(run.panes)
  {
    hide All, NoClash, PaneShape, OnePreview, NonEmpty;
    AllShrinks(run.panes, panes);
    ShrinkKeepsShape(run.panes, panes);
    AllNonEmpty(panes);
    NoPanes();
  }

  lemma NoPanes()
    ensures All([]) == multiset{}
  {
  }

  lemma CloseLaw(run: RunState, paneId: string, tabId: string)
    requires Shape(run.panes)
    ensures var r := CloseRunTab(run, paneId, tabId);
            && Shaped(r) && (ValidRun(run) ==> Valid(r)) && AllOf(r) <= All(run.panes)
            && forall t :: t in AllOf(r) <==> t in All(run.panes) && !(t.id == tabId && InPane(run, paneId, t))
  {
    hide All, NoClash, PaneShape, OnePreview, NonEmpty, CloseTabIn, Rebuilt;
    var panes := MapPanes(run.panes, (p: Pane) => if p.id == paneId then CloseTabIn(p, tabId) else p);
    forall i | 0 <= i < |panes|
      ensures panes[i].id == run.panes[i].id && (panes[i].tabs == [] || PaneShape(panes[i]))
      ensures multiset(panes[i].tabs) <= multiset(run.panes[i].tabs)
      ensures OnePreview(run.panes[i].tabs) ==> OnePreview(panes[i].tabs)
      ensures forall t :: t in panes[i].tabs <==>
                          t in run.panes[i].tabs && !(run.panes[i].id == paneId && t.id == tabId)
    {
      CloseTabInIs(run.panes[i], tabId);
    }
    RebuiltLaw(run, panes);
    forall t ensures t in All(panes) <==> t in All(run.panes) && !(t.id == tabId && InPane(run, paneId, t)) {
      InAll(panes, t);
      InAll(run.panes, t);
      OnePlace(run.panes, t);
    }
  }

  /** With unique ids a tab stands in one pane only. */
  lemma {:induction false} OnePlace(panes: seq<Pane>, t: RunTab)
    requires NoClash(All(panes))
    ensures forall i, j :: 0 <= i < j < |panes| && t in panes[i].tabs ==> t !in panes[j].tabs
  {
    if panes != [] {
      assert All(panes[1..]) <= All(panes);
      NoClashSub(All(panes[1..]), All(panes));
      OnePlace(panes[1..], t);
      NotTwice(panes, t);
      InAll(panes[1..], t);
      forall i, j | 0 <= i < j < |panes| && t in panes[i].tabs ensures t !in panes[j].tabs {
        assert panes[1..][j - 1] == panes[j];
        if i > 0 {
          assert panes[1..][i - 1] == panes[i];
        }
      }
    }
  }

  lemma NotTwice(panes: seq<Pane>, t: RunTab)
    requires panes != [] && NoClash(All(panes))
    ensures t in panes[0].tabs ==> t !in All(panes[1..])
  {
    if t in panes[0].tabs {
      assert t in multiset(panes[0].tabs);
      assert t in All(panes) && All(panes)[t] == multiset(panes[0].tabs)[t] + All(panes[1..])[t];
    }
  }

  lemma ReleaseLaw(run: RunState, scopeKey: string)
    requires Shape(run.panes)
    ensures var r := ReleaseRunScope(run, scopeKey);
            && Shaped(r) && (ValidRun(run) ==> Valid(r)) && AllOf(r) <= All(run.panes)
            && forall t :: t in AllOf(r) <==> t in All(run.panes) && t.scopeKey != Some(scopeKey)
  {
    hide All, NoClash, PaneShape, OnePreview, NonEmpty, ReleaseIn, Rebuilt;
    var panes := MapPanes(run.panes, (p: Pane) => ReleaseIn(p, scopeKey));
    forall i | 0 <= i < |panes|
      ensures panes[i].id == run.panes[i].id && (panes[i].tabs == [] || PaneShape(panes[i]))
      ensures multiset(panes[i].tabs) <= multiset(run.panes[i].tabs)
      ensures OnePreview(run.panes[i].tabs) ==> OnePreview(panes[i].tabs)
      ensures forall t :: t in panes[i].tabs <==> t in run.panes[i].tabs && t.scopeKey != Some(scopeKey)
    {
      ReleaseInIs(run.panes[i], scopeKey);
    }
    RebuiltLaw(run, panes);
    forall t ensures t in All(panes) <==> t in All(run.panes) && t.scopeKey != Some(scopeKey) {
      InAll(panes, t);
      InAll(run.panes, t);
    }
  }

  lemma TailDistinct(panes: seq<Pane>)
    requires panes != [] && DistinctPanes(panes)
    ensures DistinctPanes(panes[1..]) && forall p :: p in panes[1..] ==> p.id != panes[0].id
  {
    forall i, j | 0 <= i < j < |panes[1..]| ensures panes[1..][i].id != panes[1..][j].id {
      assert panes[i + 1].id != panes[j + 1].id;
    }
    forall p | p in panes[1..] ensures p.id != panes[0].id {
      var i :| 0 <= i < |panes[1..]| && panes[1..][i] == p;
      assert panes[i + 1] == p;
    }
  }

  lemma ConsDistinct(p: Pane, rest: seq<Pane>)
    requires DistinctPanes(rest) && forall q :: q in rest ==> q.id != p.id
    ensures DistinctPanes([p] + rest)
  {
    assert forall j :: 0 <= j < |rest| ==> rest[j] in rest;
  }

  lemma {:induction false} OtherPanesAre(panes: seq<Pane>, paneId: string)
    requires DistinctPanes(panes)
    ensures |OtherPanes(panes, paneId)| <= |panes|
    ensures All(OtherPanes(panes, paneId)) <= All(panes)
    ensures forall p :: p in OtherPanes(panes, paneId) <==> p in panes && p.id != paneId
    ensures DistinctPanes(OtherPanes(panes, paneId))
  {
    hide DistinctPanes;
    if panes != [] {
      TailDistinct(panes);
      OtherPanesAre(panes[1..], paneId);
      var rest := OtherPanes(panes[1..], paneId);
      assert panes == [panes[0]] + panes[1..];
      if panes[0].id != paneId {
        ConsDistinct(panes[0], rest);
        assert ([panes[0]] + rest)[1..] == rest;
      }
    }
  }

  lemma ClosePaneLaw(run: RunState, paneId: string)
    requires Shape(run.panes)
    ensures var r := ClosePane(run, paneId);
            && Shaped(r) && (ValidRun(run) ==> Valid(r)) && AllOf(r) <= All(run.panes)
            && forall t :: t in AllOf(r) <==> t in All(run.panes) && !InPane(run, paneId, t)
  {
    hide NoClash, PaneShape, OnePreview;
    var panes := OtherPanes(run.panes, paneId);
    OtherPanesAre(run.panes, paneId);
    NoClashSub(All(panes), All(run.panes));
    forall k | 0 <= k < |panes| ensures PaneShape(panes[k]) && (ValidRun(run) ==> OnePreview(panes[k].tabs)) {
      assert panes[k] in panes;
      var i :| 0 <= i < |run.panes| && run.panes[i] == panes[k];
    }
    forall t ensures t in All(panes) <==> t in All(run.panes) && !InPane(run, paneId, t) {
      OtherTabs(run, paneId, t);
    }
  }

  lemma OtherTabs(run: RunState, paneId: string, t: RunTab)
    requires Shape(run.panes)
    ensures t in All(OtherPanes(run.panes, paneId)) <==> t in All(run.panes) && !InPane(run, paneId, t)
  {
    hide All, NoClash, PaneShape;
    var panes := OtherPanes(run.panes, paneId);
    OtherPanesAre(run.panes, paneId);
    InAll(panes, t);
    InAll(run.panes, t);
    OnePlace(run.panes, t);
    if t in All(panes) {
      var k :| 0 <= k < |panes| && t in panes[k].tabs;
      assert panes[k] in panes;
      var i :| 0 <= i < |run.panes| && run.panes[i] == panes[k];
    }
    if t in All(run.panes) && !InPane(run, paneId, t) {
      var i :| 0 <= i < |run.panes| && t in run.panes[i].tabs;
      assert run.panes[i] in panes;
      var k :| 0 <= k < |panes| && panes[k] == run.panes[i];
    }
  }

  // ----- focusing

  lemma {:induction false} SameTabsSameAll(panes: seq<Pane>, panes': seq<Pane>)
    requires |panes'| == |panes| && forall i :: 0 <= i < |panes| ==> panes'[i].tabs == panes[i].tabs
    ensures All(panes') == All(panes)
  {
    if panes != [] {
      forall i | 0 <= i < |panes[1..]| ensures panes'[1..][i].tabs == panes[1..][i].tabs {
        assert panes'[1..][i] == panes'[i + 1] && panes[1..][i] == panes[i + 1];
      }
      SameTabsSameAll(panes[1..], panes'[1..]);
    }
  }

  /** The tab to focus is in the pane named, or no pane has that id. */
  predicate CanFocus(panes: seq<Pane>, paneId: string, tabId: string) {
    forall i :: 0 <= i < |panes| && panes[i].id == paneId ==> HasTab(panes[i].tabs, Some(tabId))
  }

  lemma ActivateLaw(run: RunState, paneId: string, tabId: string)
    requires Shape(run.panes) && CanFocus(run.panes, paneId, tabId)
    ensures var r := ActivateRunTab(run, paneId, tabId);
            && Shape(r.panes) && (ValidRun(run) ==> ValidRun(r)) && All(r.panes) == All(run.panes)
  {
    hide All, NoClash, OnePreview, HasTab;
    SameTabsSameAll(run.panes, ActivateRunTab(run, paneId, tabId).panes);
  }

  /** Focusing a tab that is not in the pane leaves it without a valid active tab. */
  lemma BadFocusBreaks(run: RunState, paneId: string, tabId: string)
    requires Shape(run.panes)
    ensures Shape(ActivateRunTab(run, paneId, tabId).panes) <==> CanFocus(run.panes, paneId, tabId)
  {
    hide All, NoClash;
    var panes := ActivateRunTab(run, paneId, tabId).panes;
    if CanFocus(run.panes, paneId, tabId) {
      ActivateLaw(run, paneId, tabId);
    }
    if Shape(panes) {
      forall i | 0 <= i < |run.panes| && run.panes[i].id == paneId ensures HasTab(run.panes[i].tabs, Some(tabId)) {
        assert PaneShape(panes[i]);
      }
    }
  }

  ghost predicate Focused(panes: seq<Pane>, t: RunTab) {
    exists i :: 0 <= i < |panes| && panes[i].active == Some(t.id) && t in panes[i].tabs
  }

  lemma FocusFound(panes: seq<Pane>, i: nat, t: RunTab)
    requires i < |panes| && DistinctPanes(panes) && t in panes[i].tabs
    ensures CanFocus(panes, panes[i].id, t.id)
  {
    var k :| 0 <= k < |panes[i].tabs| && panes[i].tabs[k] == t;
    assert HasTab(panes[i].tabs, Some(t.id));
  }

  // ----- adding

  /** A tab that could join: a new id, and, for a file tab, a file that is not open. */
  ghost predicate CanJoin(tab: RunTab, tabs: multiset<RunTab>) {
    forall u :: u in tabs ==> u.id != tab.id && (IsFileTab(tab) ==> !Clash(tab, u))
  }

  /** The pane a tab would join accepts it as a preview. */
  predicate PreviewFits(tab: RunTab, tabs: seq<RunTab>) {
    IsPreview(tab) ==> forall j :: 0 <= j < |tabs| ==> !IsPreviewIn(tabs[j], tab.scopeKey)
  }

  lemma DuplicatesIsIdentity(tab: RunTab, t: RunTab)
    ensures !IsFileTab(tab) ==> (Duplicates(tab, t) <==> IdentityOf(tab).Some? && IdentityOf(t) == IdentityOf(tab))
    ensures IsFileTab(tab) ==> !Duplicates(tab, t)
  {
  }

  lemma {:induction false} OnePreviewAppend(tabs: seq<RunTab>, tab: RunTab)
    requires OnePreview(tabs)
    ensures OnePreview(tabs + [tab]) <==> PreviewFits(tab, tabs)
  {
    if tabs == [] {
      assert tabs + [tab] == [tab] && [tab][1..] == [];
    } else {
      assert (tabs + [tab])[1..] == tabs[1..] + [tab];
      OnePreviewAppend(tabs[1..], tab);
      var all := tabs + [tab];
      assert all[|tabs|] == tab;
      if IsPreview(tab) {
        if PreviewFits(tab, tabs) {
          forall j | 0 <= j < |tabs[1..]| ensures !IsPreviewIn(tabs[1..][j], tab.scopeKey) {
            assert tabs[1..][j] == tabs[j + 1];
          }
        }
        if OnePreview(all) {
          forall j | 0 <= j < |tabs| ensures !IsPreviewIn(tabs[j], tab.scopeKey) {
            if j > 0 {
              assert tabs[1..][j - 1] == tabs[j];
            }
          }
        }
      }
    }
  }

  lemma JoinsIff(tabs: multiset<RunTab>, tab: RunTab)
    requires NoClash(tabs)
    ensures NoClash(tabs + multiset{tab}) <==> forall u :: u in tabs ==> !Clash(tab, u)
  {
    var all := tabs + multiset{tab};
    if NoClash(all) {
      forall u | u in tabs ensures !Clash(tab, u) {
        assert tab in all && u in all && all[tab] == tabs[tab] + 1;
      }
    } else if forall u :: u in tabs ==> !Clash(tab, u) {
      NoClashAdd(tabs, tab);
    }
  }

  lemma AppendLaw(run: RunState, i: nat, tab: RunTab)
    requires Shape(run.panes) && i < |run.panes|
    ensures var p := run.panes[i];
            var panes := run.panes[i := p.(tabs := p.tabs + [tab], active := Some(tab.id))];
            && All(panes) == All(run.panes) + multiset{tab}
            && (Shape(panes) <==> forall u :: u in All(run.panes) ==> !Clash(tab, u))
            && (OnePreviewEach(run.panes) ==> (OnePreviewEach(panes) <==> PreviewFits(tab, p.tabs)))
  {
    hide All, NoClash, OnePreview, Clash;
    var p := run.panes[i];
    var p' := p.(tabs := p.tabs + [tab], active := Some(tab.id));
    assert p'.tabs[|p.tabs|] == tab;
    AllUpdate(run.panes, i, p');
    assert multiset(p'.tabs) == multiset(p.tabs) + multiset{tab};
    assert All(run.panes) - multiset(p.tabs) + multiset(p'.tabs) == All(run.panes) + multiset{tab};
    JoinsIff(All(run.panes), tab);
    if forall u :: u in All(run.panes) ==> !Clash(tab, u) {
      UpdateKeepsShape(run.panes, i, p');
    }
    PreviewUpdate(run.panes, i, p');
    if OnePreview(p.tabs) {
      OnePreviewAppend(p.tabs, tab);
    }
  }

  lemma PreviewUpdate(panes: seq<Pane>, i: nat, p: Pane)
    requires i < |panes|
    ensures OnePreviewEach(panes) ==>
      (OnePreviewEach(panes[i := p]) <==> OnePreview(p.tabs)) && OnePreview(panes[i].tabs)
  {
    hide OnePreview;
    assert panes[i := p][i] == p;
  }

  ghost function TargetOf(panes: seq<Pane>, paneId: Option<string>): Option<nat> {
    if Given(paneId) then FindPane(panes, paneId.value) else Some(0)
  }

  /**
   * Adding to an open workspace: the tab it duplicates is focused, or it joins
   * the target pane; `None` exactly when it would join a pane that is gone. The
   * workspace it joins keeps its shape exactly when the tab could join.
   */
  lemma AddLaw(run: RunState, tab: RunTab, paneId: Option<string>, newPane: string)
    requires Shape(run.panes)
    ensures var r, i := AddRunTab(Some(run), tab, paneId, newPane), TargetOf(run.panes, paneId);
            if exists u :: u in All(run.panes) && Duplicates(tab, u) then
              r.Some? && Shape(r.value.panes) && (ValidRun(run) ==> ValidRun(r.value)) && AllOf(r) == All(run.panes)
            else if i.None? then r.None?
            else
              && r.Some? && AllOf(r) == All(run.panes) + multiset{tab}
              && (Shape(r.value.panes) <==> CanJoin(tab, All(run.panes)))
              && (OnePreviewEach(run.panes) ==>
                    (OnePreviewEach(r.value.panes) <==> PreviewFits(tab, run.panes[i.value].tabs)))
  {
    hide All, NoClash, OnePreview, Clash, PaneShape, HasTab, Duplicates, ActivateRunTab, PreviewFits, DistinctPanes;
    var dup := (t: RunTab) => Duplicates(tab, t);
    var h := FindHolder(run.panes, dup);
    if h.Some? {
      var t := FindTab(run.panes[h.value].tabs, dup).value;
      FocusFound(run.panes, h.value, t);
      ActivateLaw(run, run.panes[h.value].id, t.id);
      InAll(run.panes, t);
      assert Duplicates(tab, t);
    } else {
      NoneDuplicates(run.panes, tab, dup);
      var i := TargetOf(run.panes, paneId);
      if i.Some? {
        AppendLaw(run, i.value, tab);
      }
    }
  }

  /** Whichever it is, a tab is focused: the one it duplicates, or the one that joined. */
  lemma AddFocuses(run: RunState, tab: RunTab, paneId: Option<string>, newPane: string)
    requires Shape(run.panes) && AddRunTab(Some(run), tab, paneId, newPane).Some?
    ensures var r := AddRunTab(Some(run), tab, paneId, newPane).value;
            if exists u :: u in All(run.panes) && Duplicates(tab, u) then
              exists u :: Duplicates(tab, u) && Focused(r.panes, u)
            else Focused(r.panes, tab)
  {
    hide All, NoClash, OnePreview, Clash, PaneShape, HasTab, Duplicates;
    var dup := (t: RunTab) => Duplicates(tab, t);
    var r := AddRunTab(Some(run), tab, paneId, newPane).value;
    var h := FindHolder(run.panes, dup);
    if h.Some? {
      var t := FindTab(run.panes[h.value].tabs, dup).value;
      assert r.panes[h.value].active == Some(t.id) && t in r.panes[h.value].tabs;
      InAll(run.panes, t);
      assert Duplicates(tab, t);
    } else {
      NoneDuplicate(run.panes, tab, dup);
      var i := TargetOf(run.panes, paneId).value;
      var p := r.panes[i];
      assert p.tabs[|run.panes[i].tabs|] == tab;
    }
  }

  lemma NoneDuplicate(panes: seq<Pane>, tab: RunTab, dup: RunTab -> bool)
    requires FindHolder(panes, dup).None? && forall t: RunTab :: dup(t) <==> Duplicates(tab, t)
    ensures forall u :: u in All(panes) ==> !Duplicates(tab, u)
  {
    hide All, Duplicates;
    forall u | u in All(panes) ensures !Duplicates(tab, u) {
      InAll(panes, u);
      var k :| 0 <= k < |panes| && u in panes[k].tabs;
      assert !dup(u);
    }
  }

  lemma NoneDuplicates(panes: seq<Pane>, tab: RunTab, dup: RunTab -> bool)
    requires FindHolder(panes, dup).None?
    requires forall t: RunTab :: dup(t) <==> Duplicates(tab, t)
    ensures forall u :: u in All(panes) ==> !Duplicates(tab, u)
    ensures CanJoin(tab, All(panes)) <==> forall u :: u in All(panes) ==> !Clash(tab, u)
  {
    hide All, Clash, Duplicates;
    NoneDuplicate(panes, tab, dup);
    forall u | u in All(panes)
      ensures !Clash(tab, u) <==> u.id != tab.id && (IsFileTab(tab) ==> !Clash(tab, u))
    {
      NoDuplicateNoClash(tab, u);
    }
  }

  lemma NoDuplicateNoClash(tab: RunTab, u: RunTab)
    requires !Duplicates(tab, u)
    ensures !Clash(tab, u) <==> u.id != tab.id && (IsFileTab(tab) ==> !Clash(tab, u))
  {
    DuplicatesIsIdentity(tab, u);
  }

  /** Adding to no workspace creates one; naming a pane that cannot exist creates nothing. */
  lemma AddToNothing(tab: RunTab, paneId: Option<string>, newPane: string)
    ensures var r := AddRunTab(None, tab, paneId, newPane);
            if Given(paneId) && paneId.value != newPane then r.None?
            else r.Some? && ValidRun(r.value) && AllOf(r) == multiset{tab}
  {
    var base := EmptyRun(newPane);
    var pane := base.panes[0];
    assert FindHolder(base.panes, (t: RunTab) => Duplicates(tab, t)).None?;
    var panes := [pane.(tabs := [tab], active := Some(tab.id))];
    assert pane.tabs + [tab] == [tab];
    assert base.panes[0 := pane.(tabs := pane.tabs + [tab], active := Some(tab.id))] == panes;
    SinglePane(panes[0], tab);
  }

  lemma SinglePane(p: Pane, tab: RunTab)
    requires p.tabs == [tab] && p.active == Some(tab.id)
    ensures Shape([p]) && OnePreview(p.tabs) && All([p]) == multiset{tab}
  {
    assert [p][1..] == [] && [tab][1..] == [];
    assert p.tabs[0] == tab;
    assert All([p]) == multiset(p.tabs) + All([]);
  }
}
