/** What the actions of the layout store do to the surfaces, and that a session comes back as it was left. */
module LayoutEffects {
  import opened CharClasses
  import opened LayoutPlacement
  import opened RunPane
  import opened RunPaneLaws
  import opened RunPaneOps
  import opened RunPaneMoves
  import opened LayoutActions
  import opened LayoutLaws
  import opened LayoutBooks

  // ----- which surfaces are lit

  predicate CanAct(ws: Ws, a: Action) {
    a.OpenFile? && ws.run.Some? ==> ws.run.value.panes != []
  }

  /** The last tab goes with this action. */
  predicate Empties(ws: Ws, a: Action) {
    ws.run.Some? &&
    match a
    case CloseTab(paneId, tabId) => CloseRunTab(ws.run.value, paneId, tabId).None?
    case CloseAllIn(paneId) => ClosePane(ws.run.value, paneId).None?
    case ReleaseScope(scopeKey) => ReleaseRunScope(ws.run.value, scopeKey).None?
    case _ => false
  }

  /** The action shows something in the workspace. */
  predicate LightsWorkspace(ws: Ws, a: Action) {
    match a
    case OpenFile(_, _, _, _, _, _) => true
    case AddTab(tab, inPane, newPane, _) => AddRunTab(ws.run, tab, inPane, newPane).Some?
    case SplitSurface(_, _) => true
    case _ => false
  }

  /**
   * A surface is lit afterwards: a clicked one if it was not lit, or alone; the
   * workspace once something is shown in it, and not once its last tab is gone;
   * the chat above a parked or an emptied workspace; any other if it was.
   */
  lemma LitAfter(ws: Ws, a: Action, s: SurfaceId)
    requires ValidLayout(ws.layout) && CanAct(ws, a)
    ensures IsLit(Act(ws, a).ws.layout, s) <==>
      if a.ToggleSurface? && a.surface == s then !IsLit(ws.layout, s) || !IsLit(ws.layout, Other(s))
      else if LightsWorkspace(ws, a) then s == Workspace || IsLit(ws.layout, s)
      else if Empties(ws, a) then s == Chat
      else IsLit(ws.layout, s) || (a.MoveForChatSplit? && Workspace in ws.layout.top)
  {
    hide Act, PlaceInLayout, RemoveSurface, RepositionInLayout, PlaceWorkspace, IsSurfaceFloor, LayoutCanSplit;
    ActedLayout(ws, a);
    LightedWorkspace(ws, false);
    LightedWorkspace(ws, true);
    ValidLayouts(ws.layout);
    FloorIff(ws.layout, s);
    FloorIff(ws.layout, Other(s));
    RemovedLeaves(ws.layout, s);
    RemovedLeaves(ws.layout, Other(s));
    PlacedWhere(ws.layout, Chat);
    if a.MoveForChatSplit? {
      RepositionedWhere(ws.layout, Workspace, Bottom);
    } else if a.RestoreAfterChatSplit? && ws.moved.Some? {
      RepositionedWhere(ws.layout, Workspace, ws.moved.value);
    }
  }

  /** The layout after an action on the run, and that of one on the surfaces. */
  lemma ActedLayout(ws: Ws, a: Action)
    requires CanAct(ws, a)
    ensures var layout := Act(ws, a).ws.layout;
      if a.OpenFile? || (a.AddTab? && LightsWorkspace(ws, a)) then
        layout == PlaceWorkspace(ws, a.splitVisible).layout
      else if Empties(ws, a) then layout == RemoveSurface(ws.layout, Workspace)
      else if OnRun(a) || Closes(a) then layout == ws.layout
      else layout == ActOnLayout(ws, a).layout
  {
    hide OpenFileTab, AddRunTab, PlaceWorkspace, RemoveSurface, ActOnLayout, CloseRunTab, ClosePane, ReleaseRunScope;
  }

  /**
   * The workspace is lit in the strip while the chat is split, to go back to the
   * right of the chat later; otherwise at once to the right of the chat.
   */
  lemma LightedWorkspace(ws: Ws, splitVisible: bool)
    requires ValidLayout(ws.layout)
    ensures PlaceWorkspace(ws, splitVisible) ==
      if IsLit(ws.layout, Workspace) then ws
      else if splitVisible then ws.(layout := ws.layout.(bottom := Some(Workspace)), moved := Some(TopRight))
      else ws.(layout := ws.layout.(top := [Chat, Workspace], bottom := None))
  {
    hide PlaceInLayout;
    ValidLayouts(ws.layout);
    PlacedWhere(ws.layout, Workspace);
  }

  /** A split puts the workspace where it was asked for, or, beside a visible chat split, into the strip for now. */
  lemma SplitWhere(ws: Ws, sideBySide: bool, splitVisible: bool)
    requires ValidLayout(ws.layout) && !IsLit(ws.layout, Workspace)
    ensures var ws' := ActOnLayout(ws, SplitSurface(sideBySide, splitVisible));
            && ws'.moved == (if sideBySide && splitVisible then Some(TopRight) else ws.moved)
            && ws'.layout == if sideBySide && !splitVisible then ws.layout.(top := [Chat, Workspace])
                             else ws.layout.(bottom := Some(Workspace))
  {
    hide PlaceWorkspace;
    ValidLayouts(ws.layout);
    LightedWorkspace(ws, splitVisible);
  }

  /** After a restore no side is remembered, so that a second one does nothing. */
  lemma RestoresOnce(ws: Ws)
    ensures var ws' := ActOnLayout(ws, RestoreAfterChatSplit);
            ws'.moved.None? && ActOnLayout(ws', RestoreAfterChatSplit) == ws'
  {
    hide RepositionInLayout;
  }

  // ----- what is shown

  /** The tab, file or address an action is about is what the workspace then shows. */
  ghost predicate ShowsWhatWasAsked(ws: Ws, a: Action, after: Option<RunState>) {
    match a
    case OpenFile(target, _, _, _, _, _) =>
      after.Some? && exists t :: t in All(after.value.panes) && SameFile(target, t) && Focused(after.value.panes, t)
    case AddTab(tab, inPane, newPane, _) =>
      Brings(ws, tab, inPane, newPane) ==>
        after.Some? && tab in All(after.value.panes) && Focused(after.value.panes, tab)
    case ActivateTab(paneId, tabId) =>
      ws.run.Some? ==>
        after.Some? && forall p :: p in after.value.panes && p.id == paneId ==> p.active == Some(tabId)
    case PromoteFile(tabId) =>
      ws.run.Some? ==>
        after.Some? && forall t :: t in All(after.value.panes) && t.id == tabId ==> t.mode != Some(PreviewMode)
    case SetUrlTarget(tabId, url, _) =>
      ws.run.Some? ==>
        forall t :: t in All(ws.run.value.panes) && t.id == tabId && t.kind == Url ==>
          after.Some? && Shows(All(after.value.panes), url, t.scopeKey)
    case _ => true
  }

  lemma OpenShows(ws: Ws, a: Action)
    requires a.OpenFile? && ValidWs(ws) && Fits(ws, a)
    ensures CanAct(ws, a) && ShowsWhatWasAsked(ws, a, Act(ws, a).ws.run)
  {
    hide All, NoClash, PlaceWorkspace, OpenFileTab, Shape;
    HasPanes(ws);
    var o := OpenFileTab(ws.run, a.target, a.mode, a.inPane, a.newPane, a.newTab);
    assert Act(ws, a).ws.run == Some(o.run);
    if ws.run.Some? {
      var gone, shown := OpenLaw(ws.run.value, a.target, a.mode, a.inPane, a.newPane, a.newTab);
      ShownIsThere(All(ws.run.value.panes), o, gone, shown);
    } else {
      OpenInNothing(a.target, a.mode, a.inPane, a.newPane, a.newTab);
      var t := BuildFileTab(a.target, a.mode, a.newTab);
      BuiltIs(a.target, a.mode, a.newTab);
      OnlyTabFocused(o.run, t);
    }
  }

  lemma ShownIsThere(before: multiset<RunTab>, o: Opened, gone: multiset<RunTab>, shown: RunTab)
    requires All(o.run.panes) == before - gone + multiset{shown}
    ensures shown in All(o.run.panes)
  {
  }

  /** The only tab of a workspace has the focus. */
  lemma OnlyTabFocused(run: RunState, t: RunTab)
    requires Shape(run.panes) && All(run.panes) == multiset{t}
    ensures t in All(run.panes) && Focused(run.panes, t)
  {
    hide NoClash, All;
    var p := run.panes[0];
    assert PaneShape(p);
    var j :| 0 <= j < |p.tabs| && p.active == Some(p.tabs[j].id);
    InAll(run.panes, p.tabs[j]);
    assert p.tabs[j] == t && t in p.tabs;
  }

  lemma AddShows(ws: Ws, a: Action)
    requires a.AddTab? && ValidWs(ws)
    ensures ShowsWhatWasAsked(ws, a, Act(ws, a).ws.run)
  {
    hide All, NoClash, AddRunTab, Shape, Duplicates, Focused;
    RunAfterAdd(ws, a);
    if Brings(ws, a.tab, a.inPane, a.newPane) {
      if ws.run.Some? {
        AddLaw(ws.run.value, a.tab, a.inPane, a.newPane);
        AddFocuses(ws.run.value, a.tab, a.inPane, a.newPane);
      } else {
        AddToNothing(a.tab, a.inPane, a.newPane);
        OnlyTabFocused(AddRunTab(None, a.tab, a.inPane, a.newPane).value, a.tab);
      }
    }
  }

  /** What an action was asked to show is shown afterwards. */
  lemma AskedIsShown(ws: Ws, a: Action)
    requires ValidWs(ws) && (a.OpenFile? ==> Fits(ws, a))
    ensures CanAct(ws, a) && ShowsWhatWasAsked(ws, a, Act(ws, a).ws.run)
  {
    hide All, NoClash, Shape, Promote, RetargetUrlTab;
    if a.OpenFile? {
      OpenShows(ws, a);
    } else if a.AddTab? {
      AddShows(ws, a);
    } else if ws.run.Some? {
      var run := ws.run.value;
      if a.PromoteFile? {
        PromoteLaw(run, a.tabId, Code);
      } else if a.SetUrlTarget? {
        forall t | t in All(run.panes) && t.id == a.tabId && t.kind == Url
          ensures Shows(All(RetargetUrlTab(run, a.tabId, a.url, a.title).panes), a.url, t.scopeKey)
        {
          RetargetShows(run, a.tabId, a.url, a.title, t);
        }
      } else if a.ActivateTab? {
        forall p | p in ActivateRunTab(run, a.paneId, a.tabId).panes && p.id == a.paneId
          ensures p.active == Some(a.tabId)
        {
        }
      }
    }
  }

  // ----- shares of the room

  /** The share given for a fraction: between 0.18 and 0.82, and there as asked for. */
  predicate IsShare(share: real, frac: real) {
    && 0.18 <= share <= 0.82
    && (0.18 <= frac <= 0.82 ==> share == frac) && (frac < 0.18 ==> share == 0.18) && (frac > 0.82 ==> share == 0.82)
  }

  lemma ClampedShare(frac: real)
    ensures IsShare(Clamp(frac), frac)
  {
  }

  /** The surfaces share the row, or the row and the strip the height: the shares add up, and nothing else changes. */
  lemma SharesAddUp(ws: Ws, frac: real)
    requires ValidLayout(ws.layout)
    ensures var l := ActOnLayout(ws, SetTopFrac(frac)).layout;
            && l.top == ws.layout.top && l.bottom == ws.layout.bottom
            && l.vTop == ws.layout.vTop && l.vBottom == ws.layout.vBottom
            && if |l.top| == 2 then
                 && l.top[0] in l.topFlex && l.top[1] in l.topFlex
                 && IsShare(l.topFlex[l.top[0]], frac) && l.topFlex[l.top[0]] + l.topFlex[l.top[1]] == 1.0
               else l == ws.layout
    ensures var l := ActOnLayout(ws, SetVFrac(frac)).layout;
            && l == ws.layout.(vTop := l.vTop, vBottom := l.vBottom)
            && IsShare(l.vTop, frac) && l.vTop + l.vBottom == 1.0
  {
    hide Clamp, IsShare;
    ClampedShare(frac);
  }

  // ----- what is written

  /** Actions that have nothing to write when they change nothing. */
  predicate WritesChanges(a: Action) {
    a.ToggleSurface? || a.SplitSurface? || a.MoveForChatSplit? || a.RestoreAfterChatSplit? || a.PromoteFile?
  }

  /** These write if and only if they change the layout or the panes. */
  lemma WritesIff(ws: Ws, a: Action)
    requires ValidLayout(ws.layout) && WritesChanges(a) && ws.moved != Some(Bottom)
    ensures Writes(ws, a) <==> Act(ws, a).ws.layout != ws.layout || Act(ws, a).ws.run != ws.run
  {
    hide PlaceInLayout, RemoveSurface, RepositionInLayout, PlaceWorkspace, IsSurfaceFloor, LayoutCanSplit,
         PromoteFileTab;
    ValidLayouts(ws.layout);
    LightedWorkspace(ws, false);
    LightedWorkspace(ws, true);
    FloorIff(ws.layout, Chat);
    FloorIff(ws.layout, Workspace);
    RemovedLeaves(ws.layout, Chat);
    RemovedLeaves(ws.layout, Workspace);
    PlacedWhere(ws.layout, Chat);
    RepositionedWhere(ws.layout, Workspace, Bottom);
    if ws.moved.Some? {
      var side := ws.moved.value;
      RepositionedWhere(ws.layout, Workspace, side);
      assert side == TopLeft || side == TopRight;
    }
  }

  /** A session that was pruned while on screen is remembered again once an action changes its workspace, not before. */
  lemma SavedAgainIff(l: Ledger, a: Action)
    requires ValidLayout(l.ws.layout) && WritesChanges(a) && l.ws.moved != Some(Bottom)
    requires l.active.Some? && !IsSaved(l) && Possible(l, Do(a))
    ensures var l' := After(l, Do(a));
            IsSaved(l') <==> l'.ws.layout != l.ws.layout || l'.ws.run != l.ws.run
  {
    hide Act, Live, Writes, WritesChanges;
    WritesIff(l.ws, a);
  }

  // ----- a session comes back as it was left

  ghost predicate PossibleRun(l: Ledger, moves: seq<Move>)
    decreases |moves|
  {
    moves == [] || (Possible(l, moves[0]) && PossibleRun(After(l, moves[0]), moves[1..]))
  }

  ghost function RunTo(l: Ledger, moves: seq<Move>): Ledger
    requires PossibleRun(l, moves)
    decreases |moves|
  {
    if moves == [] then l else RunTo(After(l, moves[0]), moves[1..])
  }

  /** The move neither shows the session nor forgets it. */
  predicate LeavesAlone(m: Move, s: string) {
    m != Show(s) && (m.Prune? ==> s in m.valid)
  }

  lemma StaysAway(l: Ledger, m: Move, s: string)
    requires Away(l, s) && Possible(l, m) && LeavesAlone(m, s)
    ensures Away(After(l, m), s) && After(l, m).sessions[s] == l.sessions[s]
  {
    hide Act, Live, Writes;
  }

  lemma {:induction false} StaysAwayThrough(l: Ledger, moves: seq<Move>, s: string)
    requires Away(l, s) && PossibleRun(l, moves)
    requires forall k :: 0 <= k < |moves| ==> LeavesAlone(moves[k], s)
    ensures Away(RunTo(l, moves), s) && RunTo(l, moves).sessions[s] == l.sessions[s]
    decreases |moves|
  {
    hide After, Possible, LeavesAlone;
    if moves != [] {
      StaysAway(l, moves[0], s);
      StaysAwayThrough(After(l, moves[0]), moves[1..], s);
    }
  }

  /**
   * Whatever is done in other sessions meanwhile, a session shows the workspace
   * it was left with, if it was saved when it was left.
   */
  lemma SessionComesBack(l: Ledger, other: string, moves: seq<Move>)
    requires Arranged(l) && IsSaved(l) && other != l.active.value && PossibleRun(Shown(l, other), moves)
    requires forall k :: 0 <= k < |moves| ==> LeavesAlone(moves[k], l.active.value)
    ensures var back := Shown(RunTo(Shown(l, other), moves), l.active.value);
            back.ws.layout == l.ws.layout && back.ws.run == l.ws.run && back.active == l.active
  {
    hide ValidWs;
    StaysAwayThrough(Shown(l, other), moves, l.active.value);
  }

  /** A session that is shown is remembered from then on, and no other session changes. */
  lemma ShownIsSaved(l: Ledger, s: string, other: string)
    ensures IsSaved(Shown(l, s)) && Shown(l, s).active == Some(s)
    ensures other != s ==>
      (other in Shown(l, s).sessions <==> other in l.sessions)
      && (other in l.sessions ==> Shown(l, s).sessions[other] == l.sessions[other])
  {
  }

  /** Leaving and coming back at once restores the workspace if and only if it was saved, or is a first one. */
  lemma BackAtOnceIff(l: Ledger, other: string)
    requires Arranged(l) && l.active.Some? && other != l.active.value
    ensures var back := Shown(Shown(l, other), l.active.value);
            back.ws == l.ws <==> IsSaved(l) || (l.ws.layout == INITIAL_LAYOUT && l.ws.run.None?)
  {
    hide ValidWs;
  }
}
