/** The layout store as a state machine: every action on the workspace of the active session. */
module LayoutActions {
  import opened CharClasses
  import opened LayoutPlacement
  import opened RunPane
  import opened RunPaneMoves
  import opened RunPaneLaws
  import opened RunPaneOps

  /** The workspace on screen, and the side a chat split took it from. */
  datatype Ws = Ws(layout: Layout, run: Option<RunState>, moved: Option<RepositionTarget>)

  datatype Action =
    | ToggleSurface(surface: SurfaceId, splitVisible: bool)
    | SetTopFrac(frac: real)
    | SetVFrac(frac: real)
    | SplitSurface(sideBySide: bool, splitVisible: bool)
    | MoveForChatSplit
    | RestoreAfterChatSplit
    | OpenFile(
        target: FileTarget, mode: TabMode, inPane: Option<string>, newPane: string, newTab: string, splitVisible: bool)
    | PromoteFile(tabId: string)
    | AddTab(tab: RunTab, inPane: Option<string>, newPane: string, splitVisible: bool)
    | ActivateTab(paneId: string, tabId: string)
    | SetUrlTarget(tabId: string, url: string, title: string)
    | CloseTab(paneId: string, tabId: string)
    | CloseAllIn(paneId: string)
    | ReleaseScope(scopeKey: string)

  /** The next state, the terminals killed and the URL tabs released on the way. */
  datatype Done = Done(ws: Ws, killed: seq<string>, released: seq<string>)

  /** What a session remembers. */
  datatype SessionWorkspace = SessionWorkspace(layout: Layout, run: Option<RunState>)

  const INITIAL_LAYOUT := Layout([Chat], None, map[], 1.0, 0.4)

  /** Whether adding a tab brings it in: it repeats no open tab, and the pane named is there. */
  ghost predicate Brings(ws: Ws, tab: RunTab, inPane: Option<string>, newPane: string) {
    match ws.run
    case None => Given(inPane) ==> inPane.value == newPane
    case Some(run) =>
      && (forall u :: u in All(run.panes) ==> !Duplicates(tab, u))
      && TargetOf(run.panes, inPane).Some?
  }

  /**
   * A file is opened under a new tab id; a tab that comes in clashes with no open
   * tab and finds its pane's preview slot free; focus goes to a tab that is there.
   */
  ghost predicate Fits(ws: Ws, a: Action) {
    match a
    case OpenFile(target, mode, inPane, newPane, newTab, splitVisible) =>
      IsFileKind(target.kind) && (ws.run.Some? ==> ws.run.value.panes != [] && NewTabId(ws.run.value.panes, newTab))
    case AddTab(tab, inPane, newPane, splitVisible) =>
      ws.run.Some? && ws.run.value.panes != [] && Brings(ws, tab, inPane, newPane) ==>
        var panes := ws.run.value.panes;
        CanJoin(tab, All(panes)) && PreviewFits(tab, panes[TargetOf(panes, inPane).value].tabs)
    case ActivateTab(paneId, tabId) => ws.run.Some? ==> CanFocus(ws.run.value.panes, paneId, tabId)
    case _ => true
  }

  function Clamp(frac: real): real {
    var c := if 0.82 < frac then 0.82 else frac;
    if c < 0.18 then 0.18 else c
  }

  /** While the chat split is on screen a newly lit workspace goes below it, to return beside the chat later. */
  function PlaceWorkspace(ws: Ws, splitVisible: bool): Ws {
    if splitVisible && ws.layout.bottom.None? && Workspace !in ws.layout.top then
      ws.(layout := ws.layout.(bottom := Some(Workspace)), moved := Some(TopRight))
    else ws.(layout := PlaceInLayout(ws.layout, Workspace))
  }

  /** What closing leaves: a workspace with no tabs takes its surface away. */
  function AfterClosing(ws: Ws, run: Option<RunState>): Ws {
    ws.(run := run, layout := if run.Some? then ws.layout else RemoveSurface(ws.layout, Workspace))
  }

  function IdIfKind(run: RunState, paneId: string, tabId: string, kind: TabKind): seq<string> {
    match FindPane(run.panes, paneId)
    case None => []
    case Some(i) =>
      match FindTab(run.panes[i].tabs, (t: RunTab) => t.id == tabId)
      case None => []
      case Some(t) => if t.kind == kind then [tabId] else []
  }

  function ActOnLayout(ws: Ws, a: Action): Ws {
    match a
    case ToggleSurface(s, splitVisible) =>
      if IsSurfaceFloor(ws.layout, s) then ws
      else if IsLit(ws.layout, s) then ws.(layout := RemoveSurface(ws.layout, s))
      else if s == Workspace then PlaceWorkspace(ws, splitVisible)
      else ws.(layout := PlaceInLayout(ws.layout, s))
    case SetTopFrac(frac) =>
      if |ws.layout.top| < 2 then ws
      else
        var flex := ws.layout.topFlex[ws.layout.top[0] := Clamp(frac)][ws.layout.top[1] := 1.0 - Clamp(frac)];
        ws.(layout := ws.layout.(topFlex := flex))
    case SetVFrac(frac) => ws.(layout := ws.layout.(vTop := Clamp(frac), vBottom := 1.0 - Clamp(frac)))
    case SplitSurface(sideBySide, splitVisible) =>
      if !LayoutCanSplit(ws.layout) then ws
      else if sideBySide then PlaceWorkspace(ws, splitVisible)
      else if ws.layout.bottom.Some? then ws
      else ws.(layout := ws.layout.(bottom := Some(Workspace)))
    case MoveForChatSplit =>
      if Workspace !in ws.layout.top then ws
      else ws.(layout := RepositionInLayout(ws.layout, Workspace, Bottom), moved := Some(SideOf(ws.layout)))
    case RestoreAfterChatSplit =>
      if ws.moved.None? || ws.layout.bottom != Some(Workspace) then ws.(moved := None)
      else ws.(layout := RepositionInLayout(ws.layout, Workspace, ws.moved.value), moved := None)
    case _ => ws
  }

  /** A URL tab that shows another address than the new one. */
  predicate Retargets(run: RunState, tabId: string, url: string) {
    var holder := FindHolder(run.panes, (t: RunTab) => t.id == tabId);
    holder.Some? &&
    var source := FindTab(run.panes[holder.value].tabs, (t: RunTab) => t.id == tabId).value;
    source.kind == Url && source.url != Some(url)
  }

  /** Where the store writes the workspace back; elsewhere the action has found nothing to do. */
  predicate Writes(ws: Ws, a: Action) {
    match a
    case ToggleSurface(s, _) => !IsSurfaceFloor(ws.layout, s)
    case SetTopFrac(_) => |ws.layout.top| >= 2
    case SetVFrac(_) => true
    case SplitSurface(sideBySide, _) => LayoutCanSplit(ws.layout) && (sideBySide || ws.layout.bottom.None?)
    case MoveForChatSplit => Workspace in ws.layout.top
    case RestoreAfterChatSplit => ws.moved.Some? && ws.layout.bottom == Some(Workspace)
    case OpenFile(_, _, _, _, _, _) => true
    case AddTab(tab, inPane, newPane, _) => AddRunTab(ws.run, tab, inPane, newPane).Some?
    case PromoteFile(tabId) => ws.run.Some? && PromoteFileTab(ws.run.value, tabId) != ws.run.value
    case SetUrlTarget(tabId, url, _) => ws.run.Some? && Retargets(ws.run.value, tabId, url)
    case _ => ws.run.Some?
  }

  function Act(ws: Ws, a: Action): Done
    requires a.OpenFile? && ws.run.Some? ==> ws.run.value.panes != []
  {
    match a
    case OpenFile(target, mode, inPane, newPane, newTab, splitVisible) =>
      var o := OpenFileTab(ws.run, target, mode, inPane, newPane, newTab);
      Done(PlaceWorkspace(ws, splitVisible).(run := Some(o.run)), [], [])
    case AddTab(tab, inPane, newPane, splitVisible) =>
      var next := AddRunTab(ws.run, tab, inPane, newPane);
      Done(if next.None? then ws else PlaceWorkspace(ws, splitVisible).(run := next), [], [])
    case PromoteFile(tabId) =>
      Done(if ws.run.None? then ws else ws.(run := Some(PromoteFileTab(ws.run.value, tabId))), [], [])
    case ActivateTab(paneId, tabId) =>
      Done(if ws.run.None? then ws else ws.(run := Some(ActivateRunTab(ws.run.value, paneId, tabId))), [], [])
    case SetUrlTarget(tabId, url, title) =>
      Done(if ws.run.None? then ws else ws.(run := Some(RetargetUrlTab(ws.run.value, tabId, url, title))), [], [])
    case CloseTab(paneId, tabId) =>
      if ws.run.None? then Done(ws, [], [])
      else
        var run := ws.run.value;
        Done(AfterClosing(ws, CloseRunTab(run, paneId, tabId)),
             IdIfKind(run, paneId, tabId, Terminal), IdIfKind(run, paneId, tabId, Url))
    case CloseAllIn(paneId) =>
      if ws.run.None? then Done(ws, [], [])
      else
        var run := ws.run.value;
        Done(AfterClosing(ws, ClosePane(run, paneId)),
             TabIdsInPane(run, paneId, Terminal), TabIdsInPane(run, paneId, Url))
    case ReleaseScope(scopeKey) =>
      if ws.run.None? then Done(ws, [], [])
      else
        var panes := ws.run.value.panes;
        Done(AfterClosing(ws, ReleaseRunScope(ws.run.value, scopeKey)),
             TabIdsForScope(panes, scopeKey, Terminal), TabIdsForScope(panes, scopeKey, Url))
    case _ => Done(ActOnLayout(ws, a), [], [])
  }
}
