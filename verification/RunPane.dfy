/** The workspace's panes and tabs: one or two panes, each a strip of tabs, changed by pure reducers. */
module RunPane {
  import opened CharClasses

  datatype TabKind = Preview | Console | Terminal | Code | Diff | Skill | Viewer | Url

  datatype TabMode = PreviewMode | Permanent

  datatype RunTab = RunTab(
    id: string,
    kind: TabKind,
    title: string,
    path: Option<string>,
    config: Option<string>,
    port: Option<nat>,
    url: Option<string>,
    mode: Option<TabMode>,
    original: Option<string>,
    modified: Option<string>,
    scopeKey: Option<string>)

  datatype Pane = Pane(id: string, tabs: seq<RunTab>, active: Option<string>)

  datatype Direction = SideBySide | Stacked

  datatype RunState = RunState(dir: Direction, flex: seq<real>, panes: seq<Pane>)

  datatype DropEdge = Center | LeftEdge | RightEdge | TopEdge | BottomEdge

  const MAX_PANES := 2

  predicate IsLaunchTab(t: RunTab) {
    t.kind == Preview || t.kind == Console
  }

  predicate IsFileTab(t: RunTab) {
    t.kind in {Code, Diff, Skill, Viewer}
  }

  predicate Given(s: Option<string>) {
    s.Some? && s.value != ""
  }

  /** The tab an added tab would duplicate; tabs without an identity duplicate nothing. */
  predicate Duplicates(tab: RunTab, t: RunTab) {
    if IsLaunchTab(tab) && Given(tab.config) then
      IsLaunchTab(t) && t.config == tab.config && t.scopeKey == tab.scopeKey
    else if tab.kind == Url && Given(tab.url) then t.kind == Url && t.url == tab.url && t.scopeKey == tab.scopeKey
    else false
  }

  // ----- finding

  function FindTab(tabs: seq<RunTab>, p: RunTab -> bool): (t: Option<RunTab>)
    ensures t.Some? ==> t.value in tabs && p(t.value)
    ensures t.None? ==> forall u :: u in tabs ==> !p(u)
  {
    if tabs == [] then None else if p(tabs[0]) then Some(tabs[0]) else FindTab(tabs[1..], p)
  }

  function FindHolder(panes: seq<Pane>, p: RunTab -> bool): (i: Option<nat>)
    ensures i.Some? ==> i.value < |panes| && FindTab(panes[i.value].tabs, p).Some?
    ensures i.None? ==> forall k :: 0 <= k < |panes| ==> FindTab(panes[k].tabs, p).None?
  {
    if panes == [] then None
    else if FindTab(panes[0].tabs, p).Some? then Some(0)
    else
      match FindHolder(panes[1..], p)
      case None =>
        assert forall k :: 1 <= k < |panes| ==> panes[k] == panes[1..][k - 1];
        None
      case Some(i) => Some(i + 1)
  }

  function FindPane(panes: seq<Pane>, id: string): (i: Option<nat>)
    ensures i.Some? ==> i.value < |panes| && panes[i.value].id == id
    ensures i.None? ==> forall k :: 0 <= k < |panes| ==> panes[k].id != id
  {
    if panes == [] then None
    else if panes[0].id == id then Some(0)
    else
      match FindPane(panes[1..], id)
      case None =>
        assert forall k :: 1 <= k < |panes| ==> panes[k] == panes[1..][k - 1];
        None
      case Some(i) => Some(i + 1)
  }

  // ----- reducers

  function EmptyRun(paneId: string): RunState {
    RunState(SideBySide, [1.0, 1.0], [Pane(paneId, [], None)])
  }

  function MapPanes(panes: seq<Pane>, f: Pane -> Pane): seq<Pane> {
    seq(|panes|, i requires 0 <= i < |panes| => f(panes[i]))
  }

  function ActivateRunTab(run: RunState, paneId: string, tabId: string): RunState {
    run.(panes := MapPanes(run.panes, (p: Pane) => if p.id == paneId then p.(active := Some(tabId)) else p))
  }

  /** Appends a tab and focuses it, or focuses the one it duplicates; `None` when the named pane is gone. */
  function AddRunTab(run: Option<RunState>, tab: RunTab, paneId: Option<string>, newPane: string): Option<RunState> {
    var base := if run.Some? then run.value else EmptyRun(newPane);
    var holder := FindHolder(base.panes, (t: RunTab) => Duplicates(tab, t));
    if holder.Some? then
      var pane := base.panes[holder.value];
      Some(ActivateRunTab(base, pane.id, FindTab(pane.tabs, (t: RunTab) => Duplicates(tab, t)).value.id))
    else
      var index := if Given(paneId) then FindPane(base.panes, paneId.value) else Some(0);
      if index.None? || index.value >= |base.panes| then None
      else
        var target := base.panes[index.value];
        Some(base.(panes := base.panes[index.value := target.(tabs := target.tabs + [tab], active := Some(tab.id))]))
  }

  function Keep(tabs: seq<RunTab>, p: RunTab -> bool): seq<RunTab> {
    if tabs == [] then [] else if p(tabs[0]) then [tabs[0]] + Keep(tabs[1..], p) else Keep(tabs[1..], p)
  }

  function NonEmpty(panes: seq<Pane>): seq<Pane> {
    if panes == [] then []
    else if panes[0].tabs == [] then NonEmpty(panes[1..])
    else [panes[0]] + NonEmpty(panes[1..])
  }

  function LastId(tabs: seq<RunTab>): Option<string> {
    if tabs == [] then None else Some(tabs[|tabs| - 1].id)
  }

  function CloseTabIn(p: Pane, tabId: string): Pane {
    var tabs := Keep(p.tabs, (t: RunTab) => t.id != tabId);
    p.(tabs := tabs, active := if p.active == Some(tabId) then LastId(tabs) else p.active)
  }

  function Rebuilt(run: RunState, panes: seq<Pane>): Option<RunState> {
    if panes == [] then None
    else Some(run.(panes := panes, flex := if |panes| == 1 then [1.0, 1.0] else run.flex))
  }

  function CloseRunTab(run: RunState, paneId: string, tabId: string): Option<RunState> {
    Rebuilt(run, NonEmpty(MapPanes(run.panes, (p: Pane) => if p.id == paneId then CloseTabIn(p, tabId) else p)))
  }

  function OtherPanes(panes: seq<Pane>, paneId: string): seq<Pane> {
    if panes == [] then []
    else if panes[0].id == paneId then OtherPanes(panes[1..], paneId)
    else [panes[0]] + OtherPanes(panes[1..], paneId)
  }

  function ClosePane(run: RunState, paneId: string): Option<RunState> {
    var panes := OtherPanes(run.panes, paneId);
    if panes == [] then None else Some(run.(panes := panes, flex := [1.0, 1.0]))
  }

  function ReleaseIn(p: Pane, scopeKey: string): Pane {
    var tabs := Keep(p.tabs, (t: RunTab) => t.scopeKey != Some(scopeKey));
    var kept := FindTab(tabs, (t: RunTab) => p.active == Some(t.id)).Some?;
    p.(tabs := tabs, active := if kept then p.active else LastId(tabs))
  }

  function ReleaseRunScope(run: RunState, scopeKey: string): Option<RunState> {
    Rebuilt(run, NonEmpty(MapPanes(run.panes, (p: Pane) => ReleaseIn(p, scopeKey))))
  }

  function IdsOfKind(tabs: seq<RunTab>, kind: TabKind): seq<string> {
    if tabs == [] then []
    else (if tabs[0].kind == kind then [tabs[0].id] else []) + IdsOfKind(tabs[1..], kind)
  }

  function TabIdsInPane(run: RunState, paneId: string, kind: TabKind): seq<string> {
    match FindPane(run.panes, paneId)
    case None => []
    case Some(i) => IdsOfKind(run.panes[i].tabs, kind)
  }

  function TabIdsForScope(panes: seq<Pane>, scopeKey: string, kind: TabKind): seq<string> {
    if panes == [] then []
    else IdsOfKind(Keep(panes[0].tabs, (t: RunTab) => t.scopeKey == Some(scopeKey)), kind)
         + TabIdsForScope(panes[1..], scopeKey, kind)
  }

  function MapTabs(tabs: seq<RunTab>, id: string, tab: RunTab): seq<RunTab> {
    if tabs == [] then [] else [if tabs[0].id == id then tab else tabs[0]] + MapTabs(tabs[1..], id, tab)
  }

  /** Replaces the tabs with an id in the panes with an id. */
  function ReplaceTab(run: RunState, paneId: string, id: string, tab: RunTab): RunState {
    run.(panes := MapPanes(run.panes, (p: Pane) => if p.id == paneId then p.(tabs := MapTabs(p.tabs, id, tab)) else p))
  }

  /** Points a URL tab at a new address, unless a sibling in its scope already shows it: that one is focused. */
  function RetargetUrlTab(run: RunState, tabId: string, url: string, title: string): RunState {
    match FindHolder(run.panes, (t: RunTab) => t.id == tabId)
    case None => run
    case Some(i) =>
      var source := FindTab(run.panes[i].tabs, (t: RunTab) => t.id == tabId).value;
      if source.kind != Url || source.url == Some(url) then run
      else
        var holds := (t: RunTab) => t.kind == Url && t.url == Some(url) && t.scopeKey == source.scopeKey;
        match FindHolder(run.panes, holds)
        case Some(h) => ActivateRunTab(run, run.panes[h].id, FindTab(run.panes[h].tabs, holds).value.id)
        case None => ReplaceTab(run, run.panes[i].id, tabId, source.(url := Some(url), title := title))
  }

  /** Drops a tab on the workspace: joins the first pane, or splits off a second one. */
  function MoveTabToRun(run: RunState, guest: RunTab, edge: DropEdge, newPane: string): Option<RunState> {
    var hasTabs := exists i :: 0 <= i < |run.panes| && run.panes[i].tabs != [];
    if edge == Center || |run.panes| >= MAX_PANES || !hasTabs then AddRunTab(Some(run), guest, None, newPane)
    else
      var dir := if edge == LeftEdge || edge == RightEdge then SideBySide else Stacked;
      var pane := Pane(newPane, [guest], Some(guest.id));
      var existing := run.panes[0];
      Some(RunState(dir, [1.0, 1.0],
                    if edge == LeftEdge || edge == TopEdge then [pane, existing] else [existing, pane]))
  }

  /** Detach, then drop: the tab keeps its id. The last tab has nowhere to go. */
  function MoveTabToPaneEdge(run: RunState, tabId: string, edge: DropEdge, newPane: string): RunState {
    match FindHolder(run.panes, (t: RunTab) => t.id == tabId)
    case None => run
    case Some(i) =>
      var tab := FindTab(run.panes[i].tabs, (t: RunTab) => t.id == tabId).value;
      match CloseRunTab(run, run.panes[i].id, tabId)
      case None => run
      case Some(detached) =>
        match MoveTabToRun(detached, tab, edge, newPane)
        case None => run
        case Some(moved) => moved
  }

  // ----- file tabs

  datatype FileTarget = FileTarget(
    kind: TabKind, path: string, title: string, original: Option<string>, modified: Option<string>,
    scopeKey: Option<string>)

  function BuildFileTab(target: FileTarget, mode: TabMode, id: string): RunTab {
    var isDiff := target.kind == Diff;
    RunTab(id, target.kind, target.title, Some(target.path), None, None, None, Some(mode),
           if isDiff then target.original else None, if isDiff then target.modified else None, target.scopeKey)
  }

  predicate SameFile(target: FileTarget, t: RunTab) {
    t.kind == target.kind && t.path == Some(target.path) && t.scopeKey == target.scopeKey
  }

  predicate IsPreviewIn(t: RunTab, scopeKey: Option<string>) {
    IsFileTab(t) && t.mode == Some(PreviewMode) && t.scopeKey == scopeKey
  }

  function Patched(existing: RunTab, target: FileTarget, mode: TabMode): RunTab {
    var nextMode := if mode == Permanent || existing.mode.None? then Permanent else existing.mode.value;
    if target.kind == Diff then
      existing.(mode := Some(nextMode), title := target.title, original := target.original, modified := target.modified)
    else existing.(mode := Some(nextMode))
  }

  function FirstIndex(tabs: seq<RunTab>, p: RunTab -> bool): (i: Option<nat>)
    ensures i.Some? ==> i.value < |tabs| && p(tabs[i.value])
    ensures i.None? ==> forall k :: 0 <= k < |tabs| ==> !p(tabs[k])
  {
    if tabs == [] then None
    else if p(tabs[0]) then Some(0)
    else
      match FirstIndex(tabs[1..], p)
      case None =>
        assert forall k :: 1 <= k < |tabs| ==> tabs[k] == tabs[1..][k - 1];
        None
      case Some(i) => Some(i + 1)
  }

  datatype Opened = Opened(run: RunState, tabId: string)

  /** Opens a file tab, or focuses the one already open; a preview takes over its pane's preview slot for the scope. */
  function OpenFileTab(run: Option<RunState>, target: FileTarget, mode: TabMode, paneId: Option<string>,
                       newPane: string, newTab: string): Opened
    requires run.Some? ==> run.value.panes != []
  {
    var base := if run.Some? then run.value else EmptyRun(newPane);
    var matches := (t: RunTab) => SameFile(target, t);
    match FindHolder(base.panes, matches)
    case Some(h) =>
      var existing := FindTab(base.panes[h].tabs, matches).value;
      var replaced := ReplaceTab(base, base.panes[h].id, existing.id, Patched(existing, target, mode));
      Opened(ActivateRunTab(replaced, base.panes[h].id, existing.id), existing.id)
    case None =>
      var index := match (if Given(paneId) then FindPane(base.panes, paneId.value) else Some(0))
                   case None => 0
                   case Some(i) => i;
      var pane := base.panes[index];
      var tab := BuildFileTab(target, mode, newTab);
      var slot := if mode == PreviewMode then FirstIndex(pane.tabs, (t: RunTab) => IsPreviewIn(t, target.scopeKey))
                  else None;
      var tabs := match slot case Some(k) => pane.tabs[k := tab] case None => pane.tabs + [tab];
      Opened(base.(panes := MapPanes(base.panes, (p: Pane) =>
        if p.id == pane.id then p.(tabs := tabs, active := Some(tab.id)) else p)), tab.id)
  }

  predicate IsPromoted(t: RunTab, tabId: string) {
    t.id == tabId && t.mode == Some(PreviewMode)
  }

  function Promote(tabs: seq<RunTab>, tabId: string): seq<RunTab> {
    if tabs == [] then []
    else [if IsPromoted(tabs[0], tabId) then tabs[0].(mode := Some(Permanent)) else tabs[0]] + Promote(tabs[1..], tabId)
  }

  function PromoteFileTab(run: RunState, tabId: string): RunState {
    run.(panes := MapPanes(run.panes, (p: Pane) => p.(tabs := Promote(p.tabs, tabId))))
  }
}
