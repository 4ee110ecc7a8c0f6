/** The store itself: each session keeps its workspace, and the actions work on the one on screen. */
module LayoutStore {
  import opened CharClasses
  import opened LayoutPlacement
  import opened RunPane
  import opened RunPaneMoves
  import A = LayoutActions
  import opened LayoutBooks
  import opened LayoutLaws

  type SessionWorkspace = A.SessionWorkspace

  /**
   * `killed` and `released` are what the store disposed of, in order. The ghost
   * fields remember every terminal and URL tab that was ever open, so that a
   * valid store is one whose books balance: what it disposed of is what was
   * open once and is open in no session any more.
   */
  class Store {
    var layout: Layout
    var run: Option<RunState>
    var sessions: map<string, SessionWorkspace>
    var activeSessionId: Option<string>
    var workspaceSystemMoved: Option<RepositionTarget>
    var killed: seq<string>
    var released: seq<string>
    ghost var terminals: set<string>
    ghost var urls: set<string>

    ghost function Books(): Ledger
      reads this
    {
      Ledger(A.Ws(layout, run, workspaceSystemMoved), sessions, activeSessionId, terminals, urls, killed, released)
    }

    ghost predicate Valid()
      reads this
    {
      Balanced(Books())
    }

    /** The store has made this move, and only it; its books balance exactly when the move was legal and lost no tab. */
    ghost predicate Took(was: Ledger, m: Move)
      reads this
    {
      && Possible(was, m) && Books() == After(was, m)
      && ((m.Do? && m.action.OpenFile? ==> Legal(was, m)) ==> (Valid() <==> Legal(was, m) && !Loses(was, m)))
    }

    constructor ()
      ensures Valid() && Books() == Started()
    {
      layout, run, sessions, activeSessionId := A.INITIAL_LAYOUT, None, map[], None;
      workspaceSystemMoved, killed, released, terminals, urls := None, [], [], {}, {};
      new;
      StartedBalanced();
    }

    /** Shows another session's workspace, or a first one. */
    method SetActiveSession(sessionId: string)
      requires Valid()
      modifies this
      ensures Took(old(Books()), Show(sessionId))
    {
      hide Balanced, Loses;
      var ws := A.SessionWorkspace(A.INITIAL_LAYOUT, None);
      if sessionId in sessions {
        ws := sessions[sessionId];
      } else {
        sessions := sessions[sessionId := ws];
      }
      activeSessionId := Some(sessionId);
      layout, run := ws.layout, ws.run;
      assert sessions == Shown(old(Books()), sessionId).sessions;
      MoveBalancesIff(old(Books()), Show(sessionId));
    }

    /** Forgets the sessions that are not in the list. */
    method PruneSessions(validIds: set<string>)
      requires Valid()
      modifies this
      ensures Took(old(Books()), Prune(validIds))
    {
      hide Balanced, Loses;
      var next := map s | s in sessions && s in validIds :: sessions[s];
      if |next| != |sessions| {
        sessions := next;
      } else {
        SameSizeSame(sessions, next);
      }
      MoveBalancesIff(old(Books()), Prune(validIds));
    }

    method WriteWorkspace(l: Layout, r: Option<RunState>)
      modifies `layout, `run, `sessions
      ensures layout == l && run == r
      ensures sessions == Remembered(old(Books()), A.Ws(l, r, None))
    {
      if activeSessionId.Some? {
        sessions := sessions[activeSessionId.value := A.SessionWorkspace(l, r)];
      }
      layout, run := l, r;
    }

    method PlaceTheWorkspace(splitVisible: bool) returns (l: Layout)
      modifies `workspaceSystemMoved
      ensures A.Ws(l, run, workspaceSystemMoved) == A.PlaceWorkspace(old(Books()).ws, splitVisible)
    {
      if splitVisible && layout.bottom.None? && Workspace !in layout.top {
        workspaceSystemMoved := Some(TopRight);
        return layout.(bottom := Some(Workspace));
      }
      l := PlaceInLayout(layout, Workspace);
    }

    /** Enters in the books what an action has done to the workspace. */
    ghost method Enter(was: Ledger, a: A.Action)
      requires Balanced(was) && Possible(was, Do(a))
      requires Books() == Acted(was, a)
      modifies `terminals, `urls
      ensures Took(was, Do(a))
    {
      hide Balanced, Acted;
      terminals, urls := Done(was, a).terminals, Done(was, a).urls;
      if a.OpenFile? ==> Legal(was, Do(a)) {
        MoveBalancesIff(was, Do(a));
      }
    }

    method ToggleSurface(surface: SurfaceId, splitVisible: bool)
      requires Valid()
      modifies this
      ensures Took(old(Books()), Do(A.ToggleSurface(surface, splitVisible)))
    {
      hide Balanced, Took, RemoveSurface, PlaceInLayout;
      if !IsSurfaceFloor(layout, surface) {
        var isActive := surface in layout.top || layout.bottom == Some(surface);
        if isActive {
          WriteWorkspace(RemoveSurface(layout, surface), run);
        } else if surface == Workspace {
          var l := PlaceTheWorkspace(splitVisible);
          WriteWorkspace(l, run);
        } else {
          WriteWorkspace(PlaceInLayout(layout, surface), run);
        }
      }
      Enter(old(Books()), A.ToggleSurface(surface, splitVisible));
    }

    method SetTopFrac(frac: real)
      requires Valid()
      modifies this
      ensures Took(old(Books()), Do(A.SetTopFrac(frac)))
    {
      hide Balanced, Took;
      if |layout.top| >= 2 {
        var a, b := layout.top[0], layout.top[1];
        var c := A.Clamp(frac);
        WriteWorkspace(layout.(topFlex := layout.topFlex[a := c][b := 1.0 - c]), run);
      }
      Enter(old(Books()), A.SetTopFrac(frac));
    }

    method SetVFrac(frac: real)
      requires Valid()
      modifies this
      ensures Took(old(Books()), Do(A.SetVFrac(frac)))
    {
      hide Balanced, Took;
      var c := A.Clamp(frac);
      WriteWorkspace(layout.(vTop := c, vBottom := 1.0 - c), run);
      Enter(old(Books()), A.SetVFrac(frac));
    }

    method SplitSurface(sideBySide: bool, splitVisible: bool)
      requires Valid()
      modifies this
      ensures Took(old(Books()), Do(A.SplitSurface(sideBySide, splitVisible)))
    {
      hide Balanced, Took, PlaceInLayout;
      if LayoutCanSplit(layout) {
        if sideBySide {
          var l := PlaceTheWorkspace(splitVisible);
          WriteWorkspace(l, run);
        } else if layout.bottom.None? {
          WriteWorkspace(layout.(bottom := Some(Workspace)), run);
        }
      }
      Enter(old(Books()), A.SplitSurface(sideBySide, splitVisible));
    }

    method MoveWorkspaceForChatSplit()
      requires Valid()
      modifies this
      ensures Took(old(Books()), Do(A.MoveForChatSplit))
    {
      hide Balanced, Took, RepositionInLayout;
      if Workspace in layout.top {
        workspaceSystemMoved := Some(if layout.top[0] == Workspace then TopLeft else TopRight);
        WriteWorkspace(RepositionInLayout(layout, Workspace, Bottom), run);
      }
      Enter(old(Books()), A.MoveForChatSplit);
    }

    method RestoreWorkspaceAfterChatSplit()
      requires Valid()
      modifies this
      ensures Took(old(Books()), Do(A.RestoreAfterChatSplit))
    {
      hide Balanced, Took, RepositionInLayout;
      var moved := workspaceSystemMoved;
      workspaceSystemMoved := None;
      if moved.Some? && layout.bottom == Some(Workspace) {
        WriteWorkspace(RepositionInLayout(layout, Workspace, moved.value), run);
      }
      Enter(old(Books()), A.RestoreAfterChatSplit);
    }

    method OpenFile(target: FileTarget, mode: TabMode, inPane: Option<string>, newPane: string, newTab: string,
                    splitVisible: bool)
      returns (tabId: string)
      requires Valid()
      modifies this
      ensures Took(old(Books()), Do(A.OpenFile(target, mode, inPane, newPane, newTab, splitVisible)))
      ensures tabId == OpenFileTab(old(run), target, mode, inPane, newPane, newTab).tabId
    {
      hide Balanced, OpenFileTab, PlaceInLayout, Legal, Loses, After;
      AlwaysPossible(Books(), Do(A.OpenFile(target, mode, inPane, newPane, newTab, splitVisible)));
      var next := OpenFileTab(run, target, mode, inPane, newPane, newTab);
      var l := PlaceTheWorkspace(splitVisible);
      WriteWorkspace(l, Some(next.run));
      tabId := next.tabId;
      Enter(old(Books()), A.OpenFile(target, mode, inPane, newPane, newTab, splitVisible));
    }

    method PromoteFile(tabId: string)
      requires Valid()
      modifies this
      ensures Took(old(Books()), Do(A.PromoteFile(tabId)))
    {
      hide Balanced, Took, PromoteFileTab;
      if run.Some? {
        var nextRun, changed := PromoteInPanes(run.value, tabId);
        if changed {
          WriteWorkspace(layout, Some(nextRun));
        }
      }
      Enter(old(Books()), A.PromoteFile(tabId));
    }

    /** False exactly when the named pane is gone; the caller then disposes of what it wanted to add. */
    method AddTab(tab: RunTab, inPane: Option<string>, newPane: string, splitVisible: bool) returns (ok: bool)
      requires Valid()
      modifies this
      ensures Took(old(Books()), Do(A.AddTab(tab, inPane, newPane, splitVisible)))
      ensures ok == AddRunTab(old(run), tab, inPane, newPane).Some?
    {
      hide Balanced, Took, AddRunTab, PlaceInLayout;
      var nextRun := AddRunTab(run, tab, inPane, newPane);
      ok := nextRun.Some?;
      if ok {
        var l := PlaceTheWorkspace(splitVisible);
        WriteWorkspace(l, nextRun);
      }
      Enter(old(Books()), A.AddTab(tab, inPane, newPane, splitVisible));
    }

    method ActivateTab(paneId: string, tabId: string)
      requires Valid()
      modifies this
      ensures Took(old(Books()), Do(A.ActivateTab(paneId, tabId)))
    {
      hide Balanced, Took, ActivateRunTab;
      if run.Some? {
        WriteWorkspace(layout, Some(ActivateRunTab(run.value, paneId, tabId)));
      }
      Enter(old(Books()), A.ActivateTab(paneId, tabId));
    }

    method SetUrlTabTarget(tabId: string, url: string, title: string)
      requires Valid()
      modifies this
      ensures Took(old(Books()), Do(A.SetUrlTarget(tabId, url, title)))
    {
      hide Balanced, Took, RetargetUrlTab, A.Retargets;
      if run.Some? {
        if A.Retargets(run.value, tabId, url) {
          WriteWorkspace(layout, Some(RetargetUrlTab(run.value, tabId, url, title)));
        } else {
          UnretargetedIsSame(run.value, tabId, url, title);
        }
      }
      Enter(old(Books()), A.SetUrlTarget(tabId, url, title));
    }

    /** The terminal to kill or the URL tab to release, before its tab is closed. */
    method DisposeTab(paneId: string, tabId: string)
      requires run.Some?
      modifies `killed, `released
      ensures killed == old(killed) + A.IdIfKind(run.value, paneId, tabId, Terminal)
      ensures released == old(released) + A.IdIfKind(run.value, paneId, tabId, Url)
    {
      hide FindPane, FindTab;
      var pane := FindPane(run.value.panes, paneId);
      if pane.Some? {
        var tab := FindTab(run.value.panes[pane.value].tabs, (t: RunTab) => t.id == tabId);
        if tab.Some? && tab.value.kind == Terminal {
          killed := killed + [tabId];
        }
        if tab.Some? && tab.value.kind == Url {
          released := released + [tabId];
        }
      }
    }

    method CloseTab(paneId: string, tabId: string)
      requires Valid()
      modifies this
      ensures Took(old(Books()), Do(A.CloseTab(paneId, tabId)))
    {
      hide Balanced, Took, CloseRunTab, A.IdIfKind, RemoveSurface;
      if run.Some? {
        DisposeTab(paneId, tabId);
        var nextRun := CloseRunTab(run.value, paneId, tabId);
        WriteWorkspace(if nextRun.Some? then layout else RemoveSurface(layout, Workspace), nextRun);
      }
      Enter(old(Books()), A.CloseTab(paneId, tabId));
    }

    method CloseAllIn(paneId: string)
      requires Valid()
      modifies this
      ensures Took(old(Books()), Do(A.CloseAllIn(paneId)))
    {
      hide Balanced, Took, ClosePane, TabIdsInPane, RemoveSurface;
      if run.Some? {
        killed := killed + TabIdsInPane(run.value, paneId, Terminal);
        released := released + TabIdsInPane(run.value, paneId, Url);
        var nextRun := ClosePane(run.value, paneId);
        WriteWorkspace(if nextRun.Some? then layout else RemoveSurface(layout, Workspace), nextRun);
      }
      Enter(old(Books()), A.CloseAllIn(paneId));
    }

    method ReleaseScope(scopeKey: string)
      requires Valid()
      modifies this
      ensures Took(old(Books()), Do(A.ReleaseScope(scopeKey)))
    {
      hide Balanced, Took, ReleaseRunScope, TabIdsForScope, RemoveSurface;
      if run.Some? {
        killed := killed + TabIdsForScope(run.value.panes, scopeKey, Terminal);
        released := released + TabIdsForScope(run.value.panes, scopeKey, Url);
        var nextRun := ReleaseRunScope(run.value, scopeKey);
        WriteWorkspace(if nextRun.Some? then layout else RemoveSurface(layout, Workspace), nextRun);
      }
      Enter(old(Books()), A.ReleaseScope(scopeKey));
    }
  }

  lemma AlwaysPossible(l: Ledger, m: Move)
    requires Balanced(l)
    ensures Possible(l, m)
  {
    HasPanes(l.ws);
  }

  /** A part of a map that is as large as the map is the map. */
  lemma SameSizeSame(m: map<string, SessionWorkspace>, part: map<string, SessionWorkspace>)
    requires part.Keys <= m.Keys && |part| == |m| && forall s :: s in part ==> part[s] == m[s]
    ensures part == m
  {
    if part.Keys != m.Keys {
      var s :| s in m.Keys && s !in part.Keys;
      SmallerPart(part.Keys, m.Keys - {s});
    }
  }

  lemma {:induction false} SmallerPart(a: set<string>, b: set<string>)
    requires a <= b
    ensures |a| <= |b|
  {
    if a != {} {
      var x :| x in a;
      SmallerPart(a - {x}, b - {x});
    }
  }
}
