/** Where every pane and tab of the workspace stands after a change, and which tab each pane shows. */
module RunPaneOrder {
  import opened CharClasses
  import opened RunPane
  import opened RunPaneLaws
  import opened RunPaneOps
  import opened RunPaneMoves

  // ----- what closing leaves, in its order

  /** These are, in their order, the positions of `many` that `at` lists. */
  ghost predicate Increasing(at: seq<nat>, size: nat) {
    && (forall j :: 0 <= j < |at| ==> at[j] < size)
    && (forall j, k :: 0 <= j < k < |at| ==> at[j] < at[k])
  }

  ghost predicate Picked(few: seq<RunTab>, many: seq<RunTab>, at: seq<nat>) {
    |at| == |few| && forall j :: 0 <= j < |at| ==> at[j] < |many| && few[j] == many[at[j]]
  }

  ghost predicate AreKept(many: seq<RunTab>, keep: RunTab -> bool, at: seq<nat>) {
    forall i :: 0 <= i < |many| ==> (keep(many[i]) <==> i in at)
  }

  ghost predicate TabsAt(few: seq<RunTab>, many: seq<RunTab>, keep: RunTab -> bool, at: seq<nat>) {
    Increasing(at, |many|) && Picked(few, many, at) && AreKept(many, keep, at)
  }

  /** `few` are the tabs that stay, in the order they had. */
  ghost predicate KeptInOrder(few: seq<RunTab>, many: seq<RunTab>, keep: RunTab -> bool) {
    exists at: seq<nat> :: TabsAt(few, many, keep, at)
  }

  /** Whether a tab stays may depend on the pane it is in. */
  type Stays = (Pane, RunTab) -> bool

  /** The tab the pane shows is one that stays. */
  ghost predicate ShowsStaying(p: Pane, stays: Stays) {
    exists t :: t in p.tabs && p.active == Some(t.id) && stays(p, t)
  }

  /** The pane shows the tab it showed if that one stays, and the last one otherwise. */
  ghost predicate PaneRemains(p: Pane, q: Pane, stays: Stays) {
    && q.id == p.id && q.tabs != [] && KeptInOrder(q.tabs, p.tabs, (t: RunTab) => stays(p, t))
    && q.active == if ShowsStaying(p, stays) then p.active else Some(q.tabs[|q.tabs| - 1].id)
  }

  ghost predicate AnyStays(p: Pane, stays: Stays) {
    exists t :: t in p.tabs && stays(p, t)
  }

  ghost predicate EachRemains(before: seq<Pane>, after: seq<Pane>, stays: Stays, at: seq<nat>) {
    && |at| == |after|
    && forall j :: 0 <= j < |at| ==> at[j] < |before| && PaneRemains(before[at[j]], after[j], stays)
  }

  ghost predicate Covers(before: seq<Pane>, stays: Stays, at: seq<nat>) {
    forall i :: 0 <= i < |before| ==> (AnyStays(before[i], stays) <==> i in at)
  }

  ghost predicate PanesAt(before: seq<Pane>, after: seq<Pane>, stays: Stays, at: seq<nat>) {
    Increasing(at, |before|) && EachRemains(before, after, stays, at) && Covers(before, stays, at)
  }

  /** The panes with a tab that stays are there in the order they had, and no other pane is. */
  ghost predicate Remains(run: RunState, r: Option<RunState>, stays: Stays) {
    var panes := if r.Some? then r.value.panes else [];
    && (exists at: seq<nat> :: PanesAt(run.panes, panes, stays, at))
    && (r.Some? ==> r.value.panes != [] && r.value.dir == run.dir)
  }

  function Later(at: seq<nat>): (later: seq<nat>)
    ensures |later| == |at| && forall j :: 0 <= j < |at| ==> later[j] == at[j] + 1
  {
    seq(|at|, j requires 0 <= j < |at| => at[j] + 1)
  }

  lemma {:induction false} KeepAt(tabs: seq<RunTab>, keep: RunTab -> bool) returns (at: seq<nat>)
    ensures TabsAt(Keep(tabs, keep), tabs, keep, at)
  {
    if tabs == [] {
      at := [];
    } else {
      var rest := KeepAt(tabs[1..], keep);
      at := if keep(tabs[0]) then [0] + Later(rest) else Later(rest);
      ShiftedAt(Keep(tabs[1..], keep), tabs, keep, rest);
    }
  }

  lemma ShiftedAt(few: seq<RunTab>, tabs: seq<RunTab>, keep: RunTab -> bool, rest: seq<nat>)
    requires tabs != [] && TabsAt(few, tabs[1..], keep, rest)
    ensures keep(tabs[0]) ==> TabsAt([tabs[0]] + few, tabs, keep, [0] + Later(rest))
    ensures !keep(tabs[0]) ==> TabsAt(few, tabs, keep, Later(rest))
  {
    hide Increasing, Picked, AreKept;
    ShiftedIn(rest, Later(rest), |tabs|);
    ShiftedTabs(few, tabs, rest);
    if keep(tabs[0]) {
      ShiftedKept(tabs, keep, rest, [0] + Later(rest));
    } else {
      ShiftedKept(tabs, keep, rest, Later(rest));
    }
  }

  lemma ShiftedKept(tabs: seq<RunTab>, keep: RunTab -> bool, at: seq<nat>, all: seq<nat>)
    requires tabs != [] && AreKept(tabs[1..], keep, at) && (0 in all <==> keep(tabs[0]))
    requires forall i: nat :: i in at <==> i + 1 in all
    ensures AreKept(tabs, keep, all)
  {
    forall i | 1 <= i < |tabs| ensures keep(tabs[i]) <==> i in all {
      assert tabs[1..][i - 1] == tabs[i];
      assert i - 1 in at <==> i - 1 + 1 in all;
    }
  }

  lemma ShiftedTabs(few: seq<RunTab>, tabs: seq<RunTab>, rest: seq<nat>)
    requires tabs != [] && Picked(few, tabs[1..], rest)
    ensures Picked(few, tabs, Later(rest)) && Picked([tabs[0]] + few, tabs, [0] + Later(rest))
  {
  }

  lemma ShiftedIn(rest: seq<nat>, later: seq<nat>, size: nat)
    requires size > 0 && Increasing(rest, size - 1)
    requires |later| == |rest| && forall j :: 0 <= j < |rest| ==> later[j] == rest[j] + 1
    ensures Increasing(later, size) && Increasing([0] + later, size) && 0 !in later
    ensures forall i: nat :: i in rest <==> i + 1 in later
    ensures forall i: nat :: i in rest <==> i + 1 in [0] + later
  {
    forall i: nat ensures i in rest <==> i + 1 in later {
      if i in rest {
        var j :| 0 <= j < |rest| && rest[j] == i;
        assert later[j] == i + 1;
      }
    }
  }

  lemma LaterRemain(before: seq<Pane>, after: seq<Pane>, stays: Stays, at: seq<nat>)
    requires before != [] && EachRemains(before[1..], after, stays, at)
    ensures EachRemains(before, after, stays, Later(at))
  {
    hide PaneRemains;
    var later := Later(at);
    forall j | 0 <= j < |at| ensures PaneRemains(before[later[j]], after[j], stays) {
      assert before[1..][at[j]] == before[later[j]];
    }
  }

  lemma LaterCover(before: seq<Pane>, stays: Stays, at: seq<nat>, all: seq<nat>)
    requires before != [] && Covers(before[1..], stays, at)
    requires forall i: nat :: i in at <==> i + 1 in all
    requires 0 in all <==> AnyStays(before[0], stays)
    ensures Covers(before, stays, all)
  {
    hide AnyStays;
    forall i | 1 <= i < |before| ensures AnyStays(before[i], stays) <==> i in all {
      assert before[1..][i - 1] == before[i];
      assert i - 1 in at <==> i - 1 + 1 in all;
    }
  }

  lemma FirstGoes(before: seq<Pane>, after: seq<Pane>, stays: Stays, at: seq<nat>)
    requires before != [] && PanesAt(before[1..], after, stays, at) && !AnyStays(before[0], stays)
    ensures PanesAt(before, after, stays, Later(at))
  {
    hide AnyStays, EachRemains, Covers, Increasing;
    ShiftedIn(at, Later(at), |before|);
    LaterRemain(before, after, stays, at);
    LaterCover(before, stays, at, Later(at));
  }

  lemma FirstStays(before: seq<Pane>, q: Pane, after: seq<Pane>, stays: Stays, at: seq<nat>)
    requires before != [] && PanesAt(before[1..], after, stays, at)
    requires PaneRemains(before[0], q, stays) && AnyStays(before[0], stays)
    ensures PanesAt(before, [q] + after, stays, [0] + Later(at))
  {
    hide AnyStays, EachRemains, Covers, Increasing, PaneRemains;
    ShiftedIn(at, Later(at), |before|);
    LaterRemain(before, after, stays, at);
    ConsRemain(before, q, after, stays, Later(at));
    LaterCover(before, stays, at, [0] + Later(at));
  }

  lemma ConsRemain(before: seq<Pane>, q: Pane, after: seq<Pane>, stays: Stays, later: seq<nat>)
    requires before != [] && EachRemains(before, after, stays, later) && PaneRemains(before[0], q, stays)
    ensures EachRemains(before, [q] + after, stays, [0] + later)
  {
    hide PaneRemains;
  }

  /** What a pane rebuilt in place must be. */
  ghost predicate Became(p: Pane, q: Pane, stays: Stays) {
    if q.tabs == [] then !AnyStays(p, stays) else PaneRemains(p, q, stays) && AnyStays(p, stays)
  }

  /** Panes rebuilt in place, then the empty ones dropped. */
  lemma {:induction false} NonEmptyAt(before: seq<Pane>, panes: seq<Pane>, stays: Stays) returns (at: seq<nat>)
    requires |panes| == |before| && forall i :: 0 <= i < |before| ==> Became(before[i], panes[i], stays)
    ensures PanesAt(before, NonEmpty(panes), stays, at)
  {
    hide PaneRemains, PanesAt, AnyStays;
    if before == [] {
      at := [];
      NoPanesAt(stays);
    } else {
      forall i | 0 <= i < |before[1..]| ensures Became(before[1..][i], panes[1..][i], stays) {
        assert before[1..][i] == before[i + 1] && panes[1..][i] == panes[i + 1];
      }
      var rest := NonEmptyAt(before[1..], panes[1..], stays);
      assert Became(before[0], panes[0], stays);
      if panes[0].tabs == [] {
        FirstGoes(before, NonEmpty(panes[1..]), stays, rest);
        at := Later(rest);
      } else {
        FirstStays(before, panes[0], NonEmpty(panes[1..]), stays, rest);
        at := [0] + Later(rest);
      }
    }
  }

  lemma SameKept(few: seq<RunTab>, many: seq<RunTab>, keep: RunTab -> bool, keep': RunTab -> bool)
    requires KeptInOrder(few, many, keep) && forall t :: t in many ==> keep(t) == keep'(t)
    ensures KeptInOrder(few, many, keep')
  {
    var at: seq<nat> :| TabsAt(few, many, keep, at);
    assert TabsAt(few, many, keep', at);
  }

  lemma AllKept(tabs: seq<RunTab>, keep: RunTab -> bool)
    requires forall t :: t in tabs ==> keep(t)
    ensures KeptInOrder(tabs, tabs, keep)
  {
    var at: seq<nat> := seq(|tabs|, j requires 0 <= j < |tabs| => j);
    forall i | 0 <= i < |tabs| ensures i in at {
      assert at[i] == i;
    }
    assert TabsAt(tabs, tabs, keep, at);
  }

  lemma Untouched(p: Pane, stays: Stays)
    requires PaneShape(p) && forall t :: t in p.tabs ==> stays(p, t)
    ensures PaneRemains(p, p, stays) && AnyStays(p, stays)
  {
    hide KeptInOrder;
    AllKept(p.tabs, (t: RunTab) => stays(p, t));
    var j :| 0 <= j < |p.tabs| && p.active == Some(p.tabs[j].id);
    assert p.tabs[j] in p.tabs;
  }

  lemma ClosedFocus(p: Pane, tabId: string, stays: Stays)
    requires PaneShape(p) && forall t :: t in p.tabs ==> (stays(p, t) <==> t.id != tabId)
    ensures ShowsStaying(p, stays) <==> p.active != Some(tabId)
  {
    var j :| 0 <= j < |p.tabs| && p.active == Some(p.tabs[j].id);
    assert p.tabs[j] in p.tabs;
  }

  lemma ClosedPane(p: Pane, tabId: string, stays: Stays)
    requires PaneShape(p) && forall t :: t in p.tabs ==> (stays(p, t) <==> t.id != tabId)
    ensures Became(p, CloseTabIn(p, tabId), stays)
  {
    hide KeptInOrder, TabsAt, Keep, PaneShape, ShowsStaying;
    var keep := (t: RunTab) => t.id != tabId;
    var tabs := Keep(p.tabs, keep);
    KeptTabs(p, keep, stays);
    ClosedFocus(p, tabId, stays);
    assert CloseTabIn(p, tabId).tabs == tabs;
  }

  /** The tabs kept are those that stay, in order. */
  lemma KeptTabs(p: Pane, keep: RunTab -> bool, stays: Stays)
    requires forall t :: t in p.tabs ==> (stays(p, t) <==> keep(t))
    ensures KeptInOrder(Keep(p.tabs, keep), p.tabs, (t: RunTab) => stays(p, t))
    ensures Keep(p.tabs, keep) != [] <==> AnyStays(p, stays)
  {
    hide KeptInOrder, TabsAt, Keep;
    var tabs := Keep(p.tabs, keep);
    var at := KeepAt(p.tabs, keep);
    KeptAt(tabs, p.tabs, keep, at);
    SameKept(tabs, p.tabs, keep, (t: RunTab) => stays(p, t));
    KeepIs(p.tabs, keep);
    if tabs != [] {
      assert tabs[0] in tabs;
    }
  }

  lemma KeptAt(few: seq<RunTab>, many: seq<RunTab>, keep: RunTab -> bool, at: seq<nat>)
    requires TabsAt(few, many, keep, at)
    ensures KeptInOrder(few, many, keep)
  {
  }

  lemma ReleasedPane(p: Pane, scopeKey: string, stays: Stays)
    requires PaneShape(p) && forall t :: t in p.tabs ==> (stays(p, t) <==> t.scopeKey != Some(scopeKey))
    ensures Became(p, ReleaseIn(p, scopeKey), stays)
  {
    hide KeptInOrder, TabsAt, Keep, PaneShape;
    var keep := (t: RunTab) => t.scopeKey != Some(scopeKey);
    KeptTabs(p, keep, stays);
    KeepIs(p.tabs, keep);
    assert ReleaseIn(p, scopeKey).tabs == Keep(p.tabs, keep);
  }

  /** Closing a tab takes that tab from that pane; a pane it leaves empty goes too. */
  lemma CloseRemains(run: RunState, paneId: string, tabId: string)
    requires Shape(run.panes)
    ensures var r := CloseRunTab(run, paneId, tabId);
            && Remains(run, r, (p: Pane, t: RunTab) => !(p.id == paneId && t.id == tabId))
            && (r.Some? ==> r.value.flex == if |r.value.panes| == 1 then [1.0, 1.0] else run.flex)
  {
    hide CloseTabIn, NonEmpty, PaneRemains, NoClash, All;
    var stays := (p: Pane, t: RunTab) => !(p.id == paneId && t.id == tabId);
    var panes := MapPanes(run.panes, (p: Pane) => if p.id == paneId then CloseTabIn(p, tabId) else p);
    forall i | 0 <= i < |panes| ensures Became(run.panes[i], panes[i], stays)
    {
      var p := run.panes[i];
      if p.id == paneId {
        ClosedPane(p, tabId, stays);
      } else {
        Untouched(p, stays);
      }
    }
    var at := NonEmptyAt(run.panes, panes, stays);
    RemainsAt(run, panes, stays, at);
  }

  lemma RemainsAt(run: RunState, panes: seq<Pane>, stays: Stays, at: seq<nat>)
    requires PanesAt(run.panes, NonEmpty(panes), stays, at)
    ensures Remains(run, Rebuilt(run, NonEmpty(panes)), stays)
  {
    hide NonEmpty, PanesAt;
  }

  /** Releasing a scope takes its tabs from every pane. */
  lemma ReleaseRemains(run: RunState, scopeKey: string)
    requires Shape(run.panes)
    ensures var r := ReleaseRunScope(run, scopeKey);
            && Remains(run, r, (p: Pane, t: RunTab) => t.scopeKey != Some(scopeKey))
            && (r.Some? ==> r.value.flex == if |r.value.panes| == 1 then [1.0, 1.0] else run.flex)
  {
    hide ReleaseIn, NonEmpty, PaneRemains;
    var stays := (p: Pane, t: RunTab) => t.scopeKey != Some(scopeKey);
    var panes := MapPanes(run.panes, (p: Pane) => ReleaseIn(p, scopeKey));
    forall i | 0 <= i < |panes| ensures Became(run.panes[i], panes[i], stays)
    {
      ReleasedPane(run.panes[i], scopeKey, stays);
    }
    var at := NonEmptyAt(run.panes, panes, stays);
    RemainsAt(run, panes, stays, at);
  }

  lemma {:induction false} OtherPanesAt(panes: seq<Pane>, paneId: string, stays: Stays) returns (at: seq<nat>)
    requires forall p :: p in panes ==> PaneShape(p) && forall t :: t in p.tabs ==> (stays(p, t) <==> p.id != paneId)
    ensures PanesAt(panes, OtherPanes(panes, paneId), stays, at)
  {
    hide PaneRemains, PanesAt, PaneShape;
    if panes == [] {
      at := [];
      NoPanesAt(stays);
    } else {
      var rest := OtherPanesAt(panes[1..], paneId, stays);
      assert panes[0] in panes;
      NoneOrAll(panes[0], paneId, stays);
      if panes[0].id == paneId {
        FirstGoes(panes, OtherPanes(panes[1..], paneId), stays, rest);
        at := Later(rest);
      } else {
        Untouched(panes[0], stays);
        FirstStays(panes, panes[0], OtherPanes(panes[1..], paneId), stays, rest);
        at := [0] + Later(rest);
      }
    }
  }

  lemma NoneOrAll(p: Pane, paneId: string, stays: Stays)
    requires forall t :: t in p.tabs ==> (stays(p, t) <==> p.id != paneId)
    ensures p.id == paneId ==> !AnyStays(p, stays)
  {
  }

  lemma NoPanesAt(stays: Stays)
    ensures PanesAt([], [], stays, [])
  {
  }

  /** Closing a pane leaves the other one as it was, with all of the room. */
  lemma ClosePaneRemains(run: RunState, paneId: string)
    requires Shape(run.panes)
    ensures var r := ClosePane(run, paneId);
            && Remains(run, r, (p: Pane, t: RunTab) => p.id != paneId)
            && (r.Some? ==> r.value.flex == [1.0, 1.0])
  {
    hide PaneRemains, PaneShape, NoClash, All;
    var stays := (p: Pane, t: RunTab) => p.id != paneId;
    var at := OtherPanesAt(run.panes, paneId, stays);
    var panes := OtherPanes(run.panes, paneId);
    assert PanesAt(run.panes, panes, stays, at);
  }

  // ----- where a tab comes in

  /** Only the panes' focus may differ, and it is this. */
  predicate OnlyFocus(before: RunState, after: RunState, paneId: string, tabId: string) {
    && after.dir == before.dir && after.flex == before.flex && |after.panes| == |before.panes|
    && forall i :: 0 <= i < |before.panes| ==>
         var p, q := before.panes[i], after.panes[i];
         q.id == p.id && q.tabs == p.tabs && q.active == if p.id == paneId then Some(tabId) else p.active
  }

  /** Only pane `i` differs: it has these tabs and shows this one. */
  predicate OnlyPane(before: RunState, after: RunState, i: nat, tabs: seq<RunTab>, active: string)
    requires i < |before.panes|
  {
    && after.dir == before.dir && after.flex == before.flex && |after.panes| == |before.panes|
    && (forall k :: 0 <= k < |before.panes| && k != i ==> after.panes[k] == before.panes[k])
    && after.panes[i] == Pane(before.panes[i].id, tabs, Some(active))
  }

  lemma ActivateOnlyFocus(run: RunState, paneId: string, tabId: string)
    ensures OnlyFocus(run, ActivateRunTab(run, paneId, tabId), paneId, tabId)
  {
  }

  predicate IsNamed(p: Pane, paneId: Option<string>) {
    Given(paneId) && p.id == paneId.value
  }

  /** A tab that repeats none comes last in the pane named, or else in the first; a repeated one only gets the focus. */
  lemma AddPlaces(run: RunState, tab: RunTab, paneId: Option<string>, newPane: string)
    requires Shape(run.panes) && AddRunTab(Some(run), tab, paneId, newPane).Some?
    ensures var r := AddRunTab(Some(run), tab, paneId, newPane).value;
            if exists u :: u in All(run.panes) && Duplicates(tab, u) then
              exists k, u :: 0 <= k < |run.panes| && u in run.panes[k].tabs && Duplicates(tab, u)
                && OnlyFocus(run, r, run.panes[k].id, u.id)
            else
              exists i: nat :: i < |run.panes|
                && (if Given(paneId) then IsNamed(run.panes[i], paneId) else i == 0)
                && OnlyPane(run, r, i, run.panes[i].tabs + [tab], tab.id)
  {
    hide Shape, All, Duplicates;
    var dup := (t: RunTab) => Duplicates(tab, t);
    var holder := FindHolder(run.panes, dup);
    if holder.Some? {
      var pane := run.panes[holder.value];
      var u := FindTab(pane.tabs, dup).value;
      InAll(run.panes, u);
      ActivateOnlyFocus(run, pane.id, u.id);
    } else {
      NoneDuplicate(run.panes, tab, dup);
      var i := if Given(paneId) then FindPane(run.panes, paneId.value).value else 0;
      assert OnlyPane(run, AddRunTab(Some(run), tab, paneId, newPane).value, i, run.panes[i].tabs + [tab], tab.id);
    }
  }

  // ----- where a file opens

  /** Tab `j` is the only one of its pane that may have changed, into this one. */
  predicate OnlyTab(before: RunState, after: RunState, i: nat, j: nat, t: RunTab, active: string)
    requires i < |before.panes| && j < |before.panes[i].tabs|
  {
    OnlyPane(before, after, i, before.panes[i].tabs[j := t], active)
  }

  /** The tab as the target describes it: a diff shows the two sides given, any other file none it did not have. */
  predicate ShowsFile(t: RunTab, target: FileTarget) {
    && SameFile(target, t)
    && (target.kind == Diff ==>
          t.title == target.title && t.original == target.original && t.modified == target.modified)
  }

  /** What opening makes of a tab on the file: it never turns a permanent tab into a preview. */
  predicate Reopened(t: RunTab, t': RunTab, target: FileTarget, mode: TabMode) {
    && t'.id == t.id && ShowsFile(t', target)
    && (t'.mode == Some(PreviewMode) <==> t.mode == Some(PreviewMode) && mode == PreviewMode)
    && t'.mode.Some?
    && t'.config == t.config && t'.port == t.port && t'.url == t.url
    && (target.kind != Diff ==> t' == t.(mode := t'.mode))
  }

  /** The first preview of the scope in a pane. */
  predicate IsSlot(tabs: seq<RunTab>, j: nat, scopeKey: Option<string>) {
    j < |tabs| && IsPreviewIn(tabs[j], scopeKey) && forall k :: 0 <= k < j ==> !IsPreviewIn(tabs[k], scopeKey)
  }

  predicate IsNewTab(t: RunTab, target: FileTarget, mode: TabMode, newTab: string) {
    && t.id == newTab && ShowsFile(t, target) && t.title == target.title && t.mode == Some(mode)
    && t.config.None? && t.port.None? && t.url.None?
    && (target.kind != Diff ==> t.original.None? && t.modified.None?)
  }

  /** Where a new file tab comes in: in the pane's preview slot for the scope, or else last. */
  ghost predicate ComesIn(before: RunState, after: RunState, i: nat, t: RunTab, mode: TabMode)
    requires i < |before.panes|
  {
    var tabs := before.panes[i].tabs;
    if mode == PreviewMode && exists u :: u in tabs && IsPreviewIn(u, t.scopeKey) then
      exists j: nat :: j < |tabs| && IsSlot(tabs, j, t.scopeKey) && OnlyTab(before, after, i, j, t, t.id)
    else OnlyPane(before, after, i, tabs + [t], t.id)
  }

  lemma {:induction false} MapTabsOne(tabs: seq<RunTab>, j: nat, t': RunTab)
    requires j < |tabs| && forall k :: 0 <= k < |tabs| && tabs[k].id == tabs[j].id ==> k == j
    ensures MapTabs(tabs, tabs[j].id, t') == tabs[j := t']
  {
    MapTabsAre(tabs, tabs[j].id, t');
  }

  /** With unique ids a tab stands at one place. */
  lemma OneStand(run: RunState, i: nat, j: nat)
    requires Shape(run.panes) && i < |run.panes| && j < |run.panes[i].tabs|
    ensures forall k :: 0 <= k < |run.panes[i].tabs| && run.panes[i].tabs[k].id == run.panes[i].tabs[j].id ==> k == j
  {
    hide Clash;
    var tabs := run.panes[i].tabs;
    forall k | 0 <= k < |tabs| && tabs[k].id == tabs[j].id ensures k == j {
      CountIn(run.panes, i, tabs[j]);
      if k != j {
        TwoStands(tabs, k, j);
      }
    }
  }

  lemma TwoStands(tabs: seq<RunTab>, k: nat, j: nat)
    requires k < |tabs| && j < |tabs| && k != j && tabs[k] == tabs[j]
    ensures multiset(tabs)[tabs[j]] >= 2
  {
    var a, b := if k < j then k else j, if k < j then j else k;
    assert tabs == tabs[..b] + tabs[b..] && tabs[..b][a] == tabs[a] && tabs[b..][0] == tabs[b];
    assert tabs[a] in tabs[..b] && tabs[b] in tabs[b..];
  }

  lemma ReplacedAt(run: RunState, i: nat, j: nat, t': RunTab)
    requires Shape(run.panes) && i < |run.panes| && j < |run.panes[i].tabs|
    ensures var p := run.panes[i];
            ReplaceTab(run, p.id, p.tabs[j].id, t') == run.(panes := run.panes[i := p.(tabs := p.tabs[j := t'])])
  {
    hide All, NoClash, PaneShape, MapTabs;
    OneStand(run, i, j);
    MapTabsOne(run.panes[i].tabs, j, t');
    ReplaceIsUpdate(run, i, run.panes[i].tabs[j].id, t');
  }

  lemma ReopensWell(t: RunTab, target: FileTarget, mode: TabMode)
    requires SameFile(target, t)
    ensures Reopened(t, Patched(t, target, mode), target, mode)
  {
  }

  lemma NewTabIsNew(target: FileTarget, mode: TabMode, newTab: string)
    requires IsFileKind(target.kind)
    ensures IsNewTab(BuildFileTab(target, mode, newTab), target, mode, newTab)
    ensures BuildFileTab(target, mode, newTab).scopeKey == target.scopeKey
  {
  }

  lemma OpenAgain(run: RunState, h: nat, j: nat, target: FileTarget, mode: TabMode)
    requires Shape(run.panes) && h < |run.panes| && j < |run.panes[h].tabs|
    requires SameFile(target, run.panes[h].tabs[j])
    ensures var p := run.panes[h];
            var t' := Patched(p.tabs[j], target, mode);
            var r := ActivateRunTab(ReplaceTab(run, p.id, p.tabs[j].id, t'), p.id, p.tabs[j].id);
            Reopened(p.tabs[j], t', target, mode) && OnlyTab(run, r, h, j, t', p.tabs[j].id)
  {
    hide All, NoClash, PaneShape, Patched, ReplaceTab, Reopened;
    var p := run.panes[h];
    ReopensWell(p.tabs[j], target, mode);
    ReplacedAt(run, h, j, Patched(p.tabs[j], target, mode));
  }

  lemma OpenNew(run: RunState, i: nat, target: FileTarget, mode: TabMode, newTab: string)
    requires Shape(run.panes) && i < |run.panes| && IsFileKind(target.kind)
    ensures var p, t := run.panes[i], BuildFileTab(target, mode, newTab);
            var slot := if mode == PreviewMode then FirstIndex(p.tabs, (u: RunTab) => IsPreviewIn(u, target.scopeKey))
                        else None;
            var tabs := match slot case Some(k) => p.tabs[k := t] case None => p.tabs + [t];
            var r := run.(panes := MapPanes(run.panes, (q: Pane) =>
              if q.id == p.id then q.(tabs := tabs, active := Some(t.id)) else q));
            ComesIn(run, r, i, t, mode)
  {
    hide All, NoClash, PaneShape, IsPreviewIn, BuildFileTab;
    NewTabIsNew(target, mode, newTab);
    var p := run.panes[i];
    if mode == PreviewMode {
      FirstIsSlot(p.tabs, target.scopeKey);
    }
  }

  lemma {:induction false} FirstIsSlot(tabs: seq<RunTab>, scopeKey: Option<string>)
    ensures var k := FirstIndex(tabs, (u: RunTab) => IsPreviewIn(u, scopeKey));
            && (k.Some? <==> exists u :: u in tabs && IsPreviewIn(u, scopeKey))
            && (k.Some? ==> IsSlot(tabs, k.value, scopeKey))
  {
    hide IsPreviewIn;
    if tabs != [] && !IsPreviewIn(tabs[0], scopeKey) {
      FirstIsSlot(tabs[1..], scopeKey);
    }
  }

  /**
   * A file that is open is shown where it stands, and one that is not comes into
   * the pane named, if that is there, or the first; nothing else moves.
   */
  lemma OpenPlaces(
    run: RunState, target: FileTarget, mode: TabMode, paneId: Option<string>, newPane: string, newTab: string)
    requires Shape(run.panes) && IsFileKind(target.kind)
    ensures var o := OpenFileTab(Some(run), target, mode, paneId, newPane, newTab);
      if exists u :: u in All(run.panes) && SameFile(target, u) then
        exists i: nat, j: nat, t: RunTab :: i < |run.panes| && j < |run.panes[i].tabs| && o.tabId == t.id
          && Reopened(run.panes[i].tabs[j], t, target, mode) && OnlyTab(run, o.run, i, j, t, t.id)
      else
        exists i: nat, t: RunTab :: i < |run.panes| && o.tabId == newTab
          && (if exists p :: p in run.panes && IsNamed(p, paneId) then IsNamed(run.panes[i], paneId) else i == 0)
          && IsNewTab(t, target, mode, newTab) && t.scopeKey == target.scopeKey && ComesIn(run, o.run, i, t, mode)
  {
    hide All, NoClash, PaneShape, SameFile, IsNewTab, ComesIn, BuildFileTab, OnlyTab, Patched, ReplaceTab, FirstIndex,
         Reopened, IsNamed;
    var o := OpenFileTab(Some(run), target, mode, paneId, newPane, newTab);
    var matches := (t: RunTab) => SameFile(target, t);
    var h := FindHolder(run.panes, matches);
    if h.Some? {
      var p := run.panes[h.value];
      var t := FindTab(p.tabs, matches).value;
      var j :| 0 <= j < |p.tabs| && p.tabs[j] == t;
      InAll(run.panes, t);
      OpenAgain(run, h.value, j, target, mode);
      SameIdReopened(t, Patched(t, target, mode), target, mode);
    } else {
      NobodyMatches(run.panes, target);
      var i := OpenIndex(run.panes, paneId);
      NamedOrFirst(run.panes, paneId);
      NewTabIsNew(target, mode, newTab);
      NewTabHasId(target, mode, newTab);
      OpenNew(run, i, target, mode, newTab);
    }
  }

  lemma NamedOrFirst(panes: seq<Pane>, paneId: Option<string>)
    requires panes != []
    ensures var i := OpenIndex(panes, paneId);
            i < |panes| && if exists p :: p in panes && IsNamed(p, paneId) then IsNamed(panes[i], paneId) else i == 0
  {
    if exists p :: p in panes && IsNamed(p, paneId) {
      var p :| p in panes && IsNamed(p, paneId);
      assert FindPane(panes, paneId.value).Some?;
    } else if Given(paneId) && FindPane(panes, paneId.value).Some? {
      assert IsNamed(panes[FindPane(panes, paneId.value).value], paneId);
    }
  }

  lemma SameIdReopened(t: RunTab, t': RunTab, target: FileTarget, mode: TabMode)
    requires Reopened(t, t', target, mode)
    ensures t'.id == t.id
  {
  }

  lemma NewTabHasId(target: FileTarget, mode: TabMode, newTab: string)
    ensures BuildFileTab(target, mode, newTab).id == newTab
  {
  }

  lemma NobodyMatches(panes: seq<Pane>, target: FileTarget)
    requires FindHolder(panes, (t: RunTab) => SameFile(target, t)).None?
    ensures forall u :: u in All(panes) ==> !SameFile(target, u)
  {
    hide SameFile, All;
    forall u | u in All(panes) ensures !SameFile(target, u) {
      InAll(panes, u);
      var k :| 0 <= k < |panes| && u in panes[k].tabs;
      assert FindTab(panes[k].tabs, (t: RunTab) => SameFile(target, t)).None?;
    }
  }

  // ----- where the others land

  /** A promoted tab stays where it stands, and nothing else changes. */
  lemma PromotePlaces(run: RunState, tabId: string, i: nat, j: nat)
    requires i < |run.panes| && j < |run.panes[i].tabs|
    ensures var r := PromoteFileTab(run, tabId);
            var t := run.panes[i].tabs[j];
            && r.dir == run.dir && r.flex == run.flex && |r.panes| == |run.panes|
            && r.panes[i].id == run.panes[i].id && r.panes[i].active == run.panes[i].active
            && |r.panes[i].tabs| == |run.panes[i].tabs|
            && r.panes[i].tabs[j] == if IsPromoted(t, tabId) then t.(mode := Some(Permanent)) else t
  {
    PromotedAt(run.panes[i].tabs, tabId, j);
  }

  lemma {:induction false} PromotedAt(tabs: seq<RunTab>, tabId: string, j: nat)
    requires j < |tabs|
    ensures |Promote(tabs, tabId)| == |tabs|
    ensures var t := tabs[j];
            Promote(tabs, tabId)[j] == if IsPromoted(t, tabId) then t.(mode := Some(Permanent)) else t
  {
    if |tabs| > 1 {
      PromotedAt(tabs[1..], tabId, if j > 0 then j - 1 else 0);
    }
  }

  predicate IsAt(u: RunTab, url: string, scopeKey: Option<string>) {
    u.kind == Url && u.url == Some(url) && u.scopeKey == scopeKey
  }

  /** A URL tab sent elsewhere: a sibling that shows the address gets the focus, or the tab shows it where it stands. */
  lemma RetargetPlaces(run: RunState, i: nat, j: nat, url: string, title: string)
    requires Shape(run.panes) && i < |run.panes| && j < |run.panes[i].tabs|
    ensures var t := run.panes[i].tabs[j];
            var r := RetargetUrlTab(run, t.id, url, title);
            if t.kind != Url || t.url == Some(url) then r == run
            else if exists u :: u in All(run.panes) && IsAt(u, url, t.scopeKey) then
              exists k, u :: 0 <= k < |run.panes| && u in run.panes[k].tabs && IsAt(u, url, t.scopeKey)
                && OnlyFocus(run, r, run.panes[k].id, u.id)
            else r == run.(panes := run.panes[i := run.panes[i].(
                             tabs := run.panes[i].tabs[j := t.(url := Some(url), title := title)])])
  {
    hide All, NoClash, PaneShape, ReplaceTab;
    var t := run.panes[i].tabs[j];
    FoundAt(run, i, j);
    if t.kind == Url && t.url != Some(url) {
      var holds := (u: RunTab) => u.kind == Url && u.url == Some(url) && u.scopeKey == t.scopeKey;
      var s := FindHolder(run.panes, holds);
      if s.Some? {
        var u := FindTab(run.panes[s.value].tabs, holds).value;
        InAll(run.panes, u);
        ActivateOnlyFocus(run, run.panes[s.value].id, u.id);
      } else {
        forall u | u in All(run.panes) ensures !holds(u) {
          InAll(run.panes, u);
        }
        ReplacedAt(run, i, j, t.(url := Some(url), title := title));
      }
    }
  }

  /** With unique ids the search for an id ends at its tab. */
  lemma FoundAt(run: RunState, i: nat, j: nat)
    requires Shape(run.panes) && i < |run.panes| && j < |run.panes[i].tabs|
    ensures var t := run.panes[i].tabs[j];
            && FindHolder(run.panes, (u: RunTab) => u.id == t.id) == Some(i)
            && FindTab(run.panes[i].tabs, (u: RunTab) => u.id == t.id) == Some(t)
  {
    hide PaneShape, Clash;
    var t := run.panes[i].tabs[j];
    var p := (u: RunTab) => u.id == t.id;
    assert p(t) && FindTab(run.panes[i].tabs, p).Some?;
    var h := FindHolder(run.panes, p).value;
    var u := FindTab(run.panes[h].tabs, p).value;
    InAll(run.panes, t);
    InAll(run.panes, u);
    OnlyOneWithId(All(run.panes), t);
    OnePlace(run.panes, t);
    var v := FindTab(run.panes[i].tabs, p).value;
    InAll(run.panes, v);
  }

  function Beside(lone: Pane, stay: Pane, edge: DropEdge): seq<Pane> {
    if edge == LeftEdge || edge == TopEdge then [lone, stay] else [stay, lone]
  }

  /**
   * A moved tab leaves its pane as if closed. Where two panes remain, or for the
   * centre, it comes last in the first; beside a single pane it makes its own.
   */
  lemma MovePlaces(run: RunState, i: nat, j: nat, edge: DropEdge, newPane: string)
    requires Shape(run.panes) && i < |run.panes| && j < |run.panes[i].tabs|
    ensures var t := run.panes[i].tabs[j];
            var r := MoveTabToPaneEdge(run, t.id, edge, newPane);
            match CloseRunTab(run, run.panes[i].id, t.id)
            case None => r == run
            case Some(rest) =>
              if edge == Center || |rest.panes| == 2 then OnlyPane(rest, r, 0, rest.panes[0].tabs + [t], t.id)
              else r.panes == Beside(Pane(newPane, [t], Some(t.id)), rest.panes[0], edge)
  {
    hide All, NoClash, PaneShape, CloseRunTab, MoveTabToRun, Clash, Duplicates;
    var t := run.panes[i].tabs[j];
    FoundAt(run, i, j);
    DetachLaw(run, i, t);
    NoneClash(All(run.panes), t);
    var rest := CloseRunTab(run, run.panes[i].id, t.id);
    if rest.Some? {
      forall u | u in All(rest.value.panes) ensures !Duplicates(t, u) {
        NotDuplicate(t, u);
      }
      DropPlaces(rest.value, t, edge, newPane);
    }
  }

  lemma DropPlaces(run: RunState, t: RunTab, edge: DropEdge, newPane: string)
    requires Shape(run.panes) && forall u :: u in All(run.panes) ==> !Duplicates(t, u)
    ensures var r := MoveTabToRun(run, t, edge, newPane);
            r.Some? &&
            if edge == Center || |run.panes| == 2 then OnlyPane(run, r.value, 0, run.panes[0].tabs + [t], t.id)
            else r.value.panes == Beside(Pane(newPane, [t], Some(t.id)), run.panes[0], edge)
  {
    hide All, NoClash, Duplicates;
    assert PaneShape(run.panes[0]);
    if edge == Center || |run.panes| == 2 {
      AddPlaces(run, t, None, newPane);
      JoinsSomewhere(run, t, newPane);
    } else {
      DropSides(run, t, edge, newPane);
    }
  }

  lemma JoinsSomewhere(run: RunState, t: RunTab, newPane: string)
    requires run.panes != []
    ensures AddRunTab(Some(run), t, None, newPane).Some?
  {
    hide Duplicates;
  }
}
