/**
 * Replacing, retargeting, promoting, opening and moving tabs. Each law says which
 * tabs come and go, as an equation on the multiset of all tabs, and that the
 * invariant survives; where the code does not keep it, exactly when it does.
 */
module RunPaneMoves {
  import opened CharClasses
  import opened RunPane
  import opened RunPaneLaws
  import opened RunPaneOps

  // ----- replacing one tab

  lemma {:induction false} OnePreviewSame(tabs: seq<RunTab>, tabs': seq<RunTab>)
    requires |tabs'| == |tabs| && OnePreview(tabs)
    requires forall j :: 0 <= j < |tabs| && IsPreview(tabs'[j]) ==>
      IsPreview(tabs[j]) && tabs[j].scopeKey == tabs'[j].scopeKey
    ensures OnePreview(tabs')
  {
    if tabs != [] {
      forall j | 0 <= j < |tabs[1..]| && IsPreview(tabs'[1..][j])
        ensures IsPreview(tabs[1..][j]) && tabs[1..][j].scopeKey == tabs'[1..][j].scopeKey
      {
        assert tabs'[1..][j] == tabs'[j + 1] && tabs[1..][j] == tabs[j + 1];
      }
      OnePreviewSame(tabs[1..], tabs'[1..]);
    }
  }

  lemma {:induction false} MapTabsAre(tabs: seq<RunTab>, id: string, tab: RunTab)
    ensures |MapTabs(tabs, id, tab)| == |tabs|
    ensures forall j :: 0 <= j < |tabs| ==> MapTabs(tabs, id, tab)[j] == if tabs[j].id == id then tab else tabs[j]
  {
    if tabs != [] {
      MapTabsAre(tabs[1..], id, tab);
    }
  }

  lemma {:induction false} MapTabsElsewhere(tabs: seq<RunTab>, id: string, tab: RunTab)
    requires forall u :: u in tabs ==> u.id != id
    ensures MapTabs(tabs, id, tab) == tabs
  {
    MapTabsAre(tabs, id, tab);
    forall j | 0 <= j < |tabs| ensures MapTabs(tabs, id, tab)[j] == tabs[j] {
      assert tabs[j] in tabs;
    }
  }

  lemma ConsMultiset(t: RunTab, rest: seq<RunTab>)
    ensures multiset([t] + rest) == multiset{t} + multiset(rest)
  {
  }

  lemma SwapTail(h: RunTab, rest: multiset<RunTab>, t: RunTab, t': RunTab)
    requires t in rest
    ensures multiset{h} + (rest - multiset{t} + multiset{t'}) == multiset{h} + rest - multiset{t} + multiset{t'}
  {
  }

  /** One tab has the id, once: replacing it is a swap. */
  lemma {:induction false} MapTabsSwaps(tabs: seq<RunTab>, t: RunTab, t': RunTab)
    requires t in tabs && multiset(tabs)[t] == 1 && forall u :: u in tabs && u.id == t.id ==> u == t
    ensures multiset(MapTabs(tabs, t.id, t')) == multiset(tabs) - multiset{t} + multiset{t'}
  {
    hide MapTabs;
    var rest := tabs[1..];
    assert tabs == [tabs[0]] + rest;
    ConsMultiset(tabs[0], rest);
    MapTabsCons(tabs, t.id, t');
    if tabs[0] == t {
      assert multiset(rest)[t] == 0;
      MapTabsElsewhere(rest, t.id, t');
      ConsMultiset(t', rest);
    } else {
      MapTabsSwaps(rest, t, t');
      ConsMultiset(tabs[0], MapTabs(rest, t.id, t'));
      SwapTail(tabs[0], multiset(rest), t, t');
    }
  }

  lemma MapTabsCons(tabs: seq<RunTab>, id: string, tab: RunTab)
    requires tabs != []
    ensures MapTabs(tabs, id, tab) == [if tabs[0].id == id then tab else tabs[0]] + MapTabs(tabs[1..], id, tab)
  {
  }

  lemma TabsInAll(panes: seq<Pane>, i: nat, t: RunTab)
    requires i < |panes| && t in panes[i].tabs
    ensures t in All(panes) && 1 <= multiset(panes[i].tabs)[t] <= All(panes)[t]
  {
    hide All;
    AllUpdate(panes, i, panes[i]);
    assert t in multiset(panes[i].tabs);
  }

  lemma CountIn(panes: seq<Pane>, i: nat, t: RunTab)
    requires i < |panes| && t in panes[i].tabs && NoClash(All(panes))
    ensures t in All(panes) && multiset(panes[i].tabs)[t] == 1
    ensures forall u :: u in panes[i].tabs && u.id == t.id ==> u == t
  {
    hide All;
    TabsInAll(panes, i, t);
    forall u | u in panes[i].tabs && u.id == t.id ensures u == t {
      TabsInAll(panes, i, u);
    }
  }

  /** `t2` may stand where `t` stood. */
  ghost predicate CanReplace(t: RunTab, t2: RunTab, tabs: multiset<RunTab>) {
    && t2.id == t.id
    && (IsPreview(t2) ==> IsPreview(t) && t.scopeKey == t2.scopeKey)
    && forall u :: u in tabs && u != t ==> !Clash(t2, u)
  }

  /** The tabs of a workspace after a replacement clash no more than before. */
  lemma SwapNoClash(tabs: multiset<RunTab>, t: RunTab, t2: RunTab)
    requires NoClash(tabs) && t in tabs && CanReplace(t, t2, tabs)
    ensures NoClash(tabs - multiset{t} + multiset{t2})
  {
    hide NoClash, Clash;
    NoClashSub(tabs - multiset{t}, tabs);
    WithoutTab(tabs, t);
    NoClashAdd(tabs - multiset{t}, t2);
  }

  lemma SwapInPane(all: multiset<RunTab>, pane: multiset<RunTab>, t: RunTab, t2: RunTab)
    requires pane <= all && t in pane
    ensures all - pane + (pane - multiset{t} + multiset{t2}) == all - multiset{t} + multiset{t2}
  {
  }

  lemma ReplacedPreview(p: Pane, t: RunTab, t2: RunTab)
    requires OnePreview(p.tabs) && t2.id == t.id && forall u :: u in p.tabs && u.id == t.id ==> u == t
    requires IsPreview(t2) ==> IsPreview(t) && t.scopeKey == t2.scopeKey
    ensures OnePreview(MapTabs(p.tabs, t.id, t2))
  {
    hide OnePreview, MapTabs;
    MapTabsAre(p.tabs, t.id, t2);
    forall j | 0 <= j < |p.tabs| && IsPreview(MapTabs(p.tabs, t.id, t2)[j])
      ensures IsPreview(p.tabs[j]) && p.tabs[j].scopeKey == MapTabs(p.tabs, t.id, t2)[j].scopeKey
    {
      assert p.tabs[j] in p.tabs;
    }
    OnePreviewSame(p.tabs, MapTabs(p.tabs, t.id, t2));
  }

  lemma ReplaceIsUpdate(run: RunState, i: nat, id: string, t2: RunTab)
    requires i < |run.panes| && DistinctPanes(run.panes)
    ensures var p := run.panes[i];
            ReplaceTab(run, p.id, id, t2).panes == run.panes[i := p.(tabs := MapTabs(p.tabs, id, t2))]
  {
    hide MapTabs, DistinctPanes;
    var p := run.panes[i];
    MapOnePane(run.panes, i, (q: Pane) => if q.id == p.id then q.(tabs := MapTabs(q.tabs, id, t2)) else q);
  }

  /** Replacing a tab by another with its id swaps the two and keeps the invariant. */
  lemma ReplaceLaw(run: RunState, i: nat, t: RunTab, t2: RunTab)
    requires Shape(run.panes) && i < |run.panes| && t in run.panes[i].tabs && CanReplace(t, t2, All(run.panes))
    ensures var r := ReplaceTab(run, run.panes[i].id, t.id, t2);
            && Shape(r.panes) && (ValidRun(run) ==> ValidRun(r))
            && t in All(run.panes) && All(r.panes) == All(run.panes) - multiset{t} + multiset{t2}
            && |r.panes| == |run.panes| && r.panes[i].id == run.panes[i].id && t2 in r.panes[i].tabs
  {
    hide All, NoClash, OnePreview, Clash, PaneShape, HasTab, MapTabs, ReplaceTab, OnePreviewEach, MapPanes;
    var p := run.panes[i];
    var p' := p.(tabs := MapTabs(p.tabs, t.id, t2));
    CountIn(run.panes, i, t);
    ReplaceIsUpdate(run, i, t.id, t2);
    AllUpdate(run.panes, i, p');
    MapTabsSwaps(p.tabs, t, t2);
    SwapInPane(All(run.panes), multiset(p.tabs), t, t2);
    SwapNoClash(All(run.panes), t, t2);
    ReplacedShape(p, t, t2);
    UpdateKeepsShape(run.panes, i, p');
    PreviewUpdate(run.panes, i, p');
    if OnePreview(p.tabs) {
      ReplacedPreview(p, t, t2);
    }
  }

  lemma WithoutTab(tabs: multiset<RunTab>, t: RunTab)
    requires NoClash(tabs) && t in tabs
    ensures forall u :: u in tabs - multiset{t} <==> u in tabs && u != t
  {
  }

  lemma ReplacedShape(p: Pane, t: RunTab, t2: RunTab)
    requires PaneShape(p) && t in p.tabs && t2.id == t.id
    ensures var p' := p.(tabs := MapTabs(p.tabs, t.id, t2)); PaneShape(p') && t2 in p'.tabs
  {
    MapTabsAre(p.tabs, t.id, t2);
    var tabs' := MapTabs(p.tabs, t.id, t2);
    var j :| 0 <= j < |p.tabs| && p.active == Some(p.tabs[j].id);
    assert p.active == Some(tabs'[j].id);
    var k :| 0 <= k < |p.tabs| && p.tabs[k] == t;
    assert tabs'[k] == t2;
  }

  // ----- a URL tab retargeted

  ghost function IdsOf(tabs: multiset<RunTab>, kind: TabKind): set<string> {
    set t | t in tabs && t.kind == kind :: t.id
  }

  lemma AfterSwap(tabs: multiset<RunTab>, t: RunTab, t2: RunTab, u: RunTab)
    requires NoClash(tabs) && t in tabs
    ensures u in tabs - multiset{t} + multiset{t2} <==> u == t2 || (u in tabs && u != t)
  {
    hide NoClash;
    WithoutTab(tabs, t);
  }

  lemma IdsSub(few: multiset<RunTab>, many: multiset<RunTab>, t: RunTab, t2: RunTab, kind: TabKind)
    requires t2 in many && t2.id == t.id && t2.kind == t.kind
    requires forall u :: u in few ==> u == t || u in many
    ensures IdsOf(few, kind) <= IdsOf(many, kind)
  {
  }

  lemma SwapKeepsIds(tabs: multiset<RunTab>, t: RunTab, t2: RunTab, kind: TabKind)
    requires NoClash(tabs) && t in tabs && t2.id == t.id && t2.kind == t.kind
    ensures IdsOf(tabs - multiset{t} + multiset{t2}, kind) == IdsOf(tabs, kind)
  {
    hide NoClash, IdsOf;
    var tabs' := tabs - multiset{t} + multiset{t2};
    AfterSwap(tabs, t, t2, t2);
    forall u ensures u in tabs' <==> u == t2 || (u in tabs && u != t) {
      AfterSwap(tabs, t, t2, u);
    }
    IdsSub(tabs, tabs', t, t2, kind);
    IdsSub(tabs', tabs, t2, t, kind);
  }

  /** Retargeting keeps the invariant and every tab's id and kind: no webview is lost, none doubled. */
  lemma RetargetLaw(run: RunState, tabId: string, url: string, title: string, kind: TabKind)
    requires ValidRun(run)
    ensures var r := RetargetUrlTab(run, tabId, url, title);
            ValidRun(r) && IdsOf(All(r.panes), kind) == IdsOf(All(run.panes), kind)
  {
    hide All, NoClash, OnePreview, Clash, PaneShape, HasTab, IdsOf, ReplaceTab, ActivateRunTab, DistinctPanes;
    var h := FindHolder(run.panes, (t: RunTab) => t.id == tabId);
    if h.Some? {
      var i := h.value;
      var source := FindTab(run.panes[i].tabs, (t: RunTab) => t.id == tabId).value;
      if source.kind == Url && source.url != Some(url) {
        var holds := (t: RunTab) => t.kind == Url && t.url == Some(url) && t.scopeKey == source.scopeKey;
        var s := FindHolder(run.panes, holds);
        if s.Some? {
          var t := FindTab(run.panes[s.value].tabs, holds).value;
          FocusFound(run.panes, s.value, t);
          ActivateLaw(run, run.panes[s.value].id, t.id);
        } else {
          var source' := source.(url := Some(url), title := title);
          NobodyHolds(run.panes, i, source, source', holds);
          ReplaceLaw(run, i, source, source');
          SwapKeepsIds(All(run.panes), source, source', kind);
        }
      }
    }
  }

  ghost predicate Shows(tabs: multiset<RunTab>, url: string, scopeKey: Option<string>) {
    exists u :: u in tabs && u.kind == Url && u.url == Some(url) && u.scopeKey == scopeKey
  }

  /** After retargeting a URL tab, a tab of its scope shows the address. */
  lemma RetargetShows(run: RunState, tabId: string, url: string, title: string, t: RunTab)
    requires ValidRun(run) && t in All(run.panes) && t.id == tabId && t.kind == Url
    ensures Shows(All(RetargetUrlTab(run, tabId, url, title).panes), url, t.scopeKey)
  {
    hide All, NoClash, OnePreview, Clash, PaneShape, HasTab, ReplaceTab, ActivateRunTab, DistinctPanes;
    InAll(run.panes, t);
    var k :| 0 <= k < |run.panes| && t in run.panes[k].tabs;
    var i := FindHolder(run.panes, (u: RunTab) => u.id == tabId).value;
    var source := FindTab(run.panes[i].tabs, (u: RunTab) => u.id == tabId).value;
    InAll(run.panes, source);
    OnlyOneWithId(All(run.panes), t);
    if source.url != Some(url) {
      var holds := (u: RunTab) => u.kind == Url && u.url == Some(url) && u.scopeKey == source.scopeKey;
      var s := FindHolder(run.panes, holds);
      if s.Some? {
        var u := FindTab(run.panes[s.value].tabs, holds).value;
        InAll(run.panes, u);
        FocusFound(run.panes, s.value, u);
        ActivateLaw(run, run.panes[s.value].id, u.id);
      } else {
        var source' := source.(url := Some(url), title := title);
        NobodyHolds(run.panes, i, source, source', holds);
        ReplaceLaw(run, i, source, source');
        InAll(ReplaceTab(run, run.panes[i].id, tabId, source').panes, source');
      }
    }
  }

  lemma NobodyHolds(panes: seq<Pane>, i: nat, source: RunTab, source': RunTab, holds: RunTab -> bool)
    requires Shape(panes) && i < |panes| && source in panes[i].tabs && source.kind == Url
    requires FindHolder(panes, holds).None?
    requires source' == source.(url := source'.url, title := source'.title) && source'.url.Some?
    requires forall t: RunTab :: holds(t) <==> t.kind == Url && t.url == source'.url && t.scopeKey == source.scopeKey
    ensures CanReplace(source, source', All(panes))
  {
    hide All, PaneShape, HasTab, Clash, IdentityOf;
    InAll(panes, source);
    forall u | u in All(panes) && u != source ensures !Clash(source', u) {
      InAll(panes, u);
      var k :| 0 <= k < |panes| && u in panes[k].tabs;
      assert !holds(u);
      assert !Clash(u, source);
      RetargetedNoClash(source, source', u);
    }
  }

  lemma RetargetedNoClash(source: RunTab, source': RunTab, u: RunTab)
    requires source.kind == Url && !Clash(u, source) && source'.url.Some?
    requires source' == source.(url := source'.url, title := source'.title)
    requires !(u.kind == Url && u.url == source'.url && u.scopeKey == source.scopeKey)
    ensures !Clash(source', u)
  {
  }

  // ----- promoting

  lemma {:induction false} PromoteIs(tabs: seq<RunTab>, tabId: string, t: RunTab)
    requires forall u :: u in tabs && u.id == tabId ==> u == t
    ensures Promote(tabs, tabId) ==
            if t.mode == Some(PreviewMode) then MapTabs(tabs, tabId, t.(mode := Some(Permanent))) else tabs
  {
    if tabs != [] {
      assert tabs[0] in tabs && forall u :: u in tabs[1..] ==> u in tabs;
      PromoteIs(tabs[1..], tabId, t);
      assert tabs == [tabs[0]] + tabs[1..];
    }
  }

  lemma {:induction false} PromoteNobody(tabs: seq<RunTab>, tabId: string)
    requires forall u :: u in tabs ==> u.id != tabId
    ensures Promote(tabs, tabId) == tabs
  {
    if tabs != [] {
      assert tabs[0] in tabs && forall u :: u in tabs[1..] ==> u in tabs;
      PromoteNobody(tabs[1..], tabId);
      assert tabs == [tabs[0]] + tabs[1..];
    }
  }

  lemma PromoteHere(panes: seq<Pane>, i: nat, t: RunTab)
    requires NoClash(All(panes)) && i < |panes| && t in panes[i].tabs
    ensures Promote(panes[i].tabs, t.id) ==
            if t.mode == Some(PreviewMode) then MapTabs(panes[i].tabs, t.id, t.(mode := Some(Permanent)))
            else panes[i].tabs
  {
    hide Promote, MapTabs, NoClash, All, Clash;
    CountIn(panes, i, t);
    PromoteIs(panes[i].tabs, t.id, t);
  }

  lemma PromoteElsewhere(panes: seq<Pane>, i: nat, t: RunTab, k: nat)
    requires NoClash(All(panes)) && i < |panes| && k < |panes| && k != i && t in panes[i].tabs
    ensures Promote(panes[k].tabs, t.id) == panes[k].tabs
  {
    hide Promote, All;
    forall u | u in panes[k].tabs ensures u.id != t.id {
      TabsInAll(panes, i, t);
      TabsInAll(panes, k, u);
      OnePlace(panes, t);
    }
    PromoteNobody(panes[k].tabs, t.id);
  }

  /** Promoting keeps the invariant and all ids; afterwards no tab with that id is a preview. */
  lemma PromoteLaw(run: RunState, tabId: string, kind: TabKind)
    requires ValidRun(run)
    ensures var r := PromoteFileTab(run, tabId);
            && ValidRun(r) && IdsOf(All(r.panes), kind) == IdsOf(All(run.panes), kind)
            && forall t :: t in All(r.panes) && t.id == tabId ==> t.mode != Some(PreviewMode)
  {
    hide All, NoClash, OnePreview, Clash, PaneShape, HasTab, IdsOf, DistinctPanes, Promote, MapTabs;
    var panes := run.panes;
    var h := FindHolder(panes, (t: RunTab) => t.id == tabId);
    var r := PromoteFileTab(run, tabId);
    if h.None? {
      forall k | 0 <= k < |panes| ensures r.panes[k] == panes[k] {
        NobodyIn(panes[k].tabs, tabId);
        PromoteNobody(panes[k].tabs, tabId);
      }
      assert r.panes == panes;
      forall t | t in All(panes) ensures t.id != tabId {
        InAll(panes, t);
        var k :| 0 <= k < |panes| && t in panes[k].tabs;
        NobodyIn(panes[k].tabs, tabId);
      }
    } else {
      var i := h.value;
      var t := FindTab(panes[i].tabs, (t: RunTab) => t.id == tabId).value;
      forall k | 0 <= k < |panes|
        ensures r.panes[k].tabs == if k == i && t.mode == Some(PreviewMode) then
                                     MapTabs(panes[k].tabs, tabId, t.(mode := Some(Permanent))) else panes[k].tabs
      {
        if k == i {
          PromoteHere(panes, i, t);
        } else {
          PromoteElsewhere(panes, i, t, k);
        }
      }
      CountIn(panes, i, t);
      if t.mode == Some(PreviewMode) {
        var t2 := t.(mode := Some(Permanent));
        PromotedFits(All(panes), t);
        ReplaceLaw(run, i, t, t2);
        SwapKeepsIds(All(panes), t, t2, kind);
        ReplacedOne(run, i, tabId, t2, r);
        OnlyOne(All(panes), t, t2);
      } else {
        assert r.panes == panes;
        OnlyOneWithId(All(panes), t);
      }
    }
  }

  lemma NobodyIn(tabs: seq<RunTab>, tabId: string)
    requires FindTab(tabs, (t: RunTab) => t.id == tabId).None?
    ensures forall u :: u in tabs ==> u.id != tabId
  {
  }

  lemma PromotedFits(tabs: multiset<RunTab>, t: RunTab)
    requires NoClash(tabs) && t in tabs
    ensures CanReplace(t, t.(mode := Some(Permanent)), tabs)
  {
    forall u | u in tabs && u != t ensures !Clash(t.(mode := Some(Permanent)), u) {
      assert !Clash(t, u);
    }
  }

  lemma ReplacedOne(run: RunState, i: nat, tabId: string, t2: RunTab, r: RunState)
    requires i < |run.panes| && DistinctPanes(run.panes) && |r.panes| == |run.panes| && r == run.(panes := r.panes)
    requires forall k :: 0 <= k < |run.panes| ==>
      r.panes[k] == run.panes[k].(tabs := if k == i then MapTabs(run.panes[k].tabs, tabId, t2) else run.panes[k].tabs)
    ensures r == ReplaceTab(run, run.panes[i].id, tabId, t2)
  {
    hide MapTabs;
    var p := run.panes[i];
    MapOnePane(run.panes, i, (q: Pane) => if q.id == p.id then q.(tabs := MapTabs(q.tabs, tabId, t2)) else q);
    assert r.panes == run.panes[i := p.(tabs := MapTabs(p.tabs, tabId, t2))];
  }

  lemma OnlyOneWithId(tabs: multiset<RunTab>, t: RunTab)
    requires NoClash(tabs) && t in tabs
    ensures forall u :: u in tabs && u.id == t.id ==> u == t
  {
  }

  lemma OnlyOne(tabs: multiset<RunTab>, t: RunTab, t2: RunTab)
    requires NoClash(tabs) && t in tabs && t2.id == t.id
    ensures forall u :: u in tabs - multiset{t} + multiset{t2} && u.id == t.id ==> u == t2
  {
    WithoutTab(tabs, t);
  }

  lemma {:induction false} PromoteAt(tabs: seq<RunTab>, tabId: string, k: nat)
    requires k < |tabs|
    ensures Promote(tabs[..k + 1], tabId) == Promote(tabs[..k], tabId) + Promote([tabs[k]], tabId)
  {
    if k == 0 {
      assert tabs[..1] == [tabs[0]] && tabs[..0] == [];
    } else {
      assert tabs[..k + 1][1..] == tabs[1..][..k] && tabs[..k][1..] == tabs[1..][..k - 1];
      PromoteAt(tabs[1..], tabId, k - 1);
    }
  }

  method PromoteTabs(tabs: seq<RunTab>, tabId: string) returns (promoted: seq<RunTab>, changed: bool)
    ensures promoted == Promote(tabs, tabId)
    ensures changed <==> exists t :: t in tabs && IsPromoted(t, tabId)
  {
    promoted, changed := [], false;
    for k := 0 to |tabs|
      invariant promoted == Promote(tabs[..k], tabId)
      invariant changed <==> exists t :: t in tabs[..k] && IsPromoted(t, tabId)
    {
      PromoteAt(tabs, tabId, k);
      assert tabs[..k + 1] == tabs[..k] + [tabs[k]];
      if IsPromoted(tabs[k], tabId) {
        changed := true;
        promoted := promoted + [tabs[k].(mode := Some(Permanent))];
      } else {
        promoted := promoted + [tabs[k]];
      }
    }
    assert tabs[..|tabs|] == tabs;
  }

  lemma {:induction false} PromoteChanges(tabs: seq<RunTab>, tabId: string)
    ensures Promote(tabs, tabId) != tabs <==> exists t :: t in tabs && IsPromoted(t, tabId)
  {
    if tabs != [] {
      PromoteChanges(tabs[1..], tabId);
      assert tabs == [tabs[0]] + tabs[1..];
      assert forall t :: t in tabs <==> t == tabs[0] || t in tabs[1..];
      if IsPromoted(tabs[0], tabId) {
        assert Promote(tabs, tabId)[0] != tabs[0];
      } else {
        assert Promote(tabs, tabId)[1..] == Promote(tabs[1..], tabId);
      }
    }
  }

  /** The promoting loop: it says whether anything changed, and hands back the same state when nothing did. */
  method PromoteInPanes(run: RunState, tabId: string) returns (next: RunState, changed: bool)
    ensures next == PromoteFileTab(run, tabId)
    ensures changed <==> next != run
  {
    hide Promote, IsPromoted;
    var panes: seq<Pane> := [];
    changed := false;
    for i := 0 to |run.panes|
      invariant |panes| == i
      invariant forall k :: 0 <= k < i ==> panes[k] == run.panes[k].(tabs := Promote(run.panes[k].tabs, tabId))
      invariant changed <==> exists k :: 0 <= k < i && panes[k] != run.panes[k]
    {
      var p := run.panes[i];
      var tabs, any := PromoteTabs(p.tabs, tabId);
      PromoteChanges(p.tabs, tabId);
      panes := panes + [p.(tabs := tabs)];
      changed := changed || any;
      assert panes[i] == p.(tabs := tabs);
    }
    assert panes == PromoteFileTab(run, tabId).panes;
    next := if changed then run.(panes := panes) else run;
    if !changed {
      assert panes == run.panes;
    }
  }

  // ----- opening a file

  predicate IsFileKind(kind: TabKind) {
    kind in {Code, Diff, Skill, Viewer}
  }

  lemma PatchedFits(tabs: multiset<RunTab>, t: RunTab, target: FileTarget, mode: TabMode)
    requires NoClash(tabs) && t in tabs && IsFileKind(target.kind) && SameFile(target, t)
    ensures CanReplace(t, Patched(t, target, mode), tabs)
    ensures SameFile(target, Patched(t, target, mode))
    ensures mode == Permanent ==> Patched(t, target, mode).mode == Some(Permanent)
  {
    var t2 := Patched(t, target, mode);
    assert IdentityOf(t2) == IdentityOf(t);
    forall u | u in tabs && u != t ensures !Clash(t2, u) {
      assert !Clash(t, u);
    }
  }

  lemma NotOpenNoClash(panes: seq<Pane>, target: FileTarget, mode: TabMode, newTab: string)
    requires IsFileKind(target.kind) && FindHolder(panes, (t: RunTab) => SameFile(target, t)).None?
    requires forall u :: u in All(panes) ==> u.id != newTab
    ensures forall u :: u in All(panes) ==> !Clash(BuildFileTab(target, mode, newTab), u)
  {
    hide All;
    forall u | u in All(panes) ensures !Clash(BuildFileTab(target, mode, newTab), u) {
      InAll(panes, u);
      var k :| 0 <= k < |panes| && u in panes[k].tabs;
      assert FindTab(panes[k].tabs, (t: RunTab) => SameFile(target, t)).None?;
      assert !SameFile(target, u);
    }
  }

  /** A pane with one tab exchanged for a new one, which gets the focus. */
  lemma SlotLaw(run: RunState, i: nat, k: nat, tab: RunTab)
    requires ValidRun(run) && i < |run.panes| && k < |run.panes[i].tabs|
    requires forall u :: u in All(run.panes) ==> !Clash(tab, u)
    requires IsPreview(tab) && IsPreviewIn(run.panes[i].tabs[k], tab.scopeKey)
    ensures var p := run.panes[i]; var panes := run.panes[i := p.(tabs := p.tabs[k := tab], active := Some(tab.id))];
            && Shape(panes) && OnePreviewEach(panes) && p.tabs[k] in All(run.panes)
            && All(panes) == All(run.panes) - multiset{p.tabs[k]} + multiset{tab}
  {
    hide All, NoClash, OnePreview, Clash, OnePreviewEach;
    var p := run.panes[i];
    var gone := p.tabs[k];
    var p' := p.(tabs := p.tabs[k := tab], active := Some(tab.id));
    assert p'.tabs[k] == tab;
    AllUpdate(run.panes, i, p');
    TabsInAll(run.panes, i, gone);
    UpdateMultiset(p.tabs, k, tab);
    SwapInPane(All(run.panes), multiset(p.tabs), gone, tab);
    NoClashSub(All(run.panes) - multiset{gone}, All(run.panes));
    NoClashAdd(All(run.panes) - multiset{gone}, tab);
    UpdateKeepsShape(run.panes, i, p');
    PreviewUpdate(run.panes, i, p');
    OnePreviewSame(p.tabs, p'.tabs);
  }

  lemma UpdateMultiset(tabs: seq<RunTab>, k: nat, tab: RunTab)
    requires k < |tabs|
    ensures multiset(tabs[k := tab]) == multiset(tabs) - multiset{tabs[k]} + multiset{tab}
  {
  }

  /** What opening a file did: `gone` made room, `shown` has the focus. */
  ghost predicate OpenedAs(before: multiset<RunTab>, o: Opened, target: FileTarget, mode: TabMode,
                           gone: multiset<RunTab>, shown: RunTab) {
    && gone <= before && |gone| <= 1 && All(o.run.panes) == before - gone + multiset{shown}
    && (forall t :: t in gone ==>
          || (SameFile(target, t) && shown.id == t.id)
          || (mode == PreviewMode && IsPreviewIn(t, target.scopeKey)))
    && SameFile(target, shown) && o.tabId == shown.id && Focused(o.run.panes, shown)
    && (mode == Permanent ==> shown.mode == Some(Permanent))
  }

  ghost predicate NewTabId(panes: seq<Pane>, newTab: string) {
    forall u :: u in All(panes) ==> u.id != newTab
  }

  lemma FocusExistingLaw(run: RunState, h: nat, existing: RunTab, target: FileTarget, mode: TabMode)
    requires ValidRun(run) && IsFileKind(target.kind)
    requires h < |run.panes| && existing in run.panes[h].tabs && SameFile(target, existing)
    ensures var patched := Patched(existing, target, mode);
            var replaced := ReplaceTab(run, run.panes[h].id, existing.id, patched);
            var r := ActivateRunTab(replaced, run.panes[h].id, existing.id);
            && ValidRun(r) && existing in All(run.panes)
            && OpenedAs(All(run.panes), Opened(r, existing.id), target, mode, multiset{existing}, patched)
  {
    hide All, NoClash, OnePreview, Clash, PaneShape, HasTab, ReplaceTab, DistinctPanes, OnePreviewEach, Patched,
         CanReplace;
    var patched := Patched(existing, target, mode);
    InAll(run.panes, existing);
    PatchedFits(All(run.panes), existing, target, mode);
    ReplaceLaw(run, h, existing, patched);
    var replaced := ReplaceTab(run, run.panes[h].id, existing.id, patched);
    FocusFound(replaced.panes, h, patched);
    ActivateLaw(replaced, run.panes[h].id, existing.id);
    assert ActivateRunTab(replaced, run.panes[h].id, existing.id).panes[h].tabs == replaced.panes[h].tabs;
  }

  function OpenIndex(panes: seq<Pane>, paneId: Option<string>): nat {
    match (if Given(paneId) then FindPane(panes, paneId.value) else Some(0))
    case None => 0
    case Some(i) => i
  }

  lemma BuiltIs(target: FileTarget, mode: TabMode, newTab: string)
    requires IsFileKind(target.kind)
    ensures var tab := BuildFileTab(target, mode, newTab);
            && tab.id == newTab && SameFile(target, tab) && tab.mode == Some(mode) && tab.scopeKey == target.scopeKey
            && IsFileTab(tab)
  {
  }

  lemma OpenInSlot(run: RunState, target: FileTarget, i: nat, k: nat, newTab: string)
    requires ValidRun(run) && IsFileKind(target.kind) && NewTabId(run.panes, newTab) && i < |run.panes|
    requires FindHolder(run.panes, (t: RunTab) => SameFile(target, t)).None?
    requires k < |run.panes[i].tabs| && IsPreviewIn(run.panes[i].tabs[k], target.scopeKey)
    ensures var tab, pane := BuildFileTab(target, PreviewMode, newTab), run.panes[i];
            var r := run.(panes := run.panes[i := pane.(tabs := pane.tabs[k := tab], active := Some(newTab))]);
            ValidRun(r) && OpenedAs(All(run.panes), Opened(r, newTab), target, PreviewMode, multiset{pane.tabs[k]}, tab)
  {
    hide All, NoClash, OnePreview, Clash, PaneShape, DistinctPanes, OnePreviewEach, FindHolder, BuildFileTab, SameFile;
    var tab := BuildFileTab(target, PreviewMode, newTab);
    var pane := run.panes[i];
    BuiltIs(target, PreviewMode, newTab);
    NotOpenNoClash(run.panes, target, PreviewMode, newTab);
    SlotLaw(run, i, k, tab);
    var panes := run.panes[i := pane.(tabs := pane.tabs[k := tab], active := Some(newTab))];
    assert panes[i].tabs[k] == tab;
    assert Focused(panes, tab);
  }

  lemma OpenAtEnd(run: RunState, target: FileTarget, mode: TabMode, i: nat, newTab: string)
    requires ValidRun(run) && IsFileKind(target.kind) && NewTabId(run.panes, newTab) && i < |run.panes|
    requires FindHolder(run.panes, (t: RunTab) => SameFile(target, t)).None?
    requires mode == PreviewMode ==>
      forall k :: 0 <= k < |run.panes[i].tabs| ==> !IsPreviewIn(run.panes[i].tabs[k], target.scopeKey)
    ensures var tab, pane := BuildFileTab(target, mode, newTab), run.panes[i];
            var r := run.(panes := run.panes[i := pane.(tabs := pane.tabs + [tab], active := Some(newTab))]);
            ValidRun(r) && OpenedAs(All(run.panes), Opened(r, newTab), target, mode, multiset{}, tab)
  {
    hide All, NoClash, OnePreview, Clash, PaneShape, DistinctPanes, OnePreviewEach, FindHolder, BuildFileTab, SameFile;
    var tab := BuildFileTab(target, mode, newTab);
    var pane := run.panes[i];
    BuiltIs(target, mode, newTab);
    NotOpenNoClash(run.panes, target, mode, newTab);
    AppendLaw(run, i, tab);
    var panes := run.panes[i := pane.(tabs := pane.tabs + [tab], active := Some(newTab))];
    assert panes[i].tabs[|pane.tabs|] == tab;
    assert Focused(panes, tab);
  }

  /**
   * Opening a file in a workspace keeps the invariant; at most one tab makes room
   * for it, and that is the same file or the pane's preview of the same scope.
   */
  lemma OpenLaw(
    run: RunState, target: FileTarget, mode: TabMode, paneId: Option<string>, newPane: string, newTab: string)
    returns (gone: multiset<RunTab>, shown: RunTab)
    requires ValidRun(run) && IsFileKind(target.kind) && NewTabId(run.panes, newTab)
    ensures var o := OpenFileTab(Some(run), target, mode, paneId, newPane, newTab);
            ValidRun(o.run) && OpenedAs(All(run.panes), o, target, mode, gone, shown)
  {
    hide All, NoClash, OnePreview, Clash, PaneShape, HasTab, ReplaceTab, OnePreviewEach, Patched, ActivateRunTab,
         NewTabId, OpenedAs, FindTab, FindHolder, BuildFileTab, FirstIndex;
    var matches := (t: RunTab) => SameFile(target, t);
    var h := FindHolder(run.panes, matches);
    if h.Some? {
      var existing := FindTab(run.panes[h.value].tabs, matches).value;
      FocusExistingLaw(run, h.value, existing, target, mode);
      gone, shown := multiset{existing}, Patched(existing, target, mode);
    } else {
      var i := OpenIndex(run.panes, paneId);
      var pane := run.panes[i];
      shown := BuildFileTab(target, mode, newTab);
      BuiltIs(target, mode, newTab);
      var slot := if mode == PreviewMode then FirstIndex(pane.tabs, (t: RunTab) => IsPreviewIn(t, target.scopeKey))
                  else None;
      var tabs := if slot.Some? then pane.tabs[slot.value := shown] else pane.tabs + [shown];
      MapOnePane(run.panes, i, (p: Pane) => if p.id == pane.id then p.(tabs := tabs, active := Some(shown.id)) else p);
      if slot.Some? {
        OpenInSlot(run, target, i, slot.value, newTab);
        gone := multiset{pane.tabs[slot.value]};
      } else {
        OpenAtEnd(run, target, mode, i, newTab);
        gone := multiset{};
      }
    }
  }

  /** Opening a file with no workspace creates one. */
  lemma OpenInNothing(target: FileTarget, mode: TabMode, paneId: Option<string>, newPane: string, newTab: string)
    ensures var o := OpenFileTab(None, target, mode, paneId, newPane, newTab);
            && ValidRun(o.run) && All(o.run.panes) == multiset{BuildFileTab(target, mode, newTab)} && o.tabId == newTab
  {
    hide Shape, OnePreview, All, FindHolder;
    var tab := BuildFileTab(target, mode, newTab);
    var base := EmptyRun(newPane);
    var pane := base.panes[0];
    assert pane.tabs + [tab] == [tab];
    var panes := MapPanes(base.panes, (p: Pane) =>
      if p.id == pane.id then p.(tabs := [tab], active := Some(newTab)) else p);
    assert panes == [pane.(tabs := [tab], active := Some(newTab))];
    SinglePane(panes[0], tab);
  }

  // ----- moving a tab

  /** Detaching a tab takes away that tab and nothing else. */
  lemma DetachLaw(run: RunState, i: nat, t: RunTab)
    requires Shape(run.panes) && i < |run.panes| && t in run.panes[i].tabs
    ensures var r := CloseRunTab(run, run.panes[i].id, t.id);
            && Shaped(r) && (ValidRun(run) ==> Valid(r))
            && t in All(run.panes) && AllOf(r) == All(run.panes) - multiset{t}
  {
    hide All, PaneShape, OnePreview, OnePreviewEach, CloseRunTab, NoClash, HasTab;
    var r := CloseRunTab(run, run.panes[i].id, t.id);
    CloseLaw(run, run.panes[i].id, t.id);
    CountIn(run.panes, i, t);
    var all := All(run.panes);
    forall u ensures u in AllOf(r) <==> u in all && u != t {
      OnlyOneWithId(all, t);
    }
    WithoutTab(all, t);
    NoClashSub(all - multiset{t}, all);
    NoClashSub(AllOf(r), all);
  }

  /** A tab split off into its own pane. */
  lemma SplitLaw(p: Pane, t: RunTab, newPane: string)
    requires Shape([p]) && p.id != newPane && forall u :: u in All([p]) ==> !Clash(t, u)
    ensures var q := Pane(newPane, [t], Some(t.id));
            && Shape([p, q]) && Shape([q, p])
            && (OnePreviewEach([p]) ==> OnePreviewEach([p, q]) && OnePreviewEach([q, p]))
            && All([p, q]) == All([q, p]) == All([p]) + multiset{t}
  {
    hide NoClash, Clash, OnePreview;
    var q := Pane(newPane, [t], Some(t.id));
    SinglePane(q, t);
    NoClashAdd(All([p]), t);
    assert [p, q][1..] == [q] && [q, p][1..] == [p];
    assert All([p, q]) == multiset(p.tabs) + All([q]);
    assert All([q, p]) == multiset(q.tabs) + All([p]);
    assert [p][1..] == [];
    assert All([p]) == multiset(p.tabs);
    assert PaneShape([p][0]) && PaneShape([q][0]);
    if OnePreviewEach([p]) {
      assert OnePreview([p][0].tabs);
    }
    assert PaneShape([q, p][0]) && PaneShape([q, p][1]);
    assert multiset(q.tabs) == multiset{t};
    assert All([p, q]) == All([p]) + multiset{t};
    assert All([q, p]) == All([p]) + multiset{t};
    assert DistinctPanes([q, p]) && NoClash(All([q, p]));
    assert Shape([q, p]);
  }

  /** Where a detached tab lands: whether it splits off, and whether the pane it joins would take it as a preview. */
  predicate LandsWell(run: RunState, tabId: string, edge: DropEdge) {
    match FindHolder(run.panes, (t: RunTab) => t.id == tabId)
    case None => true
    case Some(i) =>
      var t := FindTab(run.panes[i].tabs, (t: RunTab) => t.id == tabId).value;
      match CloseRunTab(run, run.panes[i].id, tabId)
      case None => true
      case Some(rest) => (edge != Center && |rest.panes| == 1) || rest.panes == [] || PreviewFits(t, rest.panes[0].tabs)
  }

  /** Dropping back a tab that was detached. */
  lemma DropLaw(run: RunState, t: RunTab, edge: DropEdge, newPane: string)
    requires Shape(run.panes) && forall u :: u in All(run.panes) ==> !Clash(t, u)
    requires forall i :: 0 <= i < |run.panes| ==> run.panes[i].id != newPane
    ensures var r := MoveTabToRun(run, t, edge, newPane);
            && r.Some? && Shape(r.value.panes) && AllOf(r) == All(run.panes) + multiset{t}
            && (OnePreviewEach(run.panes) ==>
                  (OnePreviewEach(r.value.panes) <==>
                     (edge != Center && |run.panes| == 1) || PreviewFits(t, run.panes[0].tabs)))
  {
    hide All, NoClash, OnePreview, Clash, PreviewFits, AddRunTab;
    assert PaneShape(run.panes[0]);
    if edge == Center || |run.panes| == 2 {
      JoinLaw(run, t, newPane);
    } else {
      var p := run.panes[0];
      assert run.panes == [p];
      var q := Pane(newPane, [t], Some(t.id));
      assert MoveTabToRun(run, t, edge, newPane).value.panes
             == if edge == LeftEdge || edge == TopEdge then [q, p] else [p, q];
      SplitLaw(p, t, newPane);
    }
  }

  lemma JoinLaw(run: RunState, t: RunTab, newPane: string)
    requires Shape(run.panes) && forall u :: u in All(run.panes) ==> !Clash(t, u)
    ensures var r := AddRunTab(Some(run), t, None, newPane);
            && r.Some? && Shape(r.value.panes) && AllOf(r) == All(run.panes) + multiset{t}
            && (OnePreviewEach(run.panes) ==> (OnePreviewEach(r.value.panes) <==> PreviewFits(t, run.panes[0].tabs)))
  {
    hide All, NoClash, OnePreview, PreviewFits, AddRunTab, Duplicates, IdentityOf, PaneShape, DistinctPanes,
         OnePreviewEach;
    forall u | u in All(run.panes) ensures !Duplicates(t, u) {
      DuplicatesIsIdentity(t, u);
    }
    AddLaw(run, t, None, newPane);
  }

  /**
   * Moving a tab to an edge keeps every tab, every id and the shape, for every edge;
   * the preview rule survives exactly when the tab lands well.
   */
  lemma MoveLaw(run: RunState, tabId: string, edge: DropEdge, newPane: string)
    requires Shape(run.panes) && forall i :: 0 <= i < |run.panes| ==> run.panes[i].id != newPane
    ensures var r := MoveTabToPaneEdge(run, tabId, edge, newPane);
            && Shape(r.panes) && All(r.panes) == All(run.panes)
            && (OnePreviewEach(run.panes) ==> (OnePreviewEach(r.panes) <==> LandsWell(run, tabId, edge)))
  {
    hide All, NoClash, OnePreview, Clash, PreviewFits, CloseRunTab, MoveTabToRun, PaneShape, DistinctPanes,
         OnePreviewEach;
    var h := FindHolder(run.panes, (t: RunTab) => t.id == tabId);
    if h.Some? {
      var i := h.value;
      var t := FindTab(run.panes[i].tabs, (t: RunTab) => t.id == tabId).value;
      DetachLaw(run, i, t);
      var rest := CloseRunTab(run, run.panes[i].id, tabId);
      if rest.Some? {
        RestPanes(run, run.panes[i].id, tabId, newPane);
        NoneClash(All(run.panes), t);
        DropLaw(rest.value, t, edge, newPane);
        assert All(run.panes) - multiset{t} + multiset{t} == All(run.panes);
      }
    }
  }

  /** The tab that was moved has the focus where it lands; only the last tab of a workspace stays put. */
  lemma MoveFocuses(run: RunState, tabId: string, edge: DropEdge, newPane: string, t: RunTab)
    requires Shape(run.panes) && forall i :: 0 <= i < |run.panes| ==> run.panes[i].id != newPane
    requires t in All(run.panes) && t.id == tabId
    ensures var r := MoveTabToPaneEdge(run, tabId, edge, newPane);
            if All(run.panes) == multiset{t} then r == run else Focused(r.panes, t)
  {
    hide All, NoClash, OnePreview, Clash, CloseRunTab, MoveTabToRun, PaneShape, DistinctPanes;
    InAll(run.panes, t);
    var k :| 0 <= k < |run.panes| && t in run.panes[k].tabs;
    var i := FindHolder(run.panes, (u: RunTab) => u.id == tabId).value;
    var source := FindTab(run.panes[i].tabs, (u: RunTab) => u.id == tabId).value;
    InAll(run.panes, source);
    OnlyOneWithId(All(run.panes), t);
    DetachLaw(run, i, t);
    var rest := CloseRunTab(run, run.panes[i].id, tabId);
    if rest.Some? {
      RestNotEmpty(rest.value.panes);
      RestPanes(run, run.panes[i].id, tabId, newPane);
      NoneClash(All(run.panes), t);
      DropLaw(rest.value, t, edge, newPane);
      DropFocuses(rest.value, t, edge, newPane);
      assert multiset{t} - multiset{t} == multiset{};
    } else {
      assert All(run.panes) == multiset{t} by {
        assert All(run.panes) - multiset{t} == multiset{};
        OnlyThisTab(All(run.panes), t);
      }
    }
  }

  /** Beside the only pane a dropped tab makes a pane of its own: where the edge is, in the direction of the edge. */
  lemma DropSides(run: RunState, t: RunTab, edge: DropEdge, newPane: string)
    requires |run.panes| == 1 && run.panes[0].tabs != [] && edge != Center
    ensures var r, lone, stay := MoveTabToRun(run, t, edge, newPane), Pane(newPane, [t], Some(t.id)), run.panes[0];
      r.Some? && r.value.flex == [1.0, 1.0] && match edge
      case LeftEdge => r.value.dir == SideBySide && r.value.panes == [lone, stay]
      case RightEdge => r.value.dir == SideBySide && r.value.panes == [stay, lone]
      case TopEdge => r.value.dir == Stacked && r.value.panes == [lone, stay]
      case BottomEdge => r.value.dir == Stacked && r.value.panes == [stay, lone]
      case Center => false
  {
  }

  /**
   * A tab of a single pane, moved to an edge, stands there alone, and the others
   * stay together, in their order, in the pane they were in.
   */
  lemma MoveSides(run: RunState, tabId: string, edge: DropEdge, newPane: string, t: RunTab)
    requires Shape(run.panes) && |run.panes| == 1 && run.panes[0].id != newPane && edge != Center
    requires t in run.panes[0].tabs && t.id == tabId && All(run.panes) != multiset{t}
    ensures var r := MoveTabToPaneEdge(run, tabId, edge, newPane);
            var k := if edge == LeftEdge || edge == TopEdge then 0 else 1;
            && |r.panes| == 2 && r.panes[k] == Pane(newPane, [t], Some(t.id))
            && r.panes[1 - k].id == run.panes[0].id
            && r.panes[1 - k].tabs == Keep(run.panes[0].tabs, (u: RunTab) => u.id != tabId)
            && (r.dir == SideBySide <==> edge == LeftEdge || edge == RightEdge)
  {
    hide NoClash, OnePreview, Clash, MoveTabToRun, PaneShape, DistinctPanes, Keep;
    var p := run.panes[0];
    InAll(run.panes, t);
    var source := FindTab(p.tabs, (u: RunTab) => u.id == tabId).value;
    assert FindHolder(run.panes, (u: RunTab) => u.id == tabId) == Some(0);
    InAll(run.panes, source);
    OnlyOneWithId(All(run.panes), t);
    DetachLaw(run, 0, t);
    ClosedSingle(run, p, tabId);
    var rest := CloseRunTab(run, p.id, tabId);
    if rest.None? {
      OnlyThisTab(All(run.panes), t);
    } else {
      RestNotEmpty(rest.value.panes);
      DropSides(rest.value, t, edge, newPane);
    }
  }

  lemma ClosedSingle(run: RunState, p: Pane, tabId: string)
    requires run.panes == [p]
    ensures var r := CloseRunTab(run, p.id, tabId);
            if CloseTabIn(p, tabId).tabs == [] then r.None? else r.Some? && r.value.panes == [CloseTabIn(p, tabId)]
  {
    hide CloseTabIn;
    var panes := MapPanes(run.panes, (q: Pane) => if q.id == p.id then CloseTabIn(q, tabId) else q);
    assert panes == [CloseTabIn(p, tabId)] && panes[1..] == [];
    assert NonEmpty(panes[1..]) == [];
    assert NonEmpty(panes) == if panes[0].tabs == [] then [] else [panes[0]];
  }

  lemma OnlyThisTab(tabs: multiset<RunTab>, t: RunTab)
    requires NoClash(tabs) && t in tabs && tabs - multiset{t} == multiset{}
    ensures tabs == multiset{t}
  {
    forall u ensures tabs[u] == multiset{t}[u] {
      assert (tabs - multiset{t})[u] == 0;
    }
  }

  lemma RestNotEmpty(panes: seq<Pane>)
    requires Shape(panes)
    ensures All(panes) != multiset{}
  {
    assert PaneShape(panes[0]);
    var t := panes[0].tabs[0];
    InAll(panes, t);
  }

  lemma DropFocuses(run: RunState, t: RunTab, edge: DropEdge, newPane: string)
    requires Shape(run.panes) && forall u :: u in All(run.panes) ==> !Clash(t, u)
    requires MoveTabToRun(run, t, edge, newPane).Some?
    ensures Focused(MoveTabToRun(run, t, edge, newPane).value.panes, t)
  {
    hide All, NoClash, OnePreview, Clash, AddRunTab, Duplicates, IdentityOf;
    assert PaneShape(run.panes[0]);
    if edge == Center || |run.panes| == 2 {
      forall u | u in All(run.panes) ensures !Duplicates(t, u) {
        NotDuplicate(t, u);
      }
      AddFocuses(run, t, None, newPane);
    } else {
      var panes := MoveTabToRun(run, t, edge, newPane).value.panes;
      var q := Pane(newPane, [t], Some(t.id));
      assert panes == if edge == LeftEdge || edge == TopEdge then [q, run.panes[0]] else [run.panes[0], q];
      assert q.tabs[0] == t;
      assert panes[if edge == LeftEdge || edge == TopEdge then 0 else 1] == q;
    }
  }

  lemma NotDuplicate(t: RunTab, u: RunTab)
    requires !Clash(t, u)
    ensures !Duplicates(t, u)
  {
    DuplicatesIsIdentity(t, u);
  }

  lemma NoneClash(tabs: multiset<RunTab>, t: RunTab)
    requires NoClash(tabs) && t in tabs
    ensures forall u :: u in tabs - multiset{t} ==> !Clash(t, u)
  {
    WithoutTab(tabs, t);
  }

  lemma RestPanes(run: RunState, paneId: string, tabId: string, newPane: string)
    requires forall i :: 0 <= i < |run.panes| ==> run.panes[i].id != newPane
    ensures var r := CloseRunTab(run, paneId, tabId);
            r.Some? ==> forall i :: 0 <= i < |r.value.panes| ==> r.value.panes[i].id != newPane
  {
    hide NonEmpty, CloseTabIn;
    var panes := MapPanes(run.panes, (p: Pane) => if p.id == paneId then CloseTabIn(p, tabId) else p);
    NonEmptyAre(panes);
    forall p | p in panes ensures p.id != newPane {
      var i :| 0 <= i < |panes| && panes[i] == p;
      SameIdIn(run.panes[i], tabId);
    }
  }

  lemma SameIdIn(p: Pane, tabId: string)
    ensures CloseTabIn(p, tabId).id == p.id
  {
  }

  function PreviewTab(id: string, path: string): RunTab {
    RunTab(id, Code, path, Some(path), None, None, None, Some(PreviewMode), None, None, Some("scope"))
  }

  /** Two split panes, a preview in each: joining them leaves one pane with two previews of one scope. */
  lemma MovingDoublesPreviews()
    ensures var a, b, c := PreviewTab("1", "a"), PreviewTab("2", "b"), PreviewTab("3", "c").(mode := Some(Permanent));
            var run := RunState(SideBySide, [1.0, 1.0], [Pane("p", [a], Some("1")), Pane("q", [c, b], Some("2"))]);
            ValidRun(run) && !ValidRun(MoveTabToPaneEdge(run, "2", Center, "r"))
  {
    hide CloseRunTab, MoveTabToPaneEdge;
    var a, b, c := PreviewTab("1", "a"), PreviewTab("2", "b"), PreviewTab("3", "c").(mode := Some(Permanent));
    var p, q := Pane("p", [a], Some("1")), Pane("q", [c, b], Some("2"));
    var run := RunState(SideBySide, [1.0, 1.0], [p, q]);
    ThreeTabs(a, b, c, p, q);
    DetachedExample(a, b, c, run);
    MoveLaw(run, "2", Center, "r");
  }

  lemma ThreeTabs(a: RunTab, b: RunTab, c: RunTab, p: Pane, q: Pane)
    requires p.tabs == [a] && q.tabs == [c, b] && p.active == Some(a.id) && q.active == Some(b.id) && p.id != q.id
    requires !Clash(a, b) && !Clash(a, c) && !Clash(b, c) && !IsPreview(c)
    ensures Shape([p, q]) && OnePreviewEach([p, q])
  {
    hide Clash, NoClash, OnePreview, All, PaneShape;
    ThreeDoNotClash(a, b, c);
    ThreeInAll(a, b, c, p, q);
    OneIsPreview(a, b, c);
    assert PaneShape(p) && PaneShape(q) by {
      ActiveIs(p, 0);
      ActiveIs(q, 1);
    }
  }

  lemma ActiveIs(p: Pane, k: nat)
    requires k < |p.tabs| && p.active == Some(p.tabs[k].id)
    ensures PaneShape(p)
  {
  }

  lemma ThreeInAll(a: RunTab, b: RunTab, c: RunTab, p: Pane, q: Pane)
    requires p.tabs == [a] && q.tabs == [c, b]
    ensures All([p, q]) == multiset{a, b, c}
  {
    assert [p, q][1..] == [q] && [q][1..] == [];
    assert All([p, q]) == multiset(p.tabs) + All([q]);
    assert All([q]) == multiset(q.tabs) + All([]);
  }

  lemma OneIsPreview(a: RunTab, b: RunTab, c: RunTab)
    requires !IsPreview(c)
    ensures OnePreview([a]) && OnePreview([c, b])
  {
    assert [c, b][1..] == [b] && [a][1..] == [] && [b][1..] == [];
    assert OnePreview([]) && OnePreview([b]);
  }

  lemma ThreeDoNotClash(a: RunTab, b: RunTab, c: RunTab)
    requires !Clash(a, b) && !Clash(a, c) && !Clash(b, c)
    ensures NoClash(multiset{a, b, c})
  {
    hide Clash;
    ClashSymmetric(a, b);
    ClashSymmetric(a, c);
    ClashSymmetric(b, c);
    IdsDiffer(a, b);
    IdsDiffer(a, c);
    IdsDiffer(b, c);
  }

  lemma ClashSymmetric(t: RunTab, u: RunTab)
    ensures Clash(t, u) <==> Clash(u, t)
  {
  }

  lemma IdsDiffer(t: RunTab, u: RunTab)
    requires !Clash(t, u)
    ensures t.id != u.id
  {
  }

  lemma DetachedExample(a: RunTab, b: RunTab, c: RunTab, run: RunState)
    requires run.panes == [Pane("p", [a], Some("1")), Pane("q", [c, b], Some("2"))]
    requires a.id == "1" && b.id == "2" && c.id == "3" && IsPreview(b) && IsPreviewIn(a, b.scopeKey)
    ensures !LandsWell(run, "2", Center)
  {
    var has := (t: RunTab) => t.id == "2";
    var p, q := run.panes[0], run.panes[1];
    assert FindTab(p.tabs, has).None?;
    assert q.tabs[1..] == [b] && run.panes[1..] == [q];
    assert FindTab(q.tabs, has) == Some(b);
    assert FindHolder([q], has) == Some(0);
    assert FindHolder(run.panes, has) == Some(1);
    var q' := CloseTabIn(q, "2");
    assert [b][1..] == [];
    assert Keep([b], (t: RunTab) => t.id != "2") == [];
    assert q'.tabs == [c];
    var panes := MapPanes(run.panes, (r: Pane) => if r.id == "q" then CloseTabIn(r, "2") else r);
    assert panes == [p, q'];
    assert panes[1..] == [q'] && [q'][1..] == [];
    assert NonEmpty([q']) == [q'] + NonEmpty([]);
    assert NonEmpty(panes) == [p] + NonEmpty([q']);
    assert p.tabs[0] == a;
  }
}
