/** What every reducer of the workspace keeps, and exactly which tabs it takes away or adds. */
module RunPaneLaws {
  import opened CharClasses
  import opened RunPane

  // ----- the invariant

  datatype Identity =
    | LaunchOf(config: string, scopeKey: Option<string>)
    | UrlOf(url: string, scopeKey: Option<string>)
    | FileOf(kind: TabKind, path: string, scopeKey: Option<string>)

  /** What makes a tab a singleton in its scope, if anything does. */
  function IdentityOf(t: RunTab): Option<Identity> {
    if IsLaunchTab(t) && Given(t.config) then Some(LaunchOf(t.config.value, t.scopeKey))
    else if t.kind == Url && Given(t.url) then Some(UrlOf(t.url.value, t.scopeKey))
    else if IsFileTab(t) && t.path.Some? then Some(FileOf(t.kind, t.path.value, t.scopeKey))
    else None
  }

  /** Two tabs that may not stand side by side: one id, or one identity. */
  predicate Clash(t: RunTab, u: RunTab) {
    t.id == u.id || (IdentityOf(t).Some? && IdentityOf(t) == IdentityOf(u))
  }

  ghost predicate NoClash(tabs: multiset<RunTab>) {
    && (forall t :: t in tabs ==> tabs[t] == 1)
    && (forall t, u :: t in tabs && u in tabs && t != u ==> !Clash(t, u))
  }

  ghost function All(panes: seq<Pane>): multiset<RunTab> {
    if panes == [] then multiset{} else multiset(panes[0].tabs) + All(panes[1..])
  }

  predicate HasTab(tabs: seq<RunTab>, id: Option<string>) {
    exists j :: 0 <= j < |tabs| && id == Some(tabs[j].id)
  }

  predicate PaneShape(p: Pane) {
    p.tabs != [] && HasTab(p.tabs, p.active)
  }

  predicate DistinctPanes(panes: seq<Pane>) {
    forall i, j :: 0 <= i < j < |panes| ==> panes[i].id != panes[j].id
  }

  /** One or two panes, none empty, each with a valid active tab; no id and no identity twice. */
  ghost predicate Shape(panes: seq<Pane>) {
    && 1 <= |panes| <= MAX_PANES && DistinctPanes(panes)
    && (forall i :: 0 <= i < |panes| ==> PaneShape(panes[i]))
    && NoClash(All(panes))
  }

  predicate IsPreview(t: RunTab) {
    IsFileTab(t) && t.mode == Some(PreviewMode)
  }

  /** At most one preview per scope. */
  predicate OnePreview(tabs: seq<RunTab>) {
    tabs == [] ||
    (&& (IsPreview(tabs[0]) ==> forall j :: 1 <= j < |tabs| ==> !IsPreviewIn(tabs[j], tabs[0].scopeKey))
     && OnePreview(tabs[1..]))
  }

  predicate OnePreviewEach(panes: seq<Pane>) {
    forall i :: 0 <= i < |panes| ==> OnePreview(panes[i].tabs)
  }

  ghost predicate ValidRun(run: RunState) {
    Shape(run.panes) && OnePreviewEach(run.panes)
  }

  // ----- all tabs, pane by pane

  lemma {:induction false} InAll(panes: seq<Pane>, t: RunTab)
    ensures t in All(panes) <==> exists i :: 0 <= i < |panes| && t in panes[i].tabs
  {
    if panes != [] {
      InAll(panes[1..], t);
      if exists i :: 0 <= i < |panes| && t in panes[i].tabs {
        var i :| 0 <= i < |panes| && t in panes[i].tabs;
        if i > 0 {
          assert panes[1..][i - 1] == panes[i];
        }
      }
      if t in panes[0].tabs {
        assert t in multiset(panes[0].tabs);
      } else if t in All(panes) {
        assert t !in multiset(panes[0].tabs);
        var i :| 0 <= i < |panes[1..]| && t in panes[1..][i].tabs;
        assert panes[i + 1] == panes[1..][i];
      }
    }
  }

  lemma SwapPart(rest: multiset<RunTab>, a: multiset<RunTab>, x: multiset<RunTab>, y: multiset<RunTab>)
    requires x <= a
    ensures x <= rest + a && rest + (a - x + y) == rest + a - x + y
  {
  }

  lemma {:induction false} AllUpdate(panes: seq<Pane>, i: nat, p: Pane)
    requires i < |panes|
    ensures multiset(panes[i].tabs) <= All(panes)
    ensures All(panes[i := p]) == All(panes) - multiset(panes[i].tabs) + multiset(p.tabs)
  {
    var rest := panes[1..];
    var first := multiset(panes[0].tabs);
    if i == 0 {
      assert panes[0 := p][1..] == rest;
      SwapPart(All(rest), first, first, multiset(p.tabs));
    } else {
      assert panes[i := p][1..] == rest[i - 1 := p];
      AllUpdate(rest, i - 1, p);
      SwapPart(first, All(rest), multiset(panes[i].tabs), multiset(p.tabs));
    }
  }

  lemma {:induction false} AllNonEmpty(panes: seq<Pane>)
    ensures All(NonEmpty(panes)) == All(panes)
  {
    if panes != [] {
      AllNonEmpty(panes[1..]);
      if panes[0].tabs != [] {
        assert NonEmpty(panes)[1..] == NonEmpty(panes[1..]);
      }
    }
  }

  lemma {:induction false} NonEmptyAre(panes: seq<Pane>)
    ensures |NonEmpty(panes)| <= |panes|
    ensures forall k :: 0 <= k < |NonEmpty(panes)| ==> NonEmpty(panes)[k] in panes && NonEmpty(panes)[k].tabs != []
    ensures DistinctPanes(panes) ==> DistinctPanes(NonEmpty(panes))
    ensures forall p :: p in panes && p.tabs != [] ==> p in NonEmpty(panes)
  {
    if panes != [] {
      NonEmptyAre(panes[1..]);
      if DistinctPanes(panes) {
        assert DistinctPanes(panes[1..]) by {
          forall i, j | 0 <= i < j < |panes[1..]| ensures panes[1..][i].id != panes[1..][j].id {
            assert panes[i + 1].id != panes[j + 1].id;
          }
        }
        forall p | p in panes[1..] ensures p.id != panes[0].id {
          var i :| 0 <= i < |panes[1..]| && panes[1..][i] == p;
          assert panes[i + 1] == p;
        }
      }
    }
  }

  lemma NoClashSub(few: multiset<RunTab>, many: multiset<RunTab>)
    requires NoClash(many) && few <= many
    ensures NoClash(few)
  {
    forall t | t in few ensures few[t] == 1 {
      assert t in many && few[t] <= many[t];
    }
  }

  lemma NoClashAdd(tabs: multiset<RunTab>, t: RunTab)
    requires NoClash(tabs) && forall u :: u in tabs ==> !Clash(t, u)
    ensures NoClash(tabs + multiset{t})
  {
    assert t !in tabs;
  }

  /** A map that changes one pane only. */
  lemma MapOnePane(panes: seq<Pane>, i: nat, f: Pane -> Pane)
    requires i < |panes| && DistinctPanes(panes)
    requires forall p: Pane :: p.id != panes[i].id ==> f(p) == p
    ensures MapPanes(panes, f) == panes[i := f(panes[i])]
  {
  }

  lemma OnlyPane(panes: seq<Pane>, i: nat, id: string)
    requires i < |panes| && DistinctPanes(panes) && panes[i].id == id
    ensures FindPane(panes, id) == Some(i)
  {
  }

  /** The reducers that rebuild one pane: enough for the whole to keep its shape. */
  lemma UpdateKeepsShape(panes: seq<Pane>, i: nat, p: Pane)
    requires Shape(panes) && i < |panes| && p.id == panes[i].id && PaneShape(p)
    requires NoClash(All(panes) - multiset(panes[i].tabs) + multiset(p.tabs))
    ensures Shape(panes[i := p])
  {
    hide NoClash, All, PaneShape;
    AllUpdate(panes, i, p);
  }

  /** One pane rebuilt with fewer tabs, then empty panes dropped. */
  lemma ShrinkKeepsShape(panes: seq<Pane>, panes': seq<Pane>)
    requires Shape(panes) && |panes'| == |panes|
    requires forall i :: 0 <= i < |panes| ==> panes'[i].id == panes[i].id
    requires forall i :: 0 <= i < |panes| ==> panes'[i].tabs == [] || PaneShape(panes'[i])
    requires All(panes') <= All(panes)
    ensures NonEmpty(panes') != [] ==> Shape(NonEmpty(panes'))
    ensures OnePreviewEach(panes') ==> OnePreviewEach(NonEmpty(panes'))
  {
    hide All, NoClash, PaneShape, OnePreview, NonEmpty;
    NonEmptyAre(panes');
    AllNonEmpty(panes');
    NoClashSub(All(panes'), All(panes));
    forall k | 0 <= k < |NonEmpty(panes')|
      ensures PaneShape(NonEmpty(panes')[k]) && (OnePreviewEach(panes') ==> OnePreview(NonEmpty(panes')[k].tabs))
    {
      var i :| 0 <= i < |panes'| && panes'[i] == NonEmpty(panes')[k];
    }
  }

  // ----- keeping some tabs of a pane

  lemma {:induction false} KeepIs(tabs: seq<RunTab>, p: RunTab -> bool)
    ensures multiset(Keep(tabs, p)) <= multiset(tabs)
    ensures forall t :: t in Keep(tabs, p) <==> t in tabs && p(t)
    ensures OnePreview(tabs) ==> OnePreview(Keep(tabs, p))
  {
    if tabs != [] {
      KeepIs(tabs[1..], p);
      assert tabs == [tabs[0]] + tabs[1..];
      var rest := Keep(tabs[1..], p);
      if p(tabs[0]) && OnePreview(tabs) {
        assert ([tabs[0]] + rest)[1..] == rest;
        if IsPreview(tabs[0]) {
          forall j | 0 <= j < |rest| ensures !IsPreviewIn(rest[j], tabs[0].scopeKey) {
            assert rest[j] in tabs[1..];
          }
        }
      }
    }
  }

  lemma KeepsTab(tabs: seq<RunTab>, p: RunTab -> bool, id: Option<string>)
    requires HasTab(tabs, id) && forall t: RunTab :: id == Some(t.id) ==> p(t)
    ensures HasTab(Keep(tabs, p), id)
  {
    KeepIs(tabs, p);
    var j :| 0 <= j < |tabs| && id == Some(tabs[j].id);
    assert tabs[j] in Keep(tabs, p);
    var k :| 0 <= k < |Keep(tabs, p)| && Keep(tabs, p)[k] == tabs[j];
  }

  lemma HasLast(tabs: seq<RunTab>)
    requires tabs != []
    ensures HasTab(tabs, LastId(tabs))
  {
    assert LastId(tabs) == Some(tabs[|tabs| - 1].id);
  }

  lemma CloseTabInIs(p: Pane, tabId: string)
    requires PaneShape(p)
    ensures var p' := CloseTabIn(p, tabId);
            && p'.id == p.id && (p'.tabs == [] || PaneShape(p'))
            && multiset(p'.tabs) <= multiset(p.tabs)
            && (forall t :: t in p'.tabs <==> t in p.tabs && t.id != tabId)
            && (OnePreview(p.tabs) ==> OnePreview(p'.tabs))
  {
    hide OnePreview, HasTab;
    var keep := (t: RunTab) => t.id != tabId;
    KeepIs(p.tabs, keep);
    if Keep(p.tabs, keep) != [] {
      HasLast(Keep(p.tabs, keep));
      if p.active != Some(tabId) {
        KeepsTab(p.tabs, keep, p.active);
      }
    }
  }

  lemma ReleaseInIs(p: Pane, scopeKey: string)
    requires PaneShape(p)
    ensures var p' := ReleaseIn(p, scopeKey);
            && p'.id == p.id && (p'.tabs == [] || PaneShape(p'))
            && multiset(p'.tabs) <= multiset(p.tabs)
            && (forall t :: t in p'.tabs <==> t in p.tabs && t.scopeKey != Some(scopeKey))
            && (OnePreview(p.tabs) ==> OnePreview(p'.tabs))
  {
    hide OnePreview;
    var keep := (t: RunTab) => t.scopeKey != Some(scopeKey);
    var tabs := Keep(p.tabs, keep);
    KeepIs(p.tabs, keep);
    var found := FindTab(tabs, (t: RunTab) => p.active == Some(t.id));
    if found.Some? {
      var k :| 0 <= k < |tabs| && tabs[k] == found.value;
      assert HasTab(tabs, p.active);
    } else if tabs != [] {
      HasLast(tabs);
    }
  }

  lemma {:induction false} AllShrinks(panes: seq<Pane>, panes': seq<Pane>)
    requires |panes'| == |panes|
    requires forall i :: 0 <= i < |panes| ==> multiset(panes'[i].tabs) <= multiset(panes[i].tabs)
    ensures All(panes') <= All(panes)
  {
    if panes != [] {
      forall i | 0 <= i < |panes[1..]| ensures multiset(panes'[1..][i].tabs) <= multiset(panes[1..][i].tabs) {
        assert panes'[1..][i] == panes'[i + 1] && panes[1..][i] == panes[i + 1];
      }
      AllShrinks(panes[1..], panes'[1..]);
    }
  }
}
