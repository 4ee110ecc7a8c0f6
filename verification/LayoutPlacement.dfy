/** Where the chat and the workspace are placed: one or two surfaces on top, at most one in the strip below. */
module LayoutPlacement {
  import opened CharClasses

  datatype SurfaceId = Chat | Workspace

  datatype RepositionTarget = TopLeft | TopRight | Bottom

  datatype Layout = Layout(
    top: seq<SurfaceId>,
    bottom: Option<SurfaceId>,
    topFlex: map<SurfaceId, real>,
    vTop: real,
    vBottom: real)

  function Without(top: seq<SurfaceId>, s: SurfaceId): seq<SurfaceId> {
    if top == [] then []
    else if top[0] == s then Without(top[1..], s)
    else [top[0]] + Without(top[1..], s)
  }

  function InsertTop(top: seq<SurfaceId>, s: SurfaceId): seq<SurfaceId> {
    if s == Chat then [Chat] + Without(top, Chat) else top + [s]
  }

  function PlaceInLayout(l: Layout, s: SurfaceId): Layout {
    if s in l.top || l.bottom == Some(s) then l
    else if s == Chat then
      if |l.top| >= 2 && l.bottom.None? then
        l.(top := InsertTop(l.top[..|l.top| - 1], Chat), bottom := Some(l.top[|l.top| - 1]))
      else l.(top := InsertTop(l.top, Chat))
    else if |l.top| < 2 then l.(top := InsertTop(l.top, s))
    else if l.bottom.None? then l.(bottom := Some(s))
    else l
  }

  function RemoveSurface(l: Layout, s: SurfaceId): Layout {
    var top := Without(l.top, s);
    var bottom := if l.bottom == Some(s) then None else l.bottom;
    var promote := bottom.Some? && |top| < 2;
    var top' := if promote then InsertTop(top, bottom.value) else top;
    l.(top := if top' == [] then [Chat] else top', bottom := if promote then None else bottom)
  }

  function RepositionInLayout(l: Layout, s: SurfaceId, target: RepositionTarget): Layout {
    var top := Without(l.top, s);
    var bottom := if l.bottom == Some(s) then None else l.bottom;
    if target == Bottom then
      if s == Chat then l
      else
        var top' := if bottom.Some? then InsertTop(top, bottom.value) else top;
        l.(top := if top' == [] then [Chat] else top', bottom := Some(s))
    else
      l.(top := if target == TopLeft then [s] + top else top + [s], bottom := bottom)
  }

  predicate LayoutCanSplit(l: Layout) {
    Workspace !in l.top && l.bottom != Some(Workspace)
  }

  function LitSurfaceCount(l: Layout): nat {
    |l.top| + if l.bottom.Some? then 1 else 0
  }

  predicate IsLit(l: Layout, s: SurfaceId) {
    s in l.top || l.bottom == Some(s)
  }

  predicate IsSurfaceFloor(l: Layout, s: SurfaceId) {
    IsLit(l, s) && LitSurfaceCount(l) == 1
  }

  /** One or two distinct surfaces on top, chat never in the strip, nothing placed twice. */
  predicate ValidLayout(l: Layout) {
    && 1 <= |l.top| <= 2 && (|l.top| == 2 ==> l.top[0] != l.top[1])
    && l.bottom != Some(Chat)
    && (l.bottom.Some? ==> l.bottom.value !in l.top)
  }

  /** The arrangements there are. */
  lemma ValidLayouts(l: Layout)
    ensures ValidLayout(l) <==>
      || ((l.top == [Chat] || l.top == [Workspace]) && l.bottom == None)
      || ((l.top == [Chat, Workspace] || l.top == [Workspace, Chat]) && l.bottom == None)
      || (l.top == [Chat] && l.bottom == Some(Workspace))
  {
    if ValidLayout(l) {
      if l.bottom.Some? {
        var b := l.bottom.value;
        assert b == Chat || b == Workspace;
      }
      assert l.top[0] == Chat || l.top[0] == Workspace;
      if |l.top| == 1 {
        assert l.top == [l.top[0]];
      } else {
        assert l.top == [l.top[0], l.top[1]];
        assert l.top[1] == Chat || l.top[1] == Workspace;
      }
    }
  }

  lemma WithoutSmall(top: seq<SurfaceId>, s: SurfaceId)
    ensures |top| == 0 ==> Without(top, s) == []
    ensures |top| == 1 ==> Without(top, s) == if top[0] == s then [] else top
    ensures |top| == 2 ==>
      Without(top, s) == (if top[0] == s then [] else [top[0]]) + if top[1] == s then [] else [top[1]]
  {
    if |top| == 1 {
      assert top[1..] == [] && top == [top[0]];
    } else if |top| == 2 {
      assert top[1..] == [top[1]];
      WithoutSmall(top[1..], s);
    }
  }

  lemma PlaceKeepsValid(l: Layout, s: SurfaceId)
    requires ValidLayout(l)
    ensures ValidLayout(PlaceInLayout(l, s)) && IsLit(PlaceInLayout(l, s), s)
  {
    hide Without;
    ValidLayouts(l);
    WithoutSmall(l.top, Chat);
    if |l.top| == 2 {
      WithoutSmall(l.top[..1], Chat);
    }
  }

  lemma RemoveKeepsValid(l: Layout, s: SurfaceId)
    requires ValidLayout(l)
    ensures ValidLayout(RemoveSurface(l, s))
    ensures !IsSurfaceFloor(l, s) ==> !IsLit(RemoveSurface(l, s), s)
  {
    hide Without;
    ValidLayouts(l);
    WithoutSmall(l.top, s);
    WithoutSmall(Without(l.top, s), Chat);
  }

  /** Every reposition is legal and puts the surface where it was dropped; the chat is never put in the strip. */
  lemma RepositionKeepsValid(l: Layout, s: SurfaceId, target: RepositionTarget)
    requires ValidLayout(l)
    ensures var r := RepositionInLayout(l, s, target);
            && ValidLayout(r)
            && (target == TopLeft ==> r.top[0] == s) && (target == TopRight ==> r.top[|r.top| - 1] == s)
            && (target == Bottom ==> if s == Chat then r == l else r.bottom == Some(s))
  {
    hide Without;
    ValidLayouts(l);
    WithoutSmall(l.top, s);
    WithoutSmall(Without(l.top, s), Chat);
  }

  /** What is lit stays lit, unless it is what is removed. */
  lemma OthersStayLit(l: Layout, s: SurfaceId, other: SurfaceId)
    requires ValidLayout(l) && other != s && IsLit(l, other)
    ensures IsLit(RemoveSurface(l, s), other) && IsLit(PlaceInLayout(l, s), other)
  {
    hide Without;
    ValidLayouts(l);
    WithoutSmall(l.top, s);
    WithoutSmall(l.top, Chat);
  }

  // ----- the exact arrangement

  function Other(s: SurfaceId): SurfaceId {
    if s == Chat then Workspace else Chat
  }

  /** Placed beside each other, the chat is on the left; the weights of a drag stay. */
  lemma PlacedWhere(l: Layout, s: SurfaceId)
    requires ValidLayout(l)
    ensures PlaceInLayout(l, s) == if IsLit(l, s) then l else l.(top := [Chat, Workspace], bottom := None)
  {
    hide Without;
    ValidLayouts(l);
    WithoutSmall(l.top, Chat);
  }

  /** What is left has the row to itself; the chat comes back where nothing is left. */
  lemma RemovedLeaves(l: Layout, s: SurfaceId)
    requires ValidLayout(l)
    ensures RemoveSurface(l, s) == l.(top := [if IsLit(l, Other(s)) then Other(s) else Chat], bottom := None)
  {
    hide Without;
    ValidLayouts(l);
    WithoutSmall(l.top, s);
    WithoutSmall(Without(l.top, s), Chat);
  }

  /** A surface dropped on the row stands on its side of what is there; under the workspace's strip is the chat. */
  lemma RepositionedWhere(l: Layout, s: SurfaceId, target: RepositionTarget)
    requires ValidLayout(l)
    ensures var other := Other(s);
            var r := RepositionInLayout(l, s, target);
            match target
            case Bottom => r == if s == Chat then l else l.(top := [Chat], bottom := Some(Workspace))
            case TopLeft =>
              r == l.(top := [s] + if other in l.top then [other] else [],
                      bottom := if l.bottom == Some(other) then l.bottom else None)
            case TopRight =>
              r == l.(top := (if other in l.top then [other] else []) + [s],
                      bottom := if l.bottom == Some(other) then l.bottom else None)
  {
    hide Without;
    ValidLayouts(l);
    WithoutSmall(l.top, s);
    WithoutSmall(Without(l.top, s), Chat);
  }

  /** A surface may be hidden by a click exactly when the other one is lit too. */
  lemma FloorIff(l: Layout, s: SurfaceId)
    requires ValidLayout(l)
    ensures IsSurfaceFloor(l, s) <==> IsLit(l, s) && !IsLit(l, Other(s))
    ensures LayoutCanSplit(l) <==> !IsLit(l, Workspace)
  {
    ValidLayouts(l);
  }

  /** The side a system move remembers. */
  function SideOf(l: Layout): RepositionTarget
    requires l.top != []
  {
    if l.top[0] == Workspace then TopLeft else TopRight
  }

  /** Parking the workspace for a chat split and restoring it is the identity exactly when the chat is lit. */
  lemma SplitAndRestore(l: Layout)
    requires ValidLayout(l) && Workspace in l.top
    ensures RepositionInLayout(RepositionInLayout(l, Workspace, Bottom), Workspace, SideOf(l)) == l <==> IsLit(l, Chat)
  {
    hide Without;
    ValidLayouts(l);
    WithoutSmall(l.top, Workspace);
    WithoutSmall(RepositionInLayout(l, Workspace, Bottom).top, Workspace);
  }
}
