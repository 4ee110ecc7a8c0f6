/** Finding the references of a text. */
module Extraction {
  import opened CharClasses
  import opened VariableText

  // ----- extraction

  function RefAt(text: string, i: nat): Option<Ref>
    requires i <= |text|
  {
    RefHead(text[i..], OpensRef(text, i))
  }

  /** Every reference that starts at or after `i`, trying every index in turn. */
  ghost function RefsFrom(text: string, i: nat): seq<VariableRef>
    requires i <= |text|
    decreases |text| - i
  {
    if i == |text| then []
    else
      match RefAt(text, i)
      case None => RefsFrom(text, i + 1)
      case Some(r) => [VariableRef(r, i, i + |PrintRef(r)|)] + RefsFrom(text, i + 1)
  }

  ghost function Refs(text: string): seq<VariableRef> {
    RefsFrom(text, 0)
  }

  lemma RefAtIsRefOf(text: string, v: VariableRef)
    ensures (v.start < |text| && RefAt(text, v.start) == Some(v.ref) && v.end == v.start + |PrintRef(v.ref)|)
            <==> IsRefOf(text, v)
  {
    hide RefHead;
    if v.start < |text| && RefAt(text, v.start) == Some(v.ref) && v.end == v.start + |PrintRef(v.ref)| {
      ReadIsGrammatical(text[v.start..], OpensRef(text, v.start));
      assert text[v.start..v.end] == text[v.start..][..|PrintRef(v.ref)|];
    }
    if IsRefOf(text, v) {
      ReadsGrammatical(text[v.start..], OpensRef(text, v.start), v.ref);
    }
  }

  /** The reference at an index comes first among those from there on. */
  lemma RefsFromHead(text: string, i: nat, v: VariableRef)
    requires i < |text|
    ensures v in RefsFrom(text, i) <==> (v.start == i && IsRefOf(text, v)) || v in RefsFrom(text, i + 1)
  {
    hide RefAt, IsRefOf, PrintRef;
    RefAtIsRefOf(text, v);
  }

  predicate Ascending(refs: seq<VariableRef>) {
    forall a, b :: 0 <= a < b < |refs| ==> refs[a].start < refs[b].start
  }

  lemma AscendingCons(v: VariableRef, refs: seq<VariableRef>)
    requires Ascending(refs) && forall u :: u in refs ==> v.start < u.start
    ensures Ascending([v] + refs)
  {
    assert forall b :: 0 <= b < |refs| ==> refs[b] in refs;
  }

  lemma {:induction false} RefsFromAre(text: string, i: nat)
    requires i <= |text|
    ensures forall v :: v in RefsFrom(text, i) <==> i <= v.start && IsRefOf(text, v)
    ensures Ascending(RefsFrom(text, i))
    decreases |text| - i
  {
    hide RefAt, PrintRef, Ascending;
    if i < |text| {
      var later := RefsFrom(text, i + 1);
      RefsFromAre(text, i + 1);
      if RefAt(text, i).Some? {
        AscendingCons(VariableRef(RefAt(text, i).value, i, i + |PrintRef(RefAt(text, i).value)|), later);
      }
      hide RefsFrom, IsRefOf;
      forall v ensures v in RefsFrom(text, i) <==> i <= v.start && IsRefOf(text, v) {
        RefsFromHead(text, i, v);
      }
    } else {
      NoneFromEnd(text);
    }
  }

  lemma NoneFromEnd(text: string)
    ensures Ascending(RefsFrom(text, |text|)) && forall v :: IsRefOf(text, v) ==> v.start < |text|
  {
    hide StartsWithRef;
  }

  /** Inside a reference there is no second `$`. */
  lemma NoDollarInside(text: string, v: VariableRef, k: nat)
    requires IsRefOf(text, v) && v.start < k < v.end
    ensures text[k] != '$'
  {
    RefNoDollar(v.ref);
    assert text[k] == PrintRef(v.ref)[1..][k - v.start - 1];
  }

  /**
   * Extraction returns exactly the references the grammar admits, left to right
   * and disjoint; each slice is the reference's own spelling, with one `$`.
   */
  lemma ExtractionMeetsGrammar(text: string)
    ensures forall v :: v in Refs(text) <==> IsRefOf(text, v)
    ensures forall a, b :: 0 <= a < b < |Refs(text)| ==> Refs(text)[a].end <= Refs(text)[b].start
    ensures forall v :: v in Refs(text) ==> v.start < v.end <= |text| && '$' !in text[v.start + 1..v.end]
  {
    hide RefsFrom, OpensRef, DotPath, StartsWithRef, ValidName;
    RefsFromAre(text, 0);
    var refs := Refs(text);
    forall a, b | 0 <= a < b < |refs| ensures refs[a].end <= refs[b].start {
      assert refs[a] in refs && refs[b] in refs;
      if refs[b].start < refs[a].end {
        NoDollarInside(text, refs[a], refs[b].start);
      }
    }
    forall v | v in refs ensures '$' !in text[v.start + 1..v.end] {
      forall k | v.start < k < v.end ensures text[k] != '$' {
        NoDollarInside(text, v, k);
      }
    }
  }

  lemma NoRefAt(text: string, i: nat)
    requires i < |text| && text[i] != '$'
    ensures RefAt(text, i).None?
  {
  }

  /** The reference at a `$`, by the body that follows it. */
  lemma RefAtDollar(text: string, i: nat)
    requires i < |text| && text[i] == '$'
    ensures i + 1 < |text| && text[i + 1] == '{' ==>
      RefAt(text, i) ==
        match BodyOf(text[i + 2..])
        case None => None
        case Some(b) =>
          var e := i + 2 + |BodyText(b)|;
          if e < |text| && text[e] == '}' then Some(Ref(b, true)) else None
    ensures !(i + 1 < |text| && text[i + 1] == '{') ==>
      RefAt(text, i) ==
        if !OpensRef(text, i) then None
        else
          match BodyOf(text[i + 1..])
          case None => None
          case Some(b) => Some(Ref(b, false))
  {
    hide BodyOf;
    assert text[i..][1..] == text[i + 1..];
    if i + 1 < |text| {
      assert text[i..][2..] == text[i + 2..];
    }
  }

  /** Skipping characters that open nothing skips no reference. */
  lemma {:induction false} SkipTo(text: string, i: nat, j: nat)
    requires i <= j <= |text| && forall k :: i <= k < j ==> text[k] != '$'
    ensures RefsFrom(text, i) == RefsFrom(text, j)
    decreases j - i
  {
    hide RefAt;
    if i < j {
      NoRefAt(text, i);
      SkipTo(text, i + 1, j);
    }
  }

  lemma RefsFromStep(text: string, i: nat)
    requires i < |text|
    ensures RefAt(text, i).None? ==> RefsFrom(text, i) == RefsFrom(text, i + 1)
    ensures RefAt(text, i).Some? ==>
      var v := VariableRef(RefAt(text, i).value, i, i + |PrintRef(RefAt(text, i).value)|);
      IsRefOf(text, v) && RefsFrom(text, i) == [v] + RefsFrom(text, v.end)
  {
    hide RefHead;
    if RefAt(text, i).Some? {
      var v := VariableRef(RefAt(text, i).value, i, i + |PrintRef(RefAt(text, i).value)|);
      RefAtIsRefOf(text, v);
      forall k | i < k < v.end ensures text[k] != '$' {
        NoDollarInside(text, v, k);
      }
      SkipTo(text, i + 1, v.end);
    }
  }

  lemma SegmentStep(text: string, i: nat)
    requires i < |text| && IsNameChar(text[i])
    ensures SegmentOf(text[i..]) == [text[i]] + SegmentOf(text[i + 1..])
  {
    assert text[i..][1..] == text[i + 1..];
  }

  lemma SegmentStops(text: string, i: nat)
    requires i == |text| || (i < |text| && !IsNameChar(text[i]))
    ensures SegmentOf(text[i..]) == ""
  {
  }

  method ScanPathSegment(text: string, from: nat) returns (end: nat)
    requires from <= |text|
    ensures end == from + |SegmentOf(text[from..])| <= |text|
    ensures text[from..end] == SegmentOf(text[from..])
  {
    hide SegmentOf;
    end := from;
    while end < |text| && IsNameChar(text[end])
      invariant from <= end <= |text|
      invariant SegmentOf(text[from..]) == text[from..end] + SegmentOf(text[end..])
    {
      SegmentStep(text, end);
      assert text[from..end] + [text[end]] == text[from..end + 1];
      end := end + 1;
    }
    SegmentStops(text, end);
  }

  method ScanName(text: string, from: nat) returns (end: nat)
    requires from <= |text|
    ensures end == from + |NameOf(text[from..])| <= |text|
    ensures text[from..end] == NameOf(text[from..])
  {
    if from >= |text| || !IsNameStart(text[from]) {
      return from;
    }
    end := ScanPathSegment(text, from);
  }

  /** One more segment of a path, or none. */
  lemma PathStep(text: string, end: nat)
    requires end < |text| && text[end] == '.'
    ensures var a := SegmentOf(text[end + 1..]);
            PathOf(text[end..]) == if a == "" then [] else [a] + PathOf(text[end + 1 + |a|..])
  {
    var a := SegmentOf(text[end + 1..]);
    assert text[end..][1..] == text[end + 1..];
    assert text[end..][1 + |a|..] == text[end + 1 + |a|..];
  }

  lemma PathStops(text: string, end: nat)
    requires end <= |text| && (end == |text| || text[end] != '.')
    ensures PathOf(text[end..]) == []
  {
  }

  lemma BodyAssembled(text: string, from: nat, nameEnd: nat)
    requires from < nameEnd <= |text| && NameOf(text[from..]) == text[from..nameEnd]
    ensures BodyOf(text[from..]) == Some(Body(text[from..nameEnd], PathOf(text[nameEnd..])))
  {
    hide NameOf, PathOf;
    assert text[from..][nameEnd - from..] == text[nameEnd..];
  }

  /** The body both spellings share, from `from`; `end == from` means that there is no name. */
  method ScanBody(text: string, from: nat) returns (body: Body, end: nat)
    requires from <= |text|
    ensures from <= end <= |text|
    ensures end == from <==> BodyOf(text[from..]).None?
    ensures end > from ==> BodyOf(text[from..]) == Some(body) && end == from + |BodyText(body)|
  {
    hide PathOf, SegmentOf, NameOf, DotPath;
    var nameEnd := ScanName(text, from);
    if nameEnd == from {
      return Body("", []), from;
    }
    BodyAssembled(text, from, nameEnd);
    var path: seq<string> := [];
    end := nameEnd;
    DotPathEmpty();
    ghost var rest := PathOf(text[nameEnd..]);
    while end < |text| && text[end] == '.'
      invariant nameEnd <= end <= |text|
      invariant rest == PathOf(text[end..])
      invariant PathOf(text[nameEnd..]) == path + rest
      invariant end == nameEnd + |DotPath(path)|
    {
      var segmentEnd := ScanPathSegment(text, end + 1);
      PathStep(text, end);
      if segmentEnd == end + 1 {
        break;
      }
      DotPathAppend(path, text[end + 1..segmentEnd]);
      path := path + [text[end + 1..segmentEnd]];
      end := segmentEnd;
      rest := PathOf(text[end..]);
    }
    if end == |text| || text[end] != '.' {
      PathStops(text, end);
    }
    assert path + [] == path;
    body := Body(text[from..nameEnd], path);
  }

  lemma DotPathEmpty()
    ensures DotPath([]) == ""
  {
  }

  lemma {:induction false} DotPathAppend(path: seq<string>, a: string)
    ensures DotPath(path + [a]) == DotPath(path) + "." + a
  {
    if path == [] {
      assert DotPath([a]) == "." + a + DotPath([]);
    } else {
      assert (path + [a])[1..] == path[1..] + [a];
      DotPathAppend(path[1..], a);
    }
  }

  lemma NoRefsAtEnd(text: string)
    ensures RefsFrom(text, |text|) == []
  {
  }

  method ExtractVariableRefs(text: string) returns (refs: seq<VariableRef>)
    ensures refs == Refs(text)
  {
    hide RefAt, BodyOf, RefsFrom, IsRefOf, OpensRef, DotPath;
    refs := [];
    NoRefsAtEnd(text);
    var i := 0;
    while i < |text|
      invariant i <= |text|
      invariant refs + RefsFrom(text, i) == Refs(text)
    {
      RefsFromStep(text, i);
      if text[i] != '$' {
        NoRefAt(text, i);
        i := i + 1;
        continue;
      }
      RefAtDollar(text, i);
      if i + 1 < |text| && text[i + 1] == '{' {
        var body, end := ScanBody(text, i + 2);
        if end == i + 2 || end >= |text| || text[end] != '}' {
          i := i + 1;
          continue;
        }
        refs := refs + [VariableRef(Ref(body, true), i, end + 1)];
        i := end + 1;
        continue;
      }
      if !OpensRef(text, i) {
        i := i + 1;
        continue;
      }
      var body, end := ScanBody(text, i + 1);
      if end == i + 1 {
        i := i + 1;
        continue;
      }
      refs := refs + [VariableRef(Ref(body, false), i, end)];
      i := end;
    }
  }
}
