/** Substituting text for references: what it does to the text read as tokens. */
module Rewriting {
  import opened CharClasses
  import opened VariableText
  import opened Extraction

  // ----- splicing is substitution

  function Selected(refs: seq<VariableRef>, keep: Ref -> bool): seq<VariableRef> {
    if refs == [] then []
    else if keep(refs[0].ref) then [refs[0]] + Selected(refs[1..], keep)
    else Selected(refs[1..], keep)
  }

  ghost predicate Fits(text: string, refs: seq<VariableRef>, cursor: nat) {
    && cursor <= |text|
    && (refs != [] ==> cursor <= refs[0].start <= refs[0].end <= |text| && Fits(text, refs[1..], refs[0].end))
  }

  /** The text from `cursor` on, with `f` written in the place of each reference. */
  ghost function Splice(text: string, refs: seq<VariableRef>, cursor: nat, f: Ref -> string): string
    requires Fits(text, refs, cursor)
  {
    if refs == [] then text[cursor..]
    else text[cursor..refs[0].start] + f(refs[0].ref) + Splice(text, refs[1..], refs[0].end, f)
  }

  lemma {:induction false} MoveCursor(text: string, refs: seq<VariableRef>, i: nat, j: nat, f: Ref -> string)
    requires i <= j && Fits(text, refs, j)
    ensures Fits(text, refs, i) && Splice(text, refs, i, f) == text[i..j] + Splice(text, refs, j, f)
  {
    if refs == [] {
      assert text[i..] == text[i..j] + text[j..];
    } else {
      var s := refs[0].start;
      assert text[i..s] == text[i..j] + text[j..s];
      Associate(text[i..j], text[j..s], f(refs[0].ref), Splice(text, refs[1..], refs[0].end, f));
    }
  }

  lemma Associate(a: string, b: string, c: string, d: string)
    ensures (a + b) + c + d == a + (b + c + d)
  {
  }

  ghost function Choosing(keep: Ref -> bool, f: Ref -> string): Ref -> string {
    (r: Ref) => if keep(r) then f(r) else PrintRef(r)
  }

  lemma {:induction false} SpliceIsSubst(text: string, i: nat, keep: Ref -> bool, f: Ref -> string)
    requires i <= |text|
    ensures var refs := Selected(RefsFrom(text, i), keep);
            Fits(text, refs, i) &&
            Splice(text, refs, i, f) == Subst(Lex(text[i..], OpensRef(text, i)), Choosing(keep, f))
    decreases |text| - i
  {
    hide RefAt, Lex, OpensRef, RefsFrom, Splice, Fits, Selected, Subst, PrintRef, IsRefOf, StartsWithRef;
    if i == |text| {
      AtEnd(text, keep, f);
      NoRefsAtEnd(text);
    } else if RefAt(text, i).None? {
      RefsFromStep(text, i);
      SpliceIsSubst(text, i + 1, keep, f);
      MoveCursor(text, Selected(RefsFrom(text, i + 1), keep), i, i + 1, f);
      LexChar(text, i);
      SubstCons(Chr(text[i]), Lex(text[i + 1..], OpensRef(text, i + 1)), Choosing(keep, f));
      assert text[i..i + 1] == [text[i]];
    } else {
      RefsFromStep(text, i);
      var r := RefAt(text, i).value;
      var end := i + |PrintRef(r)|;
      LexRef(text, i, end);
      SpliceIsSubst(text, end, keep, f);
      var v, refs := VariableRef(r, i, end), Selected(RefsFrom(text, end), keep);
      SelectedCons(v, RefsFrom(text, end), keep);
      SubstCons(Var(r), Lex(text[end..], OpensRef(text, end)), Choosing(keep, f));
      if keep(r) {
        SpliceCons(text, v, refs, i, f);
      } else {
        MoveCursor(text, refs, i, end, f);
      }
    }
  }

  lemma AtEnd(text: string, keep: Ref -> bool, f: Ref -> string)
    ensures var refs := Selected([], keep);
            Fits(text, refs, |text|) && Splice(text, refs, |text|, f) == ""
    ensures Subst(Lex(text[|text|..], OpensRef(text, |text|)), Choosing(keep, f)) == ""
  {
  }

  lemma SpliceCons(text: string, v: VariableRef, refs: seq<VariableRef>, cursor: nat, f: Ref -> string)
    requires cursor <= v.start <= v.end <= |text| && Fits(text, refs, v.end)
    ensures Fits(text, [v] + refs, cursor)
    ensures Splice(text, [v] + refs, cursor, f) == text[cursor..v.start] + f(v.ref) + Splice(text, refs, v.end, f)
  {
    assert ([v] + refs)[1..] == refs;
  }

  lemma SelectedCons(v: VariableRef, refs: seq<VariableRef>, keep: Ref -> bool)
    ensures Selected([v] + refs, keep) == if keep(v.ref) then [v] + Selected(refs, keep) else Selected(refs, keep)
  {
    assert ([v] + refs)[1..] == refs;
  }

  lemma SubstCons(t: Tok, toks: seq<Tok>, f: Ref -> string)
    ensures Subst([t] + toks, f) == (match t case Chr(c) => [c] case Var(r) => f(r)) + Subst(toks, f)
  {
    assert ([t] + toks)[1..] == toks;
  }

  lemma LexChar(text: string, i: nat)
    requires i < |text| && RefAt(text, i).None?
    ensures Lex(text[i..], OpensRef(text, i)) == [Chr(text[i])] + Lex(text[i + 1..], OpensRef(text, i + 1))
  {
    hide RefHead;
    assert text[i..][1..] == text[i + 1..];
  }

  lemma LexRef(text: string, i: nat, end: nat)
    requires i < |text| && RefAt(text, i).Some? && end == i + |PrintRef(RefAt(text, i).value)|
    ensures end <= |text| && text[i..end] == PrintRef(RefAt(text, i).value)
    ensures Lex(text[i..], OpensRef(text, i)) == [Var(RefAt(text, i).value)] + Lex(text[end..], OpensRef(text, end))
  {
    hide RefHead;
    var r := RefAt(text, i).value;
    ReadIsGrammatical(text[i..], OpensRef(text, i));
    StartSplits(text[i..], OpensRef(text, i), r);
    assert text[i..][..end - i] == text[i..end];
    assert text[i..][|PrintRef(r)|..] == text[end..];
    RefEndsSolid(r);
    assert text[end - 1] == PrintRef(r)[|PrintRef(r)| - 1];
  }

  lemma {:induction false} DotPathEndsSolid(path: seq<string>)
    requires ValidPath(path) && path != []
    ensures DotPath(path) != "" && IsNameChar(DotPath(path)[|DotPath(path)| - 1])
  {
    assert ValidSegment(path[0]);
    if |path| > 1 {
      DotPathEndsSolid(path[1..]);
    }
  }

  /** A printed reference does not end in white space. */
  lemma RefEndsSolid(r: Ref)
    requires ValidBody(r.body)
    ensures !IsSpace(PrintRef(r)[|PrintRef(r)| - 1])
  {
    if !r.delimited {
      if r.body.path != [] {
        DotPathEndsSolid(r.body.path);
      }
      assert IsNameChar(PrintRef(r)[|PrintRef(r)| - 1]);
    }
  }

  /** One turn of a splicing loop. */
  lemma SpliceStep(text: string, refs: seq<VariableRef>, k: nat, cursor: nat, keep: Ref -> bool, f: Ref -> string)
    requires k < |refs| && Fits(text, Selected(refs[k..], keep), cursor)
    ensures var v, now, later := refs[k], Selected(refs[k..], keep), Selected(refs[k + 1..], keep);
            if keep(v.ref) then
              && cursor <= v.start <= v.end <= |text| && Fits(text, later, v.end)
              && Splice(text, now, cursor, f) == text[cursor..v.start] + f(v.ref) + Splice(text, later, v.end, f)
            else now == later
  {
    hide Fits, Splice;
    var v, later := refs[k], refs[k + 1..];
    assert refs[k..] == [v] + later;
    SelectedCons(v, later, keep);
    if keep(v.ref) {
      FitsCons(text, v, Selected(later, keep), cursor);
      SpliceCons(text, v, Selected(later, keep), cursor, f);
    }
  }

  lemma FitsCons(text: string, v: VariableRef, refs: seq<VariableRef>, cursor: nat)
    requires Fits(text, [v] + refs, cursor)
    ensures cursor <= v.start <= v.end <= |text| && Fits(text, refs, v.end)
  {
    assert ([v] + refs)[1..] == refs;
  }

  lemma SpliceDone(text: string, refs: seq<VariableRef>, cursor: nat, keep: Ref -> bool, f: Ref -> string)
    requires Fits(text, Selected(refs[|refs|..], keep), cursor)
    ensures cursor <= |text| && Splice(text, Selected(refs[|refs|..], keep), cursor, f) == text[cursor..]
  {
  }

  // ----- rendering

  ghost function Rendering<V>(values: map<string, V>, show: (V, seq<string>) -> string): Ref -> string {
    (r: Ref) => if r.body.name in values then show(values[r.body.name], r.body.path) else PrintRef(r)
  }

  ghost function Known<V>(values: map<string, V>): Ref -> bool {
    (r: Ref) => r.body.name in values
  }

  /** What a text reads as under `values`; an unknown name stays as it is spelled. */
  ghost function Rendered<V>(text: string, values: map<string, V>, show: (V, seq<string>) -> string): string {
    Subst(Lex(text, true), Rendering(values, show))
  }

  /** `show` is the value found at a path, as text; empty where there is none. */
  method RenderVariableText<V>(text: string, values: map<string, V>, show: (V, seq<string>) -> string)
    returns (out: string)
    ensures out == Rendered(text, values, show)
  {
    hide Fits, Splice, Selected, Subst, Lex, RefsFrom;
    var refs := ExtractVariableRefs(text);
    ghost var keep, f := Known(values), Rendering(values, show);
    SpliceIsSubst(text, 0, keep, f);
    assert text[0..] == text && refs[0..] == refs;
    out := "";
    var cursor: nat := 0;
    for k := 0 to |refs|
      invariant Fits(text, Selected(refs[k..], keep), cursor)
      invariant out + Splice(text, Selected(refs[k..], keep), cursor, f) == Splice(text, Selected(refs, keep), 0, f)
    {
      var ref := refs[k];
      SpliceStep(text, refs, k, cursor, keep, f);
      if ref.ref.body.name !in values {
        continue;
      }
      out := out + text[cursor..ref.start] + show(values[ref.ref.body.name], ref.ref.body.path);
      cursor := ref.end;
    }
    SpliceDone(text, refs, cursor, keep, f);
    out := out + text[cursor..];
    SameSubst(Lex(text, true), Choosing(keep, f), Rendering(values, show));
  }

  lemma {:induction false} SameSubst(toks: seq<Tok>, f: Ref -> string, g: Ref -> string)
    requires forall r :: f(r) == g(r)
    ensures Subst(toks, f) == Subst(toks, g)
  {
    if toks != [] {
      SameSubst(toks[1..], f, g);
    }
  }
}
