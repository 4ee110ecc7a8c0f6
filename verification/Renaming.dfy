/** Renaming a variable in a text: what it does to references, to rendering, and when it can be undone. */
module Renaming {
  import opened CharClasses
  import opened VariableText
  import opened Extraction
  import opened Rewriting

  function RenameRef(r: Ref, oldName: string, newName: string): Ref {
    if r.body.name == oldName then r.(body := r.body.(name := newName)) else r
  }

  function RenameToks(toks: seq<Tok>, oldName: string, newName: string): seq<Tok> {
    if toks == [] then []
    else [match toks[0] case Chr(c) => Chr(c) case Var(r) => Var(RenameRef(r, oldName, newName))]
         + RenameToks(toks[1..], oldName, newName)
  }

  ghost function Renamer(oldName: string, newName: string): Ref -> string {
    (r: Ref) => PrintRef(RenameRef(r, oldName, newName))
  }

  ghost function Renamed(text: string, oldName: string, newName: string): string {
    Subst(Lex(text, true), Renamer(oldName, newName))
  }

  ghost predicate Mentions(text: string, name: string) {
    exists v :: v in Refs(text) && v.ref.body.name == name
  }

  /** Rewrites every reference to `oldName`, each in the spelling it already used. */
  method RenameVariableRefs(text: string, oldName: string, newName: string) returns (out: string)
    ensures out == Renamed(text, oldName, newName)
  {
    hide Fits, Splice, Selected, Renamed, Refs, BodyText, IsRefOf, Renamer;
    var all := ExtractVariableRefs(text);
    var keep := (r: Ref) => r.body.name == oldName;
    var refs := Selected(all, keep);
    ghost var f := Renamer(oldName, newName);
    RenamedIsSplice(text, keep, oldName, newName);
    assert refs[0..] == refs;
    out := "";
    var cursor: nat := 0;
    for k := 0 to |refs|
      invariant Fits(text, refs[k..], cursor)
      invariant out + Splice(text, refs[k..], cursor, f) == Splice(text, refs, 0, f)
    {
      var ref := refs[k];
      SelectedSatisfies(all, keep, ref);
      SpliceNext(text, refs, k, cursor, f);
      var body := BodyText(Body(newName, ref.ref.body.path));
      RespelledRef(ref.ref, oldName, newName);
      out := out + text[cursor..ref.start] + (if ref.ref.delimited then "${" + body + "}" else "$" + body);
      cursor := ref.end;
    }
    assert refs[|refs|..] == [];
    SpliceEnds(text, refs[|refs|..], cursor, f);
    out := out + text[cursor..];
  }

  lemma RenamedIsSplice(text: string, keep: Ref -> bool, oldName: string, newName: string)
    requires forall r: Ref :: keep(r) <==> r.body.name == oldName
    ensures var refs := Selected(Refs(text), keep);
            Fits(text, refs, 0) && Splice(text, refs, 0, Renamer(oldName, newName)) == Renamed(text, oldName, newName)
  {
    hide Fits, Splice, Selected, Subst, Lex, RefsFrom, PrintRef, RenameRef, Renamer;
    SpliceIsSubst(text, 0, keep, Renamer(oldName, newName));
    assert text[0..] == text;
    OthersUntouched(Lex(text, true), keep, oldName, newName);
  }

  lemma OthersUntouched(toks: seq<Tok>, keep: Ref -> bool, oldName: string, newName: string)
    requires forall r: Ref :: keep(r) <==> r.body.name == oldName
    ensures Subst(toks, Choosing(keep, Renamer(oldName, newName))) == Subst(toks, Renamer(oldName, newName))
  {
    hide PrintRef, Subst;
    SameSubst(toks, Choosing(keep, Renamer(oldName, newName)), Renamer(oldName, newName));
  }

  lemma RespelledRef(r: Ref, oldName: string, newName: string)
    requires r.body.name == oldName
    ensures var body := BodyText(Body(newName, r.body.path));
            Renamer(oldName, newName)(r) == if r.delimited then "${" + body + "}" else "$" + body
  {
  }

  lemma SpliceNext(text: string, refs: seq<VariableRef>, k: nat, cursor: nat, f: Ref -> string)
    requires k < |refs| && Fits(text, refs[k..], cursor)
    ensures cursor <= refs[k].start <= refs[k].end <= |text| && Fits(text, refs[k + 1..], refs[k].end)
    ensures Splice(text, refs[k..], cursor, f)
            == text[cursor..refs[k].start] + f(refs[k].ref) + Splice(text, refs[k + 1..], refs[k].end, f)
  {
    hide Fits, Splice;
    assert refs[k..] == [refs[k]] + refs[k + 1..];
    FitsCons(text, refs[k], refs[k + 1..], cursor);
    SpliceCons(text, refs[k], refs[k + 1..], cursor, f);
  }

  lemma SpliceEnds(text: string, refs: seq<VariableRef>, cursor: nat, f: Ref -> string)
    requires refs == [] && Fits(text, refs, cursor)
    ensures cursor <= |text| && Splice(text, refs, cursor, f) == text[cursor..]
  {
  }

  lemma {:induction false} SelectedSatisfies(refs: seq<VariableRef>, keep: Ref -> bool, v: VariableRef)
    requires v in Selected(refs, keep)
    ensures keep(v.ref) && v in refs
  {
    if !(keep(refs[0].ref) && v == refs[0]) {
      SelectedSatisfies(refs[1..], keep, v);
    }
  }

  // ----- the references of a renamed text

  lemma {:induction false} SubstRenamed(toks: seq<Tok>, oldName: string, newName: string)
    ensures Subst(toks, Renamer(oldName, newName)) == Print(RenameToks(toks, oldName, newName))
  {
    if toks != [] {
      SubstRenamed(toks[1..], oldName, newName);
      assert RenameToks(toks, oldName, newName)[1..] == RenameToks(toks[1..], oldName, newName);
    }
  }

  /** Renaming changes nothing up to the next reference. */
  lemma {:induction false} RenameUntilDollar(toks: seq<Tok>, oldName: string, newName: string)
    ensures UntilDollar(Print(RenameToks(toks, oldName, newName))) == UntilDollar(Print(toks))
  {
    if toks != [] {
      var rest, toks' := toks[1..], RenameToks(toks, oldName, newName);
      assert toks'[1..] == RenameToks(rest, oldName, newName);
      match toks[0] {
        case Chr(c) =>
          RenameUntilDollar(rest, oldName, newName);
          assert Print(toks)[1..] == Print(rest) && Print(toks')[1..] == Print(toks'[1..]);
        case Var(r) =>
          assert Print(toks)[0] == '$' && Print(toks')[0] == '$';
      }
    }
  }

  lemma {:induction false} RenameLexed(toks: seq<Tok>, opens: bool, oldName: string, newName: string)
    requires Lexed(toks, opens) && ValidName(newName)
    ensures Lexed(RenameToks(toks, oldName, newName), opens)
  {
    hide RefHead, StartsWithRef, UntilDollar, Absorbed;
    if toks != [] {
      var rest, toks' := toks[1..], RenameToks(toks, oldName, newName);
      var s, s' := Print(toks), Print(toks');
      assert toks'[1..] == RenameToks(rest, oldName, newName);
      RenameUntilDollar(rest, oldName, newName);
      match toks[0] {
        case Chr(c) =>
          assert s[1..] == Print(rest) && s'[1..] == Print(toks'[1..]);
          RefHeadLocal(s, s', opens);
          RenameLexed(rest, IsSpace(c), oldName, newName);
        case Var(r) =>
          assert s == PrintRef(r) + Print(rest);
          assert s' == PrintRef(RenameRef(r, oldName, newName)) + Print(toks'[1..]);
          RenamedStarts(r, opens, Print(rest), Print(toks'[1..]), oldName, newName);
          RenameLexed(rest, false, oldName, newName);
      }
    }
  }

  lemma RenamedStarts(r: Ref, opens: bool, u: string, u': string, oldName: string, newName: string)
    requires StartsWithRef(PrintRef(r) + u, opens, r) && ValidName(newName) && UntilDollar(u') == UntilDollar(u)
    ensures var r' := RenameRef(r, oldName, newName); StartsWithRef(PrintRef(r') + u', opens, r')
  {
    var r' := RenameRef(r, oldName, newName);
    assert (PrintRef(r) + u)[|PrintRef(r)|..] == u;
    AbsorbedLocal(u);
    AbsorbedLocal(u');
    StartsWithPrinted(PrintRef(r') + u', opens, r', u');
  }

  /** Reading a renamed text gives the tokens of the text, renamed: nothing appears, vanishes or grows. */
  lemma RenamedReads(text: string, oldName: string, newName: string)
    requires ValidName(newName)
    ensures Lex(Renamed(text, oldName, newName), true) == RenameToks(Lex(text, true), oldName, newName)
  {
    var toks := Lex(text, true);
    LexPrints(text, true);
    SubstRenamed(toks, oldName, newName);
    RenameLexed(toks, true, oldName, newName);
    LexOfPrinted(RenameToks(toks, oldName, newName), true);
  }

  /** The references of a text are the reference tokens it reads as. */
  lemma {:induction false} LexMentions(text: string, i: nat, r: Ref)
    requires i <= |text|
    ensures Var(r) in Lex(text[i..], OpensRef(text, i)) <==> exists v :: v in RefsFrom(text, i) && v.ref == r
    decreases |text| - i
  {
    hide RefAt, Lex, OpensRef, RefsFrom, PrintRef, IsRefOf;
    if i == |text| {
      NoRefsAtEnd(text);
      LexAtEnd(text);
    } else if RefAt(text, i).None? {
      RefsFromStep(text, i);
      LexChar(text, i);
      LexMentions(text, i + 1, r);
    } else {
      var h := RefAt(text, i).value;
      var v := VariableRef(h, i, i + |PrintRef(h)|);
      RefsFromStep(text, i);
      LexRef(text, i, v.end);
      LexMentions(text, v.end, r);
      if exists w :: w in RefsFrom(text, v.end) && w.ref == r {
        var w :| w in RefsFrom(text, v.end) && w.ref == r;
        assert w in RefsFrom(text, i);
      }
      assert v in RefsFrom(text, i);
    }
  }

  lemma LexAtEnd(text: string)
    ensures Lex(text[|text|..], OpensRef(text, |text|)) == []
  {
  }

  function Occurrences(toks: seq<Tok>, name: string): nat {
    if toks == [] then 0
    else (if toks[0].Var? && toks[0].ref.body.name == name then 1 else 0) + Occurrences(toks[1..], name)
  }

  lemma {:induction false} OccursIffIn(toks: seq<Tok>, name: string)
    ensures Occurrences(toks, name) > 0 <==> exists r :: Var(r) in toks && r.body.name == name
  {
    if toks != [] {
      OccursIffIn(toks[1..], name);
      if Occurrences(toks[1..], name) > 0 {
        var r :| Var(r) in toks[1..] && r.body.name == name;
        assert Var(r) in toks;
      } else if Occurrences(toks, name) > 0 {
        assert Var(toks[0].ref) in toks;
      }
    }
  }

  lemma MentionsIffOccurs(text: string, name: string)
    ensures Mentions(text, name) <==> Occurrences(Lex(text, true), name) > 0
  {
    hide Lex, RefsFrom, Occurrences;
    assert text[0..] == text;
    OccursIffIn(Lex(text, true), name);
    if Mentions(text, name) {
      var v :| v in Refs(text) && v.ref.body.name == name;
      LexMentions(text, 0, v.ref);
    }
    if Occurrences(Lex(text, true), name) > 0 {
      var r :| Var(r) in Lex(text, true) && r.body.name == name;
      LexMentions(text, 0, r);
    }
  }

  // ----- renaming preserves meaning

  ghost function RenameKey<V>(values: map<string, V>, oldName: string, newName: string): map<string, V>
    requires oldName in values
  {
    (values - {oldName})[newName := values[oldName]]
  }

  lemma {:induction false} SubstOfRenamed(
    toks: seq<Tok>, oldName: string, newName: string, f: Ref -> string, g: Ref -> string)
    requires Occurrences(toks, newName) == 0
    requires forall r: Ref :: r.body.name != newName ==> g(RenameRef(r, oldName, newName)) == f(r)
    ensures Subst(RenameToks(toks, oldName, newName), g) == Subst(toks, f)
  {
    if toks != [] {
      SubstOfRenamed(toks[1..], oldName, newName, f, g);
      assert RenameToks(toks, oldName, newName)[1..] == RenameToks(toks[1..], oldName, newName);
    }
  }

  /**
   * For a legal new name that the text does not mention and `values` does not
   * define, a renamed text renders, under the renamed values, as before.
   */
  lemma RenamingPreservesRendering<V>(
    text: string, oldName: string, newName: string, values: map<string, V>, show: (V, seq<string>) -> string)
    requires ValidName(newName) && !Mentions(text, newName) && newName !in values && oldName in values
    ensures Rendered(Renamed(text, oldName, newName), RenameKey(values, oldName, newName), show)
            == Rendered(text, values, show)
  {
    hide Lex, Mentions, Subst;
    var toks, values' := Lex(text, true), RenameKey(values, oldName, newName);
    MentionsIffOccurs(text, newName);
    RenamedReads(text, oldName, newName);
    SubstOfRenamed(toks, oldName, newName, Rendering(values, show), Rendering(values', show));
  }

  // ----- renaming back

  lemma {:induction false} RenameBackToks(toks: seq<Tok>, oldName: string, newName: string)
    requires oldName == newName || Occurrences(toks, newName) == 0
    ensures RenameToks(RenameToks(toks, oldName, newName), newName, oldName) == toks
  {
    if toks != [] {
      RenameBackToks(toks[1..], oldName, newName);
      assert RenameToks(toks, oldName, newName)[1..] == RenameToks(toks[1..], oldName, newName);
      assert toks == [toks[0]] + toks[1..];
    }
  }

  function BackRef(r: Ref, oldName: string, newName: string): Ref {
    RenameRef(RenameRef(r, oldName, newName), newName, oldName)
  }

  lemma BackBody(r: Ref, oldName: string, newName: string)
    ensures var b := BackRef(r, oldName, newName);
            b == r.(body := r.body.(name := if r.body.name == newName then oldName else r.body.name))
  {
  }

  lemma BackRefLength(r: Ref, oldName: string, newName: string)
    ensures |PrintRef(BackRef(r, oldName, newName))|
            == |PrintRef(r)| + (if r.body.name == newName then |oldName| - |newName| else 0)
  {
    hide DotPath, BackRef;
    BackBody(r, oldName, newName);
  }

  lemma BackRefSame(r: Ref, oldName: string, newName: string)
    requires r.body.name == newName && |oldName| == |newName|
    requires PrintRef(BackRef(r, oldName, newName)) == PrintRef(r)
    ensures oldName == newName
  {
    hide DotPath, BackRef;
    BackBody(r, oldName, newName);
    var k := if r.delimited then 2 else 1;
    var p := PrintRef(r);
    var q := PrintRef(BackRef(r, oldName, newName));
    assert p[k..k + |newName|] == newName;
    assert q[k..k + |oldName|] == oldName;
  }

  function BackToks(toks: seq<Tok>, oldName: string, newName: string): seq<Tok> {
    RenameToks(RenameToks(toks, oldName, newName), newName, oldName)
  }

  lemma BackStep(toks: seq<Tok>, oldName: string, newName: string)
    requires toks != []
    ensures Print(BackToks(toks, oldName, newName)) ==
            (match toks[0] case Chr(c) => [c] case Var(r) => PrintRef(BackRef(r, oldName, newName)))
            + Print(BackToks(toks[1..], oldName, newName))
  {
    hide PrintRef;
    var once := RenameToks(toks, oldName, newName);
    assert once[1..] == RenameToks(toks[1..], oldName, newName);
    assert BackToks(toks, oldName, newName)[1..] == BackToks(toks[1..], oldName, newName);
  }

  /** There and back, every `newName` has become `oldName`: the text grows or shrinks with the names. */
  lemma {:induction false} BackLength(toks: seq<Tok>, oldName: string, newName: string)
    ensures var n, m := |Print(BackToks(toks, oldName, newName))|, |Print(toks)|;
            && (|oldName| == |newName| ==> n == m)
            && (|oldName| > |newName| ==> n >= m && (Occurrences(toks, newName) > 0 ==> n > m))
            && (|oldName| < |newName| ==> n <= m && (Occurrences(toks, newName) > 0 ==> n < m))
  {
    hide PrintRef, BackToks, BackRef;
    if toks == [] {
      BackNothing(oldName, newName);
    } else {
      BackLength(toks[1..], oldName, newName);
      BackStep(toks, oldName, newName);
      if toks[0].Var? {
        BackRefLength(toks[0].ref, oldName, newName);
      }
    }
  }

  lemma BackNothing(oldName: string, newName: string)
    ensures BackToks([], oldName, newName) == []
  {
  }

  lemma {:induction false} BackSame(toks: seq<Tok>, oldName: string, newName: string)
    requires |oldName| == |newName| && oldName != newName
    requires Print(BackToks(toks, oldName, newName)) == Print(toks)
    ensures Occurrences(toks, newName) == 0
  {
    hide PrintRef, BackToks, BackRef;
    if toks != [] {
      BackStep(toks, oldName, newName);
      var rest := Print(BackToks(toks[1..], oldName, newName));
      match toks[0] {
        case Chr(c) =>
          Cancel([c], rest, [c], Print(toks[1..]));
        case Var(r) =>
          BackRefLength(r, oldName, newName);
          Cancel(PrintRef(BackRef(r, oldName, newName)), rest, PrintRef(r), Print(toks[1..]));
          if r.body.name == newName {
            BackRefSame(r, oldName, newName);
          }
      }
      BackSame(toks[1..], oldName, newName);
    }
  }

  lemma Cancel(a: string, b: string, c: string, d: string)
    requires a + b == c + d && |a| == |c|
    ensures a == c && b == d
  {
    assert a == (a + b)[..|a|] && c == (c + d)[..|a|];
    assert b == (a + b)[|a|..] && d == (c + d)[|a|..];
  }

  /** Renaming back restores the text exactly when it did not mention the new name already. */
  lemma RenamingBack(text: string, oldName: string, newName: string)
    requires ValidName(newName)
    ensures Renamed(Renamed(text, oldName, newName), newName, oldName) == text
            <==> oldName == newName || !Mentions(text, newName)
  {
    hide Lex, Mentions, Subst;
    var toks := Lex(text, true);
    LexPrints(text, true);
    MentionsIffOccurs(text, newName);
    RenamedReads(text, oldName, newName);
    SubstRenamed(RenameToks(toks, oldName, newName), newName, oldName);
    if oldName == newName || !Mentions(text, newName) {
      RenameBackToks(toks, oldName, newName);
    } else {
      BackLength(toks, oldName, newName);
      if |oldName| == |newName| && Print(BackToks(toks, oldName, newName)) == text {
        BackSame(toks, oldName, newName);
      }
    }
  }
}
