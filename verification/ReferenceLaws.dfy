/** Each reference of a text is rendered, and each token written and read, on its own. */
module ReferenceLaws {
  import opened CharClasses
  import opened VariableText
  import opened Extraction
  import opened Rewriting
  import opened Automation
  import opened Naming
  import opened ChipConvert
  import opened ChipRoundTrip
  import opened ChipCanonical

  lemma {:induction false} SubstAppend(a: seq<Tok>, b: seq<Tok>, f: Ref -> string)
    ensures Subst(a + b, f) == Subst(a, f) + Subst(b, f)
  {
    if a == [] {
      assert a + b == b;
    } else {
      assert (a + b)[1..] == a[1..] + b;
      SubstAppend(a[1..], b, f);
    }
  }

  /** What a part of a text reads as under `values`, where a bare `$` opens a reference at its start or does not. */
  ghost function RenderedPart<V>(
    s: string, opens: bool, values: map<string, V>, show: (V, seq<string>) -> string): string
  {
    Subst(Lex(s, opens), Rendering(values, show))
  }

  lemma ReadsHere(text: string, v: VariableRef)
    requires IsRefOf(text, v)
    ensures UntilDollar(text[v.start..]) == ""
    ensures Lex(text[v.start..], OpensRef(text, v.start)) == [Var(v.ref)] + Lex(text[v.end..], false)
  {
    hide BodyText;
    var s, opens := text[v.start..], OpensRef(text, v.start);
    ReadsGrammatical(s, opens, v.ref);
    StartSplits(s, opens, v.ref);
    assert |PrintRef(v.ref)| == v.end - v.start;
    assert s[|PrintRef(v.ref)|..] == text[v.end..];
  }

  lemma OpensAtPrefix(text: string, i: nat)
    requires i <= |text|
    ensures OpensAfter(text[..i], true) == OpensRef(text, i)
  {
  }

  /**
   * A reference of a text is rendered on its own: as its value at its path, or as
   * it is spelled where its name has no value; and so is the text on its sides.
   */
  lemma ReferenceIsRendered<V>(
    text: string, v: VariableRef, values: map<string, V>, show: (V, seq<string>) -> string)
    requires IsRefOf(text, v)
    ensures Rendered(text, values, show)
            == Rendered(text[..v.start], values, show)
               + (if v.ref.body.name in values then show(values[v.ref.body.name], v.ref.body.path)
                  else text[v.start..v.end])
               + RenderedPart(text[v.end..], false, values, show)
  {
    hide Lex, UntilDollar, PrintRef, Subst, OpensAfter, StartsWithRef;
    var f := Rendering(values, show);
    ReadsHere(text, v);
    OpensAtPrefix(text, v.start);
    LexAppend(text[..v.start], text[v.start..], true);
    assert text == text[..v.start] + text[v.start..];
    SubstAppend(Lex(text[..v.start], true), [Var(v.ref)] + Lex(text[v.end..], false), f);
    SubstAppend([Var(v.ref)], Lex(text[v.end..], false), f);
    SubstOne(v.ref, f);
    Associate(Subst(Lex(text[..v.start], true), f), f(v.ref), Subst(Lex(text[v.end..], false), f), "");
    assert f(v.ref) + Subst(Lex(text[v.end..], false), f) + "" == f(v.ref) + Subst(Lex(text[v.end..], false), f);
  }

  lemma SubstOne(r: Ref, f: Ref -> string)
    ensures Subst([Var(r)], f) == f(r)
  {
    assert [Var(r)][1..] == [];
  }

  lemma {:induction false} NoneSelected(refs: seq<VariableRef>, keep: Ref -> bool)
    requires forall v :: v in refs ==> !keep(v.ref)
    ensures Selected(refs, keep) == []
  {
    if refs != [] {
      NoneSelected(refs[1..], keep);
    }
  }

  /** A text in which nothing refers to a value is rendered as it is. */
  lemma UnknownStays<V>(text: string, values: map<string, V>, show: (V, seq<string>) -> string)
    requires forall v :: IsRefOf(text, v) ==> v.ref.body.name !in values
    ensures Rendered(text, values, show) == text
  {
    hide Lex, Subst, RefsFrom, IsRefOf;
    var keep, f := Known(values), Rendering(values, show);
    ExtractionMeetsGrammar(text);
    NoneSelected(Refs(text), keep);
    SpliceIsSubst(text, 0, keep, f);
    assert text[0..] == text;
    SameSubst(Lex(text, true), Choosing(keep, f), f);
  }

  // ----- one token, written and read

  /** A token is written as one reference that may stand where it is written. */
  lemma TokenIsOneReference(token: TokenRef, ns: Namespace, opens: bool)
    requires Sound(ns) && ValidField(token.field)
    ensures var r := Ref(BodyFor(token, ns), !opens);
            && ValidBody(r.body) && Lex(PrintPart(Token(token), ns, opens), opens) == [Var(r)]
            && (ns.NameFor(token) == None ==> r.body.name == SanitizeVariableName(token.output))
            && (ns.NameFor(token).Some? ==> ns.NameFor(token) == Some(r.body.name))
            && token.field == if r.body.path == [] then None else Some(JoinPath(r.body.path))
  {
    hide Lex, BodyText, SanitizeVariableName, StartsWithRef;
    var r := Ref(BodyFor(token, ns), !opens);
    SanitizedIsValid(token.output);
    if token.field.Some? {
      JoinOfSplit(token.field.value);
    }
    assert ValidBody(r.body);
    var s := PrintRef(r);
    assert s == PrintRef(r) + "";
    StartsWithPrinted(s, opens, r, "");
    ReadsGrammatical(s, opens, r);
    LexFirst(s, opens);
    LexEmpty("", false);
    assert s[|s|..] == "";
  }

  /**
   * A token nothing in scope names any more is loaded as its sanitized output.
   * Saving gives that text back, unless something else in scope has that name by
   * now: then it gives a token of that.
   */
  lemma DanglingToken(token: TokenRef, ns: Namespace)
    requires Sound(ns) && ValidField(token.field) && ns.NameFor(token).None?
    ensures var name, path := SanitizeVariableName(token.output), FieldPath(token.field);
            Parts(PrintParts([Token(token)], ns, true), ns)
            == if name in ns.byName then [Token(TokenFor(ns.byName[name], path))]
               else [Lit(PrintRef(Ref(Body(name, path), false)))]
  {
    hide Lex, BodyText, PrintRef, SanitizeVariableName;
    TokenIsOneReference(token, ns, true);
    PrintToken(token, [], ns, true);
    PrintNothing(ns, OpensAfter(PrintPart(Token(token), ns, true), true));
    var r := Ref(BodyFor(token, ns), false);
    assert PrintParts([Token(token)], ns, true) == PrintPart(Token(token), ns, true) by {
      assert [Token(token)] + [] == [Token(token)];
      assert PrintRef(r) + "" == PrintRef(r);
    }
    PartsOfCons(Var(r), [], ns);
    assert [Var(r)] + [] == [Var(r)] && PartsOf([], ns) == [];
    PrintsSome(r);
    if r.body.name in ns.byName {
      var saved := Token(TokenFor(ns.byName[r.body.name], r.body.path));
      assert [saved] + [] == [saved];
    }
  }

  lemma PrintsSome(r: Ref)
    ensures PrintRef(r) != "" && Prepend(PrintRef(r), []) == [Lit(PrintRef(r))]
  {
  }
}
