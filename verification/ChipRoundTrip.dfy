/** When text survives a trip through structural parts, and when parts survive a trip through text. */
module ChipRoundTrip {
  import opened CharClasses
  import opened VariableText
  import opened Extraction
  import opened Rewriting
  import opened Automation
  import opened Naming
  import opened NamespaceLaws
  import opened ChipConvert

  /** What every built namespace is: well formed, with names that can be typed. */
  ghost predicate Sound(ns: Namespace) {
    WellFormed(ns) && forall n :: n in ns.byName ==> ValidName(n)
  }

  lemma BuiltIsSound(ds: seq<TokenDescriptor>)
    ensures Sound(Build(ds))
  {
    BuildIsWellFormed(ds);
    NamesAreValid(ds);
  }

  // ----- printing the parts of a text

  /** The reference that loading writes for a known one: the name its token has now, in the spelling of the place. */
  function Respelled(r: Ref, ns: Namespace, opens: bool): Ref
    requires r.body.name in ns.byName
  {
    Ref(BodyFor(TokenFor(ns.byName[r.body.name], r.body.path), ns), !opens)
  }

  lemma RespelledIsValid(r: Ref, ns: Namespace, opens: bool)
    requires Sound(ns) && r.body.name in ns.byName && ValidPath(r.body.path)
    ensures ValidBody(Respelled(r, ns, opens).body)
    ensures Respelled(r, ns, opens).body.path == r.body.path
    ensures ns.NameFor(ns.byName[r.body.name].ref) == Some(Respelled(r, ns, opens).body.name)
  {
    if r.body.path != [] {
      SplitOfJoin(r.body.path);
    }
    var d := ns.byName[r.body.name];
    assert Key(TokenFor(d, r.body.path)) == Key(d.ref);
  }

  lemma PrintLit(s: string, rest: ChipText, ns: Namespace, opens: bool)
    ensures PrintParts([Lit(s)] + rest, ns, opens) == s + PrintParts(rest, ns, OpensAfter(s, opens))
  {
    assert ([Lit(s)] + rest)[1..] == rest;
  }

  lemma PrependMerges(s: string, t: string, rest: ChipText)
    requires s != ""
    ensures Prepend(s, [Lit(t)] + rest) == [Lit(s + t)] + rest
  {
    assert ([Lit(t)] + rest)[1..] == rest;
  }

  lemma PrintMerged(s: string, t: string, rest: ChipText, ns: Namespace, opens: bool)
    requires s != ""
    ensures PrintParts(Prepend(s, [Lit(t)] + rest), ns, opens)
            == s + PrintParts([Lit(t)] + rest, ns, OpensAfter(s, opens))
  {
    hide PrintParts, OpensAfter, Prepend;
    PrependMerges(s, t, rest);
    PrintLit(s + t, rest, ns, opens);
    PrintLit(t, rest, ns, OpensAfter(s, opens));
    OpensAfterAppend(s, t, opens);
    var u := PrintParts(rest, ns, OpensAfter(t, OpensAfter(s, opens)));
    assert (s + t) + u == s + (t + u);
  }

  lemma PrintPrepend(s: string, parts: ChipText, ns: Namespace, opens: bool)
    ensures PrintParts(Prepend(s, parts), ns, opens) == s + PrintParts(parts, ns, OpensAfter(s, opens))
  {
    hide PrintParts, IsSpace;
    if s == "" {
    } else if parts != [] && parts[0].Lit? {
      assert parts == [Lit(parts[0].text)] + parts[1..];
      PrintMerged(s, parts[0].text, parts[1..], ns, opens);
    } else {
      PrintLit(s, parts, ns, opens);
    }
  }

  /** What the load direction makes of the tokens of a text: a known reference is respelled, the rest stays. */
  ghost function Reprint(toks: seq<Tok>, ns: Namespace, opens: bool): string {
    if toks == [] then ""
    else
      match toks[0]
      case Chr(c) => [c] + Reprint(toks[1..], ns, IsSpace(c))
      case Var(r) =>
        PrintRef(if r.body.name in ns.byName then Respelled(r, ns, opens) else r) + Reprint(toks[1..], ns, false)
  }

  lemma {:induction false} PartsReprint(toks: seq<Tok>, ns: Namespace, opens: bool)
    requires Sound(ns) && Lexed(toks, opens)
    ensures PrintParts(PartsOf(toks, ns), ns, opens) == Reprint(toks, ns, opens)
  {
    hide PrintRef, RefHead, BodyFor, PrintParts, Prepend, Absorbed, Sound;
    if toks == [] {
      PrintNothing(ns, opens);
    } else {
      var rest := PartsOf(toks[1..], ns);
      match toks[0] {
        case Chr(c) =>
          PartsReprint(toks[1..], ns, IsSpace(c));
          PrintPrepend([c], rest, ns, opens);
        case Var(r) =>
          PartsReprint(toks[1..], ns, false);
          if r.body.name in ns.byName {
            RespelledIsValid(r, ns, opens);
            SolidAfter(Respelled(r, ns, opens), opens);
            PrintToken(TokenFor(ns.byName[r.body.name], r.body.path), rest, ns, opens);
          } else {
            SolidAfter(r, opens);
            PrintPrepend(PrintRef(r), rest, ns, opens);
          }
      }
    }
  }

  lemma PrintNothing(ns: Namespace, opens: bool)
    ensures PrintParts([], ns, opens) == ""
  {
  }

  lemma PrintToken(token: TokenRef, rest: ChipText, ns: Namespace, opens: bool)
    ensures var s := PrintRef(Ref(BodyFor(token, ns), !opens));
            PrintParts([Token(token)] + rest, ns, opens) == s + PrintParts(rest, ns, OpensAfter(s, opens))
  {
    hide PrintRef, BodyFor;
    assert ([Token(token)] + rest)[1..] == rest;
  }

  lemma SolidAfter(r: Ref, opens: bool)
    requires ValidBody(r.body)
    ensures OpensAfter(PrintRef(r), opens) == false
  {
    RefEndsSolid(r);
  }

  // ----- when nothing is respelled

  /** Loading respells no known reference. */
  ghost predicate Exact(toks: seq<Tok>, ns: Namespace, opens: bool) {
    toks == [] ||
    match toks[0]
    case Chr(c) => Exact(toks[1..], ns, IsSpace(c))
    case Var(r) => (r.body.name in ns.byName ==> Respelled(r, ns, opens) == r) && Exact(toks[1..], ns, false)
  }

  /** Up to the next `$` a reprint is the text. */
  lemma {:induction false} ReprintUntilDollar(toks: seq<Tok>, ns: Namespace, opens: bool)
    ensures UntilDollar(Reprint(toks, ns, opens)) == UntilDollar(Print(toks))
  {
    hide BodyText, Respelled;
    if toks != [] && toks[0].Chr? {
      var c := toks[0].c;
      ReprintUntilDollar(toks[1..], ns, IsSpace(c));
      assert ([c] + Reprint(toks[1..], ns, IsSpace(c)))[1..] == Reprint(toks[1..], ns, IsSpace(c));
      assert ([c] + Print(toks[1..]))[1..] == Print(toks[1..]);
    }
  }

  /** One text cannot start with two references that are legal and longest there. */
  lemma SameReference(r: Ref, r': Ref, u: string, u': string, opens: bool)
    requires PrintRef(r) + u == PrintRef(r') + u' && ValidBody(r'.body) && r'.delimited == !opens
    requires StartsWithRef(PrintRef(r) + u, opens, r) && Absorbed(u) == Absorbed(u')
    ensures r == r' && u == u'
  {
    hide BodyText, Absorbed;
    var s := PrintRef(r) + u;
    ReadsGrammatical(s, opens, r);
    if r.delimited == r'.delimited {
      assert s[|PrintRef(r)|..] == u;
      StartsWithPrinted(s, opens, r', u');
      ReadsGrammatical(s, opens, r');
      assert s[|PrintRef(r')|..] == u';
    } else {
      BareOrBraced(r, u);
      BareOrBraced(r', u');
    }
  }

  lemma BareOrBraced(r: Ref, u: string)
    requires ValidBody(r.body)
    ensures |PrintRef(r) + u| > 1 && ((PrintRef(r) + u)[1] == '{' <==> r.delimited)
  {
  }

  lemma {:induction false} ReprintIsText(toks: seq<Tok>, ns: Namespace, opens: bool)
    requires Sound(ns) && Lexed(toks, opens)
    ensures Reprint(toks, ns, opens) == Print(toks) <==> Exact(toks, ns, opens)
  {
    hide RefHead, PrintRef, BodyText, Absorbed, Sound, Respelled, StartsWithRef;
    if toks != [] {
      match toks[0] {
        case Chr(c) =>
          ReprintIsText(toks[1..], ns, IsSpace(c));
          assert ([c] + Reprint(toks[1..], ns, IsSpace(c)))[1..] == Reprint(toks[1..], ns, IsSpace(c));
          assert ([c] + Print(toks[1..]))[1..] == Print(toks[1..]);
        case Var(r) =>
          var u, u' := Print(toks[1..]), Reprint(toks[1..], ns, false);
          ReprintIsText(toks[1..], ns, false);
          if r.body.name in ns.byName {
            if Reprint(toks, ns, opens) == Print(toks) {
              ReprintUntilDollar(toks[1..], ns, false);
              AbsorbedLocal(u);
              AbsorbedLocal(u');
              StartsValid(PrintRef(r) + u, opens, r);
              RespelledIsValid(r, ns, opens);
              BracedHere(r, ns, opens);
              SameReference(r, Respelled(r, ns, opens), u, u', opens);
            }
          } else {
            assert (PrintRef(r) + u)[|PrintRef(r)|..] == u && (PrintRef(r) + u')[|PrintRef(r)|..] == u';
          }
      }
    }
  }

  lemma StartsValid(s: string, opens: bool, r: Ref)
    requires StartsWithRef(s, opens, r)
    ensures ValidBody(r.body)
  {
  }

  lemma BracedHere(r: Ref, ns: Namespace, opens: bool)
    requires r.body.name in ns.byName
    ensures Respelled(r, ns, opens).delimited == !opens
  {
  }

  /** A known reference keeps its spelling: braces only where they are needed, and the name its token has now. */
  ghost predicate Kept(r: Ref, ns: Namespace, opens: bool) {
    r.body.name in ns.byName ==>
      !(opens && r.delimited) && ns.NameFor(ns.byName[r.body.name].ref) == Some(r.body.name)
  }

  lemma KeptIsRespelled(s: string, r: Ref, ns: Namespace, opens: bool)
    requires Sound(ns) && StartsWithRef(s, opens, r) && r.body.name in ns.byName
    ensures Kept(r, ns, opens) <==> Respelled(r, ns, opens) == r
  {
    hide Sound, PrintRef, BodyFor, Absorbed;
    RespelledIsValid(r, ns, opens);
  }

  /** The same condition, read off the references of the text. */
  ghost predicate AllKept(text: string, ns: Namespace) {
    forall v :: v in Refs(text) ==> v.start <= |text| && Kept(v.ref, ns, OpensRef(text, v.start))
  }

  lemma {:induction false} ExactIffKept(text: string, i: nat, ns: Namespace)
    requires i <= |text| && Sound(ns)
    ensures Exact(Lex(text[i..], OpensRef(text, i)), ns, OpensRef(text, i)) <==>
      forall v :: v in RefsFrom(text, i) ==> v.start <= |text| && Kept(v.ref, ns, OpensRef(text, v.start))
    decreases |text| - i
  {
    hide RefAt, Lex, RefsFrom, PrintRef, IsRefOf, Sound, Kept, Respelled;
    if i == |text| {
      NoRefsAtEnd(text);
      NothingToLex(text);
    } else if RefAt(text, i).None? {
      var rest := Lex(text[i + 1..], OpensRef(text, i + 1));
      RefsFromStep(text, i);
      LexChar(text, i);
      ExactIffKept(text, i + 1, ns);
      assert ([Chr(text[i])] + rest)[1..] == rest;
    } else {
      var r := RefAt(text, i).value;
      var v := VariableRef(r, i, i + |PrintRef(r)|);
      RefsFromStep(text, i);
      LexRef(text, i, v.end);
      NotAfterRef(text, v);
      ExactIffKept(text, v.end, ns);
      var rest := Lex(text[v.end..], OpensRef(text, v.end));
      assert ([Var(r)] + rest)[1..] == rest;
      var later := RefsFrom(text, v.end);
      assert forall w :: w in RefsFrom(text, i) <==> w == v || w in later;
      RefIsKept(text, v, ns);
    }
  }

  lemma RefIsKept(text: string, v: VariableRef, ns: Namespace)
    requires Sound(ns) && IsRefOf(text, v)
    ensures Kept(v.ref, ns, OpensRef(text, v.start)) <==>
            (v.ref.body.name in ns.byName ==> Respelled(v.ref, ns, OpensRef(text, v.start)) == v.ref)
  {
    hide Sound, StartsWithRef, Respelled, OpensRef;
    if v.ref.body.name in ns.byName {
      KeptIsRespelled(text[v.start..], v.ref, ns, OpensRef(text, v.start));
    }
  }

  lemma NothingToLex(text: string)
    ensures Lex(text[|text|..], OpensRef(text, |text|)) == []
  {
  }

  lemma NotAfterRef(text: string, v: VariableRef)
    requires IsRefOf(text, v)
    ensures !OpensRef(text, v.end)
  {
    hide PrintRef;
    RefEndsSolid(v.ref);
    assert text[v.end - 1] == text[v.start..v.end][v.end - v.start - 1];
  }

  /**
   * Text to parts and back is the identity exactly when every known reference is
   * bare where a bare `$` opens one, braced elsewhere, and named as `NameFor`
   * gives its token back. Unknown names survive as they are spelled.
   */
  lemma TextRoundTrip(text: string, ns: Namespace)
    requires Sound(ns)
    ensures PrintParts(Parts(text, ns), ns, true) == text <==> AllKept(text, ns)
  {
    hide Lex, RefsFrom, PrintParts, PartsOf, Sound, OpensRef, Kept;
    LexPrints(text, true);
    PartsReprint(Lex(text, true), ns, true);
    ReprintIsText(Lex(text, true), ns, true);
    OpensAtStart(text);
    ExactIffKept(text, 0, ns);
  }

  lemma OpensAtStart(text: string)
    ensures text[0..] == text && OpensRef(text, 0)
  {
  }

  /** Where names and references are inverse, only braces at a word boundary are lost. */
  lemma TextRoundTripWhenCoherent(text: string, ns: Namespace)
    requires Sound(ns) && Coherent(ns)
    ensures PrintParts(Parts(text, ns), ns, true) == text <==>
      forall v :: v in Refs(text) && v.ref.body.name in ns.byName && v.ref.delimited ==>
        v.start <= |text| && !OpensRef(text, v.start)
  {
    hide Sound, Refs, PrintParts, Parts, OpensRef;
    TextRoundTrip(text, ns);
    ExtractionMeetsGrammar(text);
  }
}
