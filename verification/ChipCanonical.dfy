/** The parts that survive a trip through text, exactly. */
module ChipCanonical {
  import opened CharClasses
  import opened VariableText
  import opened Automation
  import opened Naming
  import opened ChipConvert
  import opened ChipRoundTrip

  /** Tokens without a known reference. */
  ghost predicate QuietToks(toks: seq<Tok>, ns: Namespace) {
    toks == [] || ((toks[0].Var? ==> toks[0].ref.body.name !in ns.byName) && QuietToks(toks[1..], ns))
  }

  /** A literal that mentions no known name where it stands. */
  ghost predicate Quiet(s: string, ns: Namespace, opens: bool) {
    QuietToks(Lex(s, opens), ns)
  }

  predicate ValidField(field: Option<string>) {
    field.Some? ==> field.value != "" && ValidPath(SplitPath(field.value))
  }

  /**
   * Parts as saving writes them: no empty and no adjacent literals, tokens in
   * scope with a well-formed field, no literal that mentions a known name or
   * extends the bare reference in front of it.
   */
  ghost predicate Canonical(parts: ChipText, ns: Namespace, opens: bool, afterBare: bool) {
    parts == [] ||
    match parts[0]
    case Lit(s) =>
      && s != "" && (|parts| > 1 ==> parts[1].Token?)
      && Quiet(s, ns, opens) && (afterBare ==> !Absorbed(s))
      && Canonical(parts[1..], ns, OpensAfter(s, opens), false)
    case Token(token) =>
      ns.NameFor(token).Some? && ValidField(token.field) && Canonical(parts[1..], ns, false, opens)
  }

  // ----- reading a text piece by piece

  lemma {:induction false} UntilDollarStops(s: string, t: string)
    requires UntilDollar(t) == ""
    ensures UntilDollar(s + t) == UntilDollar(s)
  {
    if s == "" {
      assert s + t == t;
    } else {
      assert (s + t)[1..] == s[1..] + t;
      UntilDollarStops(s[1..], t);
    }
  }

  lemma LexFirst(s: string, opens: bool)
    requires s != ""
    ensures RefHead(s, opens).None? ==> Lex(s, opens) == [Chr(s[0])] + Lex(s[1..], IsSpace(s[0]))
    ensures RefHead(s, opens).Some? ==>
      var r := RefHead(s, opens).value;
      StartsWithRef(s, opens, r) && Lex(s, opens) == [Var(r)] + Lex(s[|PrintRef(r)|..], false)
  {
    hide RefHead, StartsWithRef;
    if RefHead(s, opens).Some? {
      ReadIsGrammatical(s, opens);
      StartSplits(s, opens, RefHead(s, opens).value);
    }
  }

  lemma SameHead(s: string, t: string, opens: bool)
    requires s != "" && UntilDollar(t) == ""
    ensures RefHead(s + t, opens) == RefHead(s, opens)
  {
    hide RefHead, UntilDollar;
    assert (s + t)[1..] == s[1..] + t;
    UntilDollarStops(s[1..], t);
    RefHeadLocal(s, s + t, opens);
  }

  /** A text continued by nothing or by a `$` reads as it does on its own. */
  lemma {:induction false} LexAppend(s: string, t: string, opens: bool)
    requires UntilDollar(t) == ""
    ensures Lex(s + t, opens) == Lex(s, opens) + Lex(t, OpensAfter(s, opens))
    decreases |s|
  {
    hide RefHead, StartsWithRef, UntilDollar, Lex, PrintRef, OpensAfter;
    if s == "" {
      LexEmpty(t, opens);
    } else {
      SameHead(s, t, opens);
      LexFirst(s, opens);
      LexFirst(s + t, opens);
      if RefHead(s, opens).Some? {
        var r := RefHead(s, opens).value;
        StartSplits(s, opens, r);
        var s' := s[|PrintRef(r)|..];
        assert (s + t)[|PrintRef(r)|..] == s' + t;
        LexAppend(s', t, false);
        ContextAfterRef(s, s', opens, r);
      } else {
        assert (s + t)[1..] == s[1..] + t;
        LexAppend(s[1..], t, IsSpace(s[0]));
        ContextAfterChar(s, opens);
      }
    }
  }

  lemma LexEmpty(t: string, opens: bool)
    ensures "" + t == t && Lex("", opens) == [] && OpensAfter("", opens) == opens
  {
  }

  lemma ContextAfterChar(s: string, opens: bool)
    requires s != ""
    ensures OpensAfter(s[1..], IsSpace(s[0])) == OpensAfter(s, opens)
  {
  }

  lemma ContextAfterRef(s: string, s': string, opens: bool, r: Ref)
    requires StartsWithRef(s, opens, r) && s == PrintRef(r) + s'
    ensures OpensAfter(s', false) == OpensAfter(s, opens)
  {
    hide BodyText, Absorbed, ValidBody, IsSpace;
    if s' == "" {
      assert s == PrintRef(r);
      SolidAfter(r, opens);
    }
  }

  lemma {:induction false} QuietPartsOf(pre: seq<Tok>, post: seq<Tok>, ns: Namespace)
    requires QuietToks(pre, ns)
    ensures PartsOf(pre + post, ns) == Prepend(Print(pre), PartsOf(post, ns))
  {
    hide PrintRef;
    if pre == [] {
      assert pre + post == post;
    } else {
      assert (pre + post)[1..] == pre[1..] + post;
      QuietPartsOf(pre[1..], post, ns);
      var head := match pre[0] case Chr(c) => [c] case Var(r) => PrintRef(r);
      PrependTwice(head, Print(pre[1..]), PartsOf(post, ns));
    }
  }

  lemma PrependTwice(s: string, t: string, parts: ChipText)
    ensures Prepend(s, Prepend(t, parts)) == Prepend(s + t, parts)
  {
    if s == "" {
      assert s + t == t;
    } else if t == "" {
      assert s + t == s;
    } else if parts != [] && parts[0].Lit? {
      var u := parts[0].text;
      assert Prepend(t, parts)[1..] == parts[1..];
      assert s + (t + u) == (s + t) + u;
    } else {
      assert Prepend(t, parts)[1..] == parts;
    }
  }

  // ----- canonical parts come back

  lemma TokenComesBack(token: TokenRef, ns: Namespace)
    requires Sound(ns) && ns.NameFor(token).Some? && ValidField(token.field)
    ensures var b := BodyFor(token, ns);
            ValidBody(b) && b.name in ns.byName && TokenFor(ns.byName[b.name], b.path) == token
  {
    var b := BodyFor(token, ns);
    var d := ns.byName[b.name];
    assert Key(d.ref) == Key(token);
    if token.field.Some? {
      JoinOfSplit(token.field.value);
    }
  }

  lemma PrintedHead(parts: ChipText, ns: Namespace, opens: bool)
    requires parts == [] || parts[0].Token?
    ensures UntilDollar(PrintParts(parts, ns, opens)) == ""
  {
    hide BodyFor;
  }

  lemma {:induction false} CanonicalComesBack(parts: ChipText, ns: Namespace, opens: bool, afterBare: bool)
    requires Sound(ns) && Canonical(parts, ns, opens, afterBare)
    ensures PartsOf(Lex(PrintParts(parts, ns, opens), opens), ns) == parts
    ensures afterBare ==> !Absorbed(PrintParts(parts, ns, opens))
  {
    hide Lex, PartsOf, Prepend, UntilDollar, Sound, Absorbed, PrintRef, BodyFor, ValidField, QuietToks, OpensAfter;
    if parts == [] {
      NothingComesBack(ns, opens);
    } else {
      var rest := parts[1..];
      match parts[0] {
        case Lit(s) =>
          CanonicalComesBack(rest, ns, OpensAfter(s, opens), false);
          assert rest != [] ==> rest[0] == parts[1];
          LiteralComesBack(s, rest, ns, opens, afterBare);
          assert parts == [Lit(s)] + rest;
        case Token(token) =>
          CanonicalComesBack(rest, ns, false, opens);
          ReferenceComesBack(token, rest, ns, opens);
          assert parts == [Token(token)] + rest;
      }
    }
  }

  lemma NothingComesBack(ns: Namespace, opens: bool)
    ensures PartsOf(Lex(PrintParts([], ns, opens), opens), ns) == [] && !Absorbed(PrintParts([], ns, opens))
  {
  }

  lemma LiteralComesBack(s: string, rest: ChipText, ns: Namespace, opens: bool, afterBare: bool)
    requires s != "" && (rest == [] || rest[0].Token?) && Quiet(s, ns, opens) && (afterBare ==> !Absorbed(s))
    requires PartsOf(Lex(PrintParts(rest, ns, OpensAfter(s, opens)), OpensAfter(s, opens)), ns) == rest
    ensures PartsOf(Lex(PrintParts([Lit(s)] + rest, ns, opens), opens), ns) == [Lit(s)] + rest
    ensures afterBare ==> !Absorbed(PrintParts([Lit(s)] + rest, ns, opens))
  {
    hide Lex, PartsOf, UntilDollar, Absorbed, PrintParts, QuietToks, OpensAfter;
    var t := PrintParts(rest, ns, OpensAfter(s, opens));
    PrintLit(s, rest, ns, opens);
    PrintedHead(rest, ns, OpensAfter(s, opens));
    LexAppend(s, t, opens);
    QuietPartsOf(Lex(s, opens), Lex(t, OpensAfter(s, opens)), ns);
    LexPrints(s, opens);
    UntilDollarStops(s, t);
    AbsorbedLocal(s);
    AbsorbedLocal(s + t);
  }

  lemma ReferenceComesBack(token: TokenRef, rest: ChipText, ns: Namespace, opens: bool)
    requires Sound(ns) && ns.NameFor(token).Some? && ValidField(token.field)
    requires PartsOf(Lex(PrintParts(rest, ns, false), false), ns) == rest
    requires opens ==> !Absorbed(PrintParts(rest, ns, false))
    ensures PartsOf(Lex(PrintParts([Token(token)] + rest, ns, opens), opens), ns) == [Token(token)] + rest
    ensures !Absorbed(PrintParts([Token(token)] + rest, ns, opens))
  {
    hide Sound, PrintParts, BodyFor, BodyText, RefHead, ValidField, PartsOf, OpensAfter;
    var r := Ref(BodyFor(token, ns), !opens);
    var t := PrintParts(rest, ns, false);
    TokenComesBack(token, ns);
    PrintToken(token, rest, ns, opens);
    SolidAfter(r, opens);
    var s := PrintRef(r) + t;
    StartsWithPrinted(s, opens, r, t);
    ReadsGrammatical(s, opens, r);
    assert s[|PrintRef(r)|..] == t;
    assert Lex(s, opens) == [Var(r)] + Lex(t, false);
    PartsOfCons(Var(r), Lex(t, false), ns);
  }

  // ----- what saving writes is canonical

  /** The tokens up to the next known reference. */
  function QuietPrefix(toks: seq<Tok>, names: set<string>): nat
    ensures QuietPrefix(toks, names) <= |toks|
  {
    if toks == [] || (toks[0].Var? && toks[0].ref.body.name in names) then 0 else 1 + QuietPrefix(toks[1..], names)
  }

  lemma {:induction false} QuietPrefixIs(toks: seq<Tok>, ns: Namespace)
    ensures var n := QuietPrefix(toks, ns.byName.Keys);
            QuietToks(toks[..n], ns) && (n < |toks| ==> toks[n].Var? && toks[n].ref.body.name in ns.byName)
  {
    var n := QuietPrefix(toks, ns.byName.Keys);
    if n > 0 {
      QuietPrefixIs(toks[1..], ns);
      assert toks[..n][1..] == toks[1..][..n - 1];
    }
  }

  /** Where a known reference is printed bare, what follows does not extend it. */
  ghost predicate NoneAbsorbs(toks: seq<Tok>, ns: Namespace, opens: bool) {
    toks == [] ||
    match toks[0]
    case Chr(c) => NoneAbsorbs(toks[1..], ns, IsSpace(c))
    case Var(r) =>
      (opens && r.body.name in ns.byName ==> !Absorbed(Print(toks[1..]))) && NoneAbsorbs(toks[1..], ns, false)
  }

  /** The tail of a token list that reads back still does, in its context. */
  lemma {:induction false} TailOf(pre: seq<Tok>, post: seq<Tok>, opens: bool)
    requires Lexed(pre + post, opens)
    ensures Lexed(post, OpensAfter(Print(pre), opens))
  {
    hide RefHead, BodyText, Absorbed, ValidBody, IsSpace, PrintRef;
    if pre == [] {
      assert pre + post == post;
    } else {
      assert (pre + post)[1..] == pre[1..] + post;
      var o := match pre[0] case Chr(c) => IsSpace(c) case Var(_) => false;
      TailOf(pre[1..], post, o);
      PrintedContext(pre, opens);
    }
  }

  /** Tokens without a known reference absorb nothing. */
  lemma {:induction false} QuietAbsorbsNothing(pre: seq<Tok>, post: seq<Tok>, ns: Namespace, opens: bool)
    requires Lexed(pre + post, opens) && QuietToks(pre, ns)
    ensures NoneAbsorbs(pre + post, ns, opens) <==> NoneAbsorbs(post, ns, OpensAfter(Print(pre), opens))
  {
    hide RefHead, BodyText, Absorbed, ValidBody, IsSpace, PrintRef;
    if pre == [] {
      assert pre + post == post;
    } else {
      assert (pre + post)[1..] == pre[1..] + post;
      var o := match pre[0] case Chr(c) => IsSpace(c) case Var(_) => false;
      QuietAbsorbsNothing(pre[1..], post, ns, o);
      PrintedContext(pre, opens);
    }
  }

  lemma PrintedContext(pre: seq<Tok>, opens: bool)
    requires pre != [] && (pre[0].Var? ==> ValidBody(pre[0].ref.body))
    ensures OpensAfter(Print(pre), opens) ==
            OpensAfter(Print(pre[1..]), match pre[0] case Chr(c) => IsSpace(c) case Var(_) => false)
  {
    hide IsSpace, PrintRef, OpensAfter;
    var head := match pre[0] case Chr(c) => [c] case Var(r) => PrintRef(r);
    assert Print(pre) == head + Print(pre[1..]);
    OpensAfterAppend(head, Print(pre[1..]), opens);
    match pre[0] {
      case Chr(c) => AfterChar(c, opens);
      case Var(r) => SolidAfter(r, opens);
    }
  }

  lemma AfterChar(c: char, opens: bool)
    ensures OpensAfter([c], opens) == IsSpace(c)
  {
  }

  lemma {:induction false} PrintSplit(pre: seq<Tok>, post: seq<Tok>)
    ensures Print(pre + post) == Print(pre) + Print(post)
  {
    hide PrintRef;
    if pre == [] {
      assert pre + post == post;
    } else {
      assert (pre + post)[1..] == pre[1..] + post;
      PrintSplit(pre[1..], post);
    }
  }

  /** The characters before a reference read, on their own, as they did in front of it. */
  lemma PrefixReads(pre: seq<Tok>, post: seq<Tok>, opens: bool)
    requires Lexed(pre + post, opens)
    requires post == [] || post[0].Var?
    ensures Lex(Print(pre), opens) == pre
  {
    hide Lex, Lexed, PrintRef, OpensAfter, UntilDollar, Subst;
    var o := OpensAfter(Print(pre), opens);
    TailOf(pre, post, opens);
    LexOfPrinted(pre + post, opens);
    LexOfPrinted(post, o);
    PrintSplit(pre, post);
    HeadIsDollar(post);
    LexAppend(Print(pre), Print(post), opens);
    assert Lex(Print(pre), opens) + post == pre + post;
    assert (Lex(Print(pre), opens) + post)[..|pre|] == (pre + post)[..|pre|];
  }

  lemma HeadIsDollar(post: seq<Tok>)
    requires post == [] || post[0].Var?
    ensures UntilDollar(Print(post)) == ""
  {
    hide BodyText;
  }

  lemma PrefixAbsorbed(pre: seq<Tok>, post: seq<Tok>)
    requires post == [] || post[0].Var?
    ensures Absorbed(Print(pre + post)) == Absorbed(Print(pre))
  {
    hide Print, Absorbed, UntilDollar;
    PrintSplit(pre, post);
    HeadIsDollar(post);
    UntilDollarStops(Print(pre), Print(post));
    AbsorbedLocal(Print(pre));
    AbsorbedLocal(Print(pre + post));
  }

  /**
   * What saving writes is canonical exactly when no text extends a known
   * reference that would be printed bare; for a reference that is bare already
   * that is so in every text.
   */
  lemma {:induction false} SavedIsCanonical(toks: seq<Tok>, ns: Namespace, opens: bool, afterBare: bool)
    requires Sound(ns) && Lexed(toks, opens)
    ensures Canonical(PartsOf(toks, ns), ns, opens, afterBare) <==>
            NoneAbsorbs(toks, ns, opens) && (afterBare ==> !Absorbed(Print(toks)))
    decreases |toks|
  {
    hide Lex, RefHead, PrintRef, Sound, ValidField, Absorbed, Prepend, OpensAfter, QuietToks, BodyFor, SplitPath,
         JoinPath, StartsWithRef, Canonical;
    var n := QuietPrefix(toks, ns.byName.Keys);
    var pre, post := toks[..n], toks[n..];
    QuietPrefixIs(toks, ns);
    assert toks == pre + post;
    if toks == [] {
      NothingSaved(ns, opens, afterBare);
    } else if n == 0 {
      var r, rest := toks[0].ref, toks[1..];
      assert toks == [toks[0]] + rest;
      SavedIsCanonical(rest, ns, false, opens);
      PartsOfCons(toks[0], rest, ns);
      StartsValid(Print(toks), opens, r);
      SavedToken(r, ns);
      PrefixAbsorbed([], toks);
      assert [] + toks == toks;
      NothingAbsorbed();
      TokenFirst(TokenFor(ns.byName[r.body.name], r.body.path), PartsOf(rest, ns), ns, opens, afterBare);
    } else {
      hide Lexed, NoneAbsorbs, PartsOf, Subst;
      PrefixReads(pre, post, opens);
      TailOf(pre, post, opens);
      SavedIsCanonical(post, ns, OpensAfter(Print(pre), opens), false);
      QuietPartsOf(pre, post, ns);
      QuietAbsorbsNothing(pre, post, ns, opens);
      PrefixAbsorbed(pre, post);
      PrintsSomething(pre);
      PartsOfHead(post, ns);
      LiteralFirst(Print(pre), PartsOf(post, ns), ns, opens, afterBare);
    }
  }

  lemma NothingSaved(ns: Namespace, opens: bool, afterBare: bool)
    ensures Canonical(PartsOf([], ns), ns, opens, afterBare) && NoneAbsorbs([], ns, opens) && !Absorbed(Print([]))
  {
  }

  lemma NothingAbsorbed()
    ensures !Absorbed(Print([]))
  {
  }

  lemma TokenFirst(token: TokenRef, rest: ChipText, ns: Namespace, opens: bool, afterBare: bool)
    requires ns.NameFor(token).Some? && ValidField(token.field)
    ensures Canonical([Token(token)] + rest, ns, opens, afterBare) <==> Canonical(rest, ns, false, opens)
  {
    hide ValidField, Quiet, Absorbed;
    assert ([Token(token)] + rest)[1..] == rest;
  }

  lemma SavedToken(r: Ref, ns: Namespace)
    requires Sound(ns) && r.body.name in ns.byName && ValidBody(r.body)
    ensures var token := TokenFor(ns.byName[r.body.name], r.body.path);
            ns.NameFor(token).Some? && ValidField(token.field)
  {
    RespelledIsValid(r, ns, true);
    if r.body.path != [] {
      SplitOfJoin(r.body.path);
    }
  }

  lemma LiteralFirst(s: string, rest: ChipText, ns: Namespace, opens: bool, afterBare: bool)
    requires s != "" && (rest == [] || rest[0].Token?) && Quiet(s, ns, opens)
    ensures Prepend(s, rest) == [Lit(s)] + rest
    ensures Canonical([Lit(s)] + rest, ns, opens, afterBare) <==>
            (afterBare ==> !Absorbed(s)) && Canonical(rest, ns, OpensAfter(s, opens), false)
  {
    hide Quiet, Absorbed, OpensAfter;
    assert ([Lit(s)] + rest)[1..] == rest;
  }

  lemma PartsOfHead(post: seq<Tok>, ns: Namespace)
    requires post == [] || (post[0].Var? && post[0].ref.body.name in ns.byName)
    ensures PartsOf(post, ns) == [] || PartsOf(post, ns)[0].Token?
  {
  }

  lemma PrintsSomething(pre: seq<Tok>)
    requires pre != []
    ensures Print(pre) != ""
  {
    hide BodyText;
  }

  /** A text that loading does not respell lets nothing be absorbed. */
  lemma {:induction false} ExactAbsorbsNothing(toks: seq<Tok>, ns: Namespace, opens: bool)
    requires Lexed(toks, opens) && Exact(toks, ns, opens)
    ensures NoneAbsorbs(toks, ns, opens)
  {
    hide RefHead, PrintRef, Absorbed, IsSpace, Respelled;
    if toks != [] {
      ExactAbsorbsNothing(toks[1..], ns, match toks[0] case Chr(c) => IsSpace(c) case Var(_) => false);
      if toks[0].Var? && toks[0].ref.body.name in ns.byName {
        BracedHere(toks[0].ref, ns, opens);
        assert Print(toks)[|PrintRef(toks[0].ref)|..] == Print(toks[1..]);
      }
    }
  }

  /** Parts to text and back is the identity exactly on canonical parts. */
  lemma StructuralRoundTrip(parts: ChipText, ns: Namespace)
    requires Sound(ns)
    ensures Parts(PrintParts(parts, ns, true), ns) == parts <==> Canonical(parts, ns, true, false)
  {
    hide Sound, Lex, PartsOf, PrintParts, Canonical, Lexed, Exact, Reprint, NoneAbsorbs;
    var text := PrintParts(parts, ns, true);
    if Canonical(parts, ns, true, false) {
      CanonicalComesBack(parts, ns, true, false);
    }
    if Parts(text, ns) == parts {
      var toks := Lex(text, true);
      LexPrints(text, true);
      PartsReprint(toks, ns, true);
      ReprintIsText(toks, ns, true);
      ExactAbsorbsNothing(toks, ns, true);
      SavedIsCanonical(toks, ns, true, false);
    }
  }
}
