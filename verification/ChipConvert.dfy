/** The bridge between structural chip text and plain text. */
module ChipConvert {
  // `ChipTextToText` is the load direction, `TextToRefs` the save direction.

  import opened CharClasses
  import opened VariableText
  import opened Extraction
  import opened Rewriting
  import opened Automation
  import opened Naming

  // ----- field paths

  function JoinPath(path: seq<string>): string {
    if path == [] then ""
    else if |path| == 1 then path[0]
    else path[0] + "." + JoinPath(path[1..])
  }

  function SplitPath(s: string): (path: seq<string>)
    ensures path != []
  {
    if s == "" then [""]
    else
      var rest := SplitPath(s[1..]);
      if s[0] == '.' then [""] + rest else [[s[0]] + rest[0]] + rest[1..]
  }

  lemma {:induction false} SplitSegment(a: string, t: string)
    requires '.' !in a
    ensures SplitPath(a) == [a]
    ensures SplitPath(a + "." + t) == [a] + SplitPath(t)
  {
    if a == "" {
      assert (a + "." + t)[1..] == t;
    } else {
      SplitSegment(a[1..], t);
      assert (a + "." + t)[1..] == a[1..] + "." + t;
      assert a == [a[0]] + a[1..];
    }
  }

  lemma {:induction false} SplitOfJoin(path: seq<string>)
    requires ValidPath(path) && path != []
    ensures SplitPath(JoinPath(path)) == path && JoinPath(path) != ""
  {
    assert ValidSegment(path[0]);
    if |path| == 1 {
      SplitSegment(path[0], "");
    } else {
      SplitOfJoin(path[1..]);
      SplitSegment(path[0], JoinPath(path[1..]));
      assert path == [path[0]] + path[1..];
    }
  }

  lemma {:induction false} JoinOfSplit(s: string)
    ensures JoinPath(SplitPath(s)) == s
  {
    if s != "" {
      var rest := SplitPath(s[1..]);
      JoinOfSplit(s[1..]);
      var path := SplitPath(s);
      if s[0] == '.' {
        assert path[1..] == rest;
      } else {
        assert path[1..] == rest[1..];
      }
      assert s == [s[0]] + s[1..];
    }
  }

  // ----- to text

  /** Where a reference written after `precededBy` has to be braced. */
  function FormatVariableRef(name: string, path: seq<string>, precededBy: string): string {
    PrintRef(Ref(Body(name, path), !OpensRef(precededBy + "$", |precededBy|)))
  }

  function FieldPath(field: Option<string>): seq<string> {
    if field.None? || field.value == "" then [] else SplitPath(field.value)
  }

  /** The body a token is written with: its assigned name, or its sanitized output when nothing names it. */
  function BodyFor(token: TokenRef, ns: Namespace): Body {
    var name := match ns.NameFor(token) case None => SanitizeVariableName(token.output) case Some(n) => n;
    Body(name, FieldPath(token.field))
  }

  /** Whether a bare `$` opens a reference after `s`, when it does before `s` as `opens` says. */
  function OpensAfter(s: string, opens: bool): bool {
    if s == "" then opens else IsSpace(s[|s| - 1])
  }

  function PrintPart(part: ChipPart, ns: Namespace, opens: bool): string {
    match part
    case Lit(s) => s
    case Token(token) => PrintRef(Ref(BodyFor(token, ns), !opens))
  }

  ghost function PrintParts(parts: ChipText, ns: Namespace, opens: bool): string {
    if parts == [] then ""
    else
      var s := PrintPart(parts[0], ns, opens);
      s + PrintParts(parts[1..], ns, OpensAfter(s, opens))
  }

  method ChipTextToText(parts: ChipText, ns: Namespace) returns (text: string)
    ensures text == PrintParts(parts, ns, true)
  {
    hide PrintRef, BodyFor, IsSpace, PrintParts, OpensAfter, OpensRef;
    text := "";
    NothingPrinted(parts, ns);
    for i := 0 to |parts|
      invariant text + PrintParts(parts[i..], ns, OpensAfter(text, true)) == PrintParts(parts, ns, true)
    {
      PartPrinted(text, parts, i, ns);
      match parts[i] {
        case Lit(s) =>
          text := text + s;
        case Token(token) =>
          var body := BodyFor(token, ns);
          OpensHere(text);
          text := text + FormatVariableRef(body.name, body.path, text);
      }
    }
    AllPrinted(text, parts, ns);
  }

  lemma NothingPrinted(parts: ChipText, ns: Namespace)
    ensures "" + PrintParts(parts[0..], ns, OpensAfter("", true)) == PrintParts(parts, ns, true)
  {
    assert parts[0..] == parts;
  }

  lemma AllPrinted(text: string, parts: ChipText, ns: Namespace)
    ensures text + PrintParts(parts[|parts|..], ns, OpensAfter(text, true)) == text
  {
  }

  lemma PartPrinted(text: string, parts: ChipText, i: nat, ns: Namespace)
    requires i < |parts|
    ensures var s := PrintPart(parts[i], ns, OpensAfter(text, true));
            text + PrintParts(parts[i..], ns, OpensAfter(text, true))
            == (text + s) + PrintParts(parts[i + 1..], ns, OpensAfter(text + s, true))
  {
    hide PrintPart, IsSpace;
    assert parts[i..][1..] == parts[i + 1..];
    OpensAfterAppend(text, PrintPart(parts[i], ns, OpensAfter(text, true)), true);
  }

  lemma OpensHere(text: string)
    ensures OpensRef(text + "$", |text|) == OpensAfter(text, true)
  {
  }

  lemma OpensAfterAppend(s: string, t: string, opens: bool)
    ensures OpensAfter(s + t, opens) == OpensAfter(t, OpensAfter(s, opens))
  {
  }

  // ----- back to references

  function TokenFor(d: TokenDescriptor, path: seq<string>): TokenRef {
    TokenRef(d.ref.stepId, d.ref.output, if path == [] then None else Some(JoinPath(path)))
  }

  /** Literal text put in front of parts, merged with a literal that follows. */
  function Prepend(s: string, parts: ChipText): ChipText {
    if s == "" then parts
    else if parts != [] && parts[0].Lit? then [Lit(s + parts[0].text)] + parts[1..]
    else [Lit(s)] + parts
  }

  /** The parts a text reads as: names the namespace knows become tokens, the rest stays text. */
  ghost function PartsOf(toks: seq<Tok>, ns: Namespace): ChipText {
    if toks == [] then []
    else
      var rest := PartsOf(toks[1..], ns);
      match toks[0]
      case Chr(c) => Prepend([c], rest)
      case Var(r) =>
        if r.body.name in ns.byName then [Token(TokenFor(ns.byName[r.body.name], r.body.path))] + rest
        else Prepend(PrintRef(r), rest)
  }

  ghost function Parts(text: string, ns: Namespace): ChipText {
    PartsOf(Lex(text, true), ns)
  }

  ghost function KnownTo(ns: Namespace): Ref -> bool {
    (r: Ref) => r.body.name in ns.byName
  }

  ghost predicate EachKnown(refs: seq<VariableRef>, ns: Namespace) {
    forall i :: 0 <= i < |refs| ==> refs[i].ref.body.name in ns.byName
  }

  /** The parts the save loop builds from `cursor` on. */
  ghost function PartsFrom(text: string, refs: seq<VariableRef>, cursor: nat, ns: Namespace): ChipText
    requires Fits(text, refs, cursor) && EachKnown(refs, ns)
  {
    if refs == [] then if cursor < |text| then [Lit(text[cursor..])] else []
    else
      (if refs[0].start > cursor then [Lit(text[cursor..refs[0].start])] else [])
      + [Token(TokenFor(ns.byName[refs[0].ref.body.name], refs[0].ref.body.path))]
      + PartsFrom(text, refs[1..], refs[0].end, ns)
  }

  lemma {:induction false} AllKnown(refs: seq<VariableRef>, ns: Namespace)
    ensures EachKnown(Selected(refs, KnownTo(ns)), ns)
  {
    if refs != [] {
      AllKnown(refs[1..], ns);
    }
  }

  lemma {:induction false} PartsMove(text: string, refs: seq<VariableRef>, i: nat, j: nat, ns: Namespace)
    requires i <= j && Fits(text, refs, j) && EachKnown(refs, ns)
    ensures Fits(text, refs, i) && PartsFrom(text, refs, i, ns) == Prepend(text[i..j], PartsFrom(text, refs, j, ns))
  {
    if i == j {
      assert text[i..j] == "";
    } else {
      var before, after := PartsFrom(text, refs, i, ns), PartsFrom(text, refs, j, ns);
      if refs == [] {
        assert text[i..] == text[i..j] + text[j..];
        assert text[i..j] != "";
        if j == |text| {
          assert after == [] && text[i..j] == text[i..];
        } else {
          assert after == [Lit(text[j..])] && after[1..] == [];
        }
        assert Prepend(text[i..j], after) == [Lit(text[i..])];
      } else {
        var s := refs[0].start;
        var token := Token(TokenFor(ns.byName[refs[0].ref.body.name], refs[0].ref.body.path));
        var rest := PartsFrom(text, refs[1..], refs[0].end, ns);
        assert text[i..s] == text[i..j] + text[j..s];
        assert before == [Lit(text[i..s])] + ([token] + rest);
        assert text[i..j] != "";
        if s > j {
          assert after == [Lit(text[j..s])] + ([token] + rest);
          assert after[1..] == [token] + rest;
        } else {
          assert after == [token] + rest;
        }
      }
    }
  }

  lemma {:induction false} PartsFromAre(text: string, i: nat, ns: Namespace)
    requires i <= |text|
    ensures var refs := Selected(RefsFrom(text, i), KnownTo(ns));
            && Fits(text, refs, i) && EachKnown(refs, ns)
            && PartsFrom(text, refs, i, ns) == PartsOf(Lex(text[i..], OpensRef(text, i)), ns)
    decreases |text| - i
  {
    hide RefAt, Lex, OpensRef, RefsFrom, Fits, Selected, PrintRef, IsRefOf, StartsWithRef, PartsOf, PartsFrom, Prepend;
    AllKnown(RefsFrom(text, i), ns);
    if i == |text| {
      NoPartsAtEnd(text, ns);
    } else if RefAt(text, i).None? {
      RefsFromStep(text, i);
      PartsFromAre(text, i + 1, ns);
      PartsMove(text, Selected(RefsFrom(text, i + 1), KnownTo(ns)), i, i + 1, ns);
      LexChar(text, i);
      PartsOfCons(Chr(text[i]), Lex(text[i + 1..], OpensRef(text, i + 1)), ns);
      assert text[i..i + 1] == [text[i]];
    } else {
      RefsFromStep(text, i);
      var r := RefAt(text, i).value;
      var end := i + |PrintRef(r)|;
      LexRef(text, i, end);
      PartsFromAre(text, end, ns);
      var v, refs := VariableRef(r, i, end), Selected(RefsFrom(text, end), KnownTo(ns));
      SelectedCons(v, RefsFrom(text, end), KnownTo(ns));
      PartsOfCons(Var(r), Lex(text[end..], OpensRef(text, end)), ns);
      if KnownTo(ns)(r) {
        PartsFromCons(text, v, refs, i, ns);
      } else {
        PartsMove(text, refs, i, end, ns);
      }
    }
  }

  lemma NoPartsAtEnd(text: string, ns: Namespace)
    ensures var refs := Selected(RefsFrom(text, |text|), KnownTo(ns));
            && refs == [] && Fits(text, refs, |text|)
            && PartsFrom(text, refs, |text|, ns) == PartsOf(Lex(text[|text|..], OpensRef(text, |text|)), ns)
  {
  }

  lemma PartsOfCons(t: Tok, toks: seq<Tok>, ns: Namespace)
    ensures PartsOf([t] + toks, ns) ==
            if t.Chr? then Prepend([t.c], PartsOf(toks, ns))
            else if t.ref.body.name in ns.byName then
              [Token(TokenFor(ns.byName[t.ref.body.name], t.ref.body.path))] + PartsOf(toks, ns)
            else Prepend(PrintRef(t.ref), PartsOf(toks, ns))
  {
    assert ([t] + toks)[1..] == toks;
  }

  lemma PartsFromCons(text: string, v: VariableRef, refs: seq<VariableRef>, cursor: nat, ns: Namespace)
    requires cursor <= v.start <= v.end <= |text| && Fits(text, refs, v.end)
    requires KnownTo(ns)(v.ref) && EachKnown(refs, ns)
    ensures Fits(text, [v] + refs, cursor) && EachKnown([v] + refs, ns)
    ensures PartsFrom(text, [v] + refs, cursor, ns) ==
            (if v.start > cursor then [Lit(text[cursor..v.start])] else [])
            + [Token(TokenFor(ns.byName[v.ref.body.name], v.ref.body.path))]
            + PartsFrom(text, refs, v.end, ns)
  {
    assert ([v] + refs)[1..] == refs;
  }

  /** One turn of the save loop. */
  lemma PartsStep(text: string, refs: seq<VariableRef>, k: nat, cursor: nat, ns: Namespace)
    requires k < |refs| && Fits(text, Selected(refs[k..], KnownTo(ns)), cursor)
    requires EachKnown(Selected(refs[k..], KnownTo(ns)), ns)
    ensures EachKnown(Selected(refs[k + 1..], KnownTo(ns)), ns)
    ensures var v, now, later := refs[k], Selected(refs[k..], KnownTo(ns)), Selected(refs[k + 1..], KnownTo(ns));
            if KnownTo(ns)(v.ref) then
              && cursor <= v.start <= v.end <= |text| && Fits(text, later, v.end)
              && PartsFrom(text, now, cursor, ns)
                 == (if v.start > cursor then [Lit(text[cursor..v.start])] else [])
                    + [Token(TokenFor(ns.byName[v.ref.body.name], v.ref.body.path))]
                    + PartsFrom(text, later, v.end, ns)
            else now == later
  {
    hide Fits, PartsFrom, Selected;
    var v, later := refs[k], refs[k + 1..];
    assert refs[k..] == [v] + later;
    AllKnown(later, ns);
    SelectedCons(v, later, KnownTo(ns));
    if KnownTo(ns)(v.ref) {
      FitsCons(text, v, Selected(later, KnownTo(ns)), cursor);
      PartsFromCons(text, v, Selected(later, KnownTo(ns)), cursor, ns);
    }
  }

  lemma PartsDone(text: string, refs: seq<VariableRef>, cursor: nat, ns: Namespace)
    requires Fits(text, Selected(refs[|refs|..], KnownTo(ns)), cursor)
    ensures cursor <= |text| && Selected(refs[|refs|..], KnownTo(ns)) == []
    ensures PartsFrom(text, [], cursor, ns) == if cursor < |text| then [Lit(text[cursor..])] else []
  {
  }

  method TextToRefs(text: string, ns: Namespace) returns (parts: ChipText)
    ensures parts == Parts(text, ns)
  {
    hide Fits, PartsFrom, Selected, PartsOf, Lex, RefsFrom, JoinPath;
    var refs := ExtractVariableRefs(text);
    PartsFromAre(text, 0, ns);
    assert text[0..] == text && refs[0..] == refs;
    parts := [];
    var cursor: nat := 0;
    for k := 0 to |refs|
      invariant Fits(text, Selected(refs[k..], KnownTo(ns)), cursor)
      invariant EachKnown(Selected(refs[k..], KnownTo(ns)), ns)
      invariant parts + PartsFrom(text, Selected(refs[k..], KnownTo(ns)), cursor, ns) == Parts(text, ns)
    {
      var v := refs[k];
      PartsStep(text, refs, k, cursor, ns);
      if v.ref.body.name !in ns.byName {
        continue;
      }
      var d := ns.byName[v.ref.body.name];
      if v.start > cursor {
        parts := parts + [Lit(text[cursor..v.start])];
      }
      parts := parts + [Token(TokenFor(d, v.ref.body.path))];
      cursor := v.end;
    }
    PartsDone(text, refs, cursor, ns);
    if cursor < |text| {
      parts := parts + [Lit(text[cursor..])];
    }
  }
}
