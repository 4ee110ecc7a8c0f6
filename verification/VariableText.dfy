/** `$name.path` and `${name.path}` inside plain text. */
module VariableText {
  // A text is read as a sequence of tokens: single characters and references.
  // `Lex` is the specification of reading, `Print` of writing; every operation on
  // text is a map over tokens. The loops over indices are methods refining them.

  import opened CharClasses

  /** The `name.path` both spellings share. */
  datatype Body = Body(name: string, path: seq<string>)

  /** A reference without its position; `delimited` is the braced spelling. */
  datatype Ref = Ref(body: Body, delimited: bool)

  datatype Tok = Chr(c: char) | Var(ref: Ref)

  /** A reference found in a text: `start` is the index of the `$`, `end` is exclusive. */
  datatype VariableRef = VariableRef(ref: Ref, start: nat, end: nat)

  // ----- printing

  function DotPath(path: seq<string>): string {
    if path == [] then "" else "." + path[0] + DotPath(path[1..])
  }

  function BodyText(b: Body): string {
    b.name + DotPath(b.path)
  }

  function PrintRef(r: Ref): string {
    if r.delimited then "${" + BodyText(r.body) + "}" else "$" + BodyText(r.body)
  }

  /** Tokens written out, each reference through `f`. */
  ghost function Subst(toks: seq<Tok>, f: Ref -> string): string {
    if toks == [] then ""
    else (match toks[0] case Chr(c) => [c] case Var(r) => f(r)) + Subst(toks[1..], f)
  }

  ghost function Print(toks: seq<Tok>): string {
    Subst(toks, PrintRef)
  }

  // ----- the grammar, stated without an algorithm

  predicate ValidPath(path: seq<string>) {
    forall i :: 0 <= i < |path| ==> ValidSegment(path[i])
  }

  predicate ValidBody(b: Body) {
    ValidName(b.name) && ValidPath(b.path)
  }

  /** A text that a bare reference in front of it would absorb more characters of. */
  predicate Absorbed(s: string) {
    s != "" && (IsNameChar(s[0]) || (s[0] == '.' && |s| > 1 && IsNameChar(s[1])))
  }

  /** `s` starts with the reference `r`, as long as it can be, where `opens` says that a bare `$` may open one. */
  ghost predicate StartsWithRef(s: string, opens: bool, r: Ref) {
    && ValidBody(r.body)
    && PrintRef(r) <= s
    && (!r.delimited ==> opens && !Absorbed(s[|PrintRef(r)|..]))
  }

  /** A bare `$` opens a reference at the start of the text or after white space. */
  predicate OpensRef(text: string, index: nat)
    requires index <= |text|
  {
    index == 0 || IsSpace(text[index - 1])
  }

  ghost predicate IsRefOf(text: string, v: VariableRef) {
    && v.start < v.end <= |text|
    && StartsWithRef(text[v.start..], OpensRef(text, v.start), v.ref)
    && text[v.start..v.end] == PrintRef(v.ref)
  }

  // ----- reading

  /** The run of name characters `s` starts with. */
  function SegmentOf(s: string): (a: string)
    ensures |a| <= |s|
  {
    if s == "" || !IsNameChar(s[0]) then "" else [s[0]] + SegmentOf(s[1..])
  }

  /** The name `s` starts with, or "". */
  function NameOf(s: string): (a: string)
    ensures |a| <= |s|
  {
    if s == "" || !IsNameStart(s[0]) then "" else SegmentOf(s)
  }

  /** The dotted suffix `s` starts with; a period no segment follows is not part of it. */
  function PathOf(s: string): (path: seq<string>) {
    if s == "" || s[0] != '.' then []
    else
      var a := SegmentOf(s[1..]);
      if a == "" then [] else [a] + PathOf(s[1 + |a|..])
  }

  function BodyOf(s: string): Option<Body> {
    var name := NameOf(s);
    if name == "" then None else Some(Body(name, PathOf(s[|name|..])))
  }

  /** The reference `s` starts with, if any. */
  function RefHead(s: string, opens: bool): Option<Ref> {
    if s == "" || s[0] != '$' then None
    else if |s| > 1 && s[1] == '{' then
      match BodyOf(s[2..])
      case None => None
      case Some(b) =>
        var e := 2 + |BodyText(b)|;
        if e < |s| && s[e] == '}' then Some(Ref(b, true)) else None
    else if !opens then None
    else
      match BodyOf(s[1..])
      case None => None
      case Some(b) => Some(Ref(b, false))
  }

  // ----- the reader meets the grammar

  lemma {:induction false} SegmentOfIs(a: string, u: string)
    requires AllNameChars(a) && (u == "" || !IsNameChar(u[0]))
    ensures SegmentOf(a + u) == a
  {
    if a == "" {
      assert a + u == u;
    } else {
      assert (a + u)[1..] == a[1..] + u;
      SegmentOfIs(a[1..], u);
    }
  }

  /** What is left of `s` after the run it starts with. */
  lemma {:induction false} SegmentSplits(s: string) returns (u: string)
    ensures s == SegmentOf(s) + u && AllNameChars(SegmentOf(s)) && (u == "" || !IsNameChar(u[0]))
    ensures u == s[|SegmentOf(s)|..]
  {
    if s == "" || !IsNameChar(s[0]) {
      u := s;
    } else {
      u := SegmentSplits(s[1..]);
      assert s == [s[0]] + s[1..];
    }
  }

  lemma {:induction false} PathOfIs(path: seq<string>, u: string)
    requires ValidPath(path) && !Absorbed(u)
    ensures PathOf(DotPath(path) + u) == path
  {
    var s := DotPath(path) + u;
    if path == [] {
      assert s == u;
      if u != "" && u[0] == '.' {
        assert SegmentOf(u[1..]) == "";
      }
    } else {
      var a, v := path[0], DotPath(path[1..]) + u;
      assert s == "." + a + v;
      DottedSegment(a, v);
      PathOfIs(path[1..], u);
    }
  }

  lemma DottedSegment(a: string, v: string)
    requires ValidSegment(a) && (v == "" || !IsNameChar(v[0]))
    ensures PathOf("." + a + v) == [a] + PathOf(v)
  {
    var s := "." + a + v;
    assert s[1..] == a + v;
    SegmentOfIs(a, v);
    assert s[1 + |a|..] == v;
  }

  lemma NoPath(s: string)
    requires s == "" || (!IsNameChar(s[0]) && (s[0] != '.' || SegmentOf(s[1..]) == ""))
    ensures PathOf(s) == [] && s == DotPath([]) + s && !Absorbed(s)
  {
    if |s| > 1 && s[0] == '.' {
      assert s[1..][0] == s[1];
    }
  }

  lemma {:induction false} PathSplits(s: string) returns (u: string)
    requires s == "" || !IsNameChar(s[0])
    ensures ValidPath(PathOf(s)) && s == DotPath(PathOf(s)) + u && !Absorbed(u)
  {
    hide PathOf, DotPath, Absorbed, SegmentOf, IsNameChar;
    if s == "" || s[0] != '.' || SegmentOf(s[1..]) == "" {
      NoPath(s);
      u := s;
    } else {
      var v := SegmentSplits(s[1..]);
      var a := SegmentOf(s[1..]);
      assert s == "." + a + v;
      u := PathSplits(v);
      DottedSegment(a, v);
      PathCons(a, PathOf(v));
    }
  }

  lemma PathCons(a: string, path: seq<string>)
    requires ValidSegment(a) && ValidPath(path)
    ensures ValidPath([a] + path) && DotPath([a] + path) == "." + a + DotPath(path)
  {
    assert ([a] + path)[1..] == path;
  }

  lemma BodyReads(b: Body, u: string)
    requires ValidBody(b) && !Absorbed(u)
    ensures BodyOf(BodyText(b) + u) == Some(b)
  {
    var v := DotPath(b.path) + u;
    assert BodyText(b) + u == b.name + v;
    SegmentOfIs(b.name, v);
    PathOfIs(b.path, u);
    assert (b.name + v)[|b.name|..] == v;
  }

  lemma BodySplits(s: string) returns (u: string)
    requires BodyOf(s).Some?
    ensures var b := BodyOf(s).value; ValidBody(b) && s == BodyText(b) + u && !Absorbed(u)
  {
    var v := SegmentSplits(s);
    u := PathSplits(v);
  }

  lemma NotAbsorbed(u: string)
    ensures !Absorbed("}" + u)
  {
  }

  lemma ReadsGrammatical(s: string, opens: bool, r: Ref)
    requires StartsWithRef(s, opens, r)
    ensures RefHead(s, opens) == Some(r)
  {
    hide BodyOf, DotPath, Absorbed;
    var u := s[|PrintRef(r)|..];
    if r.delimited {
      NotAbsorbed(u);
      BodyReads(r.body, "}" + u);
      assert s[2..] == BodyText(r.body) + ("}" + u);
    } else {
      BodyReads(r.body, u);
      assert s[1..] == BodyText(r.body) + u;
      assert s[1] == r.body.name[0];
    }
  }

  lemma StartsWithPrinted(s: string, opens: bool, r: Ref, u: string)
    requires ValidBody(r.body) && s == PrintRef(r) + u && (!r.delimited ==> opens && !Absorbed(u))
    ensures StartsWithRef(s, opens, r)
  {
    assert s[|PrintRef(r)|..] == u;
  }

  lemma BracedSplits(s: string, b: Body, v: string) returns (u: string)
    requires |s| >= 2 && s[0] == '$' && s[1] == '{' && s[2..] == BodyText(b) + v
    requires 2 + |BodyText(b)| < |s| && s[2 + |BodyText(b)|] == '}'
    ensures s == PrintRef(Ref(b, true)) + u
  {
    u := v[1..];
    assert s == "${" + s[2..];
    assert v == [v[0]] + u && v[0] == s[2..][|BodyText(b)|];
  }

  lemma ReadIsGrammatical(s: string, opens: bool)
    requires RefHead(s, opens).Some?
    ensures StartsWithRef(s, opens, RefHead(s, opens).value)
  {
    hide BodyOf, BodyText, ValidBody, Absorbed;
    var r := RefHead(s, opens).value;
    if |s| > 1 && s[1] == '{' {
      var v := BodySplits(s[2..]);
      var u := BracedSplits(s, r.body, v);
      StartsWithPrinted(s, opens, r, u);
    } else {
      var u := BodySplits(s[1..]);
      assert s == "$" + s[1..];
      StartsWithPrinted(s, opens, r, u);
    }
  }

  // ----- texts as tokens

  /** A text read into tokens; after a reference no bare `$` opens another one. */
  ghost function Lex(s: string, opens: bool): seq<Tok>
    decreases |s|
  {
    if s == "" then []
    else if RefHead(s, opens).Some? then
      ReadIsGrammatical(s, opens);
      var r := RefHead(s, opens).value;
      StartSplits(s, opens, r);
      [Var(r)] + Lex(s[|PrintRef(r)|..], false)
    else [Chr(s[0])] + Lex(s[1..], IsSpace(s[0]))
  }

  /** The token lists that read back as themselves. */
  ghost predicate Lexed(toks: seq<Tok>, opens: bool) {
    toks == [] ||
    match toks[0]
    case Chr(c) => RefHead(Print(toks), opens).None? && Lexed(toks[1..], IsSpace(c))
    case Var(r) => StartsWithRef(Print(toks), opens, r) && Lexed(toks[1..], false)
  }

  lemma StartSplits(s: string, opens: bool, r: Ref)
    requires StartsWithRef(s, opens, r)
    ensures 0 < |PrintRef(r)| <= |s| && s == PrintRef(r) + s[|PrintRef(r)|..]
  {
  }

  function Written(tok: Tok): string {
    match tok
    case Chr(c) => [c]
    case Var(r) => PrintRef(r)
  }

  /** The first token of a text, and what is left of it. */
  lemma LexStep(s: string, opens: bool) returns (tok: Tok, rest: string, next: bool)
    requires s != ""
    ensures Lex(s, opens) == [tok] + Lex(rest, next) && |rest| < |s|
    ensures s == Written(tok) + rest && next == (tok.Chr? && IsSpace(tok.c))
    ensures if tok.Chr? then RefHead(s, opens).None? else StartsWithRef(s, opens, tok.ref)
  {
    hide RefHead, StartsWithRef, PrintRef;
    if RefHead(s, opens).Some? {
      ReadIsGrammatical(s, opens);
      var r := RefHead(s, opens).value;
      StartSplits(s, opens, r);
      tok, rest, next := Var(r), s[|PrintRef(r)|..], false;
    } else {
      tok, rest, next := Chr(s[0]), s[1..], IsSpace(s[0]);
    }
  }

  lemma PrintCons(tok: Tok, toks: seq<Tok>)
    ensures Print([tok] + toks) == Written(tok) + Print(toks)
  {
    hide PrintRef;
    assert ([tok] + toks)[1..] == toks;
  }

  lemma LexedCons(tok: Tok, toks: seq<Tok>, opens: bool)
    requires Lexed(toks, tok.Chr? && IsSpace(tok.c))
    requires if tok.Chr? then RefHead(Print([tok] + toks), opens).None?
             else StartsWithRef(Print([tok] + toks), opens, tok.ref)
    ensures Lexed([tok] + toks, opens)
  {
    hide RefHead, StartsWithRef, Print;
    assert ([tok] + toks)[1..] == toks;
  }

  lemma {:induction false} LexPrints(s: string, opens: bool)
    ensures Print(Lex(s, opens)) == s && Lexed(Lex(s, opens), opens)
    decreases |s|
  {
    hide RefHead, StartsWithRef, PrintRef, Print;
    if s == "" {
      assert Print([]) == "" by {
        EmptyPrints();
      }
    } else {
      hide Lex, Lexed;
      var tok, rest, next := LexStep(s, opens);
      LexPrints(rest, next);
      PrintCons(tok, Lex(rest, next));
      LexedCons(tok, Lex(rest, next), opens);
    }
  }

  lemma EmptyPrints()
    ensures Print([]) == ""
  {
  }

  lemma {:induction false} LexOfPrinted(toks: seq<Tok>, opens: bool)
    requires Lexed(toks, opens)
    ensures Lex(Print(toks), opens) == toks
  {
    hide RefHead, StartsWithRef, Absorbed;
    if toks != [] {
      var s, rest := Print(toks), toks[1..];
      match toks[0] {
        case Chr(c) =>
          assert s[1..] == Print(rest);
          LexOfPrinted(rest, IsSpace(c));
        case Var(r) =>
          ReadsGrammatical(s, opens, r);
          StartSplits(s, opens, r);
          assert s[|PrintRef(r)|..] == Print(rest);
          LexOfPrinted(rest, false);
      }
      assert toks == [toks[0]] + rest;
    }
  }

  // ----- a reference is decided by the characters before the next `$`

  function UntilDollar(s: string): string {
    if s == "" || s[0] == '$' then "" else [s[0]] + UntilDollar(s[1..])
  }

  lemma {:induction false} UntilDollarAppend(p: string, u: string)
    requires '$' !in p
    ensures UntilDollar(p + u) == p + UntilDollar(u)
  {
    if p == "" {
      assert p + u == u;
    } else {
      assert (p + u)[1..] == p[1..] + u;
      UntilDollarAppend(p[1..], u);
    }
  }

  lemma {:induction false} UntilDollarSplits(s: string) returns (u: string)
    ensures s == UntilDollar(s) + u && '$' !in UntilDollar(s) && UntilDollar(u) == ""
  {
    if s == "" || s[0] == '$' {
      u := s;
    } else {
      u := UntilDollarSplits(s[1..]);
      assert s == [s[0]] + s[1..];
    }
  }

  lemma AbsorbedLocal(u: string)
    ensures Absorbed(u) == Absorbed(UntilDollar(u))
  {
    if |u| > 1 {
      assert UntilDollar(u[1..]) == "" || UntilDollar(u[1..])[0] == u[1];
    }
  }

  lemma {:induction false} DotPathNoDollar(path: seq<string>)
    requires ValidPath(path)
    ensures '$' !in DotPath(path)
  {
    if path != [] {
      DotPathNoDollar(path[1..]);
      assert ValidSegment(path[0]);
    }
  }

  /** Only the first character of a printed reference is a `$`. */
  lemma RefNoDollar(r: Ref)
    requires ValidBody(r.body)
    ensures PrintRef(r)[0] == '$' && '$' !in PrintRef(r)[1..]
  {
    DotPathNoDollar(r.body.path);
    assert '$' !in BodyText(r.body);
  }

  /** `t` agrees with `p + u` up to the next `$`, so it too starts with `p`. */
  lemma SamePrefix(t: string, p: string, u: string) returns (v: string)
    requires '$' !in p && UntilDollar(t) == UntilDollar(p + u)
    ensures t == p + v && Absorbed(v) == Absorbed(u)
  {
    hide Absorbed;
    UntilDollarAppend(p, u);
    var w := UntilDollarSplits(t);
    v := UntilDollar(u) + w;
    var _ := UntilDollarSplits(u);
    UntilDollarAppend(UntilDollar(u), w);
    assert UntilDollar(v) == UntilDollar(u);
    AbsorbedLocal(u);
    AbsorbedLocal(v);
  }

  lemma StartsWithRefLocal(s: string, t: string, opens: bool, r: Ref)
    requires StartsWithRef(s, opens, r)
    requires t != "" && t[0] == '$' && UntilDollar(s[1..]) == UntilDollar(t[1..])
    ensures StartsWithRef(t, opens, r)
  {
    hide Absorbed, BodyText, ValidBody, UntilDollar;
    RefNoDollar(r);
    var p, u := PrintRef(r)[1..], s[|PrintRef(r)|..];
    assert s[1..] == p + u;
    var v := SamePrefix(t[1..], p, u);
    assert t == ['$'] + t[1..] && PrintRef(r) == ['$'] + p;
    StartsWithPrinted(t, opens, r, v);
  }

  lemma RefHeadLocal(s: string, t: string, opens: bool)
    requires s != "" && t != "" && s[0] == t[0]
    requires s[0] == '$' ==> UntilDollar(s[1..]) == UntilDollar(t[1..])
    ensures RefHead(s, opens) == RefHead(t, opens)
  {
    if RefHead(s, opens).Some? {
      ReadIsGrammatical(s, opens);
      StartsWithRefLocal(s, t, opens, RefHead(s, opens).value);
      ReadsGrammatical(t, opens, RefHead(s, opens).value);
    } else if RefHead(t, opens).Some? {
      ReadIsGrammatical(t, opens);
      StartsWithRefLocal(t, s, opens, RefHead(t, opens).value);
      ReadsGrammatical(s, opens, RefHead(t, opens).value);
    }
  }
}
