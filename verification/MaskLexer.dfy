/**
 * The lexer that blanks string literals, char literals and comments of Rust
 * source, so that what is left matches and counts as code only.
 */
module MaskLexer {
  import opened CharClasses

  // ----- identifier characters

  /** A choice of letters and digits that is right for ASCII; what else belongs to them is left open. */
  type Alphabet = f: char -> bool | forall c: char :: c as int < 128 ==> f(c) == (IsNameChar(c) && c != '_')
    witness c => IsNameChar(c) && c != '_'

  /** Any such choice: nothing below depends on which letters there are beyond ASCII. */
  const IS_ALNUM: Alphabet

  predicate IsIdentChar(c: char) {
    IS_ALNUM(c) || c == '_'
  }

  // ----- where each kind of region ends

  predicate At(t: string, i: int, c: char) {
    0 <= i < |t| && t[i] == c
  }

  function LineEnd(t: string, j: nat): (e: nat)
    requires j <= |t|
    ensures j <= e <= |t| && (e == |t| || t[e] == '\n')
    ensures forall k :: j <= k < e ==> t[k] != '\n'
    decreases |t| - j
  {
    if j == |t| || t[j] == '\n' then j else LineEnd(t, j + 1)
  }

  /** Just past the comment that is `depth` deep at `j`. */
  function BlockEnd(t: string, j: nat, depth: nat): (e: nat)
    requires j <= |t|
    ensures j <= e <= |t|
    decreases |t| - j
  {
    if j == |t| || depth == 0 then j
    else if t[j] == '/' && At(t, j + 1, '*') then BlockEnd(t, j + 2, depth + 1)
    else if t[j] == '*' && At(t, j + 1, '/') then BlockEnd(t, j + 2, depth - 1)
    else BlockEnd(t, j + 1, depth)
  }

  /** Past the hashes at `p`. */
  function HashEnd(t: string, p: nat): (e: nat)
    requires p <= |t|
    ensures p <= e <= |t| && !At(t, e, '#')
    decreases |t| - p
  {
    if At(t, p, '#') then HashEnd(t, p + 1) else p
  }

  /** A quote and `h` hashes stand at `j`. */
  predicate TerminatorAt(t: string, j: nat, h: nat) {
    j + h < |t| && t[j] == '"' && forall k :: j < k <= j + h ==> t[k] == '#'
  }

  /** Just past the first terminator from `j` on, or the end of the text. */
  function RawEnd(t: string, j: nat, h: nat): (e: nat)
    requires j <= |t|
    ensures j <= e <= |t|
    decreases |t| - j
  {
    if j == |t| then |t| else if TerminatorAt(t, j, h) then j + 1 + h else RawEnd(t, j + 1, h)
  }

  /** Just past the closing quote of a literal whose inside continues at `j`. */
  function QuotedEnd(t: string, j: nat, quote: char): (e: nat)
    ensures e <= |t| && (j <= |t| ==> j <= e)
    decreases |t| - j
  {
    if j >= |t| then |t|
    else if t[j] == '\\' then QuotedEnd(t, j + 2, quote)
    else if t[j] == quote then j + 1
    else QuotedEnd(t, j + 1, quote)
  }

  /** Just past the next single quote. */
  function CharEnd(t: string, j: nat): (e: nat)
    requires j <= |t|
    ensures j <= e <= |t|
    decreases |t| - j
  {
    if j == |t| then j else if t[j] == '\'' then j + 1 else CharEnd(t, j + 1)
  }

  predicate AfterIdent(t: string, i: nat) {
    0 < i <= |t| && IsIdentChar(t[i - 1])
  }

  /** Where the hashes of a raw string would start. */
  function RawStart(t: string, i: nat): Option<nat> {
    if At(t, i, 'r') then Some(i + 1) else if At(t, i, 'b') && At(t, i + 1, 'r') then Some(i + 2) else None
  }

  predicate OpensRaw(t: string, i: nat) {
    !AfterIdent(t, i) && RawStart(t, i).Some? && At(t, HashEnd(t, RawStart(t, i).value), '"')
  }

  /** The region to blank that opens at `i`, if one does; a lone quote is a lifetime or a loop name. */
  function RegionEnd(t: string, i: nat): (end: Option<nat>)
    requires i < |t|
    ensures end.Some? ==> i < end.value <= |t|
  {
    if t[i] == '/' && At(t, i + 1, '/') then Some(LineEnd(t, i))
    else if t[i] == '/' && At(t, i + 1, '*') then Some(BlockEnd(t, i + 2, 1))
    else if OpensRaw(t, i) then
      var p := RawStart(t, i).value;
      var q := HashEnd(t, p);
      Some(RawEnd(t, q + 1, q - p))
    else if !AfterIdent(t, i) && t[i] == 'b' && (At(t, i + 1, '"') || At(t, i + 1, '\'')) then
      Some(QuotedEnd(t, i + 2, t[i + 1]))
    else if t[i] == '"' then Some(QuotedEnd(t, i + 1, '"'))
    else if t[i] == '\'' && At(t, i + 1, '\\') then
      Some(CharEnd(t, if i + 2 < |t| then i + 3 else i + 2))
    else if t[i] == '\'' && At(t, i + 2, '\'') then Some(i + 3)
    else None
  }

  // ----- masking

  function Blanked(c: char): char {
    if c == '\n' then c else ' '
  }

  function Blanks(s: string): string {
    seq(|s|, k requires 0 <= k < |s| => Blanked(s[k]))
  }

  /** The text from `i` on, masked. */
  function MaskFrom(t: string, i: nat): (m: string)
    requires i <= |t|
    ensures |m| == |t| - i
    decreases |t| - i
  {
    if i == |t| then ""
    else
      match RegionEnd(t, i)
      case Some(e) => Blanks(t[i..e]) + MaskFrom(t, e)
      case None => [t[i]] + MaskFrom(t, i + 1)
  }

  function Mask(t: string): string {
    MaskFrom(t, 0)
  }

  // ----- what masking does to each character

  /** What the output may show for the character at `k`: itself or its blank, and in view only if it opens no region. */
  predicate Shows(t: string, k: nat, c: char)
    requires k < |t|
  {
    c in {t[k], Blanked(t[k])} && (c !in {' ', '\n'} ==> RegionEnd(t, k).None?)
  }

  lemma MaskRegion(t: string, i: nat, k: nat)
    requires i <= k < |t| && RegionEnd(t, i).Some?
    ensures var e := RegionEnd(t, i).value;
            MaskFrom(t, i)[k - i] == if k < e then Blanked(t[k]) else MaskFrom(t, e)[k - e]
  {
    hide RegionEnd;
    var e := RegionEnd(t, i).value;
    assert MaskFrom(t, i) == Blanks(t[i..e]) + MaskFrom(t, e);
    assert |Blanks(t[i..e])| == e - i;
    if k < e {
      assert t[i..e][k - i] == t[k];
    }
  }

  lemma MaskPlain(t: string, i: nat, k: nat)
    requires i <= k < |t| && RegionEnd(t, i).None?
    ensures MaskFrom(t, i)[k - i] == if k == i then t[k] else MaskFrom(t, i + 1)[k - i - 1]
  {
    hide RegionEnd;
  }

  lemma {:induction false} MaskedAt(t: string, i: nat, k: nat)
    requires i <= k < |t|
    ensures Shows(t, k, MaskFrom(t, i)[k - i])
    decreases |t| - i
  {
    hide RegionEnd, MaskFrom;
    var end := RegionEnd(t, i);
    if end.Some? {
      MaskRegion(t, i, k);
      if k >= end.value {
        MaskedAt(t, end.value, k);
      }
    } else {
      MaskPlain(t, i, k);
      if k > i {
        MaskedAt(t, i + 1, k);
      }
    }
  }

  lemma {:induction false} BlockEndsWithSlash(t: string, j: nat, depth: nat)
    requires 2 <= j <= |t| && (depth == 0 ==> t[j - 1] == '/')
    ensures var e := BlockEnd(t, j, depth); e == |t| || t[e - 1] == '/'
    decreases |t| - j
  {
    if j < |t| && depth > 0 {
      if t[j] == '/' && At(t, j + 1, '*') {
        BlockEndsWithSlash(t, j + 2, depth + 1);
      } else if t[j] == '*' && At(t, j + 1, '/') {
        BlockEndsWithSlash(t, j + 2, depth - 1);
      } else {
        BlockEndsWithSlash(t, j + 1, depth);
      }
    }
  }

  lemma {:induction false} RawEndsWithTerminator(t: string, j: nat, h: nat)
    requires j <= |t|
    ensures var e := RawEnd(t, j, h); e == |t| || (e >= 1 && t[e - 1] in {'"', '#'})
    decreases |t| - j
  {
    if j < |t| {
      if TerminatorAt(t, j, h) {
        assert t[j + h] == '#' || h == 0;
      } else {
        RawEndsWithTerminator(t, j + 1, h);
      }
    }
  }

  lemma {:induction false} QuotedEndsWithQuote(t: string, j: nat, quote: char)
    ensures var e := QuotedEnd(t, j, quote); e == |t| || (e >= 1 && t[e - 1] == quote)
    decreases |t| - j
  {
    if j < |t| && t[j] == '\\' {
      QuotedEndsWithQuote(t, j + 2, quote);
    } else if j < |t| && t[j] != quote {
      QuotedEndsWithQuote(t, j + 1, quote);
    }
  }

  lemma {:induction false} CharEndsWithQuote(t: string, j: nat)
    requires j <= |t|
    ensures var e := CharEnd(t, j); e == |t| || (e >= 1 && t[e - 1] == '\'')
    decreases |t| - j
  {
    if j < |t| && t[j] != '\'' {
      CharEndsWithQuote(t, j + 1);
    }
  }

  /** A region never cuts an identifier: it stops at the end, before a newline, or with a character no name holds. */
  lemma RegionStopsClean(t: string, i: nat)
    requires i < |t| && RegionEnd(t, i).Some?
    ensures var e := RegionEnd(t, i).value; e == |t| || t[e] == '\n' || !IsIdentChar(t[e - 1])
  {
    hide BlockEnd, RawEnd, QuotedEnd, CharEnd, LineEnd, HashEnd;
    if t[i] == '/' && At(t, i + 1, '/') {
    } else if t[i] == '/' && At(t, i + 1, '*') {
      BlockEndsWithSlash(t, i + 2, 1);
    } else if OpensRaw(t, i) {
      var p := RawStart(t, i).value;
      RawEndsWithTerminator(t, HashEnd(t, p) + 1, HashEnd(t, p) - p);
    } else if !AfterIdent(t, i) && t[i] == 'b' && (At(t, i + 1, '"') || At(t, i + 1, '\'')) {
      QuotedEndsWithQuote(t, i + 2, t[i + 1]);
    } else if t[i] == '"' {
      QuotedEndsWithQuote(t, i + 1, '"');
    } else if t[i] == '\'' && At(t, i + 1, '\\') {
      CharEndsWithQuote(t, if i + 2 < |t| then i + 3 else i + 2);
    }
  }

  /** A character in view is preceded by an identifier character in the output exactly when it is in the text. */
  lemma {:induction false} MaskedBefore(t: string, i: nat, k: nat)
    requires i < k < |t| && MaskFrom(t, i)[k - i] !in {' ', '\n'}
    ensures IsIdentChar(MaskFrom(t, i)[k - 1 - i]) <==> IsIdentChar(t[k - 1])
    decreases |t| - i
  {
    hide RegionEnd, MaskFrom;
    var end := RegionEnd(t, i);
    if end.Some? {
      MaskRegion(t, i, k);
      MaskRegion(t, i, k - 1);
      if k > end.value {
        MaskedBefore(t, end.value, k);
      } else {
        MaskedAt(t, i, k);
        RegionStopsClean(t, i);
      }
    } else {
      MaskPlain(t, i, k);
      MaskPlain(t, i, k - 1);
      if k > i + 1 {
        MaskedBefore(t, i + 1, k);
      }
    }
  }

  /** Masking keeps the length and the newlines, and changes characters to spaces only. */
  lemma MaskKeepsLines(t: string, k: nat)
    requires k < |t|
    ensures |Mask(t)| == |t| && (Mask(t)[k] == t[k] || Mask(t)[k] == ' ') && (Mask(t)[k] == '\n' <==> t[k] == '\n')
  {
    MaskedAt(t, 0, k);
  }

  /** What is left in view starts no region, in the original or in the output. */
  lemma NothingOpens(t: string, k: nat)
    requires k < |t|
    ensures RegionEnd(Mask(t), k).None?
  {
    hide MaskFrom, LineEnd, BlockEnd, HashEnd, RawEnd, QuotedEnd, CharEnd;
    var m := Mask(t);
    MaskedAt(t, 0, k);
    if m[k] != ' ' && m[k] != '\n' {
      NoQuotes(t);
      StillThere(t, k);
      if k > 0 {
        MaskedBefore(t, 0, k);
      }
    }
  }

  lemma NoQuotes(t: string)
    ensures '"' !in Mask(t)
  {
    forall k | 0 <= k < |t| ensures Mask(t)[k] != '"' {
      MaskedAt(t, 0, k);
    }
  }

  lemma StillThere(t: string, k: nat)
    requires k < |t|
    ensures forall j :: k <= j < |t| && Mask(t)[j] !in {' ', '\n'} ==> Mask(t)[j] == t[j]
  {
    forall j | k <= j < |t| && Mask(t)[j] !in {' ', '\n'} ensures Mask(t)[j] == t[j] {
      MaskedAt(t, 0, j);
    }
  }

  /** No string, no line comment and no block comment is left to find. */
  lemma MaskLeavesNoOpener(t: string)
    ensures '"' !in Mask(t)
    ensures forall k: nat :: At(Mask(t), k, '/') ==> !At(Mask(t), k + 1, '/') && !At(Mask(t), k + 1, '*')
  {
    hide MaskFrom, LineEnd, BlockEnd, HashEnd, RawEnd, QuotedEnd, CharEnd;
    NoQuotes(t);
    forall k: nat | At(Mask(t), k, '/') ensures !At(Mask(t), k + 1, '/') && !At(Mask(t), k + 1, '*') {
      NothingOpens(t, k);
    }
  }

  lemma {:induction false} NothingToMask(m: string, i: nat)
    requires i <= |m| && forall k :: 0 <= k < |m| ==> RegionEnd(m, k).None?
    ensures MaskFrom(m, i) == m[i..]
    decreases |m| - i
  {
    hide RegionEnd;
    if i < |m| {
      NothingToMask(m, i + 1);
      assert m[i..] == [m[i]] + m[i + 1..];
    }
  }

  /** Masking twice is masking once. */
  lemma MaskIsIdempotent(t: string)
    ensures Mask(Mask(t)) == Mask(t)
  {
    forall k | 0 <= k < |t| ensures RegionEnd(Mask(t), k).None? {
      NothingOpens(t, k);
    }
    NothingToMask(Mask(t), 0);
  }

  // ----- well-formed literals and comments are one region each

  /** A character of a string literal, written plainly or behind a backslash. */
  datatype Inner = Plain(c: char) | Escaped(c: char)

  function InnerText(inner: seq<Inner>): string {
    if inner == [] then ""
    else (if inner[0].Plain? then [inner[0].c] else ['\\', inner[0].c]) + InnerText(inner[1..])
  }

  predicate WellQuoted(inner: seq<Inner>, quote: char) {
    forall k :: 0 <= k < |inner| && inner[k].Plain? ==> inner[k].c != quote && inner[k].c != '\\'
  }

  /** `s` stands in `t` at `i`. */
  predicate Reads(t: string, i: nat, s: string) {
    i + |s| <= |t| && t[i..i + |s|] == s
  }

  lemma ReadsParts(t: string, i: nat, a: string, b: string)
    requires Reads(t, i, a + b)
    ensures Reads(t, i, a) && Reads(t, i + |a|, b)
  {
    assert t[i..i + |a|] == (a + b)[..|a|] == a;
    assert t[i + |a|..i + |a| + |b|] == (a + b)[|a|..] == b;
  }

  lemma {:induction false} QuotedAcross(t: string, j: nat, inner: seq<Inner>, quote: char)
    requires WellQuoted(inner, quote) && quote != '\\' && Reads(t, j, InnerText(inner) + [quote])
    ensures QuotedEnd(t, j, quote) == j + |InnerText(inner)| + 1
    decreases inner
  {
    if inner == [] {
      assert InnerText(inner) + [quote] == [quote];
      assert t[j..j + 1][0] == t[j];
    } else {
      var head := if inner[0].Plain? then [inner[0].c] else ['\\', inner[0].c];
      var rest := InnerText(inner[1..]) + [quote];
      assert InnerText(inner) + [quote] == head + rest;
      ReadsParts(t, j, head, rest);
      assert t[j] == t[j..j + |head|][0] == head[0];
      QuotedAcross(t, j + |head|, inner[1..], quote);
    }
  }

  /** A string literal is masked to its closing quote, whatever it escapes. */
  lemma StringIsOneRegion(t: string, i: nat, inner: seq<Inner>)
    requires WellQuoted(inner, '"') && Reads(t, i, "\"" + (InnerText(inner) + "\""))
    ensures RegionEnd(t, i) == Some(i + |InnerText(inner)| + 2)
  {
    hide QuotedEnd;
    ReadsParts(t, i, "\"", InnerText(inner) + "\"");
    assert t[i] == t[i..i + 1][0];
    QuotedAcross(t, i + 1, inner, '"');
  }

  /** The inside of a block comment: characters, and comments in it. */
  datatype Part = Text(c: char) | Nested(parts: seq<Part>)

  function PartsText(parts: seq<Part>): string
    decreases parts
  {
    if parts == [] then ""
    else (if parts[0].Text? then [parts[0].c] else "/*" + (PartsText(parts[0].parts) + "*/")) + PartsText(parts[1..])
  }

  predicate NoMarks(parts: seq<Part>)
    decreases parts
  {
    parts == [] || ((if parts[0].Text? then parts[0].c != '/' && parts[0].c != '*' else NoMarks(parts[0].parts))
                    && NoMarks(parts[1..]))
  }

  lemma {:induction false} CommentAcross(t: string, j: nat, depth: nat, parts: seq<Part>)
    requires NoMarks(parts) && depth > 0 && Reads(t, j, PartsText(parts))
    ensures BlockEnd(t, j, depth) == BlockEnd(t, j + |PartsText(parts)|, depth)
    decreases parts, 0
  {
    hide BlockEnd;
    if parts != [] {
      var head := if parts[0].Text? then [parts[0].c] else "/*" + (PartsText(parts[0].parts) + "*/");
      ReadsParts(t, j, head, PartsText(parts[1..]));
      CommentAcross(t, j + |head|, depth, parts[1..]);
      if parts[0].Text? {
        assert t[j] == t[j..j + 1][0];
        BlockSkips(t, j, depth);
      } else {
        NestedAcross(t, j, depth, parts[0].parts);
      }
    }
  }

  lemma {:induction false} NestedAcross(t: string, j: nat, depth: nat, parts: seq<Part>)
    requires NoMarks(parts) && depth > 0 && Reads(t, j, "/*" + (PartsText(parts) + "*/"))
    ensures BlockEnd(t, j, depth) == BlockEnd(t, j + |PartsText(parts)| + 4, depth)
    decreases parts, 1
  {
    hide BlockEnd;
    var n := |PartsText(parts)|;
    ReadsParts(t, j, "/*", PartsText(parts) + "*/");
    ReadsParts(t, j + 2, PartsText(parts), "*/");
    BlockOpens(t, j, depth);
    CommentAcross(t, j + 2, depth + 1, parts);
    BlockCloses(t, j + 2 + n, depth + 1);
  }

  lemma BlockSkips(t: string, j: nat, depth: nat)
    requires j < |t| && depth > 0 && t[j] != '/' && t[j] != '*'
    ensures BlockEnd(t, j, depth) == BlockEnd(t, j + 1, depth)
  {
  }

  lemma BlockOpens(t: string, j: nat, depth: nat)
    requires depth > 0 && Reads(t, j, "/*")
    ensures BlockEnd(t, j, depth) == BlockEnd(t, j + 2, depth + 1)
  {
    assert t[j] == t[j..j + 2][0] && t[j + 1] == t[j..j + 2][1];
  }

  lemma BlockCloses(t: string, j: nat, depth: nat)
    requires depth > 0 && Reads(t, j, "*/")
    ensures BlockEnd(t, j, depth) == BlockEnd(t, j + 2, depth - 1)
  {
    assert t[j] == t[j..j + 2][0] && t[j + 1] == t[j..j + 2][1];
  }

  /** A block comment is masked to its own end, however deep comments nest in it. */
  lemma CommentIsOneRegion(t: string, i: nat, parts: seq<Part>)
    requires NoMarks(parts) && Reads(t, i, "/*" + (PartsText(parts) + "*/"))
    ensures RegionEnd(t, i) == Some(i + |PartsText(parts)| + 4)
  {
    hide BlockEnd, PartsText, NoMarks;
    var n := |PartsText(parts)|;
    ReadsParts(t, i, "/*", PartsText(parts) + "*/");
    ReadsParts(t, i + 2, PartsText(parts), "*/");
    assert t[i] == t[i..i + 2][0] && t[i + 1] == t[i..i + 2][1];
    CommentAcross(t, i + 2, 1, parts);
    BlockCloses(t, i + 2 + n, 1);
    BlockDone(t, i + 2 + n + 2);
  }

  lemma BlockDone(t: string, j: nat)
    requires j <= |t|
    ensures BlockEnd(t, j, 0) == j
  {
  }

  function Hashes(h: nat): string {
    seq(h, _ => '#')
  }

  lemma {:induction false} HashesAcross(t: string, p: nat, h: nat)
    requires Reads(t, p, Hashes(h)) && !At(t, p + h, '#')
    ensures HashEnd(t, p) == p + h
    decreases h
  {
    if h > 0 {
      assert Hashes(h) == ['#'] + Hashes(h - 1);
      ReadsParts(t, p, ['#'], Hashes(h - 1));
      assert t[p] == t[p..p + 1][0];
      HashesAcross(t, p + 1, h - 1);
    }
  }

  lemma {:induction false} RawAcross(t: string, j: nat, n: nat, h: nat)
    requires j + n <= |t| && TerminatorAt(t, j + n, h) && forall k :: j <= k < j + n ==> !TerminatorAt(t, k, h)
    ensures RawEnd(t, j, h) == j + n + 1 + h
    decreases n
  {
    if n > 0 {
      RawAcross(t, j + 1, n - 1, h);
    }
  }

  /** A raw string is masked to the first quote followed by as many hashes as opened it; quotes inside do not end it. */
  lemma RawIsOneRegion(t: string, i: nat, h: nat, n: nat)
    requires !AfterIdent(t, i) && Reads(t, i, "r" + (Hashes(h) + "\""))
    requires var j := i + h + 2; TerminatorAt(t, j + n, h) && forall k :: j <= k < j + n ==> !TerminatorAt(t, k, h)
    ensures RegionEnd(t, i) == Some(i + h + 2 + n + 1 + h)
  {
    hide RawEnd, HashEnd, TerminatorAt;
    ReadsParts(t, i, "r", Hashes(h) + "\"");
    ReadsParts(t, i + 1, Hashes(h), "\"");
    assert t[i] == t[i..i + 1][0] && t[i + 1 + h] == t[i + 1 + h..i + 1 + h + 1][0];
    HashesAcross(t, i + 1, h);
    InRange(t, i + h + 2 + n, h);
    RawAcross(t, i + h + 2, n, h);
  }

  lemma InRange(t: string, j: nat, h: nat)
    requires TerminatorAt(t, j, h)
    ensures j + h < |t|
  {
  }

  // ----- what a literal and a comment are, without a scan

  /** From `from` to `to` there is no such character. */
  predicate Lacks(t: string, from: nat, to: nat, c: char)
    requires to <= |t|
  {
    forall k :: from <= k < to ==> t[k] != c
  }

  /** A line comment: up to the end of its line. */
  predicate IsLineComment(t: string, i: nat, e: nat) {
    && At(t, i, '/') && At(t, i + 1, '/') && i + 2 <= e <= |t|
    && Lacks(t, i, e, '\n') && (e == |t| || t[e] == '\n')
  }

  /** What stands at `j` opens a comment, closes one, or neither. */
  function MarkAt(t: string, j: nat): int {
    if At(t, j, '/') && At(t, j + 1, '*') then 1 else if At(t, j, '*') && At(t, j + 1, '/') then -1 else 0
  }

  /** How deep comments nest behind the marks at these places. */
  ghost function DepthBehind(t: string, at: seq<nat>, depth: int): int {
    if at == [] then depth else DepthBehind(t, at[..|at| - 1], depth) + MarkAt(t, at[|at| - 1])
  }

  /** A reader at `j`, `depth` comments deep, goes from mark to mark to `e`, where none is open or the text ends. */
  ghost predicate CommentRun(t: string, j: nat, depth: nat, at: seq<nat>, e: nat) {
    && at != [] && at[0] == j && at[|at| - 1] == e <= |t|
    && (forall k :: 0 <= k < |at| - 1 ==>
          at[k] < |t| && at[k + 1] == at[k] + if MarkAt(t, at[k]) == 0 then 1 else 2)
    && (forall k :: 0 <= k < |at| - 1 ==> DepthBehind(t, at[..k], depth) > 0)
    && (DepthBehind(t, at[..|at| - 1], depth) == 0 || (e == |t| && DepthBehind(t, at[..|at| - 1], depth) > 0))
  }

  ghost predicate CommentEnds(t: string, j: nat, depth: nat, e: nat) {
    exists at: seq<nat> :: CommentRun(t, j, depth, at, e)
  }

  /** A block comment: to where its own mark is closed, comments inside counted, or to the end of the text. */
  ghost predicate IsBlockComment(t: string, i: nat, e: nat) {
    At(t, i, '/') && At(t, i + 1, '*') && CommentEnds(t, i + 2, 1, e)
  }

  /** The inside of a quoted literal from `j` on, with its closing quote, or unclosed to the end of the text. */
  ghost predicate IsQuoted(t: string, j: nat, quote: char, e: nat) {
    exists inner: seq<Inner> :: WellQuoted(inner, quote) && InnerEnds(t, j, inner, quote, e)
  }

  ghost predicate InnerEnds(t: string, j: nat, inner: seq<Inner>, quote: char, e: nat) {
    || (Reads(t, j, InnerText(inner) + [quote]) && e == j + |InnerText(inner)| + 1)
    || (e == |t| && Reads(t, j, InnerText(inner)) && j + |InnerText(inner)| == |t|)
    || (e == |t| && Reads(t, j, InnerText(inner) + "\\") && j + |InnerText(inner)| + 1 == |t|)
  }

  /** To the first quote followed by as many hashes, or to the end of the text. */
  ghost predicate RawEnds(t: string, j: nat, h: nat, e: nat) {
    || (exists k: nat :: j <= k && TerminatorAt(t, k, h) && e == k + 1 + h
                         && forall l :: j <= l < k ==> !TerminatorAt(t, l, h))
    || (e == |t| && forall k :: j <= k ==> !TerminatorAt(t, k, h))
  }

  /** A raw string whose hashes start at `p`. */
  ghost predicate IsRaw(t: string, p: nat, e: nat) {
    exists h: nat :: Reads(t, p, Hashes(h)) && At(t, p + h, '"') && RawEnds(t, p + h + 1, h, e)
  }

  /** A raw string stands at `i`: `r` or `br`, hashes and a quote, at the start of a word. */
  ghost predicate OpensRawAt(t: string, i: nat, p: nat) {
    !AfterIdent(t, i) && ((At(t, i, 'r') && p == i + 1) || (At(t, i, 'b') && At(t, i + 1, 'r') && p == i + 2))
  }

  /** A char literal with a backslash: the escaped character, then up to the next quote, or to the end of the text. */
  predicate IsEscapedChar(t: string, i: nat, e: nat) {
    && At(t, i, '\'') && At(t, i + 1, '\\') && i + 2 <= e <= |t|
    && (|| (i + 3 < e && t[e - 1] == '\'' && Lacks(t, i + 3, e - 1, '\''))
        || (e == |t| && Lacks(t, i + 3, e, '\'')))
  }

  /** A literal or a comment that opens at `i` and ends before `e`. A quote that opens none belongs to a lifetime. */
  ghost predicate IsRegion(t: string, i: nat, e: nat) {
    || IsLineComment(t, i, e)
    || IsBlockComment(t, i, e)
    || (exists p: nat :: OpensRawAt(t, i, p) && IsRaw(t, p, e))
    || (!AfterIdent(t, i) && At(t, i, 'b') && At(t, i + 1, '"') && IsQuoted(t, i + 2, '"', e))
    || (!AfterIdent(t, i) && At(t, i, 'b') && At(t, i + 1, '\'') && IsQuoted(t, i + 2, '\'', e))
    || (At(t, i, '"') && IsQuoted(t, i + 1, '"', e))
    || IsEscapedChar(t, i, e)
    || (At(t, i, '\'') && At(t, i + 2, '\'') && !At(t, i + 1, '\\') && e == i + 3)
  }

  lemma LineIff(t: string, i: nat, e: nat)
    requires At(t, i, '/') && At(t, i + 1, '/')
    ensures IsLineComment(t, i, e) <==> e == LineEnd(t, i)
  {
    LineSkips(t, i);
  }

  lemma LineSkips(t: string, i: nat)
    requires At(t, i, '/') && At(t, i + 1, '/')
    ensures i + 2 <= LineEnd(t, i)
  {
  }

  lemma DepthCons(t: string, j: nat, at: seq<nat>, depth: int)
    ensures DepthBehind(t, [j] + at, depth) == DepthBehind(t, at, depth + MarkAt(t, j))
    decreases |at|
  {
    hide MarkAt;
    if at == [] {
      assert ([j] + at)[..0] == [];
    } else {
      var k := |at| - 1;
      assert ([j] + at)[..|at|] == [j] + at[..k];
      DepthCons(t, j, at[..k], depth);
    }
  }

  lemma {:induction false} BlockPlaces(t: string, j: nat, depth: nat) returns (at: seq<nat>)
    requires j <= |t|
    ensures CommentRun(t, j, depth, at, BlockEnd(t, j, depth))
    decreases |t| - j
  {
    if j == |t| || depth == 0 {
      at := [j];
      assert at[..0] == [];
    } else {
      var w := if MarkAt(t, j) == 0 then 1 else 2;
      var rest := BlockPlaces(t, j + w, depth + MarkAt(t, j));
      at := [j] + rest;
      RunCons(t, j, depth, rest, BlockEnd(t, j, depth));
    }
  }

  lemma RunCons(t: string, j: nat, depth: nat, rest: seq<nat>, e: nat)
    requires j < |t| && depth > 0
    requires CommentRun(t, j + if MarkAt(t, j) == 0 then 1 else 2, depth + MarkAt(t, j), rest, e)
    ensures CommentRun(t, j, depth, [j] + rest, e)
  {
    hide MarkAt;
    var at := [j] + rest;
    forall k | 0 <= k < |at| - 1 ensures DepthBehind(t, at[..k], depth) > 0 {
      if k == 0 {
        assert at[..0] == [];
      } else {
        assert at[..k] == [j] + rest[..k - 1];
        DepthCons(t, j, rest[..k - 1], depth);
      }
    }
    assert at[..|at| - 1] == [j] + rest[..|rest| - 1];
    DepthCons(t, j, rest[..|rest| - 1], depth);
  }

  lemma BlockStep(t: string, j: nat, depth: nat)
    requires j < |t| && depth > 0
    ensures BlockEnd(t, j, depth) ==
      BlockEnd(t, j + if MarkAt(t, j) == 0 then 1 else 2, depth + MarkAt(t, j))
  {
  }

  lemma RunStops(t: string, j: nat, depth: nat, at: seq<nat>, e: nat)
    requires |at| == 1 && CommentRun(t, j, depth, at, e)
    ensures j <= |t| && BlockEnd(t, j, depth) == e
  {
    hide MarkAt;
    assert at[..0] == [];
  }

  lemma RunStarts(t: string, j: nat, depth: nat, at: seq<nat>, e: nat)
    requires CommentRun(t, j, depth, at, e)
    ensures at == [j] + at[1..]
  {
    hide MarkAt, DepthBehind;
  }

  lemma {:induction false} BlockRun(t: string, j: nat, depth: nat, at: seq<nat>, e: nat)
    requires CommentRun(t, j, depth, at, e)
    ensures j <= |t| && BlockEnd(t, j, depth) == e
    decreases |at|
  {
    hide BlockEnd, CommentRun;
    RunStarts(t, j, depth, at, e);
    if |at| == 1 {
      RunStops(t, j, depth, at, e);
    } else {
      var rest := at[1..];
      RunTail(t, j, depth, rest, e);
      BlockStep(t, j, depth);
      BlockRun(t, rest[0], depth + MarkAt(t, j), rest, e);
    }
  }

  lemma RunTail(t: string, j: nat, depth: nat, rest: seq<nat>, e: nat)
    requires rest != [] && CommentRun(t, j, depth, [j] + rest, e)
    ensures depth > 0 && j < |t| && rest[0] == j + if MarkAt(t, j) == 0 then 1 else 2
    ensures CommentRun(t, rest[0], depth + MarkAt(t, j), rest, e)
  {
    hide MarkAt;
    var at := [j] + rest;
    assert at[..0] == [];
    forall k | 0 <= k < |rest| - 1
      ensures DepthBehind(t, rest[..k], depth + MarkAt(t, j)) > 0 && rest[k] < |t|
      ensures rest[k + 1] == rest[k] + if MarkAt(t, rest[k]) == 0 then 1 else 2
    {
      assert at[..k + 1] == [j] + rest[..k] && at[k + 1] == rest[k] && at[k + 2] == rest[k + 1];
      DepthCons(t, j, rest[..k], depth);
    }
    assert at[..|at| - 1] == [j] + rest[..|rest| - 1];
    DepthCons(t, j, rest[..|rest| - 1], depth);
    assert at[0] == j && at[1] == rest[0];
  }

  lemma BlockIff(t: string, i: nat, e: nat)
    requires At(t, i, '/') && At(t, i + 1, '*')
    ensures IsBlockComment(t, i, e) <==> e == BlockEnd(t, i + 2, 1)
  {
    hide CommentRun, BlockEnd;
    var at := BlockPlaces(t, i + 2, 1);
    if IsBlockComment(t, i, e) {
      var at': seq<nat> :| CommentRun(t, i + 2, 1, at', e);
      BlockRun(t, i + 2, 1, at', e);
    }
  }

  lemma {:induction false} QuotedOver(t: string, j: nat, inner: seq<Inner>, quote: char)
    requires WellQuoted(inner, quote) && Reads(t, j, InnerText(inner))
    ensures QuotedEnd(t, j, quote) == QuotedEnd(t, j + |InnerText(inner)|, quote)
    decreases inner
  {
    if inner != [] {
      var head := if inner[0].Plain? then [inner[0].c] else ['\\', inner[0].c];
      ReadsParts(t, j, head, InnerText(inner[1..]));
      assert t[j] == t[j..j + |head|][0] == head[0];
      QuotedOver(t, j + |head|, inner[1..], quote);
    }
  }

  lemma {:induction false} QuotedInner(t: string, j: nat, quote: char) returns (inner: seq<Inner>)
    requires j <= |t| && quote != '\\'
    ensures WellQuoted(inner, quote) && InnerEnds(t, j, inner, quote, QuotedEnd(t, j, quote))
    decreases |t| - j
  {
    hide WellQuoted, InnerEnds;
    if j == |t| || t[j] == quote || (t[j] == '\\' && j + 1 == |t|) {
      inner := [];
      InnerStops(t, j, quote);
    } else if t[j] == '\\' {
      var rest := QuotedInner(t, j + 2, quote);
      inner := [Escaped(t[j + 1])] + rest;
      InnerCons(t, j, Escaped(t[j + 1]), rest, quote, QuotedEnd(t, j, quote));
    } else {
      var rest := QuotedInner(t, j + 1, quote);
      inner := [Plain(t[j])] + rest;
      InnerCons(t, j, Plain(t[j]), rest, quote, QuotedEnd(t, j, quote));
    }
  }

  lemma InnerStops(t: string, j: nat, quote: char)
    requires j <= |t| && quote != '\\' && (j == |t| || t[j] == quote || (t[j] == '\\' && j + 1 == |t|))
    ensures WellQuoted([], quote) && InnerEnds(t, j, [], quote, QuotedEnd(t, j, quote))
  {
    assert InnerText([]) + [quote] == [quote] && InnerText([]) + "\\" == "\\";
    if j < |t| {
      assert t[j..j + 1] == [t[j]];
    }
  }

  lemma InnerCons(t: string, j: nat, c: Inner, rest: seq<Inner>, quote: char, e: nat)
    requires WellQuoted(rest, quote) && (c.Plain? ==> c.c != quote && c.c != '\\')
    requires var head := if c.Plain? then [c.c] else ['\\', c.c];
             Reads(t, j, head) && InnerEnds(t, j + |head|, rest, quote, e)
    ensures WellQuoted([c] + rest, quote) && InnerEnds(t, j, [c] + rest, quote, e)
  {
    var head := if c.Plain? then [c.c] else ['\\', c.c];
    assert ([c] + rest)[1..] == rest;
    assert InnerText([c] + rest) == head + InnerText(rest);
    assert InnerText([c] + rest) + [quote] == head + (InnerText(rest) + [quote]);
    assert InnerText([c] + rest) + "\\" == head + (InnerText(rest) + "\\");
    ReadsJoin(t, j, head, InnerText(rest) + [quote]);
    ReadsJoin(t, j, head, InnerText(rest));
    ReadsJoin(t, j, head, InnerText(rest) + "\\");
  }

  lemma ReadsJoin(t: string, i: nat, a: string, b: string)
    requires Reads(t, i, a)
    ensures Reads(t, i + |a|, b) ==> Reads(t, i, a + b)
  {
    if Reads(t, i + |a|, b) {
      assert t[i..i + |a + b|] == t[i..i + |a|] + t[i + |a|..i + |a| + |b|];
    }
  }

  lemma InnerEndsAt(t: string, j: nat, inner: seq<Inner>, quote: char, e: nat)
    requires WellQuoted(inner, quote) && quote != '\\' && InnerEnds(t, j, inner, quote, e)
    ensures QuotedEnd(t, j, quote) == e
  {
    var n := |InnerText(inner)|;
    if Reads(t, j, InnerText(inner) + [quote]) && e == j + n + 1 {
      QuotedAcross(t, j, inner, quote);
    } else if Reads(t, j, InnerText(inner)) && j + n == |t| {
      QuotedOver(t, j, inner, quote);
    } else {
      ReadsParts(t, j, InnerText(inner), "\\");
      QuotedOver(t, j, inner, quote);
      assert t[j + n] == t[j + n..j + n + 1][0];
    }
  }

  lemma QuotedIff(t: string, j: nat, quote: char, e: nat)
    requires j <= |t| && quote != '\\'
    ensures IsQuoted(t, j, quote, e) <==> e == QuotedEnd(t, j, quote)
  {
    hide WellQuoted, InnerEnds, QuotedEnd;
    var inner := QuotedInner(t, j, quote);
    if IsQuoted(t, j, quote, e) {
      var inner': seq<Inner> :| WellQuoted(inner', quote) && InnerEnds(t, j, inner', quote, e);
      InnerEndsAt(t, j, inner', quote, e);
    }
  }

  lemma {:induction false} HashesRead(t: string, p: nat)
    requires p <= |t|
    ensures Reads(t, p, Hashes(HashEnd(t, p) - p))
    decreases |t| - p
  {
    if At(t, p, '#') {
      HashesRead(t, p + 1);
      var n := HashEnd(t, p) - p - 1;
      assert Hashes(n + 1) == ['#'] + Hashes(n);
      assert t[p..p + 1] == ['#'];
      ReadsJoin(t, p, ['#'], Hashes(n));
    }
  }

  lemma {:induction false} RawIff(t: string, j: nat, h: nat, e: nat)
    requires j <= |t|
    ensures RawEnds(t, j, h, e) <==> e == RawEnd(t, j, h)
    decreases |t| - j
  {
    if j == |t| {
      NoTerminator(t, j, h);
    } else if TerminatorAt(t, j, h) {
      assert RawEnds(t, j, h, j + 1 + h);
    } else {
      RawIff(t, j + 1, h, e);
      RawSkips(t, j, h, e);
    }
  }

  lemma NoTerminator(t: string, j: nat, h: nat)
    requires j >= |t|
    ensures forall k :: j <= k ==> !TerminatorAt(t, k, h)
  {
  }

  lemma RawSkips(t: string, j: nat, h: nat, e: nat)
    requires !TerminatorAt(t, j, h)
    ensures RawEnds(t, j, h, e) <==> RawEnds(t, j + 1, h, e)
  {
    hide TerminatorAt;
  }

  lemma IsRawIff(t: string, p: nat, e: nat)
    requires p <= |t|
    ensures IsRaw(t, p, e) <==>
      At(t, HashEnd(t, p), '"') && e == RawEnd(t, HashEnd(t, p) + 1, HashEnd(t, p) - p)
  {
    hide RawEnd, RawEnds, HashEnd;
    var q := HashEnd(t, p);
    HashesRead(t, p);
    if At(t, q, '"') {
      RawIff(t, q + 1, q - p, e);
    }
    if IsRaw(t, p, e) {
      var h: nat :| Reads(t, p, Hashes(h)) && At(t, p + h, '"') && RawEnds(t, p + h + 1, h, e);
      HashesAcross(t, p, h);
    }
  }

  lemma {:induction false} CharIff(t: string, j: nat, e: nat)
    requires j <= |t|
    ensures e == CharEnd(t, j) <==>
      j <= e <= |t| && ((j < e && t[e - 1] == '\'' && Lacks(t, j, e - 1, '\'')) || (e == |t| && Lacks(t, j, e, '\'')))
    decreases |t| - j
  {
    if j < |t| && t[j] != '\'' {
      CharIff(t, j + 1, e);
    }
  }

  lemma SlashIff(t: string, i: nat, e: nat)
    requires At(t, i, '/')
    ensures RegionEnd(t, i) == Some(e) <==> IsRegion(t, i, e)
  {
    hide LineEnd, BlockEnd, HashEnd, RawEnd, QuotedEnd, CharEnd, IsRaw, IsQuoted, Lacks, CommentEnds;
    if At(t, i + 1, '/') {
      LineIff(t, i, e);
    } else if At(t, i + 1, '*') {
      BlockIff(t, i, e);
    }
  }

  lemma RawAtIff(t: string, i: nat, e: nat)
    requires i < |t|
    ensures (exists p: nat :: OpensRawAt(t, i, p) && IsRaw(t, p, e)) <==>
      OpensRaw(t, i) && e == RawEnd(t, HashEnd(t, RawStart(t, i).value) + 1,
                                    HashEnd(t, RawStart(t, i).value) - RawStart(t, i).value)
  {
    hide RawEnd, HashEnd, IsRaw, AfterIdent;
    var start := RawStart(t, i);
    if start.Some? {
      IsRawIff(t, start.value, e);
    }
  }

  /** Raw, byte and plain strings. */
  lemma WordIff(t: string, i: nat, e: nat)
    requires i < |t| && t[i] != '/' && t[i] != '\''
    ensures RegionEnd(t, i) == Some(e) <==> IsRegion(t, i, e)
  {
    hide LineEnd, BlockEnd, HashEnd, RawEnd, QuotedEnd, CharEnd, IsRaw, IsQuoted, Lacks, AfterIdent, CommentEnds;
    RawAtIff(t, i, e);
    if t[i] == '"' {
      hide OpensRaw, OpensRawAt;
      NoRawAt(t, i);
      QuotedIff(t, i + 1, '"', e);
    } else if t[i] == 'b' && i + 2 <= |t| {
      QuotedIff(t, i + 2, '"', e);
      QuotedIff(t, i + 2, '\'', e);
    }
  }

  lemma NoRawAt(t: string, i: nat)
    requires At(t, i, '"')
    ensures !OpensRaw(t, i) && forall p: nat :: !OpensRawAt(t, i, p)
  {
  }

  lemma TickIff(t: string, i: nat, e: nat)
    requires At(t, i, '\'')
    ensures RegionEnd(t, i) == Some(e) <==> IsRegion(t, i, e)
  {
    hide LineEnd, BlockEnd, HashEnd, RawEnd, QuotedEnd, CharEnd, IsRaw, IsQuoted, AfterIdent, CommentEnds;
    if At(t, i + 1, '\\') {
      CharIff(t, if i + 2 < |t| then i + 3 else i + 2, e);
    }
  }

  /** The scan ends a region exactly where the literal or comment it found ends. */
  lemma RegionIff(t: string, i: nat, e: nat)
    requires i < |t|
    ensures RegionEnd(t, i) == Some(e) <==> IsRegion(t, i, e)
  {
    hide RegionEnd, IsRegion;
    if t[i] == '/' {
      SlashIff(t, i, e);
    } else if t[i] == '\'' {
      TickIff(t, i, e);
    } else {
      WordIff(t, i, e);
    }
  }

  // ----- masking shows what lies in no literal and no comment

  datatype Span = Span(from: nat, to: nat)

  ghost predicate InSpan(spans: seq<Span>, k: nat) {
    exists n :: 0 <= n < |spans| && spans[n].from <= k < spans[n].to
  }

  /** From `i` on these are the literals and comments of the text, in order: nothing between them opens one. */
  ghost predicate SpansFrom(t: string, i: nat, spans: seq<Span>) {
    && (forall n :: 0 <= n < |spans| ==>
          i <= spans[n].from < spans[n].to <= |t| && IsRegion(t, spans[n].from, spans[n].to))
    && (forall n, m :: 0 <= n < m < |spans| ==> spans[n].to <= spans[m].from)
    && (forall k: nat, e: nat :: i <= k < |t| && IsRegion(t, k, e) ==> InSpan(spans, k))
  }

  lemma RegionEndBounds(t: string, i: nat)
    requires i < |t|
    ensures RegionEnd(t, i).Some? ==> i < RegionEnd(t, i).value <= |t|
  {
  }

  lemma SpanAt(t: string, i: nat, spans: seq<Span>, e: nat)
    requires i < |t| && SpansFrom(t, i, spans) && IsRegion(t, i, e)
    ensures spans != [] && spans[0] == Span(i, e)
  {
    hide IsRegion;
    var n :| 0 <= n < |spans| && spans[n].from <= i < spans[n].to;
    RegionIff(t, i, e);
    RegionIff(t, i, spans[n].to);
    assert spans[0].from >= i;
  }

  lemma SpansAfter(t: string, i: nat, spans: seq<Span>, e: nat)
    requires i < |t| && SpansFrom(t, i, spans) && spans != [] && spans[0] == Span(i, e)
    ensures SpansFrom(t, e, spans[1..])
    ensures forall k: nat :: e <= k ==> (InSpan(spans, k) <==> InSpan(spans[1..], k))
  {
    hide IsRegion;
    forall k: nat | e <= k ensures InSpan(spans, k) <==> InSpan(spans[1..], k) {
      if InSpan(spans, k) {
        var n :| 0 <= n < |spans| && spans[n].from <= k < spans[n].to;
        assert spans[1..][n - 1] == spans[n];
      }
    }
  }

  lemma SpansLater(t: string, i: nat, spans: seq<Span>)
    requires i < |t| && SpansFrom(t, i, spans) && RegionEnd(t, i).None?
    ensures SpansFrom(t, i + 1, spans) && !InSpan(spans, i)
  {
    hide IsRegion, RegionEnd;
    forall n | 0 <= n < |spans| ensures spans[n].from != i {
      RegionIff(t, i, spans[n].to);
    }
  }

  lemma {:induction false} MaskedShows(t: string, i: nat, spans: seq<Span>, k: nat)
    requires SpansFrom(t, i, spans) && i <= k < |t|
    ensures MaskFrom(t, i)[k - i] == if InSpan(spans, k) then Blanked(t[k]) else t[k]
    decreases |t| - i
  {
    hide RegionEnd, MaskFrom, IsRegion, SpansFrom, Blanked;
    var end := RegionEnd(t, i);
    if end.Some? {
      var e := end.value;
      RegionIff(t, i, e);
      SpanAt(t, i, spans, e);
      MaskRegion(t, i, k);
      if k >= e {
        RegionEndBounds(t, i);
        SpansAfter(t, i, spans, e);
        MaskedShows(t, e, spans[1..], k);
      }
    } else {
      MaskPlain(t, i, k);
      SpansLater(t, i, spans);
      if k > i {
        MaskedShows(t, i + 1, spans, k);
      }
    }
  }

  /** Every text has its literals and comments. */
  lemma {:induction false} SpansOf(t: string, i: nat) returns (spans: seq<Span>)
    requires i <= |t|
    ensures SpansFrom(t, i, spans)
    decreases |t| - i
  {
    hide RegionEnd, IsRegion;
    if i == |t| {
      spans := [];
    } else {
      var end := RegionEnd(t, i);
      RegionEndBounds(t, i);
      if end.Some? {
        var rest := SpansOf(t, end.value);
        spans := [Span(i, end.value)] + rest;
        RegionIff(t, i, end.value);
        SpansJoin(t, i, end.value, rest);
      } else {
        spans := SpansOf(t, i + 1);
        forall e: nat ensures !IsRegion(t, i, e) {
          RegionIff(t, i, e);
        }
      }
    }
  }

  lemma SpansJoin(t: string, i: nat, e: nat, rest: seq<Span>)
    requires i < e <= |t| && IsRegion(t, i, e) && SpansFrom(t, e, rest)
    ensures SpansFrom(t, i, [Span(i, e)] + rest)
  {
    hide IsRegion;
    var spans := [Span(i, e)] + rest;
    forall k: nat, d: nat | i <= k < |t| && IsRegion(t, k, d) ensures InSpan(spans, k) {
      if k < e {
        assert spans[0].from <= k < spans[0].to;
      } else {
        var n :| 0 <= n < |rest| && rest[n].from <= k < rest[n].to;
        assert spans[n + 1] == rest[n];
      }
    }
  }

  /**
   * The mask shows exactly what lies in no literal and no comment: whatever
   * splits the text into literals, comments and the code between them, each
   * character of the code is as it was, and each other one is blanked.
   */
  lemma MaskShowsCode(t: string)
    ensures exists spans: seq<Span> :: SpansFrom(t, 0, spans)
    ensures forall spans: seq<Span>, k: nat :: SpansFrom(t, 0, spans) && k < |t| ==>
      Mask(t)[k] == if InSpan(spans, k) then Blanked(t[k]) else t[k]
  {
    hide MaskFrom, SpansFrom, InSpan, Blanked;
    var spans := SpansOf(t, 0);
    forall spans: seq<Span>, k: nat | SpansFrom(t, 0, spans) && k < |t|
      ensures Mask(t)[k] == if InSpan(spans, k) then Blanked(t[k]) else t[k]
    {
      MaskedShows(t, 0, spans, k);
    }
  }

  // ----- the loops

  method ScanLine(text: string, i: nat) returns (j: nat)
    requires i <= |text|
    ensures j == LineEnd(text, i)
  {
    j := i;
    while j < |text| && text[j] != '\n'
      invariant i <= j <= |text| && LineEnd(text, i) == LineEnd(text, j)
    {
      j := j + 1;
    }
  }

  method ScanBlock(text: string, i: nat) returns (j: nat)
    requires i + 2 <= |text|
    ensures j == BlockEnd(text, i + 2, 1)
  {
    var depth: nat := 1;
    j := i + 2;
    while j < |text| && depth > 0
      invariant i + 2 <= j <= |text| && BlockEnd(text, i + 2, 1) == BlockEnd(text, j, depth)
      decreases |text| - j
    {
      if text[j] == '/' && At(text, j + 1, '*') {
        depth := depth + 1;
        j := j + 2;
      } else if text[j] == '*' && At(text, j + 1, '/') {
        depth := depth - 1;
        j := j + 2;
      } else {
        j := j + 1;
      }
    }
  }

  method ScanHashes(text: string, p: nat) returns (h: nat)
    requires p <= |text|
    ensures p + h == HashEnd(text, p)
  {
    h := 0;
    while p + h < |text| && text[p + h] == '#'
      invariant p + h <= |text| && HashEnd(text, p) == HashEnd(text, p + h)
    {
      h := h + 1;
    }
  }

  method FindTerminator(text: string, from: nat, h: nat) returns (end: nat)
    requires from <= |text|
    ensures end == RawEnd(text, from, h)
  {
    var j := from;
    while j < |text|
      invariant from <= j <= |text| && RawEnd(text, from, h) == RawEnd(text, j, h)
    {
      var k := 0;
      while j + 1 + k < |text| && k < h && text[j + 1 + k] == '#'
        invariant k <= h && j + 1 + k <= |text| && forall l :: j < l <= j + k ==> text[l] == '#'
      {
        k := k + 1;
      }
      if text[j] == '"' && k == h {
        return j + 1 + h;
      }
      j := j + 1;
    }
    end := |text|;
  }

  method ScanQuoted(text: string, quotePos: nat, quote: char) returns (end: nat)
    ensures end == QuotedEnd(text, quotePos + 1, quote)
  {
    var j := quotePos + 1;
    while j < |text|
      invariant QuotedEnd(text, quotePos + 1, quote) == QuotedEnd(text, j, quote)
      decreases |text| - j
    {
      if text[j] == '\\' {
        j := j + 2;
      } else if text[j] == quote {
        return j + 1;
      } else {
        j := j + 1;
      }
    }
    end := |text|;
  }

  method ScanChar(text: string, from: nat) returns (j: nat)
    requires from <= |text|
    ensures j == CharEnd(text, from)
  {
    j := from;
    while j < |text| && text[j] != '\''
      invariant from <= j <= |text| && CharEnd(text, from) == CharEnd(text, j)
    {
      j := j + 1;
    }
    if j < |text| {
      j := j + 1;
    }
  }

  method ScanRegion(text: string, i: nat) returns (end: Option<nat>)
    requires i < |text|
    ensures end == RegionEnd(text, i)
  {
    hide LineEnd, BlockEnd, HashEnd, RawEnd, QuotedEnd, CharEnd;
    var c := text[i];
    if c == '/' && At(text, i + 1, '/') {
      var j := ScanLine(text, i);
      return Some(j);
    }
    if c == '/' && At(text, i + 1, '*') {
      var j := ScanBlock(text, i);
      return Some(j);
    }
    var prevIsIdent := i > 0 && IsIdentChar(text[i - 1]);
    if !prevIsIdent && (c == 'r' || (c == 'b' && At(text, i + 1, 'r'))) {
      var p := if c == 'r' then i + 1 else i + 2;
      var h := ScanHashes(text, p);
      if p + h < |text| && text[p + h] == '"' {
        var j := FindTerminator(text, p + h + 1, h);
        return Some(j);
      }
    }
    if !prevIsIdent && c == 'b' && (At(text, i + 1, '"') || At(text, i + 1, '\'')) {
      var j := ScanQuoted(text, i + 1, text[i + 1]);
      return Some(j);
    }
    if c == '"' {
      var j := ScanQuoted(text, i, '"');
      return Some(j);
    }
    if c == '\'' && At(text, i + 1, '\\') {
      var j := ScanChar(text, if i + 2 < |text| then i + 3 else i + 2);
      return Some(j);
    }
    if c == '\'' && At(text, i + 2, '\'') {
      return Some(i + 3);
    }
    end := None;
  }

  method Blank(chars: array<char>, a: nat, b: nat)
    requires a <= b <= chars.Length
    modifies chars
    ensures forall j :: 0 <= j < chars.Length ==>
      chars[j] == if a <= j < b then Blanked(old(chars[j])) else old(chars[j])
  {
    for k := a to b
      invariant forall j :: 0 <= j < chars.Length ==>
        chars[j] == if a <= j < k then Blanked(old(chars[j])) else old(chars[j])
    {
      if chars[k] != '\n' {
        chars[k] := ' ';
      }
    }
  }

  /** A step of the walk fixes the output up to the next place. */
  lemma MaskStep(t: string, i: nat)
    requires i < |t| == |Mask(t)| && MaskFrom(t, i) == Mask(t)[i..]
    ensures var end := RegionEnd(t, i);
            if end.Some? then
              && MaskFrom(t, end.value) == Mask(t)[end.value..]
              && forall j :: i <= j < end.value ==> Mask(t)[j] == Blanked(t[j])
            else MaskFrom(t, i + 1) == Mask(t)[i + 1..] && Mask(t)[i] == t[i]
  {
    hide RegionEnd, Mask;
    var end := RegionEnd(t, i);
    var m, all := MaskFrom(t, i), Mask(t);
    assert |all| == |t|;
    if end.Some? {
      var e := end.value;
      assert m == Blanks(t[i..e]) + MaskFrom(t, e);
      assert all[e..] == m[e - i..] == MaskFrom(t, e);
      forall j | i <= j < e ensures all[j] == Blanked(t[j]) {
        assert all[j] == m[j - i] == Blanks(t[i..e])[j - i];
      }
    } else {
      assert all[i] == m[0];
      assert all[i + 1..] == m[1..];
    }
  }

  lemma MaskLength(t: string)
    ensures |Mask(t)| == |t| && MaskFrom(t, 0) == Mask(t)[0..]
  {
  }

  /** The whole pass: blank region after region in a copy of the text, walking it once. */
  method MaskCode(text: string) returns (masked: string)
    ensures masked == Mask(text)
  {
    hide RegionEnd, MaskFrom, Mask;
    var chars := new char[|text|](k requires 0 <= k < |text| => text[k]);
    var i := 0;
    MaskLength(text);
    while i < |text|
      invariant i <= |text| == chars.Length == |Mask(text)|
      invariant forall j :: i <= j < |text| ==> chars[j] == text[j]
      invariant forall j :: 0 <= j < i ==> chars[j] == Mask(text)[j]
      invariant MaskFrom(text, i) == Mask(text)[i..]
      decreases |text| - i
    {
      MaskStep(text, i);
      var end := ScanRegion(text, i);
      if end.Some? {
        Blank(chars, i, end.value);
        i := end.value;
      } else {
        i := i + 1;
      }
    }
    masked := chars[..];
  }
}
