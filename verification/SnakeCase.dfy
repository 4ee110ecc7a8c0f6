/** What folding a text into a variable name keeps, splits and replaces. */
module SnakeCase {
  import opened CharClasses
  import opened Automation
  import opened Naming

  predicate IsLower(c: char) {
    'a' <= c <= 'z'
  }

  predicate IsUpper(c: char) {
    'A' <= c <= 'Z'
  }

  /** A character that may stand in a folded name. */
  predicate IsFolded(c: char) {
    IsLower(c) || IsDigit(c) || c == '_'
  }

  predicate AllFolded(s: string) {
    forall i :: 0 <= i < |s| ==> IsFolded(s[i])
  }

  /** A name that folding leaves as it is. */
  predicate IsFoldedName(s: string) {
    s != "" && AllFolded(s) && !IsDigit(s[0])
  }

  /** A letter keeps its letter, a digit and an underscore stay, and everything else is replaced. */
  lemma FoldedChar(c: char)
    ensures IsFolded(SnakeChar(c)) && (SnakeChar(c) == c <==> IsFolded(c))
    ensures IsUpper(c) ==> IsLower(SnakeChar(c)) && SnakeChar(c) as int - 'a' as int == c as int - 'A' as int
    ensures !IsFolded(c) && !IsUpper(c) ==> SnakeChar(c) == '_'
  {
  }

  /** A word ends and a capital follows. */
  predicate Breaks(a: string, b: string) {
    a != "" && b != "" && (IsLower(a[|a| - 1]) || IsDigit(a[|a| - 1])) && IsUpper(b[0])
  }

  /** Two texts side by side: an underscore comes between them exactly where a word ends before a capital. */
  lemma {:induction false} SnakeAppend(a: string, b: string)
    ensures Snake(a + b) == Snake(a) + (if Breaks(a, b) then "_" else "") + Snake(b)
  {
    hide Snake, SnakeChar, IsLower, IsUpper;
    SnakeOfNothing();
    if a == "" {
      assert a + b == b;
    } else {
      assert a + b == [a[0]] + (a[1..] + b) && a == [a[0]] + a[1..];
      SnakeAppend(a[1..], b);
      SnakeCons(a[0], a[1..]);
      SnakeCons(a[0], a[1..] + b);
      assert |a| == 1 ==> a[1..] == "";
    }
  }

  lemma SnakeOfNothing()
    ensures Snake("") == ""
  {
  }

  lemma SnakeCons(c: char, s: string)
    ensures Snake([c] + s) == [SnakeChar(c)] + (if Breaks([c], s) then "_" else "") + Snake(s)
  {
    assert ([c] + s)[1..] == s;
  }

  lemma SnakeOne(c: char)
    ensures Snake([c]) == [SnakeChar(c)]
  {
    assert [c][1..] == "";
  }

  lemma {:induction false} SnakeOfFolded(s: string)
    requires AllFolded(s)
    ensures Snake(s) == s
  {
    if s != "" {
      SnakeOfFolded(s[1..]);
      assert s == [s[0]] + s[1..];
    }
  }

  lemma {:induction false} SnakeIsFolded(s: string)
    ensures AllFolded(Snake(s)) && (s != "" ==> Snake(s) != "")
  {
    if s != "" {
      SnakeIsFolded(s[1..]);
      FoldedChar(s[0]);
    }
  }

  /** Folding gives a folded name, and keeps a text if and only if it is one; so folding twice is folding once. */
  lemma SanitizeKeepsIff(s: string)
    ensures IsFoldedName(SanitizeVariableName(s))
    ensures SanitizeVariableName(s) == s <==> IsFoldedName(s)
    ensures SanitizeVariableName(SanitizeVariableName(s)) == SanitizeVariableName(s)
  {
    SnakeIsFolded(s);
    if AllFolded(s) {
      SnakeOfFolded(s);
    }
    SnakeIsFolded(SanitizeVariableName(s));
    SnakeOfFolded(SanitizeVariableName(s));
  }

  // ----- camel case

  /** A word of a name: a letter, then at least one letter or digit, all lower case. */
  predicate IsWord(w: string) {
    |w| > 1 && IsLower(w[0]) && forall i :: 0 <= i < |w| ==> IsLower(w[i]) || IsDigit(w[i])
  }

  predicate AreWords(words: seq<string>) {
    forall k :: 0 <= k < |words| ==> IsWord(words[k])
  }

  function Capital(c: char): char
    requires IsLower(c)
  {
    (c as int - 32) as char
  }

  /** The words run together, each but the first with a capital. */
  function Camel(words: seq<string>): string
    requires AreWords(words)
  {
    if words == [] then ""
    else if |words| == 1 then words[0]
    else
      var last := words[|words| - 1];
      Camel(words[..|words| - 1]) + ([Capital(last[0])] + last[1..])
  }

  function Joined(words: seq<string>): string {
    if words == [] then ""
    else if |words| == 1 then words[0]
    else Joined(words[..|words| - 1]) + "_" + words[|words| - 1]
  }

  lemma CamelEnds(words: seq<string>)
    requires words != [] && AreWords(words)
    ensures var c := Camel(words); c != "" && (IsLower(c[|c| - 1]) || IsDigit(c[|c| - 1]))
  {
    var last := words[|words| - 1];
    assert IsWord(last);
    assert ([Capital(last[0])] + last[1..])[|last| - 1] == last[|last| - 1];
  }

  lemma FoldedWord(w: string)
    requires IsWord(w)
    ensures AllFolded(w) && AllFolded(w[1..])
  {
  }

  lemma SnakeOfCapitalized(w: string)
    requires IsWord(w)
    ensures Snake([Capital(w[0])] + w[1..]) == w && Snake(w) == w
  {
    hide Snake, SnakeChar, AllFolded;
    FoldedWord(w);
    SnakeOfFolded(w);
    SnakeOfFolded(w[1..]);
    SnakeAppend([Capital(w[0])], w[1..]);
    SnakeOne(Capital(w[0]));
    FoldedChar(Capital(w[0]));
    assert w == [w[0]] + w[1..];
  }

  /** Camel case becomes the words with underscores between them. */
  lemma {:induction false} CamelBecomesSnake(words: seq<string>)
    requires AreWords(words)
    ensures Snake(Camel(words)) == Joined(words)
  {
    if |words| == 1 {
      SnakeOfCapitalized(words[0]);
    } else if |words| > 1 {
      var front, last := words[..|words| - 1], words[|words| - 1];
      CamelBecomesSnake(front);
      CamelEnds(front);
      SnakeOfCapitalized(last);
      SnakeAppend(Camel(front), [Capital(last[0])] + last[1..]);
    }
  }

  // ----- the names of tokens

  lemma ChatIdIs()
    ensures SanitizeVariableName("chatId") == "chat_id"
  {
    hide Snake, SnakeChar;
    assert IsWord("chat") && IsWord("id") && [Capital('i')] + "id"[1..] == "Id";
    SnakeOfCapitalized("id");
    SnakeOfCapitalized("chat");
    SnakeAppend("chat", "Id");
    assert "chat" + "Id" == "chatId" && "chat" + "_" + "id" == "chat_id";
  }

  /** What the user types for the tokens of a trigger, an agent and a repeat. */
  lemma TypedNames(d: TokenDescriptor)
    ensures d.sourceKind.FromTrigger? && d.ref.output == "payload" ==> VariableNameFor(d) == "trigger_payload"
    ensures d.sourceKind.FromTrigger? && d.ref.output == "result" ==> VariableNameFor(d) == "trigger_result"
    ensures d.sourceKind.FromTrigger? && d.ref.output == "chatId" ==> VariableNameFor(d) == "trigger_chat_id"
    ensures d.sourceKind.FromAgent? && d.ref.output == "result" ==> VariableNameFor(d) == "agent_result"
    ensures d.sourceKind.FromAgent? && d.ref.output == "chatId" ==> VariableNameFor(d) == "agent_chat_id"
    ensures d.sourceKind.FromItem? ==> VariableNameFor(d) == "item"
  {
    hide SanitizeVariableName;
    ChatIdIs();
    SanitizeKeepsIff("payload");
    SanitizeKeepsIff("result");
  }

  /** An authored key in folded form is typed as it is, and the user's own names are those of the title. */
  lemma AuthoredNames(d: TokenDescriptor)
    requires !d.sourceKind.FromTrigger? && !d.sourceKind.FromItem?
    requires d.sourceKind.FromAgent? ==> d.ref.output !in {"result", "chatId"}
    ensures var authored := if d.sourceKind.FromVariable? then d.title else d.ref.output;
            VariableNameFor(d) == authored <==> IsFoldedName(authored)
  {
    SanitizeKeepsIff(d.title);
    SanitizeKeepsIff(d.ref.output);
  }
}
