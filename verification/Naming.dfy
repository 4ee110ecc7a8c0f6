/** How tokens get the names a user types, and how a scope's names are told apart. */
module Naming {
  import opened CharClasses
  import opened Automation

  // ----- base names

  function LowerCase(c: char): char {
    if 'A' <= c <= 'Z' then (c as int + 32) as char else c
  }

  function SnakeChar(c: char): char {
    var l := LowerCase(c);
    if 'a' <= l <= 'z' || IsDigit(l) || l == '_' then l else '_'
  }

  /** Snake case: an underscore before an upper-case letter that follows a lower-case one or a digit. */
  function Snake(raw: string): string {
    if raw == "" then ""
    else
      var rest := Snake(raw[1..]);
      var split := |raw| > 1 && ('a' <= raw[0] <= 'z' || IsDigit(raw[0])) && 'A' <= raw[1] <= 'Z';
      [SnakeChar(raw[0])] + (if split then "_" else "") + rest
  }

  function SanitizeVariableName(raw: string): string {
    var snake := Snake(raw);
    if snake == "" then "_" else if IsDigit(snake[0]) then "_" + snake else snake
  }

  function VariableNameFor(d: TokenDescriptor): string {
    match d.sourceKind
    case FromTrigger => "trigger_" + SanitizeVariableName(d.ref.output)
    case FromAgent =>
      if d.ref.output in {"result", "chatId"} then "agent_" + SanitizeVariableName(d.ref.output)
      else SanitizeVariableName(d.ref.output)
    case FromItem => "item"
    case FromVariable => SanitizeVariableName(d.title)
    case FromBuiltin => SanitizeVariableName(d.ref.output)
    case FromAskMe => SanitizeVariableName(d.ref.output)
    case FromAction => SanitizeVariableName(d.ref.output)
  }

  lemma {:induction false} SnakeIsNameLike(raw: string)
    ensures AllNameChars(Snake(raw))
  {
    if raw != "" {
      SnakeIsNameLike(raw[1..]);
    }
  }

  lemma SanitizedIsValid(raw: string)
    ensures ValidName(SanitizeVariableName(raw))
  {
    SnakeIsNameLike(raw);
  }

  lemma ValidAppend(a: string, b: string)
    requires ValidName(a) && AllNameChars(b)
    ensures ValidName(a + b)
  {
  }

  lemma BaseNameIsValid(d: TokenDescriptor)
    ensures ValidName(VariableNameFor(d))
  {
    SanitizedIsValid(d.ref.output);
    SanitizedIsValid(d.title);
    ValidAppend("trigger_", SanitizeVariableName(d.ref.output));
    ValidAppend("agent_", SanitizeVariableName(d.ref.output));
  }

  lemma SuffixedIsValid(base: string, n: nat)
    requires ValidName(base)
    ensures ValidName(Suffixed(base, n))
  {
    DecimalRoundTrip(n);
    ValidAppend(base, "_");
    ValidAppend(base + "_", Decimal(n));
  }

  /** The name a descriptor asks for: its base, with the ordinal its step has stored. */
  function Nominal(d: TokenDescriptor): string {
    match d.nameOrdinal
    case None => VariableNameFor(d)
    case Some(n) => Suffixed(VariableNameFor(d), n)
  }

  lemma NominalIsValid(d: TokenDescriptor)
    ensures ValidName(Nominal(d))
  {
    BaseNameIsValid(d);
    if d.nameOrdinal.Some? {
      SuffixedIsValid(VariableNameFor(d), d.nameOrdinal.value);
    }
  }

  // ----- the search for a free suffix ends

  /** The suffixed names already tried. */
  ghost function Tried(base: string, k: nat): set<string> {
    if k <= 2 then {} else Tried(base, k - 1) + {Suffixed(base, k - 1)}
  }

  lemma {:induction false} TriedAre(base: string, k: nat, n: nat)
    requires 2 <= k
    ensures |Tried(base, k)| == k - 2
    ensures n >= k ==> Suffixed(base, n) !in Tried(base, k)
  {
    if k > 2 {
      TriedAre(base, k - 1, k - 1);
      TriedAre(base, k - 1, n);
      if n >= k && Suffixed(base, n) == Suffixed(base, k - 1) {
        SuffixedInjective(base, n, k - 1);
      }
    }
  }

  lemma TriedAreFew(base: string, taken: set<string>, k: nat)
    requires 2 <= k && Tried(base, k) <= taken
    ensures k - 2 <= |taken|
  {
    TriedAre(base, k, k);
    SubsetSize(Tried(base, k), taken);
  }

  lemma {:induction false} SubsetSize(a: set<string>, b: set<string>)
    requires a <= b
    ensures |a| <= |b|
    decreases a
  {
    if a != {} {
      var x :| x in a;
      SubsetSize(a - {x}, b - {x});
    }
  }

  /** The least suffix from `k` on whose name is free. */
  function FirstFree(base: string, taken: set<string>, k: nat): (n: nat)
    requires 2 <= k && Tried(base, k) <= taken
    ensures n >= k && Suffixed(base, n) !in taken
    ensures forall m :: k <= m < n ==> Suffixed(base, m) in taken
    decreases |taken| + 3 - k
  {
    if Suffixed(base, k) !in taken then k
    else
      TriedAreFew(base, taken, k + 1);
      FirstFree(base, taken, k + 1)
  }

  // ----- the namespace of a scope

  type RefKey = (string, string)

  function Key(ref: TokenRef): RefKey {
    (ref.stepId, ref.output)
  }

  datatype Namespace = Namespace(byName: map<string, TokenDescriptor>, namesByRef: map<RefKey, string>) {
    /** The name assigned to a reference; its field does not matter. */
    function NameFor(ref: TokenRef): Option<string> {
      if Key(ref) in namesByRef then Some(namesByRef[Key(ref)]) else None
    }
  }

  const EMPTY := Namespace(map[], map[])

  /** The base name with the least suffix from 2 on that no taken name has. */
  ghost predicate LeastFree(base: string, taken: set<string>, name: Option<string>) {
    exists n: nat :: 2 <= n && name == Some(Suffixed(base, n)) && Suffixed(base, n) !in taken
      && forall m: nat :: 2 <= m < n ==> Suffixed(base, m) in taken
  }

  /** The name a descriptor gets among the names taken so far; `None` for a second claim on a user's own name. */
  function Assign(taken: set<string>, d: TokenDescriptor): (name: Option<string>)
    ensures name.Some? ==> name.value !in taken
    ensures name.None? <==> Nominal(d) in taken && d.sourceKind.FromVariable?
    ensures Nominal(d) !in taken ==> name == Some(Nominal(d))
    ensures Nominal(d) in taken && name.Some? ==> LeastFree(VariableNameFor(d), taken, name)
  {
    if Nominal(d) !in taken then Some(Nominal(d))
    else if d.sourceKind.FromVariable? then None
    else
      var n := FirstFree(VariableNameFor(d), taken, 2);
      Some(Suffixed(VariableNameFor(d), n))
  }

  function AddDescriptor(ns: Namespace, d: TokenDescriptor): Namespace {
    match Assign(ns.byName.Keys, d)
    case None => ns
    case Some(name) => Namespace(ns.byName[name := d], ns.namesByRef[Key(d.ref) := name])
  }

  function Build(ds: seq<TokenDescriptor>): Namespace {
    if ds == [] then EMPTY else AddDescriptor(Build(ds[..|ds| - 1]), ds[|ds| - 1])
  }

  method BuildVariableNamespace(descriptors: seq<TokenDescriptor>) returns (ns: Namespace)
    ensures ns == Build(descriptors)
  {
    var byName: map<string, TokenDescriptor> := map[];
    var namesByRef: map<RefKey, string> := map[];
    for i := 0 to |descriptors|
      invariant Namespace(byName, namesByRef) == Build(descriptors[..i])
    {
      var d := descriptors[i];
      assert descriptors[..i + 1][..i] == descriptors[..i];
      var base := VariableNameFor(d);
      var name := if d.nameOrdinal.None? then base else Suffixed(base, d.nameOrdinal.value);
      if name in byName {
        if d.sourceKind.FromVariable? {
          continue;
        }
        var suffix := 2;
        while Suffixed(base, suffix) in byName
          invariant 2 <= suffix && Tried(base, suffix) <= byName.Keys
          invariant FirstFree(base, byName.Keys, 2) == FirstFree(base, byName.Keys, suffix)
          decreases |byName| + 3 - suffix
        {
          TriedAreFew(base, byName.Keys, suffix + 1);
          suffix := suffix + 1;
        }
        name := Suffixed(base, suffix);
      }
      byName := byName[name := d];
      namesByRef := namesByRef[Key(d.ref) := name];
    }
    assert descriptors[..|descriptors|] == descriptors;
    ns := Namespace(byName, namesByRef);
  }
}
