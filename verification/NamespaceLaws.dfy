/** When names are distinct, stable, and inverse to references. */
module NamespaceLaws {
  import opened CharClasses
  import opened Automation
  import opened Naming

  lemma BuildPrefixStep(ds: seq<TokenDescriptor>, i: nat)
    requires i < |ds|
    ensures Build(ds[..i + 1]) == AddDescriptor(Build(ds[..i]), ds[i])
  {
    assert ds[..i + 1] == ds[..i] + [ds[i]];
  }

  /** Every name can be typed: it is one identifier. */
  lemma {:induction false} NamesAreValid(ds: seq<TokenDescriptor>)
    ensures forall n :: n in Build(ds).byName ==> ValidName(n)
  {
    if ds != [] {
      var d := ds[|ds| - 1];
      NamesAreValid(ds[..|ds| - 1]);
      NominalIsValid(d);
      BaseNameIsValid(d);
      var taken := Build(ds[..|ds| - 1]).byName.Keys;
      SuffixedIsValid(VariableNameFor(d), FirstFree(VariableNameFor(d), taken, 2));
    }
  }

  /** Tokens that come later in the scope never rebind a name. */
  lemma {:induction false} AppendKeepsNames(ds: seq<TokenDescriptor>, es: seq<TokenDescriptor>)
    ensures forall n :: n in Build(ds).byName ==>
      n in Build(ds + es).byName && Build(ds + es).byName[n] == Build(ds).byName[n]
  {
    if es == [] {
      assert ds + es == ds;
    } else {
      var es' := es[..|es| - 1];
      AppendKeepsNames(ds, es');
      assert ds + es == (ds + es') + [es[|es| - 1]];
    }
  }

  /** The name the `i`-th token of a scope is given. */
  ghost function NameAt(ds: seq<TokenDescriptor>, i: nat): Option<string>
    requires i < |ds|
  {
    Assign(Build(ds[..i]).byName.Keys, ds[i])
  }

  lemma NameAtIsBound(ds: seq<TokenDescriptor>, i: nat, j: nat)
    requires i < j <= |ds|
    ensures NameAt(ds, i).Some? ==>
      NameAt(ds, i).value in Build(ds[..j]).byName && Build(ds[..j]).byName[NameAt(ds, i).value] == ds[i]
  {
    BuildPrefixStep(ds, i);
    AppendKeepsNames(ds[..i + 1], ds[i + 1..j]);
    assert ds[..i + 1] + ds[i + 1..j] == ds[..j];
  }

  /** Two tokens of a scope never get the same name, and each name leads back to its own token. */
  lemma NamesAreDistinct(ds: seq<TokenDescriptor>)
    ensures forall i, j :: 0 <= i < j < |ds| && NameAt(ds, i).Some? ==> NameAt(ds, j) != NameAt(ds, i)
    ensures forall i :: 0 <= i < |ds| && NameAt(ds, i).Some? ==>
      NameAt(ds, i).value in Build(ds).byName && Build(ds).byName[NameAt(ds, i).value] == ds[i]
    ensures forall i :: 0 <= i < |ds| && NameAt(ds, i).None? ==>
      ds[i].sourceKind.FromVariable? && Nominal(ds[i]) in Build(ds[..i]).byName
  {
    assert ds[..|ds|] == ds;
    forall i, j | 0 <= i < j < |ds| && NameAt(ds, i).Some? ensures NameAt(ds, j) != NameAt(ds, i) {
      NameAtIsBound(ds, i, j);
    }
    forall i | 0 <= i < |ds| && NameAt(ds, i).Some?
      ensures NameAt(ds, i).value in Build(ds).byName && Build(ds).byName[NameAt(ds, i).value] == ds[i]
    {
      NameAtIsBound(ds, i, |ds|);
    }
  }

  // ----- names and references as inverses

  ghost predicate WellFormed(ns: Namespace) {
    && (forall k :: k in ns.namesByRef ==> ns.namesByRef[k] in ns.byName && Key(ns.byName[ns.namesByRef[k]].ref) == k)
    && (forall n :: n in ns.byName ==> Key(ns.byName[n].ref) in ns.namesByRef)
  }

  lemma {:induction false} BuildIsWellFormed(ds: seq<TokenDescriptor>)
    ensures WellFormed(Build(ds))
  {
    if ds != [] {
      BuildIsWellFormed(ds[..|ds| - 1]);
    }
  }

  /** Looking a token's name up leads back to that name. */
  ghost predicate Coherent(ns: Namespace) {
    forall n :: n in ns.byName ==> ns.NameFor(ns.byName[n].ref) == Some(n)
  }

  ghost predicate RefsDistinct(ds: seq<TokenDescriptor>) {
    forall i, j :: 0 <= i < j < |ds| ==> Key(ds[i].ref) != Key(ds[j].ref)
  }

  lemma {:induction false} NamesComeFromTokens(ds: seq<TokenDescriptor>, n: string) returns (i: nat)
    requires n in Build(ds).byName
    ensures i < |ds| && ds[i] == Build(ds).byName[n] && NameAt(ds, i) == Some(n)
  {
    var k := |ds| - 1;
    var ns := Build(ds[..k]);
    if n in ns.byName && NameAt(ds, k) != Some(n) {
      i := NamesComeFromTokens(ds[..k], n);
      assert ds[..k][..i] == ds[..i];
    } else {
      i := k;
    }
  }

  /** No two tokens that get a name share a reference; a repeated user variable gets none. */
  ghost predicate NamedRefsDistinct(ds: seq<TokenDescriptor>) {
    forall i, j :: 0 <= i < j < |ds| && NameAt(ds, i).Some? && NameAt(ds, j).Some? ==> Key(ds[i].ref) != Key(ds[j].ref)
  }

  /** Names and references are inverse exactly when no two named tokens of the scope share a reference. */
  lemma CoherentIff(ds: seq<TokenDescriptor>)
    ensures Coherent(Build(ds)) <==> NamedRefsDistinct(ds)
  {
    hide Build, NameAt;
    var ns := Build(ds);
    BuildIsWellFormed(ds);
    NamesAreDistinct(ds);
    if Coherent(ns) {
      forall i, j | 0 <= i < j < |ds| && NameAt(ds, i).Some? && NameAt(ds, j).Some?
        ensures Key(ds[i].ref) != Key(ds[j].ref)
      {
        assert ns.NameFor(ds[i].ref) == NameAt(ds, i) && ns.NameFor(ds[j].ref) == NameAt(ds, j);
      }
    }
    if NamedRefsDistinct(ds) {
      forall n | n in ns.byName ensures ns.NameFor(ns.byName[n].ref) == Some(n) {
        var m := ns.namesByRef[Key(ns.byName[n].ref)];
        var i := NamesComeFromTokens(ds, m);
        var j := NamesComeFromTokens(ds, n);
        assert Key(ds[i].ref) == Key(ds[j].ref);
      }
    }
  }

  /** A token with its reference that got a name, with no later one like it. */
  ghost predicate LastNamed(ds: seq<TokenDescriptor>, j: nat, key: RefKey) {
    && j < |ds| && Key(ds[j].ref) == key && NameAt(ds, j).Some?
    && forall k :: j < k < |ds| && NameAt(ds, k).Some? ==> Key(ds[k].ref) != key
  }

  lemma NameForStep(ds: seq<TokenDescriptor>, k: nat, ref: TokenRef)
    requires k < |ds|
    ensures Build(ds[..k + 1]).NameFor(ref) ==
      if Key(ds[k].ref) == Key(ref) && NameAt(ds, k).Some? then NameAt(ds, k) else Build(ds[..k]).NameFor(ref)
  {
    hide Assign;
    BuildPrefixStep(ds, k);
  }

  lemma NobodyNamed(ref: TokenRef)
    ensures Build([]).NameFor(ref).None?
  {
  }

  lemma {:induction false} LastNamedOf(ds: seq<TokenDescriptor>, k: nat, ref: TokenRef) returns (j: Option<nat>)
    requires k <= |ds|
    ensures j.Some? ==>
      && j.value < k && Key(ds[j.value].ref) == Key(ref) && NameAt(ds, j.value).Some?
      && Build(ds[..k]).NameFor(ref) == NameAt(ds, j.value)
    ensures j.None? ==> Build(ds[..k]).NameFor(ref).None?
    ensures forall h :: (if j.None? then 0 else j.value + 1) <= h < k && NameAt(ds, h).Some? ==>
      Key(ds[h].ref) != Key(ref)
  {
    hide NameAt, Build, Key;
    if k == 0 {
      j := None;
      NobodyNamed(ref);
      assert ds[..0] == [];
    } else {
      NameForStep(ds, k - 1, ref);
      if Key(ds[k - 1].ref) == Key(ref) && NameAt(ds, k - 1).Some? {
        j := Some(k - 1);
      } else {
        j := LastNamedOf(ds, k - 1, ref);
      }
    }
  }

  /** The name of a reference is the one its last named token got; it has none exactly when no token of it is named. */
  lemma LastNameWins(ds: seq<TokenDescriptor>, ref: TokenRef)
    ensures forall j: nat :: LastNamed(ds, j, Key(ref)) ==> Build(ds).NameFor(ref) == NameAt(ds, j)
    ensures Build(ds).NameFor(ref).None? <==>
      forall j :: 0 <= j < |ds| && NameAt(ds, j).Some? ==> Key(ds[j].ref) != Key(ref)
  {
    hide NameAt, Build, Key;
    var j := LastNamedOf(ds, |ds|, ref);
    assert ds[..|ds|] == ds;
  }

  lemma DistinctRefsAreCoherent(ds: seq<TokenDescriptor>)
    requires RefsDistinct(ds)
    ensures Coherent(Build(ds))
  {
    CoherentIff(ds);
  }

  /** Two tokens that share a reference, neither a user's variable, break the inverse. */
  lemma SharedRefBreaks(ds: seq<TokenDescriptor>, i: nat, j: nat)
    requires i < j < |ds| && Key(ds[i].ref) == Key(ds[j].ref)
    requires !ds[i].sourceKind.FromVariable? && !ds[j].sourceKind.FromVariable?
    ensures !Coherent(Build(ds))
  {
    NamesAreDistinct(ds);
    CoherentIff(ds);
  }

  /** A definition with two event triggers: both produce the same references. */
  lemma TwoEventTriggersClash()
    ensures !Coherent(Build(BaseScope([Event, Event])))
  {
    var ts := [Event, Event];
    assert ts[1..] == [Event] && [Event][1..] == [];
    var ds := BaseScope(ts);
    assert TriggerTokens([Event]) == TokensOfTrigger(Event) + [];
    assert TriggerTokens(ts) == TokensOfTrigger(Event) + TriggerTokens([Event]);
    assert ds[2] == TokensOfTrigger(Event)[0] && ds[4] == TokensOfTrigger(Event)[0];
    SharedRefBreaks(ds, 2, 4);
  }

  // ----- position does not matter when nominal names are distinct

  ghost predicate NominalsDistinct(ds: seq<TokenDescriptor>) {
    forall i, j :: 0 <= i < j < |ds| ==> Nominal(ds[i]) != Nominal(ds[j])
  }

  lemma {:induction false} NominalNamespace(ds: seq<TokenDescriptor>)
    requires NominalsDistinct(ds)
    ensures forall n :: n in Build(ds).byName ==> Build(ds).byName[n] in ds && Nominal(Build(ds).byName[n]) == n
    ensures forall d :: d in ds ==> Nominal(d) in Build(ds).byName && Build(ds).byName[Nominal(d)] == d
  {
    if ds != [] {
      var k := |ds| - 1;
      var d, ns := ds[k], Build(ds[..k]);
      NominalNamespace(ds[..k]);
      assert forall e :: e in ds[..k] ==> Nominal(e) != Nominal(d);
      assert forall e :: e in ds ==> e in ds[..k] || e == d;
    }
  }

  ghost predicate DistinctBy<T>(ds: seq<TokenDescriptor>, f: TokenDescriptor -> T) {
    forall i, j :: 0 <= i < j < |ds| ==> f(ds[i]) != f(ds[j])
  }

  lemma PermutedDistinct<T>(ds: seq<TokenDescriptor>, es: seq<TokenDescriptor>, f: TokenDescriptor -> T)
    requires DistinctBy(ds, f) && multiset(ds) == multiset(es)
    ensures DistinctBy(es, f)
  {
    forall i, j | 0 <= i < j < |es| ensures f(es[i]) != f(es[j]) {
      var a := IndexIn(ds, es, i);
      var b := IndexIn(ds, es, j);
      if a == b {
        TwiceIn(es, i, j);
        OnceOnly(ds, a, f);
      } else {
        Differ(ds, a, b, f);
      }
    }
  }

  lemma Differ<T>(ds: seq<TokenDescriptor>, a: nat, b: nat, f: TokenDescriptor -> T)
    requires DistinctBy(ds, f) && a < |ds| && b < |ds| && a != b
    ensures f(ds[a]) != f(ds[b])
  {
  }

  lemma IndexIn(ds: seq<TokenDescriptor>, es: seq<TokenDescriptor>, i: nat) returns (a: nat)
    requires i < |es| && multiset(ds) == multiset(es)
    ensures a < |ds| && ds[a] == es[i]
  {
    assert es[i] in multiset(es);
    assert es[i] in ds;
    a :| a < |ds| && ds[a] == es[i];
  }

  lemma TwiceIn(es: seq<TokenDescriptor>, i: nat, j: nat)
    requires i < j < |es| && es[i] == es[j]
    ensures multiset(es)[es[i]] >= 2
  {
    assert es == es[..i] + [es[i]] + es[i + 1..j] + [es[j]] + es[j + 1..];
  }

  lemma OnceOnly<T>(ds: seq<TokenDescriptor>, a: nat, f: TokenDescriptor -> T)
    requires DistinctBy(ds, f) && a < |ds|
    ensures multiset(ds)[ds[a]] == 1
  {
    assert ds == ds[..a] + [ds[a]] + ds[a + 1..];
    assert forall d :: d in ds[..a] || d in ds[a + 1..] ==> f(d) != f(ds[a]);
  }

  lemma {:induction false} NamesByRefOf(ds: seq<TokenDescriptor>)
    requires NominalsDistinct(ds) && RefsDistinct(ds)
    ensures forall k :: k in Build(ds).namesByRef <==> exists d :: d in ds && Key(d.ref) == k
    ensures forall d :: d in ds ==> Key(d.ref) in Build(ds).namesByRef && Build(ds).namesByRef[Key(d.ref)] == Nominal(d)
  {
    var ns := Build(ds);
    BuildIsWellFormed(ds);
    NominalNamespace(ds);
    DistinctRefsAreCoherent(ds);
    forall d | d in ds ensures Key(d.ref) in ns.namesByRef && ns.namesByRef[Key(d.ref)] == Nominal(d) {
      assert ns.NameFor(ns.byName[Nominal(d)].ref) == Some(Nominal(d));
    }
    forall k | k in ns.namesByRef ensures exists d :: d in ds && Key(d.ref) == k {
      var d := ns.byName[ns.namesByRef[k]];
      assert d in ds && Key(d.ref) == k;
    }
  }

  lemma SameNames(ds: seq<TokenDescriptor>, es: seq<TokenDescriptor>)
    requires NominalsDistinct(ds) && NominalsDistinct(es) && multiset(ds) == multiset(es)
    ensures Build(ds).byName == Build(es).byName
  {
    hide Build, Nominal;
    NominalNamespace(ds);
    NominalNamespace(es);
    SameElements(ds, es);
    var m, m' := Build(ds).byName, Build(es).byName;
    forall n ensures n in m ==> n in m' && m[n] == m'[n] {}
    forall n ensures n in m' ==> n in m {}
  }

  lemma SameElements(ds: seq<TokenDescriptor>, es: seq<TokenDescriptor>)
    requires multiset(ds) == multiset(es)
    ensures forall d :: d in ds <==> d in es
  {
    forall d ensures d in ds <==> d in es {
      assert d in multiset(ds) <==> d in multiset(es);
    }
  }

  lemma SameRefNames(ds: seq<TokenDescriptor>, es: seq<TokenDescriptor>)
    requires NominalsDistinct(ds) && NominalsDistinct(es) && multiset(ds) == multiset(es)
    requires RefsDistinct(ds) && RefsDistinct(es)
    ensures Build(ds).namesByRef == Build(es).namesByRef
  {
    hide Build, Nominal;
    NamesByRefOf(ds);
    NamesByRefOf(es);
    SameElements(ds, es);
    var m, m' := Build(ds).namesByRef, Build(es).namesByRef;
    forall k ensures k in m <==> k in m' {}
    forall k | k in m ensures m[k] == m'[k] {
      var d :| d in ds && Key(d.ref) == k;
    }
  }

  /** With distinct nominal names the namespace is the same in every order of the scope. */
  lemma OrderDoesNotMatter(ds: seq<TokenDescriptor>, es: seq<TokenDescriptor>)
    requires NominalsDistinct(ds) && multiset(ds) == multiset(es)
    ensures Build(ds).byName == Build(es).byName
    ensures RefsDistinct(ds) ==> Build(ds) == Build(es)
  {
    PermutedDistinct(ds, es, Nominal);
    SameNames(ds, es);
    if RefsDistinct(ds) {
      PermutedDistinct(ds, es, (d: TokenDescriptor) => Key(d.ref));
      SameRefNames(ds, es);
    }
  }

  // ----- the names at the top of a recipe

  /** Every name that is asked for leads to some token. */
  lemma {:induction false} AskedIsNamed(ds: seq<TokenDescriptor>, i: nat)
    requires i < |ds|
    ensures Nominal(ds[i]) in Build(ds).byName
  {
    hide Nominal, Assign;
    var front, d := ds[..|ds| - 1], ds[|ds| - 1];
    if i < |ds| - 1 {
      AskedIsNamed(front, i);
    }
    AssignNominal(Build(front).byName.Keys, d);
  }

  lemma AssignNominal(taken: set<string>, d: TokenDescriptor)
    ensures Nominal(d) in taken || Assign(taken, d) == Some(Nominal(d))
  {
  }

  /** Every name is one that was asked for, or a base name with a suffix. */
  lemma {:induction false} NamedIsAsked(ds: seq<TokenDescriptor>, name: string)
    requires name in Build(ds).byName && OrdinalOf(name).None?
    ensures exists i :: 0 <= i < |ds| && name == Nominal(ds[i])
  {
    hide Nominal, Assign, OrdinalOf;
    if ds != [] {
      var front, d := ds[..|ds| - 1], ds[|ds| - 1];
      if name in Build(front).byName {
        NamedIsAsked(front, name);
        var i :| 0 <= i < |front| && name == Nominal(front[i]);
        assert ds[i] == front[i];
      } else {
        assert Assign(Build(front).byName.Keys, d) == Some(name);
        PlainAssigned(Build(front).byName.Keys, d, name);
      }
    }
  }

  lemma PlainAssigned(taken: set<string>, d: TokenDescriptor, name: string)
    requires Assign(taken, d) == Some(name) && OrdinalOf(name).None?
    ensures name == Nominal(d)
  {
    hide Nominal, OrdinalOf;
    if Nominal(d) in taken {
      var n: nat :| 2 <= n && name == Suffixed(VariableNameFor(d), n);
      OrdinalOfSuffixed(VariableNameFor(d), n);
    }
  }
}
