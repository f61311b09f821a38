/** core/domain/enforcement.go: what the system has in place against what was asked for. */
module Enforcement {
  import opened Sorting
  import Lexical

  datatype Layer = FirewallRules | PacketFilter | NoLayer

  datatype AppliedRule = AppliedRule(name: string, layer: Layer, enabled: bool)

  datatype Gate = GateUnknown | GateAbsent | GatePresent

  datatype Measured = Measured(rules: seq<AppliedRule>, gate: Gate)

  datatype Diff = Diff(missing: seq<string>, extra: seq<string>, gateMissing: bool, gateUnchecked: bool) {
    predicate Intact() { missing == [] && extra == [] && !gateMissing }
  }

  ghost predicate Standing(rules: seq<AppliedRule>, n: string) {
    exists r :: r in rules && r.layer == FirewallRules && r.name == n
  }

  ghost predicate Working(rules: seq<AppliedRule>, n: string) {
    exists r :: r in rules && r.layer == FirewallRules && r.name == n && r.enabled
  }

  /** What a comparison must say, given the names of the desired rules. */
  ghost predicate IsDiff(e: Measured, desired: seq<string>, wantGate: bool, d: Diff) {
    && Sorted(d.missing, Lexical.NoLater) && Sorted(d.extra, Lexical.NoLater) && Distinct(d.extra)
    && (forall n :: multiset(d.missing)[n] == if Working(e.rules, n) then 0 else multiset(desired)[n])
    && (forall n :: n in d.extra <==> Standing(e.rules, n) && n !in desired)
    && d.gateMissing == (wantGate && e.gate == GateAbsent)
    && d.gateUnchecked == (wantGate && e.gate == GateUnknown)
  }

  lemma NamesAreOrdered()
    ensures TotalPreorder(Lexical.NoLater)
  {
    forall a, b
      ensures Lexical.NoLater(a, b) || Lexical.NoLater(b, a)
    {
      Lexical.Total(a, b);
    }
    forall a, b, c | Lexical.NoLater(a, b) && Lexical.NoLater(b, c)
      ensures Lexical.NoLater(a, c)
    {
      Lexical.Transitive(a, b, c);
    }
  }

  method InPlace(rules: seq<AppliedRule>) returns (inPlace: map<string, bool>)
    ensures forall n :: n in inPlace <==> Standing(rules, n)
    ensures forall n | n in inPlace :: inPlace[n] <==> Working(rules, n)
  {
    inPlace := map[];
    for i := 0 to |rules|
      invariant forall n :: n in inPlace <==> Standing(rules[..i], n)
      invariant forall n | n in inPlace :: inPlace[n] <==> Working(rules[..i], n)
    {
      var r := rules[i];
      assert rules[..i + 1] == rules[..i] + [r];
      if r.layer != FirewallRules {
        continue;
      }
      if r.enabled {
        inPlace := inPlace[r.name := true];
      } else if r.name !in inPlace {
        inPlace := inPlace[r.name := false];
      }
    }
    assert rules[..|rules|] == rules;
  }

  method MissingOf(desired: seq<string>, inPlace: map<string, bool>) returns (missing: seq<string>)
    ensures forall n :: multiset(missing)[n] == if n in inPlace && inPlace[n] then 0 else multiset(desired)[n]
  {
    missing := [];
    for i := 0 to |desired|
      invariant forall n ::
        multiset(missing)[n] == if n in inPlace && inPlace[n] then 0 else multiset(desired[..i])[n]
    {
      assert desired[..i + 1] == desired[..i] + [desired[i]];
      if !(desired[i] in inPlace && inPlace[desired[i]]) {
        missing := missing + [desired[i]];
      }
    }
    assert desired[..|desired|] == desired;
  }

  /** The map is walked in no particular order. */
  method ExtraOf(desired: seq<string>, inPlace: map<string, bool>) returns (extra: seq<string>)
    ensures Distinct(extra) && forall n :: n in extra <==> n in inPlace && n !in desired
  {
    extra := [];
    var todo := inPlace.Keys;
    while todo != {}
      invariant todo <= inPlace.Keys && Distinct(extra)
      invariant forall n :: n in extra <==> n in inPlace && n !in todo && n !in desired
      decreases todo
    {
      var n :| n in todo;
      if n !in desired {
        AppendFresh(extra, n);
        extra := extra + [n];
      }
      todo := todo - {n};
    }
  }

  method Compare(e: Measured, desired: seq<string>, wantGate: bool) returns (d: Diff)
    ensures IsDiff(e, desired, wantGate, d)
  {
    var inPlace := InPlace(e.rules);
    var missing := MissingOf(desired, inPlace);
    var extra := ExtraOf(desired, inPlace);
    NamesAreOrdered();
    SortIsOrderedPermutation(missing, Lexical.NoLater);
    SortIsOrderedPermutation(extra, Lexical.NoLater);
    PermutationStaysDistinct(extra, Sort(extra, Lexical.NoLater));
    PermutationsShareElements(extra, Sort(extra, Lexical.NoLater));
    d := Diff(Sort(missing, Lexical.NoLater), Sort(extra, Lexical.NoLater), false, false);
    if wantGate {
      if e.gate == GateUnknown {
        d := d.(gateUnchecked := true);
      } else if e.gate == GateAbsent {
        d := d.(gateMissing := true);
      }
    }
  }

  lemma SortedNamesAreUnique(a: seq<string>, b: seq<string>)
    requires Sorted(a, Lexical.NoLater) && Sorted(b, Lexical.NoLater) && multiset(a) == multiset(b)
    ensures a == b
  {
    forall x, y | x in a && y in a && Lexical.NoLater(x, y) && Lexical.NoLater(y, x)
      ensures x == y
    {
      Lexical.Antisymmetric(x, y);
    }
    OrderedPermutationIsUnique(a, b, Lexical.NoLater);
  }

  /** The comparison does not depend on the order in which rules are measured or desired. */
  lemma MeasuringOrderDoesNotMatter(e: Measured, f: Measured, desired: seq<string>, wanted: seq<string>,
                                    wantGate: bool, d: Diff, c: Diff)
    requires (forall r :: r in e.rules <==> r in f.rules) && e.gate == f.gate
    requires multiset(desired) == multiset(wanted)
    requires IsDiff(e, desired, wantGate, d) && IsDiff(f, wanted, wantGate, c)
    ensures d == c
  {
    forall n
      ensures Standing(e.rules, n) == Standing(f.rules, n) && Working(e.rules, n) == Working(f.rules, n)
    {
    }
    PermutationsShareElements(desired, wanted);
    assert multiset(d.missing) == multiset(c.missing);
    SortedNamesAreUnique(d.missing, c.missing);
    SameElementsPermute(d.extra, c.extra);
    SortedNamesAreUnique(d.extra, c.extra);
  }

  /** Intact says that the working rules are exactly the desired ones, that no other rule of the group
      stands, not even switched off, and that a required gate was not found absent. */
  lemma IntactMeansExactlyAsAsked(e: Measured, desired: seq<string>, wantGate: bool, d: Diff)
    requires IsDiff(e, desired, wantGate, d)
    ensures d.Intact() <==>
              && (forall n :: n in desired <==> Working(e.rules, n))
              && (forall n :: n in desired <==> Standing(e.rules, n))
              && !(wantGate && e.gate == GateAbsent)
    ensures wantGate && e.gate != GateUnknown && d.Intact() ==> e.gate == GatePresent
  {
    forall n
      ensures n in d.missing <==> n in desired && !Working(e.rules, n)
    {
      assert n in d.missing <==> multiset(d.missing)[n] > 0;
      assert n in desired <==> multiset(desired)[n] > 0;
    }
    if d.Intact() {
      forall n
        ensures n in desired ==> Working(e.rules, n)
        ensures Working(e.rules, n) ==> Standing(e.rules, n)
        ensures Standing(e.rules, n) ==> n in desired
      {
        assert n !in d.missing && n !in d.extra;
      }
    } else {
      assert d.missing != [] ==> d.missing[0] in d.missing;
      assert d.extra != [] ==> d.extra[0] in d.extra;
    }
  }

  /** The comparison, rule by rule: a desired name is missing unless an enabled firewall rule carries it, and
      extra is every other name that a firewall rule carries, enabled or not. */
  lemma DiffReads(e: Measured, desired: seq<string>, wantGate: bool, d: Diff, n: string)
    requires IsDiff(e, desired, wantGate, d)
    ensures n in d.missing <==>
              n in desired && !(exists r :: r in e.rules && r.layer == FirewallRules && r.enabled && r.name == n)
    ensures n in d.extra <==>
              n !in desired && exists r :: r in e.rules && r.layer == FirewallRules && r.name == n
    ensures d.gateMissing <==> wantGate && e.gate == GateAbsent
    ensures d.gateUnchecked <==> wantGate && e.gate == GateUnknown
  {
    assert n in d.missing <==> multiset(d.missing)[n] > 0;
    assert n in desired <==> multiset(desired)[n] > 0;
    if r :| r in e.rules && r.layer == FirewallRules && r.enabled && r.name == n {
      assert Working(e.rules, n);
    }
    if r :| r in e.rules && r.layer == FirewallRules && r.name == n {
      assert Standing(e.rules, n);
    }
  }
}
