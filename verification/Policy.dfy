/** core/domain/gameprofile.go: the port ranges of a profile and how they are written. */
module Ports {
  import opened Common
  import opened Text

  datatype Proto = TCP | UDP | Both {
    function Name(): string {
      match this
      case TCP => "tcp"
      case UDP => "udp"
      case Both => "both"
    }

    function Expand(): seq<Proto> { if this == Both then [TCP, UDP] else [this] }
  }

  datatype PortRange = PortRange(proto: Proto, from: nat, to: nat) {
    predicate Covers(port: nat) { from <= port <= to }

    function Spec(): string { if from == to then Itoa(from) else Itoa(from) + "-" + Itoa(to) }
  }

  const FORBIDDEN: seq<nat> := [22, 135, 137, 138, 139, 445, 3389, 3702, 5357, 5358, 5985, 5986]

  const MAX_PORT: nat := 65535

  /** The first forbidden port of the table that the range contains. */
  function Hit(r: PortRange, table: seq<nat>): (h: Option<nat>)
    ensures h.Some? ==> h.value in table && r.Covers(h.value)
    ensures h.None? ==> forall p | p in table :: !r.Covers(p)
  {
    if table == [] then None
    else
      assert table == [table[0]] + table[1..];
      if r.Covers(table[0]) then Some(table[0]) else Hit(r, table[1..])
  }

  method HitsForbidden(r: PortRange, table: seq<nat> := FORBIDDEN) returns (h: Option<nat>)
    ensures h == Hit(r, table)
  {
    for i := 0 to |table|
      invariant Hit(r, table) == Hit(r, table[i..])
    {
      if r.from <= table[i] && table[i] <= r.to {
        return Some(table[i]);
      }
    }
    return None;
  }

  /** It is the first one of the table. */
  lemma {:induction false} FirstOfTheTable(r: PortRange, table: seq<nat>, k: nat)
    requires k < |table| && r.from <= table[k] <= r.to && forall j | 0 <= j < k :: !(r.from <= table[j] <= r.to)
    ensures Hit(r, table) == Some(table[k])
  {
    if k > 0 {
      FirstOfTheTable(r, table[1..], k - 1);
    }
  }

  predicate IsDigit(c: char) { '0' <= c <= '9' }

  predicate AllDigits(s: string) { forall c | c in s :: IsDigit(c) }

  function Itoa(n: nat): (s: string)
    ensures s != "" && AllDigits(s)
  {
    if n < 10 then ['0' + n as char] else Itoa(n / 10) + ['0' + (n % 10) as char]
  }

  function Value(s: string): nat
    requires AllDigits(s)
  {
    if s == "" then 0 else
      assert IsDigit(s[|s| - 1]);
      Value(s[..|s| - 1]) * 10 + (s[|s| - 1] as int - '0' as int)
  }

  lemma {:induction false} ItoaKeepsValue(n: nat)
    ensures Value(Itoa(n)) == n
  {
    if n >= 10 {
      ItoaKeepsValue(n / 10);
      assert Itoa(n)[..|Itoa(n)| - 1] == Itoa(n / 10);
    }
  }

  datatype RangeError = Shape | Zero | Order | Forbids(port: nat)

  datatype Parsed<T> = Good(value: T) | Bad(error: RangeError)

  function ParsePort(text: string): Parsed<nat> {
    var s := TrimSpace(text);
    if s == "" || !AllDigits(s) || Value(s) > MAX_PORT then Bad(Shape)
    else if Value(s) == 0 then Bad(Zero)
    else Good(Value(s))
  }

  function ParsePortRange(proto: Proto, spec: string, table: seq<nat> := FORBIDDEN): Parsed<PortRange> {
    var s := TrimSpace(spec);
    if s == "" then Bad(Shape)
    else
      var cut := IndexOf(s, '-');
      var first := ParsePort(s[..cut]);
      if first.Bad? then Bad(first.error)
      else
        var last := ParsePort(if cut < |s| then s[cut + 1..] else s);
        if last.Bad? then Bad(last.error)
        else if first.value > last.value then Bad(Order)
        else
          var r := PortRange(proto, first.value, last.value);
          var hit := Hit(r, table);
          if hit.Some? then Bad(Forbids(hit.value)) else Good(r)
  }

  predicate Acceptable(r: PortRange, table: seq<nat> := FORBIDDEN) {
    0 < r.from <= r.to <= MAX_PORT && AvoidsAll(r, table)
  }

  predicate AvoidsAll(r: PortRange, table: seq<nat>) { forall p | p in table :: !r.Covers(p) }

  lemma HitDecides(r: PortRange, table: seq<nat>)
    ensures Hit(r, table).None? <==> AvoidsAll(r, table)
  {
  }

  lemma PlainTextIsNotTrimmed(s: string)
    requires s != "" && !IsSpace(s[0]) && !IsSpace(s[|s| - 1])
    ensures TrimSpace(s) == s
  {
  }

  lemma NumberParses(n: nat)
    requires 0 < n <= MAX_PORT
    ensures ParsePort(Itoa(n)) == Good(n)
  {
    var s := Itoa(n);
    assert IsDigit(s[0]) && IsDigit(s[|s| - 1]);
    PlainTextIsNotTrimmed(s);
    ItoaKeepsValue(n);
  }

  /** What a person types becomes an acceptable range or an error. */
  lemma ParsedIsAcceptable(proto: Proto, spec: string, table: seq<nat>)
    requires ParsePortRange(proto, spec, table).Good?
    ensures Acceptable(ParsePortRange(proto, spec, table).value, table)
  {
    HitDecides(ParsePortRange(proto, spec, table).value, table);
  }

  /** The printed form of every acceptable range reads back as that range. */
  lemma SpecParses(r: PortRange, table: seq<nat>)
    requires Acceptable(r, table)
    ensures ParsePortRange(r.proto, r.Spec(), table) == Good(r)
  {
    HitDecides(r, table);
    var a, b, s := Itoa(r.from), Itoa(r.to), r.Spec();
    NumberParses(r.from);
    NumberParses(r.to);
    SpecIsPlain(r);
    if r.from != r.to {
      IndexAfter(a, '-', b);
      assert s == a + ['-'] + b;
      assert s[..|a|] == a && s[|a| + 1..] == b;
    } else {
      assert s[..|s|] == s;
    }
  }

  /** What two numbers with a dash in between are read as, whatever they are: the first one is judged first,
      then the second, their order, and the forbidden ports in between. */
  lemma NumbersRead(proto: Proto, x: nat, y: nat, table: seq<nat>)
    ensures ParsePortRange(proto, Itoa(x) + "-" + Itoa(y), table) ==
            if x > 65535 then Bad(Shape) else if x == 0 then Bad(Zero)
            else if y > 65535 then Bad(Shape) else if y == 0 then Bad(Zero)
            else if x > y then Bad(Order)
            else match Hit(PortRange(proto, x, y), table)
              case Some(port) => Bad(Forbids(port))
              case None => Good(PortRange(proto, x, y))
  {
    var a, b := Itoa(x), Itoa(y);
    var s := a + "-" + b;
    PlainNumber(x);
    PlainNumber(y);
    assert IsDigit(a[0]) && IsDigit(b[|b| - 1]) && s[0] == a[0] && s[|s| - 1] == b[|b| - 1];
    PlainTextIsNotTrimmed(s);
    assert '-' !in a;
    IndexAfter(a, '-', b);
    assert s == a + ['-'] + b && s[..|a|] == a && s[|a| + 1..] == b;
  }

  lemma PlainNumber(n: nat)
    ensures ParsePort(Itoa(n)) == if n > 65535 then Bad(Shape) else if n == 0 then Bad(Zero) else Good(n)
  {
    var s := Itoa(n);
    assert IsDigit(s[0]) && IsDigit(s[|s| - 1]);
    PlainTextIsNotTrimmed(s);
    ItoaKeepsValue(n);
  }

  lemma SpecIsPlain(r: PortRange)
    ensures r.Spec() != "" && TrimSpace(r.Spec()) == r.Spec()
    ensures '-' !in Itoa(r.from)
  {
    var a, b, s := Itoa(r.from), Itoa(r.to), r.Spec();
    assert IsDigit(a[0]) && IsDigit(a[|a| - 1]) && IsDigit(b[|b| - 1]);
    assert s[0] == a[0] && (s[|s| - 1] == a[|a| - 1] || s[|s| - 1] == b[|b| - 1]);
    PlainTextIsNotTrimmed(s);
  }

  /** Two ranges are written alike only when they have the same bounds. */
  lemma SpecIsInjective(q: PortRange, r: PortRange)
    requires q.Spec() == r.Spec()
    ensures q.from == r.from && q.to == r.to
  {
    SpecBounds(q);
    SpecBounds(r);
  }

  lemma SpecBounds(r: PortRange)
    ensures
      var s := r.Spec();
      var cut := IndexOf(s, '-');
      && AllDigits(s[..cut]) && Value(s[..cut]) == r.from
      && (cut == |s| ==> r.to == r.from)
      && (cut < |s| ==> AllDigits(s[cut + 1..]) && Value(s[cut + 1..]) == r.to)
  {
    var a, b, s := Itoa(r.from), Itoa(r.to), r.Spec();
    ItoaKeepsValue(r.from);
    ItoaKeepsValue(r.to);
    assert '-' !in a;
    if r.from == r.to {
      assert s[..|s|] == s;
    } else {
      IndexAfter(a, '-', b);
      assert s == a + ['-'] + b;
      assert s[..|a|] == a && s[|a| + 1..] == b;
    }
  }
}

/** core/domain/policy.go: from a profile, a role and who is present to firewall rules. */
module Policy {
  import opened Common
  import opened Ports
  import opened Sorting
  import Lexical
  import Seats
  import Text

  datatype Role = Host | Guest | NoRole {
    function Name(): string {
      match this
      case Host => "host"
      case Guest => "invitado"
      case NoRole => "rol-inválido"
    }
  }

  /** `None` is the zero address, which is not valid. */
  type Address = Option<nat>

  datatype Rule = Rule(name: string, proto: Proto, from: nat, to: nat,
                       local: nat, remote: seq<nat>, nets: Option<Seats.Prefix>)

  datatype Profile = Profile(id: string, hostPorts: seq<PortRange>, clientPorts: seq<PortRange>)

  datatype RuleSet = Rules(rules: seq<Rule>) | NoAddress | Forbidden(port: nat)

  const GROUP: string := "Kanpachi"

  const CONTROL_PREFIX: string := GROUP + ": canal de control "

  ghost predicate IsOther(local: Address, members: seq<Address>, a: nat) {
    Some(a) in members && Some(a) != local
  }

  /** The distinct valid members other than `local`, in order of appearance. */
  function Others(local: Address, members: seq<Address>): (out: seq<nat>) {
    if members == [] then []
    else
      var rest := Others(local, members[..|members| - 1]);
      var m := members[|members| - 1];
      if m.None? || m == local || m.value in rest then rest else rest + [m.value]
  }

  function Normalized(local: Address, members: seq<Address>): seq<nat> {
    Sort(Others(local, members), AtMost)
  }

  method NormalizeMembers(local: Address, members: seq<Address>) returns (out: seq<nat>)
    ensures out == Normalized(local, members)
  {
    var seen: set<nat> := {};
    out := [];
    for i := 0 to |members|
      invariant out == Others(local, members[..i])
      invariant forall a :: a in seen <==> a in out
    {
      assert members[..i + 1][..i] == members[..i];
      var m := members[i];
      if m.None? || m == local || m.value in seen {
        continue;
      }
      seen := seen + {m.value};
      out := out + [m.value];
    }
    assert members[..|members|] == members;
    out := Sort(out, AtMost);
  }

  lemma {:induction false} OthersAreTheOthers(local: Address, members: seq<Address>)
    ensures Distinct(Others(local, members))
    ensures forall a :: a in Others(local, members) <==> IsOther(local, members, a)
  {
    if members != [] {
      OthersAreTheOthers(local, members[..|members| - 1]);
      assert members == members[..|members| - 1] + [members[|members| - 1]];
    }
  }

  /** The remote scope of a rule: exactly the other members, each once, in ascending order. */
  lemma NormalizedIsTheOthers(local: Address, members: seq<Address>)
    ensures Ascending(Normalized(local, members))
    ensures forall a :: a in Normalized(local, members) <==> IsOther(local, members, a)
  {
    OthersAreTheOthers(local, members);
    SortedNumbersAscend(Others(local, members));
  }

  /** Order and repetition of the members do not matter. */
  lemma ScopeIsCanonical(local: Address, a: seq<Address>, b: seq<Address>)
    requires forall x :: IsOther(local, a, x) <==> IsOther(local, b, x)
    ensures Normalized(local, a) == Normalized(local, b)
  {
    var xs, ys := Others(local, a), Others(local, b);
    OthersAreTheOthers(local, a);
    OthersAreTheOthers(local, b);
    forall x
      ensures x in xs <==> x in ys
    {
      assert x in xs <==> IsOther(local, a, x);
    }
    SameElementsPermute(xs, ys);
    SortIsOrderedPermutation(xs, AtMost);
    SortIsOrderedPermutation(ys, AtMost);
    OrderedPermutationIsUnique(Normalized(local, a), Normalized(local, b), AtMost);
  }

  function RuleName(id: string, role: Role, proto: Proto, r: PortRange): string {
    GROUP + ": " + id + " " + role.Name() + " " + proto.Name() + " " + r.Spec()
  }

  predicate IdSymbol(c: char) { 'a' <= c <= 'z' || '0' <= c <= '9' || c == '-' }

  predicate ValidProfileId(id: string) {
    && id != "" && |id| <= 64
    && id[0] != '-' && id[|id| - 1] != '-'
    && forall c | c in id :: IdSymbol(c)
  }

  /** Whom a rule set is for. */
  datatype Scope = Scope(id: string, role: Role, local: nat, remote: seq<nat>)

  function RuleFor(s: Scope, proto: Proto, r: PortRange): Rule {
    Rule(RuleName(s.id, s.role, proto, r), proto, r.from, r.to, s.local, s.remote, None)
  }

  function RulesOf(s: Scope, protos: seq<Proto>, r: PortRange): seq<Rule> {
    seq(|protos|, i requires 0 <= i < |protos| => RuleFor(s, protos[i], r))
  }

  function Drafts(s: Scope, ranges: seq<PortRange>): seq<Rule> {
    if ranges == [] then []
    else
      var r := ranges[|ranges| - 1];
      Drafts(s, ranges[..|ranges| - 1]) + RulesOf(s, r.proto.Expand(), r)
  }

  function FirstHit(ranges: seq<PortRange>, table: seq<nat>): Option<nat> {
    if ranges == [] then None
    else
      var earlier := FirstHit(ranges[..|ranges| - 1], table);
      if earlier.Some? then earlier else Hit(ranges[|ranges| - 1], table)
  }

  predicate ByName(a: Rule, b: Rule) { Lexical.NoLater(a.name, b.name) }

  function RangesOf(p: Profile, role: Role): seq<PortRange> {
    if role == Guest then p.clientPorts else p.hostPorts
  }

  function Wanted(p: Profile, role: Role, local: Address, members: seq<Address>, table: seq<nat>): RuleSet {
    var ranges, remote := RangesOf(p, role), Normalized(local, members);
    if p.id == "" then Rules([])
    else if local.None? then NoAddress
    else if ranges == [] || remote == [] then Rules([])
    else
      var bad := FirstHit(ranges, table);
      if bad.Some? then Forbidden(bad.value)
      else Rules(Sort(Drafts(Scope(p.id, role, local.value, remote), ranges), ByName))
  }

  method DraftRange(scope: Scope, r: PortRange) returns (rules: seq<Rule>)
    ensures rules == RulesOf(scope, r.proto.Expand(), r)
  {
    var protos := r.proto.Expand();
    rules := [];
    for k := 0 to |protos|
      invariant rules == RulesOf(scope, protos[..k], r)
    {
      RulesGrow(scope, protos, k, r);
      rules := rules + [RuleFor(scope, protos[k], r)];
    }
    assert protos[..|protos|] == protos;
  }

  method BuildRuleSet(p: Profile, role: Role, local: Address, members: seq<Address>, table: seq<nat> := FORBIDDEN)
    returns (rs: RuleSet)
    ensures rs == Wanted(p, role, local, members, table)
  {
    if p.id == "" {
      return Rules([]);
    }
    if local.None? {
      return NoAddress;
    }
    var ranges := p.hostPorts;
    if role == Guest {
      ranges := p.clientPorts;
    }
    if ranges == [] {
      return Rules([]);
    }
    var remote := NormalizeMembers(local, members);
    if remote == [] {
      return Rules([]);
    }
    var scope := Scope(p.id, role, local.value, remote);
    var rules := [];
    for i := 0 to |ranges|
      invariant FirstHit(ranges[..i], table) == None
      invariant rules == Drafts(scope, ranges[..i])
    {
      GrowByOne(scope, ranges, i, table);
      var r := ranges[i];
      var hit := HitsForbidden(r, table);
      if hit.Some? {
        FirstHitStays(ranges, i + 1, table);
        return Forbidden(hit.value);
      }
      var drafts := DraftRange(scope, r);
      rules := rules + drafts;
    }
    assert ranges[..|ranges|] == ranges;
    return Rules(Sort(rules, ByName));
  }

  lemma RulesGrow(s: Scope, protos: seq<Proto>, k: nat, r: PortRange)
    requires k < |protos|
    ensures RulesOf(s, protos[..k + 1], r) == RulesOf(s, protos[..k], r) + [RuleFor(s, protos[k], r)]
  {
  }

  lemma GrowByOne(s: Scope, ranges: seq<PortRange>, i: nat, table: seq<nat>)
    requires i < |ranges|
    ensures Drafts(s, ranges[..i + 1]) == Drafts(s, ranges[..i]) + RulesOf(s, ranges[i].proto.Expand(), ranges[i])
    ensures FirstHit(ranges[..i], table) == None ==>
              FirstHit(ranges[..i + 1], table) == Hit(ranges[i], table)
  {
    assert ranges[..i + 1][..i] == ranges[..i];
  }

  lemma {:induction false} FirstHitStays(ranges: seq<PortRange>, i: nat, table: seq<nat>)
    requires i <= |ranges| && FirstHit(ranges[..i], table).Some?
    ensures FirstHit(ranges, table) == FirstHit(ranges[..i], table)
  {
    if i < |ranges| {
      var init := ranges[..|ranges| - 1];
      assert init[..i] == ranges[..i];
      FirstHitStays(init, i, table);
    } else {
      assert ranges[..i] == ranges;
    }
  }

  lemma {:induction false} FirstHitDecides(ranges: seq<PortRange>, table: seq<nat>)
    ensures FirstHit(ranges, table).None? <==> forall r | r in ranges :: AvoidsAll(r, table)
  {
    if ranges != [] {
      var init, last := ranges[..|ranges| - 1], ranges[|ranges| - 1];
      FirstHitDecides(init, table);
      HitDecides(last, table);
      assert ranges == init + [last];
    }
  }

  predicate Drafted(s: Scope, ranges: seq<PortRange>, rule: Rule, r: PortRange, proto: Proto) {
    r in ranges && proto in r.proto.Expand() && rule == RuleFor(s, proto, r)
  }

  lemma {:induction false} DraftsAreTheExpansion(s: Scope, ranges: seq<PortRange>, rule: Rule)
    ensures rule in Drafts(s, ranges) <==> exists r, proto :: Drafted(s, ranges, rule, r, proto)
  {
    if ranges != [] {
      var init, last := ranges[..|ranges| - 1], ranges[|ranges| - 1];
      DraftsAreTheExpansion(s, init, rule);
      ExpansionOfOne(s, last, rule);
      assert ranges == init + [last];
      DraftedOneMore(s, init, last, rule);
    }
  }

  lemma DraftedOneMore(s: Scope, init: seq<PortRange>, last: PortRange, rule: Rule)
    ensures (exists r, proto :: Drafted(s, init + [last], rule, r, proto)) <==>
              (exists r, proto :: Drafted(s, init, rule, r, proto))
              || exists proto :: Drafted(s, [last], rule, last, proto)
  {
    if r, proto :| Drafted(s, init, rule, r, proto) {
      assert Drafted(s, init + [last], rule, r, proto);
    }
    if proto :| Drafted(s, [last], rule, last, proto) {
      assert Drafted(s, init + [last], rule, last, proto);
    }
    if r, proto :| Drafted(s, init + [last], rule, r, proto) {
      assert Drafted(s, init, rule, r, proto) || Drafted(s, [last], rule, last, proto);
    }
  }

  lemma ExpansionOfOne(s: Scope, r: PortRange, rule: Rule)
    ensures rule in RulesOf(s, r.proto.Expand(), r) <==> exists proto :: Drafted(s, [r], rule, r, proto)
  {
    var protos := r.proto.Expand();
    var rules := RulesOf(s, protos, r);
    if rule in rules {
      var k :| 0 <= k < |rules| && rules[k] == rule;
      assert Drafted(s, [r], rule, r, protos[k]);
    }
    if proto :| Drafted(s, [r], rule, r, proto) {
      var k :| 0 <= k < |protos| && protos[k] == proto;
      assert rules[k] == rule;
    }
  }

  predicate Allows(rules: seq<Rule>, port: nat) {
    exists r | r in rules :: r.from <= port <= r.to
  }

  lemma NamesOrderRules()
    ensures TotalPreorder(ByName)
  {
    forall a: Rule, b: Rule
      ensures ByName(a, b) || ByName(b, a)
    {
      Lexical.Total(a.name, b.name);
    }
    forall a: Rule, b: Rule, c: Rule | ByName(a, b) && ByName(b, c)
      ensures ByName(a, c)
    {
      Lexical.Transitive(a.name, b.name, c.name);
    }
  }

  /** The scope of a rule set that opens something. */
  function ScopeOf(p: Profile, role: Role, local: Address, members: seq<Address>): Scope
    requires local.Some?
  {
    Scope(p.id, role, local.value, Normalized(local, members))
  }

  lemma WantedIsTheExpansion(p: Profile, role: Role, local: Address, members: seq<Address>, table: seq<nat>, rule: Rule)
    requires Wanted(p, role, local, members, table).Rules?
    ensures rule in Wanted(p, role, local, members, table).rules <==>
              && p.id != "" && Normalized(local, members) != [] && local.Some?
              && exists r, proto :: Drafted(ScopeOf(p, role, local, members), RangesOf(p, role), rule, r, proto)
  {
    var ranges := RangesOf(p, role);
    if p.id != "" && local.Some? {
      var s := ScopeOf(p, role, local, members);
      if ranges != [] && s.remote != [] {
        NamesOrderRules();
        SortIsOrderedPermutation(Drafts(s, ranges), ByName);
        DraftsAreTheExpansion(s, ranges, rule);
        assert rule in Wanted(p, role, local, members, table).rules <==> rule in multiset(Drafts(s, ranges));
      } else if r, proto :| Drafted(s, ranges, rule, r, proto) {
        assert r in ranges;
      }
    }
  }

  /** A port is reachable exactly when a range of the role contains it and somebody else is there. */
  lemma AllowsExactlyTheRanges(p: Profile, role: Role, local: Address, members: seq<Address>,
                               table: seq<nat>, port: nat)
    requires p.id != "" && Wanted(p, role, local, members, table).Rules?
    ensures Allows(Wanted(p, role, local, members, table).rules, port) <==>
              && (exists a :: IsOther(local, members, a))
              && exists r | r in RangesOf(p, role) :: r.Covers(port)
  {
    var rules := Wanted(p, role, local, members, table).rules;
    var s := ScopeOf(p, role, local, members);
    NormalizedIsTheOthers(local, members);
    if Allows(rules, port) {
      var rule :| rule in rules && rule.from <= port <= rule.to;
      WantedIsTheExpansion(p, role, local, members, table, rule);
      var r, proto :| Drafted(s, RangesOf(p, role), rule, r, proto);
      assert r.Covers(port) && IsOther(local, members, s.remote[0]);
    }
    if a, r :| IsOther(local, members, a) && r in RangesOf(p, role) && r.Covers(port) {
      var rule := RuleFor(s, r.proto.Expand()[0], r);
      assert Drafted(s, RangesOf(p, role), rule, r, r.proto.Expand()[0]);
      assert a in s.remote;
      WantedIsTheExpansion(p, role, local, members, table, rule);
    }
  }

  /** No rule set ever lets a port of the table through, whatever the profile asks for. */
  lemma ForbiddenPortsStayShut(p: Profile, role: Role, local: Address, members: seq<Address>,
                               table: seq<nat>, port: nat)
    requires port in table && Wanted(p, role, local, members, table).Rules?
    ensures !Allows(Wanted(p, role, local, members, table).rules, port)
  {
    if p.id != "" {
      AllowsExactlyTheRanges(p, role, local, members, table, port);
      RefusesExactlyForbiddenRanges(p, role, local, members, table);
      forall r | r in RangesOf(p, role) && AvoidsAll(r, table)
        ensures !r.Covers(port)
      {
      }
    }
  }

  /** The guard fires exactly when a rule would have to open a port of the table. */
  lemma RefusesExactlyForbiddenRanges(p: Profile, role: Role, local: Address, members: seq<Address>, table: seq<nat>)
    ensures Wanted(p, role, local, members, table).Forbidden? <==>
              && p.id != "" && local.Some? && (exists a :: IsOther(local, members, a))
              && exists r | r in RangesOf(p, role) :: !AvoidsAll(r, table)
    ensures Wanted(p, role, local, members, table).NoAddress? <==> p.id != "" && local.None?
  {
    FirstHitDecides(RangesOf(p, role), table);
    NormalizedIsTheOthers(local, members);
    var remote := Normalized(local, members);
    if remote != [] {
      assert IsOther(local, members, remote[0]);
    }
  }

  /** Every rule names one concrete protocol and only members who are present, in ascending order,
      never the machine itself. */
  lemma EveryRuleIsNarrow(p: Profile, role: Role, local: Address, members: seq<Address>, table: seq<nat>, rule: Rule)
    requires Wanted(p, role, local, members, table).Rules?
    requires rule in Wanted(p, role, local, members, table).rules
    ensures rule.proto != Both && Some(rule.local) == local && rule.nets.None?
    ensures rule.remote != [] && Ascending(rule.remote)
    ensures forall a :: a in rule.remote <==> IsOther(local, members, a)
  {
    WantedIsTheExpansion(p, role, local, members, table, rule);
    NormalizedIsTheOthers(local, members);
  }

  /** The rule set is a function of who is present, not of how the engine lists them. */
  lemma RuleSetIsCanonical(p: Profile, role: Role, local: Address, a: seq<Address>, b: seq<Address>, table: seq<nat>)
    requires forall x :: IsOther(local, a, x) <==> IsOther(local, b, x)
    ensures Wanted(p, role, local, a, table) == Wanted(p, role, local, b, table)
  {
    ScopeIsCanonical(local, a, b);
  }

  /** Text up to the first space is determined by the whole. */
  lemma CutAtSpace(a: string, b: string, c: string, d: string)
    requires ' ' !in a && ' ' !in c && a + " " + b == c + " " + d
    ensures a == c && b == d
  {
    Text.IndexAfter(a, ' ', b);
    Text.IndexAfter(c, ' ', d);
    assert a == (a + " " + b)[..|a|] && b == (a + " " + b)[|a| + 1..];
    assert c == (c + " " + d)[..|c|] && d == (c + " " + d)[|c| + 1..];
  }

  lemma PlainWords(role: Role, proto: Proto)
    ensures ' ' !in role.Name() && ' ' !in proto.Name()
  {
  }

  lemma NamesDiffer(role: Role, other: Role, proto: Proto, second: Proto)
    ensures role.Name() == other.Name() ==> role == other
    ensures proto.Name() == second.Name() ==> proto == second
  {
    assert role.Name()[0] == match role case Host => 'h' case Guest => 'i' case NoRole => 'r';
    assert other.Name()[0] == match other case Host => 'h' case Guest => 'i' case NoRole => 'r';
    assert proto.Name()[0] == match proto case TCP => 't' case UDP => 'u' case Both => 'b';
    assert second.Name()[0] == match second case TCP => 't' case UDP => 'u' case Both => 'b';
  }

  function NameTail(role: Role, proto: Proto, r: PortRange): string {
    role.Name() + " " + (proto.Name() + " " + r.Spec())
  }

  lemma RuleNameSplits(id: string, role: Role, proto: Proto, r: PortRange)
    ensures RuleName(id, role, proto, r) == (GROUP + ": ") + (id + " " + NameTail(role, proto, r))
  {
  }

  lemma TailIsInjective(role: Role, proto: Proto, r: PortRange, other: Role, second: Proto, q: PortRange)
    requires NameTail(role, proto, r) == NameTail(other, second, q)
    ensures role == other && proto == second && r.from == q.from && r.to == q.to
  {
    PlainWords(role, proto);
    PlainWords(other, second);
    CutAtSpace(role.Name(), proto.Name() + " " + r.Spec(), other.Name(), second.Name() + " " + q.Spec());
    CutAtSpace(proto.Name(), r.Spec(), second.Name(), q.Spec());
    NamesDiffer(role, other, proto, second);
    SpecIsInjective(r, q);
  }

  /** The name of a rule determines the profile, the role, the protocol and the ports. */
  lemma RuleNameIsInjective(id: string, role: Role, proto: Proto, r: PortRange,
                            other: string, second: Role, third: Proto, q: PortRange)
    requires ValidProfileId(id) && ValidProfileId(other)
    requires RuleName(id, role, proto, r) == RuleName(other, second, third, q)
    ensures id == other && role == second && proto == third && r.from == q.from && r.to == q.to
  {
    RuleNameSplits(id, role, proto, r);
    RuleNameSplits(other, second, third, q);
    SamePrefix(GROUP + ": ", id + " " + NameTail(role, proto, r), other + " " + NameTail(second, third, q));
    assert !IdSymbol(' ');
    CutAtSpace(id, NameTail(role, proto, r), other, NameTail(second, third, q));
    TailIsInjective(role, proto, r, second, third, q);
  }

  lemma SamePrefix(p: string, a: string, b: string)
    requires p + a == p + b
    ensures a == b
  {
    assert a == (p + a)[|p|..] && b == (p + b)[|p|..];
  }

  /** Within one rule set a name belongs to one rule. */
  lemma EqualNamesMeanEqualRules(s: Scope, ranges: seq<PortRange>, a: Rule, b: Rule)
    requires a in Drafts(s, ranges) && b in Drafts(s, ranges) && a.name == b.name
    ensures a == b
  {
    DraftsAreTheExpansion(s, ranges, a);
    DraftsAreTheExpansion(s, ranges, b);
    var r, proto :| Drafted(s, ranges, a, r, proto);
    var q, other :| Drafted(s, ranges, b, q, other);
    RuleNameSplits(s.id, s.role, proto, r);
    RuleNameSplits(s.id, s.role, other, q);
    SamePrefix(GROUP + ": ", s.id + " " + NameTail(s.role, proto, r), s.id + " " + NameTail(s.role, other, q));
    SamePrefix(s.id + " ", NameTail(s.role, proto, r), NameTail(s.role, other, q));
    TailIsInjective(s.role, proto, r, s.role, other, q);
  }

  /** Any sorting by name gives the same sequence: the order is settled by the names alone. */
  lemma OrderIsSettledByNames(s: Scope, ranges: seq<PortRange>, rules: seq<Rule>)
    requires Sorted(rules, ByName) && multiset(rules) == multiset(Drafts(s, ranges))
    ensures rules == Sort(Drafts(s, ranges), ByName)
  {
    var drafts := Drafts(s, ranges);
    NamesOrderRules();
    SortIsOrderedPermutation(drafts, ByName);
    forall x, y | x in rules && y in rules && ByName(x, y) && ByName(y, x)
      ensures x == y
    {
      Lexical.Antisymmetric(x.name, y.name);
      assert x in multiset(drafts) && y in multiset(drafts);
      EqualNamesMeanEqualRules(s, ranges, x, y);
    }
    OrderedPermutationIsUnique(rules, Sort(drafts, ByName), ByName);
  }

  predicate IsControl(rule: Rule) { CONTROL_PREFIX <= rule.name }

  /** No game rule of a valid profile passes for a rule of the control channel. */
  lemma GameRulesAreNotControl(s: Scope, ranges: seq<PortRange>, rule: Rule)
    requires ValidProfileId(s.id) && rule in Drafts(s, ranges)
    ensures !IsControl(rule)
  {
    DraftsAreTheExpansion(s, ranges, rule);
    var r, proto :| Drafted(s, ranges, rule, r, proto);
    var tail := NameTail(s.role, proto, r);
    RuleNameSplits(s.id, s.role, proto, r);
    assert !IdSymbol(' ');
    assert tail[0] == s.role.Name()[0] && tail[0] != 'd';
    if IsControl(rule) {
      var rest := rule.name[|CONTROL_PREFIX|..];
      assert rule.name == CONTROL_PREFIX + rest;
      ChannelWords(rest);
      SamePrefix(GROUP + ": ", s.id + " " + tail, "canal" + " " + ("de control " + rest));
      CutAtSpace(s.id, tail, "canal", "de control " + rest);
    }
  }

  lemma ChannelWords(rest: string)
    ensures CONTROL_PREFIX + rest == (GROUP + ": ") + ("canal" + " " + ("de control " + rest))
  {
  }

  function GameRules(rules: seq<Rule>): seq<Rule> {
    if rules == [] then []
    else
      var kept := GameRules(rules[..|rules| - 1]);
      if IsControl(rules[|rules| - 1]) then kept else kept + [rules[|rules| - 1]]
  }

  function Added(rules: seq<Rule>, more: seq<Rule>): seq<Rule> {
    if more == [] then rules else Sort(rules + more, ByName)
  }

  lemma {:induction false} FilterKeepsOrder(rules: seq<Rule>)
    requires Sorted(rules, ByName)
    ensures Sorted(GameRules(rules), ByName)
    ensures forall r | r in GameRules(rules) :: r in rules && !IsControl(r)
  {
    if rules != [] {
      var init, last := rules[..|rules| - 1], rules[|rules| - 1];
      FilterKeepsOrder(init);
      forall r | r in init
        ensures ByName(r, last)
      {
        var i :| 0 <= i < |init| && init[i] == r;
        assert rules[i] == r;
      }
    }
  }

  lemma {:induction false} FilterKeepsCounts(rules: seq<Rule>, r: Rule)
    ensures multiset(GameRules(rules))[r] == if IsControl(r) then 0 else multiset(rules)[r]
  {
    if rules != [] {
      FilterKeepsCounts(rules[..|rules| - 1], r);
      assert rules == rules[..|rules| - 1] + [rules[|rules| - 1]];
    }
  }

  /** Adding the rules of the channel to a profile's and filtering them out again gives
      the profile's rules back, in the same order: the channel opens no port of a game. */
  lemma ChannelRulesComeOffCleanly(s: Scope, ranges: seq<PortRange>, control: seq<Rule>)
    requires ValidProfileId(s.id) && forall c | c in control :: IsControl(c)
    ensures
      var rules := Sort(Drafts(s, ranges), ByName);
      GameRules(Added(rules, control)) == rules
  {
    var drafts := Drafts(s, ranges);
    var rules := Sort(drafts, ByName);
    NamesOrderRules();
    SortIsOrderedPermutation(drafts, ByName);
    SortIsOrderedPermutation(rules + control, ByName);
    var all := Added(rules, control);
    FilterKeepsOrder(all);
    forall r
      ensures multiset(GameRules(all))[r] == multiset(drafts)[r]
    {
      FilterKeepsCounts(all, r);
      if r in drafts {
        GameRulesAreNotControl(s, ranges, r);
      }
      assert multiset(all)[r] == multiset(drafts)[r] + multiset(control)[r];
      assert r in drafts <==> r in multiset(drafts);
      assert r in control <==> r in multiset(control);
    }
    assert multiset(GameRules(all)) == multiset(drafts);
    OrderIsSettledByNames(s, ranges, GameRules(all));
  }

  const LOBBY_SPACE := Seats.Prefix(0xC613_0000, 16)

  const CONTROL_PORT: nat := 57623

  const ROOM_PREFIX_BITS: nat := 24

  lemma LobbyBounds(a: nat)
    ensures LOBBY_SPACE.Contains(a) <==> 0xC613_0000 <= a < 0xC614_0000
  {
    assert Pow2(16) == 0x1_0000 by {
      assert Pow2(4) == 16 && Pow2(8) == 256 && Pow2(12) == 4096;
    }
  }

  datatype ControlSet = Holes(rules: seq<Rule>) | WideOpen

  function Door(lobby: nat): Rule
    requires lobby < 0x1_0000_0000
  {
    Rule(CONTROL_PREFIX + "puerta", TCP, CONTROL_PORT, CONTROL_PORT, lobby, [],
         Some(Seats.Prefix(Seats.Prefix(lobby, ROOM_PREFIX_BITS).Network(), ROOM_PREFIX_BITS)))
  }

  function Hall(room: nat, remote: seq<nat>): Rule {
    Rule(CONTROL_PREFIX + "sala", TCP, CONTROL_PORT, CONTROL_PORT, room, remote, None)
  }

  function ControlRules(role: Role, lobby: Address, room: Address, members: seq<Address>): ControlSet {
    if role != Host then Holes([])
    else if lobby.Some? && !LOBBY_SPACE.Contains(lobby.value) then WideOpen
    else
      LobbyBounds(lobby.UnwrapOr(0));
      var door := if lobby.Some? then [Door(lobby.value)] else [];
      var remote := if room.Some? then Normalized(room, members) else [];
      var hall := if room.Some? && remote != [] then [Hall(room.value, remote)] else [];
      Holes(Sort(door + hall, ByName))
  }

  lemma DoorStaysInTheLobby(lobby: nat, a: nat)
    requires 0xC613_0000 <= lobby < 0xC614_0000
    ensures IsControl(Door(lobby))
    ensures Door(lobby).nets.value.Valid() && Door(lobby).nets.value.Contains(lobby)
    ensures Door(lobby).nets.value.Contains(a) ==> LOBBY_SPACE.Contains(a)
  {
    LobbyBounds(a);
    NamedForTheChannel(CONTROL_PREFIX, "puerta");
    var net := Door(lobby).nets.value;
    assert net.Size() == 256 by {
      assert Pow2(4) == 16 && Pow2(8) == 256;
    }
    assert net.addr == lobby / 256 * 256;
    assert net.Network() == net.addr;
  }

  /** Only a host opens anything for the channel, and only its one TCP port: to the /24 around its
      lobby address, inside the lobby space, and to the members who are present. */
  lemma OnlyTheChannelIsOpened(role: Role, lobby: Address, room: Address, members: seq<Address>, rule: Rule, a: nat)
    requires ControlRules(role, lobby, room, members).Holes?
    requires rule in ControlRules(role, lobby, room, members).rules
    ensures role == Host && IsControl(rule)
    ensures rule.proto == TCP && rule.from == rule.to == CONTROL_PORT
    ensures rule.nets.Some? ==>
              && Some(rule.local) == lobby && rule.remote == []
              && rule.nets.value.bits == ROOM_PREFIX_BITS && rule.nets.value.Valid()
              && rule.nets.value.Contains(rule.local)
              && (rule.nets.value.Contains(a) ==> LOBBY_SPACE.Contains(a))
    ensures rule.nets.None? ==>
              && Some(rule.local) == room && rule.remote != [] && Ascending(rule.remote)
              && (a in rule.remote <==> IsOther(room, members, a))
  {
    DoorOrHall(role, lobby, room, members, rule);
    if rule.nets.Some? {
      LobbyBounds(lobby.value);
      DoorStaysInTheLobby(lobby.value, a);
    } else {
      NormalizedIsTheOthers(room, members);
      HallIsControl(room.value, Normalized(room, members));
    }
  }

  lemma HallIsControl(room: nat, remote: seq<nat>)
    ensures IsControl(Hall(room, remote))
  {
    NamedForTheChannel(CONTROL_PREFIX, "sala");
  }

  lemma NamedForTheChannel(prefix: string, word: string)
    ensures prefix <= prefix + word
  {
  }

  lemma DoorOrHall(role: Role, lobby: Address, room: Address, members: seq<Address>, rule: Rule)
    requires ControlRules(role, lobby, room, members).Holes?
    requires rule in ControlRules(role, lobby, room, members).rules
    ensures role == Host
    ensures
      || (lobby.Some? && LOBBY_SPACE.Contains(lobby.value)
          && lobby.value < 0x1_0000_0000 && rule == Door(lobby.value))
      || (room.Some? && Normalized(room, members) != [] && rule == Hall(room.value, Normalized(room, members)))
  {
    LobbyBounds(lobby.UnwrapOr(0));
    var remote := if room.Some? then Normalized(room, members) else [];
    var door := if lobby.Some? then [Door(lobby.value)] else [];
    var hall := if room.Some? && remote != [] then [Hall(room.value, remote)] else [];
    NamesOrderRules();
    SortIsOrderedPermutation(door + hall, ByName);
    assert rule in multiset(door + hall);
  }
}
