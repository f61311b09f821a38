/** What each role opens, and what the channel opens, said of the fields of a profile and of who is present. */
module PolicyRoles {
  import opened Common
  import opened Ports
  import opened Policy
  import opened Sorting
  import Lexical

  ghost predicate SomebodyElse(local: Address, members: seq<Address>) {
    exists a: nat :: Some(a) in members && Some(a) != local
  }

  /** A range of the list asks for the port, in that protocol or in both. */
  predicate AsksFor(ranges: seq<PortRange>, proto: Proto, port: nat) {
    exists r :: r in ranges && (r.proto == proto || r.proto == Both) && r.from <= port <= r.to
  }

  predicate Opens(rules: seq<Rule>, proto: Proto, port: nat) {
    exists rule :: rule in rules && rule.proto == proto && rule.from <= port <= rule.to
  }

  lemma OpensWhatIsAsked(
    p: Profile, role: Role, local: Address, members: seq<Address>, table: seq<nat>, proto: Proto, port: nat)
    requires Wanted(p, role, local, members, table).Rules? && proto != Both
    ensures Opens(Wanted(p, role, local, members, table).rules, proto, port) <==>
              p.id != "" && SomebodyElse(local, members) && AsksFor(RangesOf(p, role), proto, port)
  {
    var rules := Wanted(p, role, local, members, table).rules;
    NormalizedIsTheOthers(local, members);
    if Opens(rules, proto, port) {
      var rule :| rule in rules && rule.proto == proto && rule.from <= port <= rule.to;
      WantedIsTheExpansion(p, role, local, members, table, rule);
      var s := ScopeOf(p, role, local, members);
      var r, q :| Drafted(s, RangesOf(p, role), rule, r, q);
      assert IsOther(local, members, s.remote[0]);
    }
    if p.id != "" && SomebodyElse(local, members) && AsksFor(RangesOf(p, role), proto, port) {
      var a: nat :| Some(a) in members && Some(a) != local;
      assert IsOther(local, members, a);
      var s := ScopeOf(p, role, local, members);
      var r :| r in RangesOf(p, role) && (r.proto == proto || r.proto == Both) && r.from <= port <= r.to;
      var rule := RuleFor(s, proto, r);
      assert Drafted(s, RangesOf(p, role), rule, r, proto);
      WantedIsTheExpansion(p, role, local, members, table, rule);
    }
  }

  /** A guest's rule set opens exactly the ports that the profile asks of its clients, each in the protocols
      it names, while somebody else is present. */
  lemma GuestOpensTheClientPorts(
    p: Profile, local: Address, members: seq<Address>, table: seq<nat>, proto: Proto, port: nat)
    requires Wanted(p, Guest, local, members, table).Rules? && proto != Both
    ensures Opens(Wanted(p, Guest, local, members, table).rules, proto, port) <==>
              p.id != "" && SomebodyElse(local, members) && AsksFor(p.clientPorts, proto, port)
  {
    OpensWhatIsAsked(p, Guest, local, members, table, proto, port);
  }

  /** A host's opens exactly the ports that the profile asks of its host. */
  lemma HostOpensTheHostPorts(
    p: Profile, role: Role, local: Address, members: seq<Address>, table: seq<nat>, proto: Proto, port: nat)
    requires role != Guest && Wanted(p, role, local, members, table).Rules? && proto != Both
    ensures Opens(Wanted(p, role, local, members, table).rules, proto, port) <==>
              p.id != "" && SomebodyElse(local, members) && AsksFor(p.hostPorts, proto, port)
  {
    OpensWhatIsAsked(p, role, local, members, table, proto, port);
  }

  /** What the other role's list says does not matter. */
  lemma OtherListIsIgnored(
    p: Profile, role: Role, local: Address, members: seq<Address>, table: seq<nat>, other: seq<PortRange>)
    ensures role == Guest ==>
              Wanted(p.(hostPorts := other), role, local, members, table) == Wanted(p, role, local, members, table)
    ensures role != Guest ==>
              Wanted(p.(clientPorts := other), role, local, members, table) == Wanted(p, role, local, members, table)
  {
    assert RangesOf(if role == Guest then p.(hostPorts := other) else p.(clientPorts := other), role)
        == RangesOf(p, role);
  }

  lemma {:induction false} FirstHitIsAsked(ranges: seq<PortRange>, table: seq<nat>)
    requires FirstHit(ranges, table).Some?
    ensures FirstHit(ranges, table).value in table
    ensures exists r :: r in ranges && r.from <= FirstHit(ranges, table).value <= r.to
  {
    var n := |ranges| - 1;
    if FirstHit(ranges[..n], table).Some? {
      FirstHitIsAsked(ranges[..n], table);
      var r :| r in ranges[..n] && r.from <= FirstHit(ranges, table).value <= r.to;
      assert r in ranges;
    } else {
      assert ranges[n].Covers(FirstHit(ranges, table).value);
    }
  }

  /** The port that a refusal names is forbidden, and asked for by a range of that role. */
  lemma RefusalNamesAnAskedPort(p: Profile, role: Role, local: Address, members: seq<Address>, table: seq<nat>)
    requires Wanted(p, role, local, members, table).Forbidden?
    ensures
      var port := Wanted(p, role, local, members, table).port;
      port in table
      && exists r :: r in (if role == Guest then p.clientPorts else p.hostPorts) && r.from <= port <= r.to
  {
    FirstHitIsAsked(RangesOf(p, role), table);
  }

  // --- the channel ---

  predicate HasDoor(rules: seq<Rule>) { exists rule :: rule in rules && rule.nets.Some? }

  predicate HasHall(rules: seq<Rule>) { exists rule :: rule in rules && rule.nets.None? }

  lemma ChannelParts(lobby: nat, room: Address, members: seq<Address>, door: seq<Rule>, hall: seq<Rule>, l: Address)
    requires l.Some? ==> l.value == lobby && 0xC613_0000 <= lobby < 0xC614_0000
    requires door == if l.Some? then [Door(lobby)] else []
    requires hall == if room.Some? && Normalized(room, members) != [] then [Hall(room.value, Normalized(room, members))]
                     else []
    ensures ControlRules(Host, l, room, members).Holes?
    ensures var rules := ControlRules(Host, l, room, members).rules;
            |rules| == |door + hall| && forall rule :: rule in rules <==> rule in door + hall
  {
    LobbyBounds(l.UnwrapOr(0));
    NamesOrderRules();
    SortIsOrderedPermutation(door + hall, ByName);
    var rules := Sort(door + hall, ByName);
    PermutationsShareElements(rules, door + hall);
    assert |multiset(rules)| == |multiset(door + hall)|;
    assert ControlRules(Host, l, room, members) == Holes(rules);
  }

  lemma SomebodyIsListed(local: Address, members: seq<Address>)
    ensures SomebodyElse(local, members) <==> Normalized(local, members) != []
  {
    NormalizedIsTheOthers(local, members);
    if Normalized(local, members) != [] {
      assert IsOther(local, members, Normalized(local, members)[0]);
    }
    if a: nat :| Some(a) in members && Some(a) != local {
      assert IsOther(local, members, a);
    }
  }

  /** A host opens the door exactly when it has an address in the lobby, and the hall exactly when it has one
      in the room and somebody else is there; an address outside of the lobby is refused; nobody else opens. */
  lemma ChannelIsOpenedExactly(role: Role, lobby: Address, room: Address, members: seq<Address>)
    ensures ControlRules(role, lobby, room, members).WideOpen? <==>
              role == Host && lobby.Some? && !(0xC613_0000 <= lobby.value < 0xC614_0000)
    ensures ControlRules(role, lobby, room, members).Holes? ==>
              var rules := ControlRules(role, lobby, room, members).rules;
              && (HasDoor(rules) <==> role == Host && lobby.Some?)
              && (HasHall(rules) <==> role == Host && room.Some? && SomebodyElse(room, members))
              && |rules| == (if HasDoor(rules) then 1 else 0) + (if HasHall(rules) then 1 else 0)
  {
    LobbyBounds(lobby.UnwrapOr(0));
    SomebodyIsListed(room, members);
    if ControlRules(role, lobby, room, members).Holes? && role == Host {
      var remote := Normalized(room, members);
      var door := if lobby.Some? then [Door(lobby.value)] else [];
      var hall := if room.Some? && remote != [] then [Hall(room.value, remote)] else [];
      ChannelParts(lobby.UnwrapOr(0), room, members, door, hall, lobby);
      var rules := ControlRules(role, lobby, room, members).rules;
      CountParts(rules, door, hall);
    }
  }

  lemma CountParts(rules: seq<Rule>, door: seq<Rule>, hall: seq<Rule>)
    requires |door| <= 1 && |hall| <= 1 && |rules| == |door + hall|
    requires forall rule :: rule in rules <==> rule in door + hall
    requires (door != [] ==> door[0].nets.Some?) && (hall != [] ==> hall[0].nets.None?)
    ensures HasDoor(rules) <==> door != []
    ensures HasHall(rules) <==> hall != []
  {
    assert door != [] ==> door[0] in rules;
    assert hall != [] ==> hall[0] in rules;
  }

  /** The rules come ascending by name. */
  lemma RulesComeByName(p: Profile, role: Role, local: Address, members: seq<Address>, table: seq<nat>,
                        i: nat, j: nat, k: nat)
    requires Wanted(p, role, local, members, table).Rules?
    requires i < j < |Wanted(p, role, local, members, table).rules|
    ensures
      var a := Wanted(p, role, local, members, table).rules[i].name;
      var b := Wanted(p, role, local, members, table).rules[j].name;
      k < |a| && k < |b| && a[..k] == b[..k] ==> a[k] <= b[k]
  {
    var rules := Wanted(p, role, local, members, table).rules;
    var s := ScopeOf(p, role, local, members);
    NamesOrderRules();
    SortIsOrderedPermutation(Drafts(s, RangesOf(p, role)), ByName);
    assert ByName(rules[i], rules[j]);
    var a, b := rules[i].name, rules[j].name;
    if k < |a| && k < |b| && a[..k] == b[..k] && a[k] != b[k] {
      Lexical.FirstDifferenceDecides(a, b, k);
    }
  }

  /** The port is that of the first range with one, and of that range the first of the table. */
  lemma {:induction false} FirstRangeIsNamed(ranges: seq<PortRange>, table: seq<nat>, k: nat)
    requires k < |ranges| && Hit(ranges[k], table).Some?
    requires forall j | 0 <= j < k :: AvoidsAll(ranges[j], table)
    ensures FirstHit(ranges, table) == Hit(ranges[k], table)
  {
    var n := |ranges| - 1;
    FirstHitDecides(ranges[..n], table);
    if k < n {
      FirstRangeIsNamed(ranges[..n], table, k);
    } else {
      forall r | r in ranges[..n]
        ensures AvoidsAll(r, table)
      {
        var j :| 0 <= j < n && ranges[j] == r;
      }
    }
  }
}
