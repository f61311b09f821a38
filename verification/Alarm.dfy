/** The alarm that a canary round raises and clears: core/usecase/canary.go over the alert list
    of core/domain/exposure.go. */
module Alarm {
  import opened Common
  import opened Sorting
  import opened Canary

  datatype Kind =
    | FirewallOff | RulesTampered | RouterMapping | ForeignRule | LobbyConflict | KickIncomplete
    | AuditFailed | GateLeaking | GameLost | QuarantineOff | NoMemberChannels | RoomAlmostFull
  {
    predicate Sticky() { LobbyConflict? || KickIncomplete? || GateLeaking? || GameLost? }
  }

  datatype Alert = Alert(kind: Kind, detail: string)

  const REPAIR_LIMIT: nat := 1

  datatype Panel = Panel(alerts: seq<Alert>, repairs: nat, gen: nat, canary: CanaryCheck)

  function Count(alerts: seq<Alert>, k: Kind): nat {
    if alerts == [] then 0
    else Count(alerts[..|alerts| - 1], k) + if alerts[|alerts| - 1].kind == k then 1 else 0
  }

  function Without(alerts: seq<Alert>, k: Kind): seq<Alert> {
    if alerts == [] then []
    else
      var rest := Without(alerts[..|alerts| - 1], k);
      if alerts[|alerts| - 1].kind == k then rest else rest + [alerts[|alerts| - 1]]
  }

  function StickyOnes(alerts: seq<Alert>): seq<Alert> {
    if alerts == [] then []
    else
      var rest := StickyOnes(alerts[..|alerts| - 1]);
      if alerts[|alerts| - 1].kind.Sticky() then rest + [alerts[|alerts| - 1]] else rest
  }

  // --- the steps that touch the list ---

  datatype Event =
    | Round(gen: nat, check: CanaryCheck, detail: string)
    | Refresh(found: seq<Alert>)
    | Raise(alert: Alert)
    | Drop(kind: Kind)
    | ClearRoom

  /** Nobody but the canary raises or drops the gate's alarm. */
  predicate Allowed(ev: Event) {
    match ev
    case Refresh(found) => forall a | a in found :: a.kind != GateLeaking
    case Raise(a) => a.kind != GateLeaking
    case Drop(k) => k != GateLeaking
    case _ => true
  }

  function Sorted(check: CanaryCheck): CanaryCheck {
    check.(answers := Sort(check.answers, ByAddress))
  }

  function AfterRound(p: Panel, gen: nat, check: CanaryCheck, detail: string): Panel {
    if gen != p.gen then p
    else
      var q := p.(canary := Sorted(check));
      var quiet := Without(p.alerts, GateLeaking);
      if q.canary.Verdict() == Leaking then
        if p.repairs < REPAIR_LIMIT then q.(alerts := quiet, repairs := p.repairs + 1)
        else q.(alerts := quiet + [Alert(GateLeaking, detail)])
      else if q.canary.ClearsAlarm() then q.(alerts := quiet, repairs := 0)
      else q
  }

  function After(p: Panel, ev: Event): Panel {
    match ev
    case Round(gen, check, detail) => AfterRound(p, gen, check, detail)
    case Refresh(found) => p.(alerts := found + StickyOnes(p.alerts))
    case Raise(a) => p.(alerts := p.alerts + [a])
    case Drop(k) => p.(alerts := Without(p.alerts, k))
    case ClearRoom => p.(alerts := [], gen := p.gen + 1, canary := BLIND)
  }

  predicate Up(p: Panel) { Count(p.alerts, GateLeaking) > 0 }

  class Session {
    var alerts: seq<Alert>
    var repairs: nat
    var gen: nat
    var canary: CanaryCheck

    ghost function State(): Panel
      reads this
    {
      Panel(alerts, repairs, gen, canary)
    }

    constructor ()
      ensures State() == Panel([], 0, 0, BLIND)
    {
      alerts, repairs, gen, canary := [], 0, 0, BLIND;
    }

    method HasAlert(k: Kind) returns (has: bool)
      ensures has == (Count(alerts, k) > 0)
    {
      for i := 0 to |alerts|
        invariant Count(alerts[..i], k) == 0
      {
        assert alerts[..i + 1][..i] == alerts[..i];
        if alerts[i].kind == k {
          CountGrows(alerts, i + 1, k);
          return true;
        }
      }
      assert alerts[..|alerts|] == alerts;
      return false;
    }

    lemma CountGrows(xs: seq<Alert>, n: nat, k: Kind)
      requires n <= |xs|
      ensures Count(xs, k) >= Count(xs[..n], k)
    {
      if n == |xs| {
        assert xs[..n] == xs;
      } else {
        CountGrows(xs[..|xs| - 1], n, k);
        assert xs[..|xs| - 1][..n] == xs[..n];
      }
    }

    method DropAlerts(k: Kind)
      modifies this`alerts
      ensures alerts == Without(old(alerts), k)
    {
      if alerts == [] {
        return;
      }
      var kept: seq<Alert> := [];
      for i := 0 to |alerts|
        invariant alerts == old(alerts) && kept == Without(alerts[..i], k)
      {
        assert alerts[..i + 1][..i] == alerts[..i];
        if alerts[i].kind != k {
          kept := kept + [alerts[i]];
        }
      }
      assert alerts[..|alerts|] == alerts;
      alerts := kept;
    }

    /** A leak is repaired in silence the first time and announced from the second on. */
    method FoldCanary(planGen: nat, check: CanaryCheck, detail: string)
      modifies this
      ensures State() == AfterRound(old(State()), planGen, check, detail)
    {
      if planGen != gen {
        return;
      }
      canary := check.(answers := Sort(check.answers, ByAddress));
      if canary.Verdict() == Leaking {
        DropAlerts(GateLeaking);
        if repairs < REPAIR_LIMIT {
          repairs := repairs + 1;
          return;
        }
        alerts := alerts + [Alert(GateLeaking, detail)];
      } else if canary.ClearsAlarm() {
        repairs := 0;
        DropAlerts(GateLeaking);
      }
    }

    /** What was found now, then the sticky alerts that were already showing. */
    method RefreshAlerts(discovered: seq<Alert>)
      modifies this`alerts
      ensures alerts == discovered + StickyOnes(old(alerts))
    {
      var found := discovered;
      for i := 0 to |alerts|
        invariant alerts == old(alerts) && found == discovered + StickyOnes(alerts[..i])
      {
        assert alerts[..i + 1][..i] == alerts[..i];
        if alerts[i].kind.Sticky() {
          found := found + [alerts[i]];
        }
      }
      assert alerts[..|alerts|] == alerts;
      alerts := found;
    }
  }

  // --- the alarm is sticky ---

  lemma {:induction false} CountConcat(xs: seq<Alert>, ys: seq<Alert>, k: Kind)
    ensures Count(xs + ys, k) == Count(xs, k) + Count(ys, k)
  {
    if ys == [] {
      assert xs + ys == xs;
    } else {
      CountConcat(xs, ys[..|ys| - 1], k);
      assert (xs + ys)[..|xs + ys| - 1] == xs + ys[..|ys| - 1];
    }
  }

  lemma CountOneMore(xs: seq<Alert>, a: Alert, k: Kind)
    ensures Count(xs + [a], k) == Count(xs, k) + if a.kind == k then 1 else 0
  {
    assert (xs + [a])[..|xs|] == xs;
  }

  lemma {:induction false} WithoutCounts(xs: seq<Alert>, k: Kind, j: Kind)
    ensures Count(Without(xs, k), j) == if j == k then 0 else Count(xs, j)
  {
    if xs != [] {
      WithoutCounts(xs[..|xs| - 1], k, j);
      CountOneMore(Without(xs[..|xs| - 1], k), xs[|xs| - 1], j);
    }
  }

  lemma {:induction false} StickyCounts(xs: seq<Alert>, k: Kind)
    ensures Count(StickyOnes(xs), k) == if k.Sticky() then Count(xs, k) else 0
  {
    if xs != [] {
      StickyCounts(xs[..|xs| - 1], k);
      CountOneMore(StickyOnes(xs[..|xs| - 1]), xs[|xs| - 1], k);
    }
  }

  lemma {:induction false} NoneCounts(xs: seq<Alert>, k: Kind)
    requires forall a | a in xs :: a.kind != k
    ensures Count(xs, k) == 0
  {
    if xs != [] {
      NoneCounts(xs[..|xs| - 1], k);
      assert xs[|xs| - 1] in xs;
    }
  }

  /** Raised at most once, and only after the silent repairs were spent. */
  predicate Settled(p: Panel) {
    Count(p.alerts, GateLeaking) <= 1 && (Up(p) ==> p.repairs >= REPAIR_LIMIT)
  }

  predicate CleanRoundOf(p: Panel, ev: Event) {
    ev.Round? && ev.gen == p.gen && Sorted(ev.check).Verdict() == Clean
  }

  predicate LeakPastRepairs(p: Panel, ev: Event) {
    ev.Round? && ev.gen == p.gen && Sorted(ev.check).Verdict() == Leaking && p.repairs >= REPAIR_LIMIT
  }

  /** One step: the alarm is up afterwards exactly when this step raised it, or it was up and
      neither a clean round of this room nor the end of the room took it away. */
  lemma AlarmAfterStep(p: Panel, ev: Event)
    requires Settled(p) && Allowed(ev)
    ensures Settled(After(p, ev))
    ensures Up(After(p, ev)) <==>
      LeakPastRepairs(p, ev) || (Up(p) && !CleanRoundOf(p, ev) && !ev.ClearRoom?)
  {
    match ev
    case Round(_, _, _) => AlarmAfterRound(p, ev);
    case Refresh(found) =>
      StickyCounts(p.alerts, GateLeaking);
      CountConcat(found, StickyOnes(p.alerts), GateLeaking);
      NoneCounts(found, GateLeaking);
    case Raise(a) => CountConcat(p.alerts, [a], GateLeaking);
    case Drop(k) => WithoutCounts(p.alerts, k, GateLeaking);
    case ClearRoom =>
  }

  lemma AlarmAfterRound(p: Panel, ev: Event)
    requires Settled(p) && ev.Round?
    ensures Settled(After(p, ev))
    ensures Up(After(p, ev)) <==> LeakPastRepairs(p, ev) || (Up(p) && !CleanRoundOf(p, ev))
  {
    var quiet := Without(p.alerts, GateLeaking);
    WithoutCounts(p.alerts, GateLeaking, GateLeaking);
    CountConcat(quiet, [Alert(GateLeaking, ev.detail)], GateLeaking);
  }

  ghost predicate Run(ps: seq<Panel>, evs: seq<Event>) {
    && |ps| == |evs| + 1
    && ps[0] == Panel([], 0, 0, BLIND)
    && forall i | 0 <= i < |evs| :: Allowed(evs[i]) && ps[i + 1] == After(ps[i], evs[i])
  }

  lemma {:induction false} AlwaysSettled(ps: seq<Panel>, evs: seq<Event>, i: nat)
    requires Run(ps, evs) && i < |ps|
    ensures Settled(ps[i])
  {
    if i > 0 {
      AlwaysSettled(ps, evs, i - 1);
      AlarmAfterStep(ps[i - 1], evs[i - 1]);
    }
  }

  /** Once up, the alarm stays up, alone of its kind, until a clean round of the same room or
      the end of the room. */
  lemma {:induction false} OnlyCleanRoundsClear(ps: seq<Panel>, evs: seq<Event>, i: nat, j: nat)
    requires Run(ps, evs) && i <= j < |ps| && Up(ps[i])
    requires forall k | i <= k < j :: !CleanRoundOf(ps[k], evs[k]) && !evs[k].ClearRoom?
    ensures Up(ps[j]) && Count(ps[j].alerts, GateLeaking) == 1
  {
    AlwaysSettled(ps, evs, j);
    if i < j {
      OnlyCleanRoundsClear(ps, evs, i, j - 1);
      AlwaysSettled(ps, evs, j - 1);
      AlarmAfterStep(ps[j - 1], evs[j - 1]);
    }
  }

  /** Sorting the answers changes no verdict. */
  lemma SortingKeepsVerdict(check: CanaryCheck)
    ensures Sorted(check).Verdict() == check.Verdict()
  {
    var xs := check.answers;
    SortIsOrderedPermutation(xs, ByAddress);
    var ys := Sort(xs, ByAddress);
    forall a: Answer
      ensures a in xs <==> a in ys
    {
      assert a in multiset(xs) <==> a in multiset(ys);
    }
    assert |multiset(xs)| == |multiset(ys)|;
  }
}
