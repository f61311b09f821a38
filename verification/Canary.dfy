/** core/domain/canary.go and the collector of core/usecase/canary.go: one round of reports. */
module Canary {
  import opened Common
  import opened Sorting

  type Addr = nat

  datatype Outcome = Answered | Refused | Silent | Failed {
    predicate Reached() { Answered? || Refused? }
  }

  datatype Report = Report(from: Addr, port: nat, tcp: Outcome, udp: Outcome)

  datatype Asked = Asked(at: Addr, name: string)

  datatype Answer = Answer(from: Addr, name: string, tcp: Outcome, udp: Outcome) {
    predicate Reach() { tcp.Reached() || udp.Reached() }
    predicate Measured() { tcp != Failed || udp != Failed }
  }

  datatype Verdict = Blind | Leaking | Clean | Unconfirmed | Mismatch

  datatype CanaryCheck = CanaryCheck(
    measuredAt: Time, port: nat, asked: seq<Asked>, touched: bool, answers: seq<Answer>)
  {
    predicate ReportedReach() { exists a :: a in answers && a.Reach() }

    predicate ReportedMeasured() { exists a :: a in answers && a.Measured() }

    function Verdict(): Verdict {
      if measuredAt == 0 then Blind
      else if touched then Leaking
      else if answers == [] || !ReportedMeasured() then Unconfirmed
      else if ReportedReach() then Mismatch
      else Clean
    }

    predicate ClearsAlarm() { Verdict() == Clean }
  }

  const BLIND := CanaryCheck(0, 0, [], false, [])

  predicate WasAsked(asked: seq<Asked>, at: Addr) { exists q :: q in asked && q.at == at }

  /** The name of the first entry that asks `at`. */
  function AskedName(asked: seq<Asked>, at: Addr): string
    requires WasAsked(asked, at)
  {
    if asked[0].at == at then asked[0].name else AskedName(asked[1..], at)
  }

  predicate HasAnswered(answers: seq<Answer>, at: Addr) { exists a :: a in answers && a.from == at }

  function Recorded(c: CanaryCheck, r: Report): (CanaryCheck, bool) {
    if r.port != c.port || !WasAsked(c.asked, r.from) || HasAnswered(c.answers, r.from) then (c, false)
    else (c.(answers := c.answers + [Answer(r.from, AskedName(c.asked, r.from), r.tcp, r.udp)]), true)
  }

  predicate AllAnswered(c: CanaryCheck) {
    c.asked != [] && forall q | q in c.asked :: HasAnswered(c.answers, q.at)
  }

  function Folded(c: CanaryCheck, rs: seq<Report>): CanaryCheck {
    if rs == [] then c else Recorded(Folded(c, rs[..|rs| - 1]), rs[|rs| - 1]).0
  }

  datatype Event = Touched | Reported(r: Report) | Deadline | Cancelled

  class Round {
    var check: CanaryCheck

    constructor (measuredAt: Time, port: nat, asked: seq<Asked>)
      ensures check == CanaryCheck(measuredAt, port, asked, false, [])
    {
      check := CanaryCheck(measuredAt, port, asked, false, []);
    }

    method NameOf(at: Addr) returns (name: Option<string>)
      ensures name == if WasAsked(check.asked, at) then Some(AskedName(check.asked, at)) else None
    {
      var rest := check.asked;
      while rest != []
        invariant WasAsked(check.asked, at) == WasAsked(rest, at)
        invariant WasAsked(rest, at) ==> AskedName(check.asked, at) == AskedName(rest, at)
      {
        if rest[0].at == at {
          return Some(rest[0].name);
        }
        assert rest == [rest[0]] + rest[1..];
        rest := rest[1..];
      }
      return None;
    }

    method Record(r: Report) returns (ok: bool)
      modifies this
      ensures (check, ok) == Recorded(old(check), r)
    {
      if r.port != check.port {
        return false;
      }
      var name := NameOf(r.from);
      if name.None? {
        return false;
      }
      for i := 0 to |check.answers|
        invariant check == old(check)
        invariant forall j | 0 <= j < i :: check.answers[j].from != r.from
      {
        if check.answers[i].from == r.from {
          assert check.answers[i] in check.answers;
          return false;
        }
      }
      check := check.(answers := check.answers + [Answer(r.from, name.value, r.tcp, r.udp)]);
      return true;
    }

    method EverybodyAnswered() returns (all: bool)
      ensures all == AllAnswered(check)
      ensures all <==>
                check.asked != [] && forall q | q in check.asked :: exists a :: a in check.answers && a.from == q.at
    {
      if check.asked == [] {
        return false;
      }
      var seen := {};
      for i := 0 to |check.answers|
        invariant forall at :: at in seen <==> HasAnswered(check.answers[..i], at)
      {
        assert check.answers[..i + 1] == check.answers[..i] + [check.answers[i]];
        seen := seen + {check.answers[i].from};
      }
      assert check.answers[..|check.answers|] == check.answers;
      for i := 0 to |check.asked|
        invariant forall j | 0 <= j < i :: HasAnswered(check.answers, check.asked[j].at)
      {
        if check.asked[i].at !in seen {
          assert check.asked[i] in check.asked;
          return false;
        }
      }
      return true;
    }

    /** Says whether the report was admitted and was the last one missing. */
    method Take(r: Report) returns (last: bool)
      modifies this
      ensures check == Recorded(old(check), r).0
      ensures last ==> AllAnswered(check)
      ensures !last && !AllAnswered(old(check)) ==> !AllAnswered(check)
    {
      var ok := Record(r);
      if !ok {
        return false;
      }
      last := EverybodyAnswered();
    }

    /** Folds reports until the port is touched, everybody answered, or time is over. */
    method Collect(events: seq<Event>) returns (used: nat)
      modifies this
      ensures used <= |events| && forall j | 0 <= j < used :: events[j].Reported?
      ensures check == Progress(old(check), events, used)
      ensures used == |events| || !events[used].Reported? || (used > 0 && AllAnswered(check))
      ensures !AllAnswered(old(check)) ==> forall n | 0 <= n < used :: StillOpen(old(check), events, n)
    {
      used := 0;
      while used < |events|
        invariant used <= |events| && forall j | 0 <= j < used :: events[j].Reported?
        invariant check == Progress(old(check), events, used)
        invariant !AllAnswered(old(check)) ==> !AllAnswered(check)
        invariant !AllAnswered(old(check)) ==> forall n | 0 <= n < used :: StillOpen(old(check), events, n)
      {
        match events[used]
        case Touched => return;
        case Deadline => return;
        case Cancelled => return;
        case Reported(r) =>
          ProgressOneMore(old(check), events, used);
          var last := Take(r);
          used := used + 1;
          if last {
            return;
          }
      }
    }
  }

  /** The round after `n` events. */
  function Progress(c: CanaryCheck, events: seq<Event>, n: nat): CanaryCheck
    requires n <= |events|
  {
    Folded(c, ReportsIn(events[..n]))
  }

  /** After `n` events some asked address has not answered. */
  predicate StillOpen(c: CanaryCheck, events: seq<Event>, n: nat)
    requires n <= |events|
  {
    !AllAnswered(Progress(c, events, n))
  }

  lemma ProgressOneMore(c: CanaryCheck, events: seq<Event>, n: nat)
    requires n < |events| && events[n].Reported?
    ensures Progress(c, events, n + 1) == Recorded(Progress(c, events, n), events[n].r).0
  {
    assert events[..n + 1] == events[..n] + [events[n]];
    ReportsInOneMore(events[..n], events[n].r);
  }

  function ReportsIn(events: seq<Event>): seq<Report> {
    if events == [] then []
    else
      var e := events[|events| - 1];
      ReportsIn(events[..|events| - 1]) + if e.Reported? then [e.r] else []
  }

  lemma ReportsInOneMore(events: seq<Event>, r: Report)
    ensures ReportsIn(events + [Reported(r)]) == ReportsIn(events) + [r]
    ensures forall c :: Folded(c, ReportsIn(events) + [r]) == Recorded(Folded(c, ReportsIn(events)), r).0
  {
    assert (events + [Reported(r)])[..|events|] == events;
    var rs := ReportsIn(events);
    assert (rs + [r])[..|rs|] == rs;
  }

  // --- what a round makes of any sequence of reports ---

  /** The report at `i` is the first one of its sender, an asked address, for the round's port. */
  predicate Admissible(c: CanaryCheck, rs: seq<Report>, i: nat)
    requires i < |rs|
  {
    && rs[i].port == c.port && WasAsked(c.asked, rs[i].from)
    && forall j | 0 <= j < i && rs[j].port == c.port :: rs[j].from != rs[i].from
  }

  function AnswerOf(c: CanaryCheck, r: Report): Answer
    requires WasAsked(c.asked, r.from)
  {
    Answer(r.from, AskedName(c.asked, r.from), r.tcp, r.udp)
  }

  /** The admissible reports of the first `n`, in order. */
  function Admitted(c: CanaryCheck, rs: seq<Report>, n: nat): seq<Answer>
    requires n <= |rs|
  {
    if n == 0 then []
    else Admitted(c, rs, n - 1) + if Admissible(c, rs, n - 1) then [AnswerOf(c, rs[n - 1])] else []
  }

  lemma {:induction false} AdmittedSenders(c: CanaryCheck, rs: seq<Report>, n: nat, at: Addr)
    requires n <= |rs|
    ensures HasAnswered(Admitted(c, rs, n), at)
       <==> WasAsked(c.asked, at) && exists j :: 0 <= j < n && rs[j].port == c.port && rs[j].from == at
  {
    if n > 0 {
      AdmittedSenders(c, rs, n - 1, at);
      AdmittedSenders(c, rs, n - 1, rs[n - 1].from);
      var before := Admitted(c, rs, n - 1);
      if Admissible(c, rs, n - 1) {
        var a := AnswerOf(c, rs[n - 1]);
        assert forall x :: x in before + [a] <==> x in before || x == a;
        if rs[n - 1].from == at {
          assert a in before + [a];
        }
      } else {
        assert Admitted(c, rs, n) == before;
      }
    }
  }

  /** Folding any reports into an empty round yields exactly the first matching report of each
      asked address, in the order in which they came. */
  lemma {:induction false} FoldIsFirstReports(c: CanaryCheck, rs: seq<Report>)
    requires c.answers == []
    ensures Folded(c, rs) == c.(answers := Admitted(c, rs, |rs|))
  {
    if rs != [] {
      var n := |rs| - 1;
      FoldIsFirstReports(c, rs[..n]);
      AdmittedOfPrefix(c, rs, n);
      AdmittedSenders(c, rs, n, rs[n].from);
    }
  }

  lemma {:induction false} AdmittedOfPrefix(c: CanaryCheck, rs: seq<Report>, n: nat)
    requires n <= |rs|
    ensures Admitted(c, rs[..n], n) == Admitted(c, rs, n)
  {
    AdmittedPrefixUpTo(c, rs, n, n);
  }

  lemma {:induction false} AdmittedPrefixUpTo(c: CanaryCheck, rs: seq<Report>, n: nat, k: nat)
    requires k <= n <= |rs|
    ensures Admitted(c, rs[..n], k) == Admitted(c, rs, k)
  {
    if k > 0 {
      AdmittedPrefixUpTo(c, rs, n, k - 1);
      assert Admissible(c, rs[..n], k - 1) == Admissible(c, rs, k - 1);
    }
  }

  /** Closing as soon as everybody answered is lossless: no later report could be admitted. */
  lemma {:induction false} ClosingEarlyLosesNothing(c: CanaryCheck, rs: seq<Report>, more: seq<Report>)
    requires AllAnswered(Folded(c, rs))
    ensures Folded(c, rs + more) == Folded(c, rs)
  {
    if more == [] {
      assert rs + more == rs;
    } else {
      ClosingEarlyLosesNothing(c, rs, more[..|more| - 1]);
      assert (rs + more)[..|rs + more| - 1] == rs + more[..|more| - 1];
    }
  }

  // --- senders do not touch each other's answer ---

  function From(rs: seq<Report>, at: Addr): seq<Report> {
    if rs == [] then []
    else From(rs[..|rs| - 1], at) + if rs[|rs| - 1].from == at then [rs[|rs| - 1]] else []
  }

  /** The first report in `mine` for `port`. */
  function FirstFor(mine: seq<Report>, port: nat): Option<Report> {
    if mine == [] then None
    else
      var before := FirstFor(mine[..|mine| - 1], port);
      if before.Some? then before
      else if mine[|mine| - 1].port == port then Some(mine[|mine| - 1]) else None
  }

  /** The first report for the port among the sender's own, if it was asked. */
  function FiledFor(c: CanaryCheck, rs: seq<Report>, at: Addr): Option<Answer> {
    var first := FirstFor(From(rs, at), c.port);
    if !WasAsked(c.asked, at) || first.None? then None
    else Some(Answer(at, AskedName(c.asked, at), first.value.tcp, first.value.udp))
  }

  lemma FromOneMore(rs: seq<Report>, n: nat, at: Addr)
    requires 0 < n <= |rs|
    ensures
      var mine := From(rs[..n - 1], at);
      From(rs[..n], at) == if rs[n - 1].from == at then mine + [rs[n - 1]] else mine
  {
    assert rs[..n][..n - 1] == rs[..n - 1];
    assert From(rs[..n - 1], at) + [] == From(rs[..n - 1], at);
  }

  lemma FirstForOneMore(mine: seq<Report>, r: Report, port: nat)
    ensures FirstFor(mine + [r], port) ==
      if FirstFor(mine, port).Some? then FirstFor(mine, port) else if r.port == port then Some(r) else None
  {
    assert (mine + [r])[..|mine|] == mine;
  }

  /** None of the first `n` reports comes from `at` for the port. */
  predicate NothingFrom(rs: seq<Report>, n: nat, port: nat, at: Addr)
    requires n <= |rs|
  {
    forall j | 0 <= j < n && rs[j].port == port :: rs[j].from != at
  }

  lemma {:induction false} FirstForIsNone(c: CanaryCheck, rs: seq<Report>, n: nat, at: Addr)
    requires n <= |rs|
    ensures FirstFor(From(rs[..n], at), c.port).None? <==> NothingFrom(rs, n, c.port, at)
  {
    if n > 0 {
      var mine, r := From(rs[..n - 1], at), rs[n - 1];
      FirstForIsNone(c, rs, n - 1, at);
      assert NothingFrom(rs, n, c.port, at) <==>
             NothingFrom(rs, n - 1, c.port, at) && !(r.port == c.port && r.from == at);
      FromOneMore(rs, n, at);
      if r.from == at {
        FirstForOneMore(mine, r, c.port);
      }
    }
  }

  lemma AdmittedOneMore(c: CanaryCheck, rs: seq<Report>, n: nat, a: Answer)
    requires 0 < n <= |rs|
    ensures a in Admitted(c, rs, n) <==>
              a in Admitted(c, rs, n - 1) || (Admissible(c, rs, n - 1) && a == AnswerOf(c, rs[n - 1]))
  {
    var before := Admitted(c, rs, n - 1);
    assert before + [] == before;
  }

  lemma FiledOneMore(c: CanaryCheck, rs: seq<Report>, n: nat, at: Addr)
    requires 0 < n <= |rs|
    ensures FiledFor(c, rs[..n], at) ==
      if rs[n - 1].from == at && Admissible(c, rs, n - 1) then Some(AnswerOf(c, rs[n - 1]))
      else FiledFor(c, rs[..n - 1], at)
    ensures rs[n - 1].from == at && Admissible(c, rs, n - 1) ==> FiledFor(c, rs[..n - 1], at).None?
  {
    FirstForIsNone(c, rs, n - 1, at);
    FromOneMore(rs, n, at);
    FirstForOneMore(From(rs[..n - 1], at), rs[n - 1], c.port);
  }

  /** What is filed under an address depends on that sender's reports and on nobody else's. */
  lemma {:induction false} AnswerIsOwnFirstReport(c: CanaryCheck, rs: seq<Report>, n: nat, a: Answer)
    requires n <= |rs|
    ensures a in Admitted(c, rs, n) <==> FiledFor(c, rs[..n], a.from) == Some(a)
  {
    if n > 0 {
      AnswerIsOwnFirstReport(c, rs, n - 1, a);
      AdmittedOneMore(c, rs, n, a);
      FiledOneMore(c, rs, n, a.from);
    }
  }

  ghost predicate SameBySender(rs: seq<Report>, rs': seq<Report>) {
    forall at: Addr :: From(rs, at) == From(rs', at)
  }

  ghost predicate OneEach(xs: seq<Answer>) {
    forall i, j | 0 <= i < j < |xs| :: xs[i].from != xs[j].from
  }

  lemma {:induction false} OneAnswerEach(c: CanaryCheck, rs: seq<Report>, n: nat)
    requires n <= |rs|
    ensures OneEach(Admitted(c, rs, n))
  {
    if n > 0 {
      OneAnswerEach(c, rs, n - 1);
      AdmittedSenders(c, rs, n - 1, rs[n - 1].from);
    }
  }

  predicate ByAddress(a: Answer, b: Answer) { a.from <= b.from }

  lemma SameAnswersSortAlike(xs: seq<Answer>, ys: seq<Answer>)
    requires OneEach(xs) && OneEach(ys) && forall a: Answer :: a in xs <==> a in ys
    ensures Sort(xs, ByAddress) == Sort(ys, ByAddress)
  {
    SameElementsPermute(xs, ys);
    SortIsOrderedPermutation(xs, ByAddress);
    SortIsOrderedPermutation(ys, ByAddress);
    var zs := Sort(xs, ByAddress);
    forall x, y | x in zs && y in zs && ByAddress(x, y) && ByAddress(y, x)
      ensures x == y
    {
      assert x in multiset(zs) && y in multiset(zs);
      assert x in xs && y in xs;
    }
    OrderedPermutationIsUnique(zs, Sort(ys, ByAddress), ByAddress);
  }

  /** Any interleaving that keeps each sender's own order files the same sorted answers. */
  lemma InterleavingDoesNotMatter(c: CanaryCheck, rs: seq<Report>, rs': seq<Report>)
    requires c.answers == [] && SameBySender(rs, rs')
    ensures Sort(Folded(c, rs).answers, ByAddress) == Sort(Folded(c, rs').answers, ByAddress)
  {
    FoldIsFirstReports(c, rs);
    FoldIsFirstReports(c, rs');
    var xs, ys := Admitted(c, rs, |rs|), Admitted(c, rs', |rs'|);
    OneAnswerEach(c, rs, |rs|);
    OneAnswerEach(c, rs', |rs'|);
    assert rs[..|rs|] == rs && rs'[..|rs'|] == rs';
    forall a: Answer
      ensures a in xs <==> a in ys
    {
      AnswerIsOwnFirstReport(c, rs, |rs|, a);
      AnswerIsOwnFirstReport(c, rs', |rs'|, a);
    }
    SameAnswersSortAlike(xs, ys);
  }

  /** An answer goes by the name of the first entry that asks its sender. */
  lemma {:induction false} FirstNameCounts(asked: seq<Asked>, at: Addr, k: nat)
    requires k < |asked| && asked[k].at == at && forall j | 0 <= j < k :: asked[j].at != at
    ensures WasAsked(asked, at) && AskedName(asked, at) == asked[k].name
  {
    assert asked[k] in asked;
    if k > 0 {
      FirstNameCounts(asked[1..], at, k - 1);
    }
  }

  /** The answers of a closed round come ascending by address. */
  lemma AnswersAscend(xs: seq<Answer>, i: nat, j: nat)
    requires i < j < |Sort(xs, ByAddress)|
    ensures Sort(xs, ByAddress)[i].from <= Sort(xs, ByAddress)[j].from
    ensures multiset(Sort(xs, ByAddress)) == multiset(xs)
  {
    SortIsOrderedPermutation(xs, ByAddress);
    assert ByAddress(Sort(xs, ByAddress)[i], Sort(xs, ByAddress)[j]);
  }
}
