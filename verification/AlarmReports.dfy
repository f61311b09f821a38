/** What the reports of a round do to the alarm, said of the reports alone. */
module AlarmReports {
  import opened Common
  import opened Sorting
  import opened Canary
  import opened Alarm

  /** The `k`-th report is the first that an asked sender makes for the port. */
  predicate FirstReport(asked: seq<Asked>, port: nat, rs: seq<Report>, k: nat) {
    && k < |rs| && rs[k].port == port && (exists q :: q in asked && q.at == rs[k].from)
    && forall j | 0 <= j < k && rs[j].port == port :: rs[j].from != rs[k].from
  }

  /** Somebody's first report measured something: not both protocols failed. */
  ghost predicate SomebodyMeasured(asked: seq<Asked>, port: nat, rs: seq<Report>) {
    exists k: nat :: FirstReport(asked, port, rs, k) && !(rs[k].tcp == Failed && rs[k].udp == Failed)
  }

  /** Somebody's first report claims to have got an answer or a refusal. */
  ghost predicate SomebodyReached(asked: seq<Asked>, port: nat, rs: seq<Report>) {
    exists k: nat :: FirstReport(asked, port, rs, k)
                     && (rs[k].tcp == Answered || rs[k].tcp == Refused || rs[k].udp == Answered || rs[k].udp == Refused)
  }

  lemma {:induction false} AnswersAreFirstReports(c: CanaryCheck, rs: seq<Report>, n: nat, a: Answer)
    requires n <= |rs|
    ensures a in Admitted(c, rs, n) <==> exists k: nat ::
              k < n && FirstReport(c.asked, c.port, rs, k) && a.from == rs[k].from && a.tcp == rs[k].tcp
              && a.udp == rs[k].udp && a.name == AskedName(c.asked, rs[k].from)
  {
    if n > 0 {
      AnswersAreFirstReports(c, rs, n - 1, a);
      AdmittedOneMore(c, rs, n, a);
      assert FirstReport(c.asked, c.port, rs, n - 1) <==> Admissible(c, rs, n - 1);
    }
  }

  lemma AnswersTellReports(c: CanaryCheck, rs: seq<Report>)
    requires c.answers == []
    ensures Folded(c, rs) == c.(answers := Folded(c, rs).answers)
    ensures (exists a :: a in Folded(c, rs).answers && (a.tcp != Failed || a.udp != Failed))
       <==> SomebodyMeasured(c.asked, c.port, rs)
    ensures (exists a :: a in Folded(c, rs).answers
                         && (a.tcp == Answered || a.tcp == Refused || a.udp == Answered || a.udp == Refused))
       <==> SomebodyReached(c.asked, c.port, rs)
  {
    FoldIsFirstReports(c, rs);
    var answers := Admitted(c, rs, |rs|);
    forall a: Answer
      ensures a in answers <==> exists k: nat ::
                k < |rs| && FirstReport(c.asked, c.port, rs, k) && a.from == rs[k].from && a.tcp == rs[k].tcp
                && a.udp == rs[k].udp && a.name == AskedName(c.asked, rs[k].from)
    {
      AnswersAreFirstReports(c, rs, |rs|, a);
    }
    forall k: nat | FirstReport(c.asked, c.port, rs, k)
      ensures Answer(rs[k].from, AskedName(c.asked, rs[k].from), rs[k].tcp, rs[k].udp) in answers
    {
    }
  }

  /** The round as its reports leave it. */
  function RoundOf(measuredAt: Time, port: nat, asked: seq<Asked>, touched: bool, rs: seq<Report>): CanaryCheck {
    Folded(CanaryCheck(measuredAt, port, asked, touched, []), rs)
  }

  /** The verdict is that of the host's own port first, and of the reports only after it. */
  lemma VerdictOfReports(measuredAt: Time, port: nat, asked: seq<Asked>, touched: bool, rs: seq<Report>)
    ensures
      var v := RoundOf(measuredAt, port, asked, touched, rs).Verdict();
      var measured, reached := SomebodyMeasured(asked, port, rs), SomebodyReached(asked, port, rs);
      && (v == Blind <==> measuredAt == 0)
      && (v == Leaking <==> measuredAt != 0 && touched)
      && (v == Unconfirmed <==> measuredAt != 0 && !touched && !measured)
      && (v == Mismatch <==> measuredAt != 0 && !touched && reached)
      && (v == Clean <==> measuredAt != 0 && !touched && measured && !reached)
  {
    AnswersTellReports(CanaryCheck(measuredAt, port, asked, touched, []), rs);
  }

  predicate Shows(alerts: seq<Alert>, k: Kind) { exists a :: a in alerts && a.kind == k }

  lemma {:induction false} CountedIsShown(alerts: seq<Alert>, k: Kind)
    ensures Count(alerts, k) > 0 <==> Shows(alerts, k)
  {
    if alerts != [] {
      var init, last := alerts[..|alerts| - 1], alerts[|alerts| - 1];
      CountedIsShown(init, k);
      assert alerts == init + [last];
      assert Shows(alerts, k) <==> Shows(init, k) || last.kind == k;
    }
  }

  /** Somebody measured, nobody got through, and the host's own port was left alone. */
  ghost predicate Quiet(measuredAt: Time, port: nat, asked: seq<Asked>, touched: bool, rs: seq<Report>) {
    measuredAt != 0 && !touched && SomebodyMeasured(asked, port, rs) && !SomebodyReached(asked, port, rs)
  }

  /** A round of this room takes the alarm down and gives the repairs back exactly when it was quiet; it
      spends a repair or raises the alarm exactly when the port was touched; any other leaves both alone. */
  lemma ReportsDecideTheAlarm(
    p: Panel, measuredAt: Time, port: nat, asked: seq<Asked>, touched: bool, rs: seq<Report>, detail: string)
    requires Settled(p)
    ensures
      var p' := AfterRound(p, p.gen, RoundOf(measuredAt, port, asked, touched, rs), detail);
      && (Shows(p.alerts, GateLeaking) ==>
            (!Shows(p'.alerts, GateLeaking) <==> Quiet(measuredAt, port, asked, touched, rs)))
      && (Quiet(measuredAt, port, asked, touched, rs) ==>
            p'.repairs == 0 && p'.alerts == Without(p.alerts, GateLeaking))
      && (measuredAt != 0 && touched ==>
            if p.repairs == 0 then p'.repairs == 1 && p'.alerts == Without(p.alerts, GateLeaking)
            else p'.repairs == p.repairs
                 && p'.alerts == Without(p.alerts, GateLeaking) + [Alert(GateLeaking, detail)])
      && (!Quiet(measuredAt, port, asked, touched, rs) && !(measuredAt != 0 && touched) ==>
            p'.alerts == p.alerts && p'.repairs == p.repairs)
  {
    var check := RoundOf(measuredAt, port, asked, touched, rs);
    VerdictOfReports(measuredAt, port, asked, touched, rs);
    SortingKeepsVerdict(check);
    CountedIsShown(p.alerts, GateLeaking);
    var quiet := Without(p.alerts, GateLeaking);
    WithoutCounts(p.alerts, GateLeaking, GateLeaking);
    CountedIsShown(quiet, GateLeaking);
    assert Alert(GateLeaking, detail) in quiet + [Alert(GateLeaking, detail)];
  }

  /** A round of a room that is over changes nothing. */
  lemma LateRoundsAreDropped(p: Panel, gen: nat, check: CanaryCheck, detail: string)
    ensures gen != p.gen ==> AfterRound(p, gen, check, detail) == p
    ensures gen == p.gen ==> AfterRound(p, gen, check, detail).canary ==
                               check.(answers := Sort(check.answers, ByAddress))
  {
  }

  // --- what the two filters of the list do, piece by piece ---

  /** Dropping a kind works alert by alert. */
  lemma {:induction false} DroppingGoesAlertByAlert(xs: seq<Alert>, ys: seq<Alert>, k: Kind)
    ensures Without(xs + ys, k) == Without(xs, k) + Without(ys, k)
    ensures |ys| == 1 ==> Without(ys, k) == if ys[0].kind == k then [] else ys
  {
    if ys == [] {
      assert xs + ys == xs;
    } else {
      var n := |ys| - 1;
      DroppingGoesAlertByAlert(xs, ys[..n], k);
      assert (xs + ys)[..|xs + ys| - 1] == xs + ys[..n];
    }
  }

  /** What a refresh keeps, alert by alert: a lobby conflict, an unfinished expulsion, a leak, a lost game. */
  lemma {:induction false} KeepingGoesAlertByAlert(xs: seq<Alert>, ys: seq<Alert>)
    ensures StickyOnes(xs + ys) == StickyOnes(xs) + StickyOnes(ys)
    ensures |ys| == 1 ==>
              StickyOnes(ys) == if ys[0].kind in {LobbyConflict, KickIncomplete, GateLeaking, GameLost} then ys else []
  {
    if ys == [] {
      assert xs + ys == xs;
    } else {
      var n := |ys| - 1;
      KeepingGoesAlertByAlert(xs, ys[..n]);
      assert (xs + ys)[..|xs + ys| - 1] == xs + ys[..n];
    }
  }
}
