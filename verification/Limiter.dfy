/** registry/http.go: the request counter per address, with a fixed window. */
module Limiter {
  datatype Window = Window(n: nat, since: int)

  type Seen = map<string, Window>

  const CROWDED: nat := 4096

  /** A window that has run out at `now`. */
  predicate Over(w: Window, now: int, span: nat) { now - w.since > span }

  function Pruned(seen: Seen, now: int, span: nat): Seen {
    map ip | ip in seen && !Over(seen[ip], now, span) :: seen[ip]
  }

  /** Whether the request is admitted, and the windows afterwards, if windows were never discarded. */
  function Counted(seen: Seen, ip: string, now: int, cap: int, span: nat): (bool, Seen) {
    if ip !in seen || Over(seen[ip], now, span) then (true, seen[ip := Window(1, now)])
    else
      var n := seen[ip].n + 1;
      (n <= cap, seen[ip := Window(n, seen[ip].since)])
  }

  /** The same with the discarding that the source does before it opens a window. */
  function Answered(seen: Seen, ip: string, now: int, cap: int, span: nat): (bool, Seen) {
    var crowded := (ip !in seen || Over(seen[ip], now, span)) && |seen| > CROWDED;
    Counted(if crowded then Pruned(seen, now, span) else seen, ip, now, cap, span)
  }

  class Limiter {
    var seen: Seen
    const cap: int
    const span: nat

    constructor (cap: int, span: nat)
      ensures seen == map[] && this.cap == cap && this.span == span
    {
      this.cap, this.span := cap, span;
      seen := map[];
    }

    method Prune(now: int)
      modifies this
      ensures seen == Pruned(old(seen), now, span)
    {
      var todo := seen.Keys;
      while todo != {}
        invariant todo <= seen.Keys <= old(seen).Keys
        invariant forall ip | ip in seen :: seen[ip] == old(seen)[ip]
        invariant forall ip | ip in old(seen) :: ip in seen <==> ip in todo || !Over(old(seen)[ip], now, span)
        decreases todo
      {
        var ip :| ip in todo;
        if now - seen[ip].since > span {
          seen := seen - {ip};
        }
        todo := todo - {ip};
      }
    }

    method Allow(ip: string, now: int) returns (ok: bool)
      modifies this
      ensures (ok, seen) == Answered(old(seen), ip, now, cap, span)
    {
      if ip !in seen || now - seen[ip].since > span {
        if |seen| > CROWDED {
          Prune(now);
        }
        seen := seen[ip := Window(1, now)];
        return true;
      }
      seen := seen[ip := seen[ip].(n := seen[ip].n + 1)];
      return seen[ip].n <= cap;
    }
  }

  datatype Request = Request(ip: string, at: int)

  /** The clock never goes back. */
  predicate InOrder(rs: seq<Request>) { forall i, j | 0 <= i < j < |rs| :: rs[i].at <= rs[j].at }

  function FullTable(rs: seq<Request>, cap: int, span: nat): Seen {
    if rs == [] then map[]
    else
      var r := rs[|rs| - 1];
      Counted(FullTable(rs[..|rs| - 1], cap, span), r.ip, r.at, cap, span).1
  }

  function PrunedTable(rs: seq<Request>, cap: int, span: nat): Seen {
    if rs == [] then map[]
    else
      var r := rs[|rs| - 1];
      Answered(PrunedTable(rs[..|rs| - 1], cap, span), r.ip, r.at, cap, span).1
  }

  /** The answer to the last request of a run. */
  predicate Admitted(rs: seq<Request>, cap: int, span: nat)
    requires rs != []
  {
    var r := rs[|rs| - 1];
    Answered(PrunedTable(rs[..|rs| - 1], cap, span), r.ip, r.at, cap, span).0
  }

  /** Two tables that differ only in windows already over. */
  ghost predicate SameLiveWindows(kept: Seen, full: Seen, now: int, span: nat) {
    && (forall ip | ip in kept :: ip in full && kept[ip] == full[ip])
    && forall ip | ip in full && ip !in kept :: Over(full[ip], now, span)
  }

  lemma OneAnswerAgrees(kept: Seen, full: Seen, now: int, r: Request, cap: int, span: nat)
    requires SameLiveWindows(kept, full, now, span) && now <= r.at
    ensures Answered(kept, r.ip, r.at, cap, span).0 == Counted(full, r.ip, r.at, cap, span).0
    ensures SameLiveWindows(Answered(kept, r.ip, r.at, cap, span).1, Counted(full, r.ip, r.at, cap, span).1, r.at, span)
  {
  }

  lemma {:induction false} TablesAgree(rs: seq<Request>, cap: int, span: nat, now: int)
    requires InOrder(rs) && (rs != [] ==> rs[|rs| - 1].at <= now)
    ensures SameLiveWindows(PrunedTable(rs, cap, span), FullTable(rs, cap, span), now, span)
  {
    if rs != [] {
      var init, r := rs[..|rs| - 1], rs[|rs| - 1];
      TablesAgree(init, cap, span, r.at);
      OneAnswerAgrees(PrunedTable(init, cap, span), FullTable(init, cap, span), r.at, r, cap, span);
    }
  }

  /** Discarding windows saves memory and changes no answer. */
  lemma PruningChangesNoAnswer(rs: seq<Request>, cap: int, span: nat)
    requires InOrder(rs) && rs != []
    ensures
      var r := rs[|rs| - 1];
      Admitted(rs, cap, span) == Counted(FullTable(rs[..|rs| - 1], cap, span), r.ip, r.at, cap, span).0
  {
    var init, r := rs[..|rs| - 1], rs[|rs| - 1];
    TablesAgree(init, cap, span, r.at);
    OneAnswerAgrees(PrunedTable(init, cap, span), FullTable(init, cap, span), r.at, r, cap, span);
  }

  /** How many requests of `ip` were admitted between `from` and `from + span`, both included. */
  function AdmittedWithin(rs: seq<Request>, ip: string, from: int, cap: int, span: nat): nat {
    if rs == [] then 0
    else
      var r := rs[|rs| - 1];
      var earlier := AdmittedWithin(rs[..|rs| - 1], ip, from, cap, span);
      if r.ip == ip && from <= r.at <= from + span && Admitted(rs, cap, span) then earlier + 1 else earlier
  }

  function AtLeastOne(cap: int): nat { if cap < 1 then 1 else cap }

  function AtMost(n: nat, cap: int): nat { if n < AtLeastOne(cap) then n else AtLeastOne(cap) }

  /** What the current window of `ip` says about the requests admitted in an interval of one span. */
  ghost predicate Bounded(full: Seen, ip: string, last: int, from: int, cap: int, span: nat, admitted: nat) {
    && (last < from ==> admitted == 0)
    && (ip !in full ==> admitted == 0)
    && (ip in full ==>
          && full[ip].n >= 1 && full[ip].since <= last
          && (if full[ip].since < from then admitted <= AtMost(full[ip].n, cap)
              else if full[ip].since <= from + span then admitted <= AtLeastOne(cap) + AtMost(full[ip].n, cap)
              else admitted <= 2 * AtLeastOne(cap)))
  }

  lemma {:induction false} RunIsBounded(rs: seq<Request>, ip: string, from: int, cap: int, span: nat, last: int)
    requires InOrder(rs) && (rs != [] ==> rs[|rs| - 1].at <= last)
    ensures Bounded(FullTable(rs, cap, span), ip, last, from, cap, span, AdmittedWithin(rs, ip, from, cap, span))
  {
    if rs != [] {
      var init, r := rs[..|rs| - 1], rs[|rs| - 1];
      RunIsBounded(init, ip, from, cap, span, r.at);
      PruningChangesNoAnswer(rs, cap, span);
      StepIsBounded(FullTable(init, cap, span), r, ip, from, cap, span,
                    AdmittedWithin(init, ip, from, cap, span), last);
      if r.at < from {
        BeforeTheInterval(rs, ip, from, cap, span);
      }
    }
  }

  lemma {:induction false} BeforeTheInterval(rs: seq<Request>, ip: string, from: int, cap: int, span: nat)
    requires InOrder(rs) && rs != [] && rs[|rs| - 1].at < from
    ensures AdmittedWithin(rs, ip, from, cap, span) == 0
  {
    if |rs| > 1 {
      BeforeTheInterval(rs[..|rs| - 1], ip, from, cap, span);
    }
  }

  lemma StepIsBounded(full: Seen, r: Request, ip: string, from: int, cap: int, span: nat, admitted: nat, last: int)
    requires Bounded(full, ip, r.at, from, cap, span, admitted) && r.at <= last
    ensures
      var (ok, after) := Counted(full, r.ip, r.at, cap, span);
      var more := if r.ip == ip && from <= r.at <= from + span && ok then admitted + 1 else admitted;
      (r.at < from && last >= from) || Bounded(after, ip, last, from, cap, span, more)
  {
  }

  /** No address gets more than twice the cap through in any interval of one span. */
  lemma AtMostTwiceTheCap(rs: seq<Request>, ip: string, from: int, cap: int, span: nat)
    requires InOrder(rs)
    ensures AdmittedWithin(rs, ip, from, cap, span) <= 2 * AtLeastOne(cap)
  {
    RunIsBounded(rs, ip, from, cap, span, if rs == [] then from else rs[|rs| - 1].at);
  }

  lemma {:induction false} RequestsFallInTheWindow(rs: seq<Request>, ip: string, cap: int, span: nat, j: nat)
    requires InOrder(rs) && j < |rs| && rs[j].ip == ip
    ensures
      var full := FullTable(rs, cap, span);
      ip in full && rs[j].at <= full[ip].since + span
  {
    var init, r := rs[..|rs| - 1], rs[|rs| - 1];
    if j < |init| {
      assert init[j] == rs[j];
      RequestsFallInTheWindow(init, ip, cap, span, j);
    }
  }

  lemma {:induction false} NoneSoLate(rs: seq<Request>, ip: string, from: int, cap: int, span: nat)
    requires forall r | r in rs && r.ip == ip :: r.at < from
    ensures AdmittedWithin(rs, ip, from, cap, span) == 0
  {
    if rs != [] {
      assert rs == rs[..|rs| - 1] + [rs[|rs| - 1]];
      NoneSoLate(rs[..|rs| - 1], ip, from, cap, span);
    }
  }

  /** The window that is open has let through exactly its first requests, up to the cap;
      the first one always passes, even under a cap of zero. */
  lemma {:induction false} OpenWindowIsExact(rs: seq<Request>, ip: string, cap: int, span: nat)
    requires InOrder(rs) && ip in FullTable(rs, cap, span)
    ensures
      var w := FullTable(rs, cap, span)[ip];
      AdmittedWithin(rs, ip, w.since, cap, span) == AtMost(w.n, cap) && w.n >= 1
  {
    var init, r := rs[..|rs| - 1], rs[|rs| - 1];
    var before := FullTable(init, cap, span);
    PruningChangesNoAnswer(rs, cap, span);
    if r.ip == ip && (ip !in before || Over(before[ip], r.at, span)) {
      forall q | q in init && q.ip == ip
        ensures q.at < r.at
      {
        var j :| 0 <= j < |init| && init[j] == q;
        assert init[j] == rs[j];
        RequestsFallInTheWindow(init, ip, cap, span, j);
      }
      NoneSoLate(init, ip, r.at, cap, span);
    } else {
      OpenWindowIsExact(init, ip, cap, span);
      assert r.ip == ip ==> before[ip].since <= r.at by {
        WindowOpensInThePast(init, ip, cap, span, r.at);
      }
    }
  }

  lemma {:induction false} WindowOpensInThePast(rs: seq<Request>, ip: string, cap: int, span: nat, now: int)
    requires InOrder(rs) && ip in FullTable(rs, cap, span) && rs[|rs| - 1].at <= now
    ensures FullTable(rs, cap, span)[ip].since <= now
  {
    var init, r := rs[..|rs| - 1], rs[|rs| - 1];
    if ip in FullTable(init, cap, span) && r.ip != ip {
      WindowOpensInThePast(init, ip, cap, span, now);
    } else if ip in FullTable(init, cap, span) {
      WindowOpensInThePast(init, ip, cap, span, r.at);
    }
  }
}
