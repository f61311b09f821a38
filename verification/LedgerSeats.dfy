/** Who keeps a seat and who loses it, over every run and in terms of the fields of the table. */
module LedgerSeats {
  import opened Common
  import opened Timing
  import opened Members
  import opened Seats
  import opened Ledger
  import opened LedgerRuns
  import opened LedgerSafety

  /** `ip` carries the credential `id` of `key`, unrevoked and in date up to `until`. */
  predicate Carries(t: Table, ip: Addr, key: Bytes, id: string, until: Time) {
    && ip in t && t[ip].cred.Some? && t[ip].cred.value.memberKey == key && t[ip].cred.value.id == id
    && !t[ip].cred.value.revoked
    && (t[ip].cred.value.expiresAt == 0 || until < t[ip].cred.value.expiresAt)
  }

  predicate Ahead(date: Time, until: Time) { date == 0 || until < date }

  /** `ip` is expelled: not because the peer list says it is the host itself. */
  predicate Expels(ev: Event, ip: Addr) { ev.Kicking? && ev.ip == ip && !(ev.listed && ev.isSelf) }

  /** The owner of `key` asks again, and the engine no longer knows the credential. */
  predicate Disowns(ev: Event, key: Bytes) {
    ev.Issuing? && ev.q.memberKey == key && key != [] && ev.q.name != "" && ev.e.renewal.None?
  }

  /** The engine grants a date that is not ahead of `until`. */
  predicate CutsShort(t: Table, ev: Event, ip: Addr, key: Bytes, until: Time) {
    || (ev.Issuing? && ev.q.memberKey == key && key != [] && ev.q.name != ""
        && ev.e.renewal.Some? && !Ahead(ev.e.renewal.value, until))
    || (ev.Renewing? && ip in ev.answers && !Ahead(ev.answers[ip], until)
        && ip in t && (t[ip].inMesh || (t[ip].cred.Some? && ev.now < t[ip].cred.value.issuedAt + ARRIVAL_GRACE)))
  }

  predicate Undisturbed(t: Table, ev: Event, ip: Addr, key: Bytes, until: Time) {
    !ev.Rebooting? && !Expels(ev, ip) && !Disowns(ev, key) && !CutsShort(t, ev, ip, key, until)
  }

  predicate IssuesAgain(ev: Event, id: string) { ev.Issuing? && ev.out.Fresh? && ev.out.cred.id == id }

  /** The step leaves the credential at its seat exactly when it does not expel the address, the engine
      does not disown the key and grants no date in the past, short of an engine that repeats ids. */
  ghost predicate SeatFollows(t: Table, t': Table, ev: Event, ip: Addr, key: Bytes, id: string, until: Time) {
    && (Undisturbed(t, ev, ip, key, until) ==> Carries(t', ip, key, id, until))
    && (Carries(t', ip, key, id, until) && !IssuesAgain(ev, id) ==> Undisturbed(t, ev, ip, key, until))
    && (ev.Issuing? && ev.out.Fresh? && !Disowns(ev, key) ==> ev.out.ip != ip)
    && (Undisturbed(t, ev, ip, key, until) && ip in t && !t[ip].kicked ==> ip in t' && !t'[ip].kicked)
  }

  lemma SeatOutlivesIssue(l: Ledger, l': Ledger, ev: Event, ip: Addr, key: Bytes, id: string, until: Time)
    requires ev.Issuing? && Issue(l, l', ev.q, ev.w, ev.e, ev.disk, ev.out) && OneSeatPerKey(l.members, ev.w.find)
    requires ev.w.find <= ev.w.scan <= until && Carries(l.members, ip, key, id, until)
    ensures SeatFollows(l.members, l'.members, ev, ip, key, id, until)
  {
    assert Holds(l.members, ip, key, ev.w.find);
    if ev.q.name == "" || ev.q.memberKey == [] {
    } else if forall jp :: !Holds(l.members, jp, ev.q.memberKey, ev.w.find) {
      FreshElsewhere(l, l', ev, ip);
    } else {
      var jp :| Holds(l.members, jp, ev.q.memberKey, ev.w.find)
             && IssueReturning(l, l', jp, ev.q, ev.w, ev.e, ev.disk, ev.out);
      if ev.q.memberKey == key {
        assert jp == ip;
        OwnerAsksAgain(l, l', ev, ip, key, id, until);
      } else if ev.e.renewal.None? {
        FreshElsewhere(l.(members := WithoutCredential(l.members, jp)), l', ev, ip);
      }
    }
  }

  lemma OwnerAsksAgain(l: Ledger, l': Ledger, ev: Event, ip: Addr, key: Bytes, id: string, until: Time)
    requires ev.Issuing? && ev.q.memberKey == key && key != [] && ev.q.name != ""
    requires Holds(l.members, ip, key, ev.w.find) && Carries(l.members, ip, key, id, until)
    requires IssueReturning(l, l', ip, ev.q, ev.w, ev.e, ev.disk, ev.out)
    ensures SeatFollows(l.members, l'.members, ev, ip, key, id, until)
  {
  }

  lemma FreshElsewhere(l: Ledger, l': Ledger, ev: Event, ip: Addr)
    requires ev.Issuing? && IssueFresh(l, l', ev.q, ev.w, ev.e, ev.disk, ev.out)
    requires ip in l.members && l.members[ip].HoldsSeat(ev.w.scan)
    ensures ip in l'.members && l'.members[ip] == l.members[ip]
    ensures ev.out.Fresh? ==> ev.out.ip != ip
  {
    if ev.out.Fresh? {
      SmallestFreeIsSmallestOpen(l.subnet.value, l.members, ev.w.scan, ev.out.ip);
    }
  }

  lemma SeatOutlivesSweep(t: Table, ev: Event, ip: Addr, key: Bytes, id: string, until: Time)
    requires ev.Refreshing? || ev.Forgetting?
    requires ev.now <= until && Carries(t, ip, key, id, until)
    ensures SeatFollows(
      t, if ev.Refreshing? then Refreshed(t, ev.now, ev.mesh, ev.channels) else Forgotten(t, ev.now),
      ev, ip, key, id, until)
  {
    if ev.Refreshing? {
      RefreshKeepsExactly(t, ev.now, ev.mesh, ev.channels, ip);
      RefreshShows(t, ev.now, ev.mesh, ev.channels, ip);
    } else {
      SweepKeepsExactly(t, ev.now, ip);
    }
  }

  lemma SeatOutlivesRenewal(t: Table, ev: Event, ip: Addr, key: Bytes, id: string, until: Time)
    requires ev.Renewing? && ev.now <= until && Carries(t, ip, key, id, until)
    ensures SeatFollows(t, Renewed(t, ev.now, ev.answers), ev, ip, key, id, until)
  {
  }

  lemma SeatOutlivesKick(l: Ledger, l': Ledger, ev: Event, ip: Addr, key: Bytes, id: string, until: Time)
    requires ev.Kicking? && Kick(l, l', ev.ip, ev.listed, ev.isSelf, ev.find, ev.now, ev.complete, ev.disk)
    requires ev.find <= until && Carries(l.members, ip, key, id, until)
    ensures SeatFollows(l.members, l'.members, ev, ip, key, id, until)
  {
  }

  /** Short of a restart, in every step. */
  lemma SeatOutlivesStepExactly(w: World, w': World, ev: Event, ip: Addr, key: Bytes, id: string, until: Time)
    requires Next(w, w', ev) && !ev.Rebooting? && Unique(w.l, w.clock)
    requires Carries(w.l.members, ip, key, id, until) && w'.clock <= until
    ensures SeatFollows(w.l.members, w'.l.members, ev, ip, key, id, until)
  {
    if ev.Issuing? {
      TimeKeepsUnique(w.l, w.clock, ev.w.find);
      SeatOutlivesIssue(w.l, w'.l, ev, ip, key, id, until);
    } else if ev.Kicking? {
      SeatOutlivesKick(w.l, w'.l, ev, ip, key, id, until);
    } else if ev.Renewing? {
      assert w'.l.members == Renewed(w.l.members, ev.now, ev.answers);
      SeatOutlivesRenewal(w.l.members, ev, ip, key, id, until);
    } else if ev.Refreshing? || ev.Forgetting? {
      SeatOutlivesSweep(w.l.members, ev, ip, key, id, until);
    }
  }

  ghost predicate PeaceAt(ws: seq<World>, evs: seq<Event>, k: nat, ip: Addr, key: Bytes, until: Time)
    requires k < |evs| < |ws|
  {
    Undisturbed(ws[k].l.members, evs[k], ip, key, until)
  }

  predicate FreshAt(evs: seq<Event>, k: nat, ip: Addr)
    requires k < |evs|
  {
    evs[k].Issuing? && evs[k].out.Fresh? && evs[k].out.ip == ip
  }

  /** A credential in date keeps its seat for as long as it lasts, with its owner in the mesh or not: at
      every later state of the run the address carries the same id of the same key, nobody is freshly
      seated there in between, and the owner is a member as long as no veto stood at the start. */
  lemma {:induction false} AbsentMemberKeepsItsSeat(
    ws: seq<World>, evs: seq<Event>, i: nat, j: nat, ip: Addr, key: Bytes, id: string, until: Time)
    requires Run(ws, evs) && i <= j < |ws| && ws[j].clock <= until
    requires Carries(ws[i].l.members, ip, key, id, until)
    requires forall k | i <= k < j :: PeaceAt(ws, evs, k, ip, key, until)
    ensures Carries(ws[j].l.members, ip, key, id, until)
    ensures forall k | i <= k < j :: !FreshAt(evs, k, ip)
    ensures !ws[i].l.members[ip].kicked ==>
              !ws[j].l.members[ip].kicked && ws[j].l.members[ip].IsMember(ws[j].clock)
  {
    if i < j {
      ClockMoves(ws, evs, j - 1, j);
      AbsentMemberKeepsItsSeat(ws, evs, i, j - 1, ip, key, id, until);
      assert PeaceAt(ws, evs, j - 1, ip, key, until);
      SeatOutlivesStepAt(ws, evs, j - 1, ip, key, id, until);
    }
  }

  lemma SeatOutlivesStepAt(
    ws: seq<World>, evs: seq<Event>, k: nat, ip: Addr, key: Bytes, id: string, until: Time)
    requires Run(ws, evs) && k < |evs| && ws[k + 1].clock <= until && PeaceAt(ws, evs, k, ip, key, until)
    requires Carries(ws[k].l.members, ip, key, id, until)
    ensures Carries(ws[k + 1].l.members, ip, key, id, until) && !FreshAt(evs, k, ip)
    ensures !ws[k].l.members[ip].kicked ==> !ws[k + 1].l.members[ip].kicked
  {
    NoKeyOwnsTwoSeats(ws, evs, k);
    assert StepAt(ws, evs, k);
    SeatOutlivesStepExactly(ws[k], ws[k + 1], evs[k], ip, key, id, until);
  }

  // --- what an issue hands out ---

  /** What a scan finds taken: network, host and broadcast address, whoever is in the mesh, and every
      credential in date, revoked or not. */
  lemma TakenReads(t: Table, p: Subnet, now: Time, a: Addr)
    ensures a in Taken(t, p, now) <==>
              || a == p.addr || a == p.addr + 1 || a == p.Last()
              || (a in t
                  && (t[a].inMesh
                      || (t[a].cred.Some? && (t[a].cred.value.expiresAt == 0 || now < t[a].cred.value.expiresAt))))
  {
  }

  /** A fresh credential is the caller's, dated now and good for CREDENTIAL_TTL; a returned one is the
      unrevoked credential in date of that key with the engine's date and the caller's name. */
  lemma IssueHandsOut(l: Ledger, l': Ledger, q: Request, w: Clocks, e: Engine, disk: Disk, out: Outcome)
    requires Issue(l, l', q, w, e, disk, out)
    ensures out.Fresh? ==>
              && e.issued.Some?
              && out.cred == Credential(e.issued.value, q.name, q.memberKey, w.stamp, w.stamp + CREDENTIAL_TTL, false)
    ensures out.Returned? ==>
              && e.renewal.Some? && out.ip in l.members && l.members[out.ip].cred.Some?
              && var c := l.members[out.ip].cred.value;
                 && !c.revoked && (c.expiresAt == 0 || w.find < c.expiresAt) && c.memberKey == q.memberKey
                 && out.cred == Credential(c.id, q.name, c.memberKey, c.issuedAt, e.renewal.value, false)
    ensures !out.Refused? ==>
              && q.name != "" && q.memberKey != []
              && out.ip in l'.members && l'.members[out.ip].cred == Some(out.cred) && l'.members[out.ip].name == q.name
  {
  }

  /** Everybody else keeps what it has, except that a disowned credential of that key is dropped. */
  lemma IssueSparesTheOthers(w: World, w': World, ev: Event, ip: Addr)
    requires Next(w, w', ev) && ev.Issuing? && ip in w.l.members && (!ev.out.Refused? ==> ev.out.ip != ip)
    ensures ip in w'.l.members
    ensures w'.l.members[ip] == w.l.members[ip]
         || (w'.l.members[ip] == w.l.members[ip].(cred := None)
             && w.l.members[ip].cred.Some? && w.l.members[ip].cred.value.memberKey == ev.q.memberKey)
  {
    var mid := IssueShape(w, w', ev);
  }

  /** The credential at `ip` is of `key`, unrevoked and in date. */
  predicate OwnedBy(t: Table, ip: Addr, key: Bytes, now: Time) {
    && ip in t && t[ip].cred.Some? && t[ip].cred.value.memberKey == key && !t[ip].cred.value.revoked
    && (t[ip].cred.value.expiresAt == 0 || now < t[ip].cred.value.expiresAt)
  }

  /** Somebody is at `a` when the issue scans: in the mesh, or with a credential in date other than the one
      of `key` that is being dropped. */
  predicate Busy(t: Table, a: Addr, key: Bytes, w: Clocks) {
    && a in t
    && (t[a].inMesh
        || (t[a].cred.Some? && (t[a].cred.value.expiresAt == 0 || w.scan < t[a].cred.value.expiresAt)
            && !OwnedBy(t, a, key, w.find)))
  }

  ghost predicate SeatsAllBusy(t: Table, p: Subnet, key: Bytes, w: Clocks) {
    forall a: Addr | GuestSeat(p, a) :: Busy(t, a, key, w)
  }

  lemma NoSeatFree(t: Table, p: Subnet, now: Time)
    ensures FreeSet(p, Taken(t, p, now)) == {} <==> forall a: Addr | GuestSeat(p, a) :: Held(t, a, now)
  {
    forall a: Addr
      ensures a in FreeSet(p, Taken(t, p, now)) <==> GuestSeat(p, a) && !Held(t, a, now)
    {
      assert p.addr <= a && p.Contains(a) <==> Between(p.addr, a, p.Last() + 1) by { AddrInside(p); }
    }
    if forall a: Addr | GuestSeat(p, a) :: Held(t, a, now) {
      assert FreeSet(p, Taken(t, p, now)) == {};
    }
  }

  lemma OwnedIsHeld(t: Table, ip: Addr, key: Bytes, now: Time)
    ensures OwnedBy(t, ip, key, now) <==> Holds(t, ip, key, now)
  {
  }

  /** The table that a fresh issue scans: without the credential of the key, if the key holds one. */
  lemma FreshRefusesExactly(
    l: Ledger, mid: Table, l': Ledger, q: Request, w: Clocks, e: Engine, disk: Disk, out: Outcome)
    requires OneSeatPerKey(l.members, w.find) && w.find <= w.scan
    requires if forall ip :: !Holds(l.members, ip, q.memberKey, w.find) then mid == l.members
             else exists ip :: Holds(l.members, ip, q.memberKey, w.find) && mid == WithoutCredential(l.members, ip)
    requires IssueFresh(l.(members := mid), l', q, w, e, disk, out)
    ensures !out.Returned?
    ensures out.Refused? <==>
              l.subnet.None? || e.issued.None? || SeatsAllBusy(l.members, l.subnet.value, q.memberKey, w)
  {
    if l.subnet.Some? {
      NoSeatFree(mid, l.subnet.value, w.scan);
      forall a: Addr
        ensures Held(mid, a, w.scan) <==> Busy(l.members, a, q.memberKey, w)
      {
        OwnedIsHeld(l.members, a, q.memberKey, w.find);
      }
    }
  }

  /** Who is refused: nobody but a caller without name or key, or one whose key holds no credential that
      the engine renews while there is no subnet, no new credential or no seat. */
  lemma IssueRefusesExactly(l: Ledger, l': Ledger, q: Request, w: Clocks, e: Engine, disk: Disk, out: Outcome)
    requires OneSeatPerKey(l.members, w.find) && w.find <= w.scan && Issue(l, l', q, w, e, disk, out)
    ensures
      var known := exists ip :: OwnedBy(l.members, ip, q.memberKey, w.find);
      && (out.Returned? <==> q.name != "" && q.memberKey != [] && known && e.renewal.Some?)
      && (out.Refused? <==>
            || q.name == "" || q.memberKey == []
            || (!(known && e.renewal.Some?)
                && (l.subnet.None? || e.issued.None? || SeatsAllBusy(l.members, l.subnet.value, q.memberKey, w))))
  {
    forall ip: Addr
      ensures OwnedBy(l.members, ip, q.memberKey, w.find) <==> Holds(l.members, ip, q.memberKey, w.find)
    {
      OwnedIsHeld(l.members, ip, q.memberKey, w.find);
    }
    if q.name == "" || q.memberKey == [] {
    } else if forall ip :: !Holds(l.members, ip, q.memberKey, w.find) {
      assert l == l.(members := l.members);
      FreshRefusesExactly(l, l.members, l', q, w, e, disk, out);
    } else {
      var ip :| Holds(l.members, ip, q.memberKey, w.find) && IssueReturning(l, l', ip, q, w, e, disk, out);
      if e.renewal.None? {
        FreshRefusesExactly(l, WithoutCredential(l.members, ip), l', q, w, e, disk, out);
      }
    }
  }

  // --- an absent member's seat frees itself ---

  /** Nobody touches `ip` but sweeps and renewals: it is not in the mesh, expelled or seated. */
  predicate LeftAlone(ev: Event, ip: Addr) {
    match ev
    case Issuing(_, _, _, _, out) => out.Refused? || out.ip != ip
    case Kicking(kicked, _, _, _, _, _, _) => kicked != ip
    case Refreshing(_, mesh, _) => !IsReported(mesh, ip)
    case Rebooting(_, _) => false
    case _ => true
  }

  /** Out of the mesh, past its arrival grace, and with a date. */
  predicate Away(t: Table, ip: Addr, date: Time, now: Time) {
    ip in t ==> !t[ip].inMesh && (t[ip].cred.Some? ==>
                  t[ip].cred.value.issuedAt + ARRIVAL_GRACE <= now && t[ip].cred.value.expiresAt == date)
  }

  lemma AwayStaysAway(w: World, w': World, ev: Event, ip: Addr, date: Time)
    requires Next(w, w', ev) && LeftAlone(ev, ip) && Away(w.l.members, ip, date, w.clock)
    ensures Away(w'.l.members, ip, date, w'.clock)
  {
    if ev.Issuing? {
      var mid := IssueShape(w, w', ev);
    } else if ev.Renewing? {
      assert w'.l.members == Renewed(w.l.members, ev.now, ev.answers);
    } else if ev.Refreshing? && ip in w'.l.members {
      RefreshShows(w.l.members, ev.now, ev.mesh, ev.channels, ip);
    }
  }

  /** Renewals do not reach a member who is away, so its seat is free from the date on. */
  lemma {:induction false} AbsentSeatFreesItself(
    ws: seq<World>, evs: seq<Event>, i: nat, j: nat, ip: Addr, date: Time)
    requires Run(ws, evs) && i <= j < |ws| && Away(ws[i].l.members, ip, date, ws[i].clock)
    requires forall k | i <= k < j :: LeftAlone(evs[k], ip)
    ensures Away(ws[j].l.members, ip, date, ws[j].clock)
    ensures date != 0 && date <= ws[j].clock ==> !Held(ws[j].l.members, ip, ws[j].clock)
  {
    if i < j {
      AbsentSeatFreesItself(ws, evs, i, j - 1, ip, date);
      assert StepAt(ws, evs, j - 1);
      AwayStaysAway(ws[j - 1], ws[j], evs[j - 1], ip, date);
    }
  }
}
