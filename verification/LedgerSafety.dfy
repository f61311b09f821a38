/** Expulsion, revocation and crashes: what they guarantee over every run, and when. */
module LedgerSafety {
  import opened Common
  import opened Timing
  import opened Members
  import opened Seats
  import opened Book
  import opened Ledger
  import opened LedgerRuns

  // --- an expelled address is not handed out while its veto stands ---

  /** The veto and the clock behind it: the credential that holds the seat. */
  predicate Tied(m: Member, clock: Time) {
    m.kicked ==>
      && m.cred.Some? && m.cred.value.revoked && m.cred.value.expiresAt == m.kickedAt + ARRIVAL_GRACE
      && m.kickedAt <= clock
  }

  ghost predicate AllTied(w: World) { forall ip | ip in w.l.members :: Tied(w.l.members[ip], w.clock) }

  /** An issue, fresh or returning, whose address is under veto. */
  predicate HandsOutVetoed(w: World, ev: Event) {
    ev.Issuing? && !ev.out.Refused? && ev.out.ip in w.l.members && w.l.members[ev.out.ip].kicked
  }

  ghost predicate NoneHandedOut(ws: seq<World>, evs: seq<Event>, i: nat)
    requires i <= |evs| < |ws|
  {
    forall k | 0 <= k < i :: !HandsOutVetoed(ws[k], evs[k])
  }

  /** What an issue does to the table: perhaps it drops a live credential the engine disowned,
      then it sits the caller down at one address or refuses. */
  lemma IssueShape(w: World, w': World, ev: Event) returns (mid: Table)
    requires Next(w, w', ev) && ev.Issuing?
    ensures mid == w.l.members
         || exists jp :: Holds(w.l.members, jp, ev.q.memberKey, ev.w.find) && mid == WithoutCredential(w.l.members, jp)
    ensures w'.l.members == if ev.out.Refused? then mid else WithCredential(mid, ev.out.ip, ev.out.cred)
    ensures ev.out.Returned? ==> mid == w.l.members && Holds(mid, ev.out.ip, ev.q.memberKey, ev.w.find)
    ensures ev.out.Returned? ==> ev.out.cred.id == mid[ev.out.ip].cred.value.id
    ensures ev.out.Fresh? ==>
      w.l.subnet.Some? && IsSmallestFree(w.l.subnet.value, Taken(mid, w.l.subnet.value, ev.w.scan), ev.out.ip)
    ensures Saved(w.l.(members := w'.l.members), w'.l, if ev.out.Refused? then Disk(false, false) else ev.disk)
  {
    mid := w.l.members;
    if ev.q.name != "" && ev.q.memberKey != [] {
      if !(forall jp :: !Holds(w.l.members, jp, ev.q.memberKey, ev.w.find)) {
        var jp :| Holds(w.l.members, jp, ev.q.memberKey, ev.w.find)
               && IssueReturning(w.l, w'.l, jp, ev.q, ev.w, ev.e, ev.disk, ev.out);
        if ev.e.renewal.None? {
          mid := WithoutCredential(w.l.members, jp);
        }
      }
    }
  }

  /** Where a veto that stands after a step comes from: this step, or before, with its credential. */
  ghost predicate VetoComesFrom(w: World, w': World, ev: Event, ip: Addr)
    requires ip in w'.l.members
  {
    var m' := w'.l.members[ip];
    if KickTakesEffect(w.l, ev) && ev.ip == ip then
      m'.kickedAt == ev.now && Tied(m', ev.now)
    else
      && ip in w.l.members && w.l.members[ip].kicked && w.l.members[ip].kickedAt == m'.kickedAt
      && (ev.Refreshing? || ev.Forgetting? ==> ev.now < m'.kickedAt + KICK_GRACE)
      && (w.l.members[ip].cred.Some? && w.l.members[ip].cred.value.revoked && !HandsOutVetoed(w, ev) ==>
            m'.cred == w.l.members[ip].cred)
  }

  lemma VetoOrigin(w: World, w': World, ev: Event, ip: Addr)
    requires Next(w, w', ev) && ip in w'.l.members && w'.l.members[ip].kicked
    ensures VetoComesFrom(w, w', ev, ip)
  {
    if ev.Issuing? {
      VetoAfterIssue(w, w', ev, ip);
    } else if ev.Renewing? {
      assert w'.l.members == Renewed(w.l.members, ev.now, ev.answers);
    } else if ev.Rebooting? {
      var s := ReopenedSeat(w.l, ev.readable, ev.now, ip);
    }
  }

  lemma VetoAfterIssue(w: World, w': World, ev: Event, ip: Addr)
    requires Next(w, w', ev) && ip in w'.l.members && w'.l.members[ip].kicked && ev.Issuing?
    ensures VetoComesFrom(w, w', ev, ip)
  {
    var mid := IssueShape(w, w', ev);
    assert ip in mid ==> ip in w.l.members && mid[ip].kicked == w.l.members[ip].kicked;
  }

  lemma TiesOutliveStep(w: World, w': World, ev: Event)
    requires AllTied(w) && Next(w, w', ev) && !HandsOutVetoed(w, ev)
    ensures AllTied(w')
  {
    forall ip | ip in w'.l.members && w'.l.members[ip].kicked
      ensures Tied(w'.l.members[ip], w'.clock)
    {
      VetoOrigin(w, w', ev, ip);
    }
  }

  /** Up to the first time that an address under veto is handed out, every veto stands on a revoked
      credential that holds the seat for the arrival grace, however seldom the table is swept. */
  lemma {:induction false} TiesHold(ws: seq<World>, evs: seq<Event>, i: nat)
    requires Run(ws, evs) && i < |ws| && NoneHandedOut(ws, evs, i)
    ensures AllTied(ws[i])
  {
    if i > 0 {
      TiesHold(ws, evs, i - 1);
      assert StepAt(ws, evs, i - 1);
      TiesOutliveStep(ws[i - 1], ws[i], evs[i - 1]);
    }
  }

  /** A seat that a guest may have. */
  predicate GuestSeat(p: Subnet, a: Addr) {
    p.addr <= a && p.Contains(a) && a != p.addr && a != HostAddress(p) && a != p.Last()
  }

  predicate Held(t: Table, a: Addr, now: Time) { a in t && t[a].HoldsSeat(now) }

  ghost predicate SmallestOpenSeat(p: Subnet, t: Table, now: Time, a: Addr) {
    GuestSeat(p, a) && !Held(t, a, now) && forall b: Addr | GuestSeat(p, b) && b < a :: Held(t, b, now)
  }

  /** The seat is under veto, nobody shows up there, and the arrival grace is over. */
  predicate LateVeto(t: Table, a: Addr, now: Time) {
    a in t && t[a].kicked && !t[a].inMesh && now >= t[a].kickedAt + ARRIVAL_GRACE
  }

  lemma SmallestFreeIsSmallestOpen(p: Subnet, t: Table, now: Time, a: Addr)
    requires IsSmallestFree(p, Taken(t, p, now), a)
    ensures SmallestOpenSeat(p, t, now, a)
  {
    forall b: Addr | GuestSeat(p, b) && b < a
      ensures Held(t, b, now)
    {
      assert b in Taken(t, p, now);
    }
  }

  /** In every run, the first time it could happen: an issue hands out an address under veto if and
      only if it is a fresh one and the smallest seat that nobody holds when it scans is under a veto
      older than the arrival grace with nobody in the mesh there. `mid` is the table it scans. */
  lemma VetoedSeatIsReissuedExactlyLate(ws: seq<World>, evs: seq<Event>, i: nat) returns (mid: Table)
    requires Run(ws, evs) && i < |evs| && evs[i].Issuing? && NoneHandedOut(ws, evs, i)
    ensures mid == ws[i].l.members || exists jp ::
              Holds(ws[i].l.members, jp, evs[i].q.memberKey, evs[i].w.find)
              && mid == WithoutCredential(ws[i].l.members, jp)
    ensures evs[i].out.Fresh? ==> ws[i].l.subnet.Some?
    ensures HandsOutVetoed(ws[i], evs[i]) <==>
              && evs[i].out.Fresh?
              && exists a :: SmallestOpenSeat(ws[i].l.subnet.value, mid, evs[i].w.scan, a)
                             && LateVeto(ws[i].l.members, a, evs[i].w.scan)
  {
    TiesHold(ws, evs, i);
    assert StepAt(ws, evs, i);
    mid := IssueShape(ws[i], ws[i + 1], evs[i]);
    if evs[i].out.Fresh? {
      var p, a := ws[i].l.subnet.value, evs[i].out.ip;
      SmallestFreeIsSmallestOpen(p, mid, evs[i].w.scan, a);
      forall b | SmallestOpenSeat(p, mid, evs[i].w.scan, b)
        ensures b == a
      {
        OneSmallestSeat(p, mid, evs[i].w.scan, a, b);
      }
      assert a in ws[i].l.members ==> a in mid && mid[a].kicked == ws[i].l.members[a].kicked;
    }
  }

  lemma OneSmallestSeat(p: Subnet, t: Table, now: Time, a: Addr, b: Addr)
    requires SmallestOpenSeat(p, t, now, a) && SmallestOpenSeat(p, t, now, b)
    ensures a == b
  {
  }

  /** The table was swept recently enough when addresses were last scanned. */
  predicate InCadence(w: World, ev: Event) {
    ev.Issuing? ==> ev.w.scan <= w.swept + (ARRIVAL_GRACE - KICK_GRACE)
  }

  /** What sweeping buys: no veto outlives the kick grace by more than the time since the last sweep. */
  ghost predicate VetoesFresh(w: World) {
    w.swept <= w.clock
    && forall ip | ip in w.l.members && w.l.members[ip].kicked :: w.swept < w.l.members[ip].kickedAt + KICK_GRACE
  }

  lemma VetoesStayFresh(w: World, w': World, ev: Event)
    requires VetoesFresh(w) && Next(w, w', ev)
    ensures VetoesFresh(w')
  {
    forall ip | ip in w'.l.members && w'.l.members[ip].kicked
      ensures w'.swept < w'.l.members[ip].kickedAt + KICK_GRACE
    {
      VetoOrigin(w, w', ev, ip);
    }
  }

  lemma {:induction false} AlwaysFresh(ws: seq<World>, evs: seq<Event>, i: nat)
    requires Run(ws, evs) && i < |ws|
    ensures VetoesFresh(ws[i])
  {
    if i > 0 {
      AlwaysFresh(ws, evs, i - 1);
      assert StepAt(ws, evs, i - 1);
      VetoesStayFresh(ws[i - 1], ws[i], evs[i - 1]);
    }
  }

  /** Over every run whose table is swept in time, no issue, fresh or returning, hands out an
      address under veto. */
  lemma {:induction false} NeverIssuedUnderVeto(ws: seq<World>, evs: seq<Event>, i: nat)
    requires Run(ws, evs) && i <= |evs|
    requires forall k | 0 <= k < |evs| :: InCadence(ws[k], evs[k])
    ensures NoneHandedOut(ws, evs, i)
    ensures AllTied(ws[i])
  {
    if i > 0 {
      NeverIssuedUnderVeto(ws, evs, i - 1);
      AlwaysFresh(ws, evs, i - 1);
      if evs[i - 1].Issuing? {
        var mid := VetoedSeatIsReissuedExactlyLate(ws, evs, i - 1);
      }
    }
    TiesHold(ws, evs, i);
  }

  /** Without that cadence the guarantee fails, on a subnet that rooms have: the seat .2 of 100.64.0.0/24,
      expelled at instant 1 and never swept, goes to somebody else ten minutes later, and the veto locks
      the newcomer out. */
  lemma UnsweptVetoIsReissued(room: RoomId) returns (ws: seq<World>, evs: seq<Event>)
    ensures Run(ws, evs) && |evs| == 3 && ws[0].l.subnet == Some(ROOM_NET)
    ensures HandsOutVetoed(ws[2], evs[2])
    ensures evs[2].out.ip in ws[3].l.members && forall now :: !ws[3].l.members[evs[2].out.ip].IsMember(now)
  {
    var late := 1 + ARRIVAL_GRACE;
    var first := NewCredential(Request("a", [1]), "x", 1);
    var second := NewCredential(Request("b", [2]), "y", late);
    var t1 := WithCredential(map[], SEAT, first);
    var t2 := Kicked(t1, SEAT, 1);
    var w0 := World(Ledger(room, Some(ROOM_NET), map[], 0, None, 0, room), 1, 0, {}, {});
    ws, evs := [w0], [];
    SeatIsSmallest(map[], 1);
    SeatIsSmallest(t2, late);
    var w1 := IssueAlone(w0, Request("a", [1]), 1, "x");
    var kick := Kicking(SEAT, false, false, 1, 1, false, Disk(false, false));
    var w2 := After(w1, w0.l.(members := t2), kick);
    assert Next(w1, w2, kick);
    var w3 := IssueAlone(w2, Request("b", [2]), late, "y");
    ws := [w0, w1, w2, w3];
    evs := [IssueOf(Request("a", [1]), 1, "x"), kick, IssueOf(Request("b", [2]), late, "y")];
  }

  const ROOM_NET: Subnet := Prefix(0x6440_0000, 24)

  const SEAT: Addr := 0x6440_0002

  /** An issue at one instant, of the seat .2, with a disk that does not write. */
  function IssueOf(q: Request, now: Time, id: string): Event {
    Issuing(q, Clocks(now, now, now), Engine(None, Some(id)), Disk(false, false),
            Fresh(SEAT, NewCredential(q, id, now)))
  }

  lemma SeatIsSmallest(t: Table, now: Time)
    requires SEAT in t ==> !t[SEAT].HoldsSeat(now)
    ensures IsSmallestFree(ROOM_NET, Taken(t, ROOM_NET, now), SEAT)
    ensures FreeSet(ROOM_NET, Taken(t, ROOM_NET, now)) != {}
  {
    assert ROOM_NET.Size() == 256 by {
      assert Pow2(4) == 16 && Pow2(8) == 256;
    }
    SomeSeatIsFree(ROOM_NET, Taken(t, ROOM_NET, now), SEAT);
  }

  lemma IssueAlone(w: World, q: Request, now: Time, id: string) returns (w': World)
    requires w.l.subnet == Some(ROOM_NET) && w.clock <= now && q.name != "" && q.memberKey != []
    requires forall ip :: !Holds(w.l.members, ip, q.memberKey, now)
    requires SEAT in w.l.members ==> !w.l.members[SEAT].HoldsSeat(now)
    ensures Next(w, w', IssueOf(q, now, id))
    ensures w'.l == w.l.(members := WithCredential(w.l.members, SEAT, NewCredential(q, id, now)))
    ensures w'.clock == now
  {
    SeatIsSmallest(w.l.members, now);
    w' := After(w, w.l.(members := WithCredential(w.l.members, SEAT, NewCredential(q, id, now))), IssueOf(q, now, id));
  }

  lemma SomeSeatIsFree(p: Subnet, taken: set<Addr>, a: Addr)
    requires IsSmallestFree(p, taken, a)
    ensures a in FreeSet(p, taken)
  {
    assert Between(p.addr, a, p.Last() + 1);
  }

  // --- the veto itself lasts ---

  lemma VetoOutlivesStep(w: World, w': World, ev: Event, ip: Addr)
    requires Next(w, w', ev) && !ev.Rebooting?
    requires ip in w.l.members && w.l.members[ip].kicked
    requires w'.clock < w.l.members[ip].kickedAt + KICK_GRACE && w.l.members[ip].kickedAt <= w.clock
    ensures ip in w'.l.members && w'.l.members[ip].kicked
    ensures w.l.members[ip].kickedAt <= w'.l.members[ip].kickedAt <= w'.clock
  {
    if ev.Issuing? {
      var mid := IssueShape(w, w', ev);
    } else if ev.Kicking? {
    } else if ev.Renewing? {
      assert w'.l.members == Renewed(w.l.members, ev.now, ev.answers);
    } else {
    }
  }

  lemma ClockMoves(ws: seq<World>, evs: seq<Event>, i: nat, j: nat)
    requires Run(ws, evs) && i <= j < |ws|
    ensures ws[i].clock <= ws[j].clock
  {
    if i < j {
      ClockMoves(ws, evs, i, j - 1);
      assert StepAt(ws, evs, j - 1);
    }
  }

  lemma {:induction false} ExpulsionsArePast(ws: seq<World>, evs: seq<Event>, i: nat, ip: Addr)
    requires Run(ws, evs) && i < |ws| && ip in ws[i].l.members && ws[i].l.members[ip].kicked
    ensures ws[i].l.members[ip].kickedAt <= ws[i].clock
  {
    if i > 0 {
      if ip in ws[i - 1].l.members && ws[i - 1].l.members[ip].kicked {
        ExpulsionsArePast(ws, evs, i - 1, ip);
      }
      assert StepAt(ws, evs, i - 1);
      VetoOrigin(ws[i - 1], ws[i], evs[i - 1], ip);
    }
  }

  /** Whatever happens in between short of a restart, an expelled address is nobody's for the
      whole of the kick grace. */
  lemma {:induction false} ExpelledIsNoMember(ws: seq<World>, evs: seq<Event>, i: nat, j: nat, ip: Addr)
    requires Run(ws, evs) && i <= j < |ws|
    requires forall k | i <= k < j :: !evs[k].Rebooting?
    requires ip in ws[i].l.members && ws[i].l.members[ip].kicked
    requires ws[j].clock < ws[i].l.members[ip].kickedAt + KICK_GRACE
    ensures ip in ws[j].l.members && ws[j].l.members[ip].kicked
    ensures ws[i].l.members[ip].kickedAt <= ws[j].l.members[ip].kickedAt <= ws[j].clock
    ensures forall now :: !ws[j].l.members[ip].IsMember(now)
  {
    ExpulsionsArePast(ws, evs, i, ip);
    if i < j {
      ClockMoves(ws, evs, j - 1, j);
      ExpelledIsNoMember(ws, evs, i, j - 1, ip);
      assert StepAt(ws, evs, j - 1);
      VetoOutlivesStep(ws[j - 1], ws[j], evs[j - 1], ip);
    }
  }

  // --- the returning member ---

  /** In every reachable state a key whose live credential the engine renews gets that same
      credential back, at the same address. */
  lemma ReturningKeepsItsSeat(ws: seq<World>, evs: seq<Event>, i: nat, ip: Addr)
    requires Run(ws, evs) && i < |evs| && evs[i].Issuing?
    requires evs[i].q.name != "" && Holds(ws[i].l.members, ip, evs[i].q.memberKey, evs[i].w.find)
    requires evs[i].q.memberKey != [] && evs[i].e.renewal.Some?
    ensures evs[i].out.Returned? && evs[i].out.ip == ip
    ensures evs[i].out.cred == ws[i].l.members[ip].cred.value.(
                                 expiresAt := evs[i].e.renewal.value, name := evs[i].q.name)
    ensures ip in ws[i + 1].l.members && ws[i + 1].l.members[ip].cred == Some(evs[i].out.cred)
  {
    assert StepAt(ws, evs, i);
    NoKeyOwnsTwoSeats(ws, evs, i);
    TimeKeepsUnique(ws[i].l, ws[i].clock, evs[i].w.find);
    var jp :| Holds(ws[i].l.members, jp, evs[i].q.memberKey, evs[i].w.find)
           && IssueReturning(ws[i].l, ws[i + 1].l, jp, evs[i].q, evs[i].w, evs[i].e, evs[i].disk, evs[i].out);
  }

  // --- revocation is not undone ---

  ghost predicate TableTracksIds(t: Table, issued: set<string>, revoked: set<string>) {
    && (forall ip | ip in t && t[ip].cred.Some? ::
          t[ip].cred.value.id in issued && (t[ip].cred.value.id in revoked ==> t[ip].cred.value.revoked))
    && (forall ip, jp | ip in t && jp in t && t[ip].cred.Some? && t[jp].cred.Some?
                        && t[ip].cred.value.id == t[jp].cred.value.id :: ip == jp)
  }

  ghost predicate BookTracksIds(ss: seq<StoredEntry>, issued: set<string>) {
    && (forall s | s in ss :: s.id in issued)
    && (forall a, b | a in ss && b in ss && a.id == b.id :: a.ip == b.ip)
  }

  ghost predicate TracksIds(w: World) {
    && w.revoked <= w.issued
    && TableTracksIds(w.l.members, w.issued, w.revoked)
    && (w.l.book.Some? ==> BookTracksIds(w.l.book.value.entries, w.issued))
  }

  ghost predicate CarriesUnrevoked(t: Table, ip: Addr, id: string) {
    ip in t && t[ip].cred.Some? && !t[ip].cred.value.revoked && t[ip].cred.value.id == id
  }

  ghost predicate ListsUnrevoked(l: Ledger, s: StoredEntry, id: string, now: Time)
    requires l.book.Some?
  {
    s in l.book.value.entries && Acceptable(s, l.fileRoom, now) && !s.revoked && s.id == id
  }

  /** A restart whose book opens and lists a revoked id unrevoked and in date. */
  ghost predicate BringsBack(w: World, ev: Event) {
    && ev.Rebooting? && OpensBook(w.l, ev.readable, ev.now)
    && exists s, id :: id in w.revoked && ListsUnrevoked(w.l, s, id, ev.now)
  }

  /** The engine does not repeat ids, and no restart brings a revoked one back. */
  ghost predicate Orderly(w: World, ev: Event) {
    (ev.Issuing? && ev.out.Fresh? ==> ev.out.cred.id !in w.issued) && !BringsBack(w, ev)
  }

  lemma SavingTracksIds(mid: Ledger, l': Ledger, disk: Disk, issued: set<string>, revoked: set<string>)
    requires TableTracksIds(mid.members, issued, revoked)
    requires mid.book.Some? ==> BookTracksIds(mid.book.value.entries, issued)
    requires Saved(mid, l', disk)
    ensures TableTracksIds(l'.members, issued, revoked)
    ensures l'.book.Some? ==> BookTracksIds(l'.book.value.entries, issued)
  {
  }

  lemma IssueTracksIds(w: World, w': World, ev: Event)
    requires TracksIds(w) && Next(w, w', ev) && Orderly(w, ev) && ev.Issuing?
    ensures TracksIds(w')
    ensures !ev.out.Refused? ==> ev.out.cred.id !in w.revoked
  {
    var mid := IssueShape(w, w', ev);
    SameIdsAreTracked(w.l.members, mid, w.issued, w.revoked);
    SittingTracksIds(mid, ev.out, w.issued, w.revoked);
    SavingTracksIds(w.l.(members := w'.l.members), w'.l,
                    if ev.out.Refused? then Disk(false, false) else ev.disk, w'.issued, w.revoked);
  }

  lemma SittingTracksIds(t: Table, out: Outcome, issued: set<string>, revoked: set<string>)
    requires TableTracksIds(t, issued, revoked) && revoked <= issued
    requires out.Fresh? ==> out.cred.id !in issued
    requires out.Returned? ==> out.ip in t && t[out.ip].cred.Some? && !t[out.ip].cred.value.revoked
    requires out.Returned? ==> out.cred.id == t[out.ip].cred.value.id
    ensures !out.Refused? ==> out.cred.id !in revoked
    ensures !out.Refused? ==>
      TableTracksIds(WithCredential(t, out.ip, out.cred), issued + {out.cred.id}, revoked)
  {
  }

  lemma RenewTracksIds(w: World, w': World, ev: Event)
    requires TracksIds(w) && Next(w, w', ev) && ev.Renewing?
    ensures TracksIds(w')
  {
    var mid := w.l.(members := Renewed(w.l.members, ev.now, ev.answers));
    SameIdsAreTracked(w.l.members, mid.members, w.issued, w.revoked);
    if AnyRenewed(w.l.members, ev.now, ev.answers) {
      SavingTracksIds(mid, w'.l, ev.disk, w.issued, w.revoked);
    }
  }

  lemma SameIdsAreTracked(t: Table, t': Table, issued: set<string>, revoked: set<string>)
    requires TableTracksIds(t, issued, revoked)
    requires forall ip | ip in t' && t'[ip].cred.Some? ::
               ip in t && t[ip].cred.Some? && t[ip].cred.value.id == t'[ip].cred.value.id
               && (t[ip].cred.value.revoked ==> t'[ip].cred.value.revoked)
    ensures TableTracksIds(t', issued, revoked)
  {
  }

  lemma IdsStayTracked(w: World, w': World, ev: Event)
    requires TracksIds(w) && Next(w, w', ev) && Orderly(w, ev)
    ensures TracksIds(w')
    ensures ev.Issuing? && !ev.out.Refused? ==> ev.out.cred.id !in w.revoked
  {
    if ev.Issuing? {
      IssueTracksIds(w, w', ev);
    } else if ev.Kicking? {
      KickTracksIds(w, w', ev);
    } else if ev.Renewing? {
      RenewTracksIds(w, w', ev);
    } else if ev.Rebooting? {
      RebootTracksIds(w, w', ev);
    } else {
      SameIdsAreTracked(w.l.members, w'.l.members, w.issued, w.revoked);
    }
  }

  lemma KickTracksIds(w: World, w': World, ev: Event)
    requires TracksIds(w) && Next(w, w', ev) && ev.Kicking?
    ensures TracksIds(w')
  {
    if KickTakesEffect(w.l, ev) {
      var mid := w.l.(members := Kicked(w.l.members, ev.ip, ev.now));
      if ev.complete { SavingTracksIds(mid, w'.l, ev.disk, w.issued, w'.revoked); }
    }
  }

  lemma RebootTracksIds(w: World, w': World, ev: Event)
    requires TracksIds(w) && Next(w, w', ev) && ev.Rebooting? && !BringsBack(w, ev)
    ensures TracksIds(w')
  {
    var t := w'.l.members;
    forall ip | ip in t
      ensures t[ip].cred.Some? && t[ip].cred.value.id in w.issued
      ensures t[ip].cred.value.id in w.revoked ==> t[ip].cred.value.revoked
    {
      var s := ReopenedSeat(w.l, ev.readable, ev.now, ip);
      if s.id in w.revoked && !s.revoked {
        assert ListsUnrevoked(w.l, s, s.id, ev.now);
      }
    }
    forall ip, jp | ip in t && jp in t && t[ip].cred.value.id == t[jp].cred.value.id
      ensures ip == jp
    {
      var a := ReopenedSeat(w.l, ev.readable, ev.now, ip);
      var b := ReopenedSeat(w.l, ev.readable, ev.now, jp);
    }
  }

  /** Over every orderly run, a revoked id is never handed out, returned or restored: whoever
      still carries it carries it revoked. */
  lemma {:induction false} RevocationIsForGood(ws: seq<World>, evs: seq<Event>, i: nat)
    requires Run(ws, evs) && i < |ws|
    requires forall k | 0 <= k < |evs| :: Orderly(ws[k], evs[k])
    ensures TracksIds(ws[i])
    ensures i < |evs| && evs[i].Issuing? && !evs[i].out.Refused? ==> evs[i].out.cred.id !in ws[i].revoked
  {
    if i > 0 {
      RevocationIsForGood(ws, evs, i - 1);
      assert StepAt(ws, evs, i - 1);
      IdsStayTracked(ws[i - 1], ws[i], evs[i - 1]);
    }
    if i < |evs| {
      assert StepAt(ws, evs, i);
      IdsStayTracked(ws[i], ws[i + 1], evs[i]);
    }
  }

  // --- seats are conserved ---

  /** A fresh issue costs exactly one seat: the one it hands out. */
  lemma FreshIssueCostsOneSeat(l: Ledger, l': Ledger, q: Request, w: Clocks, e: Engine, disk: Disk, out: Outcome)
    requires w.find <= w.scan <= w.stamp && IssueFresh(l, l', q, w, e, disk, out) && out.Fresh?
    ensures |FreeSet(l.subnet.value, Taken(l'.members, l.subnet.value, w.stamp))|
         == |FreeSet(l.subnet.value, Taken(l.members, l.subnet.value, w.stamp))| - 1
  {
    var p := l.subnet.value;
    SomeSeatIsFree(p, Taken(l.members, p, w.scan), out.ip);
    SeatsOnlyFreeUp(l.members, p, w.scan, w.stamp);
    SeatTaken(l.members, p, out.ip, out.cred, w.stamp);
    TakingOneSeat(p, Taken(l.members, p, w.stamp), out.ip);
  }

  lemma SeatsOnlyFreeUp(t: Table, p: Subnet, now: Time, later: Time)
    requires now <= later
    ensures Taken(t, p, later) <= Taken(t, p, now)
  {
  }

  lemma SeatTaken(t: Table, p: Subnet, ip: Addr, c: Credential, now: Time)
    requires !c.Expired(now)
    ensures Taken(WithCredential(t, ip, c), p, now) == Taken(t, p, now) + {ip}
  {
  }

  /** A member who returns with a date still ahead keeps the count as it was. */
  lemma ReturningCostsNoSeat(
    l: Ledger, l': Ledger, ip: Addr, q: Request, w: Clocks, e: Engine, disk: Disk, out: Outcome)
    requires Holds(l.members, ip, q.memberKey, w.find) && l.subnet.Some?
    requires IssueReturning(l, l', ip, q, w, e, disk, out)
    requires e.renewal.Some? && (e.renewal.value == 0 || e.renewal.value > w.find)
    ensures FreeSet(l.subnet.value, Taken(l'.members, l.subnet.value, w.find))
         == FreeSet(l.subnet.value, Taken(l.members, l.subnet.value, w.find))
  {
    assert Taken(l'.members, l.subnet.value, w.find) == Taken(l.members, l.subnet.value, w.find);
  }
}
