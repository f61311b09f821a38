/** Properties of every run of the membership ledger. */
module LedgerRuns {
  import opened Common
  import opened Timing
  import opened Members
  import opened Seats
  import opened Book
  import opened Ledger

  /** The ledger with its history: the clock, the last sweep of the table, the ids the engine
      issued and the host revoked. */
  datatype World = World(l: Ledger, clock: Time, swept: Time, issued: set<string>, revoked: set<string>)

  predicate KickTakesEffect(l: Ledger, ev: Event) {
    ev.Kicking? && Kickable(l.members, ev.ip, ev.listed, ev.isSelf, ev.find)
  }

  ghost predicate WritesBook(l: Ledger, ev: Event) {
    l.room.code != "" &&
    match ev
    case Issuing(_, _, _, disk, out) => disk.bookOk && !out.Refused?
    case Kicking(_, _, _, _, _, complete, disk) => disk.bookOk && complete && KickTakesEffect(l, ev)
    case Renewing(now, answers, disk) => disk.bookOk && AnyRenewed(l.members, now, answers)
    case _ => false
  }

  ghost function After(w: World, l': Ledger, ev: Event): World {
    World(
      l',
      ev.Ends(),
      if ev.Refreshing? || ev.Forgetting? then ev.now else w.swept,
      w.issued + if ev.Issuing? && ev.out.Fresh? then {ev.out.cred.id} else {},
      w.revoked + if KickTakesEffect(w.l, ev) then {w.l.members[ev.ip].cred.value.id} else {})
  }

  ghost predicate Next(w: World, w': World, ev: Event)
  {
    ev.InOrder() && w.clock <= ev.Starts() && Steps(w.l, w'.l, ev) && w' == After(w, w'.l, ev)
  }

  ghost predicate Start(w: World) {
    && w.l.members == map[] && w.l.book == None && w.l.gen == 0 && w.l.roomGen == 0 && w.l.fileRoom == w.l.room
    && w.swept <= w.clock && w.issued == {} && w.revoked == {}
  }

  ghost predicate StepAt(ws: seq<World>, evs: seq<Event>, i: nat)
    requires i < |evs| < |ws|
  {
    Next(ws[i], ws[i + 1], evs[i])
  }

  /** `ws` are the states and `evs` the steps between them. */
  ghost predicate Run(ws: seq<World>, evs: seq<Event>) {
    && |ws| == |evs| + 1
    && Start(ws[0])
    && (forall i | 0 <= i < |evs| :: StepAt(ws, evs, i))
  }

  // --- one owner per key ---

  ghost predicate OneSeatPerKey(t: Table, now: Time) {
    forall ip, jp, key | Holds(t, ip, key, now) && Holds(t, jp, key, now) :: ip == jp
  }

  predicate StoredLive(s: StoredEntry, now: Time) {
    !s.revoked && s.expiresAt * SECOND > now
  }

  ghost predicate OneEntryPerKey(ss: seq<StoredEntry>, now: Time) {
    forall a, b | a in ss && b in ss && StoredLive(a, now) && StoredLive(b, now) && a.memberKey == b.memberKey ::
      a.ip == b.ip
  }

  ghost predicate Unique(l: Ledger, now: Time) {
    OneSeatPerKey(l.members, now) && (l.book.Some? ==> OneEntryPerKey(l.book.value.entries, now))
  }

  lemma TimeKeepsUnique(l: Ledger, now: Time, later: Time)
    requires Unique(l, now) && now <= later
    ensures Unique(l, later)
  {
    forall ip, jp, key | Holds(l.members, ip, key, later) && Holds(l.members, jp, key, later)
      ensures ip == jp
    {
      assert Holds(l.members, ip, key, now) && Holds(l.members, jp, key, now);
    }
  }

  lemma SavingKeepsUnique(mid: Ledger, l': Ledger, disk: Disk, now: Time)
    requires Unique(mid, now) && Saved(mid, l', disk)
    ensures Unique(l', now)
  {
    if l' != mid {
      var ss := l'.book.value.entries;
      forall a, b | a in ss && b in ss && StoredLive(a, now) && StoredLive(b, now) && a.memberKey == b.memberKey
        ensures a.ip == b.ip
      {
        StoredLiveIsLive(mid.members, a, now);
        StoredLiveIsLive(mid.members, b, now);
      }
    }
  }

  lemma StoredLiveIsLive(t: Table, s: StoredEntry, now: Time)
    requires s.ip.Some? && s.ip.value in t && t[s.ip.value].cred.Some?
    requires s == StoredForm(EntryOf(s.ip.value, t[s.ip.value].cred.value)) && StoredLive(s, now)
    ensures s.memberKey.Some? && Holds(t, s.ip.value, s.memberKey.value, now)
  {
  }

  /** A table whose live credentials are live credentials of `t`, same key and seat, is unique too. */
  lemma FewerLiveKeepsUnique(t: Table, t': Table, now: Time)
    requires OneSeatPerKey(t, now)
    requires forall ip, key | Holds(t', ip, key, now) :: Holds(t, ip, key, now)
    ensures OneSeatPerKey(t', now)
  {
  }

  lemma {:induction false} LoadedFrom(es: seq<BookEntry>, ip: Addr)
    ensures ip in Loaded(map[], es) <==> exists e :: e in es && e.ip == ip
    ensures ip in Loaded(map[], es) ==>
      exists e :: e in es && e.ip == ip
                  && Loaded(map[], es)[ip] == BLANK.(cred := Some(CredentialOf(e)), name := e.name)
  {
    if es == [] {
    } else {
      var n := |es| - 1;
      LoadedFrom(es[..n], ip);
      assert es == es[..n] + [es[n]];
      assert es[n] in es;
    }
  }

  lemma ReopenedSeat(l: Ledger, readable: bool, now: Time, ip: Addr) returns (s: StoredEntry)
    requires ip in Reopen(l, readable, now).members
    ensures OpensBook(l, readable, now)
    ensures s in l.book.value.entries && Acceptable(s, l.fileRoom, now) && s.ip.value == ip
    ensures Reopen(l, readable, now).members[ip]
         == BLANK.(cred := Some(CredentialOf(Reopened(s))), name := Reopened(s).name)
  {
    var es := AcceptedEntries(l.book.value.entries, l.fileRoom, now);
    LoadedFrom(es, ip);
    var e :| e in es && e.ip == ip
          && Loaded(map[], es)[ip] == BLANK.(cred := Some(CredentialOf(e)), name := e.name);
    AcceptedComesFromFile(l.book.value.entries, l.fileRoom, now, e);
    s :| s in l.book.value.entries && Acceptable(s, l.fileRoom, now) && Reopened(s) == e;
  }

  lemma ReopeningKeepsUnique(l: Ledger, readable: bool, now: Time)
    requires Unique(l, now)
    ensures Unique(Reopen(l, readable, now), now)
  {
    var t := Reopen(l, readable, now).members;
    forall ip, jp, key | Holds(t, ip, key, now) && Holds(t, jp, key, now)
      ensures ip == jp
    {
      var a := ReopenedSeat(l, readable, now, ip);
      var b := ReopenedSeat(l, readable, now, jp);
    }
  }

  lemma FreshKeepsUnique(l: Ledger, l': Ledger, q: Request, w: Clocks, e: Engine, disk: Disk, out: Outcome)
    requires w.find <= w.scan <= w.stamp && Unique(l, w.find)
    requires forall ip :: !Holds(l.members, ip, q.memberKey, w.find)
    requires IssueFresh(l, l', q, w, e, disk, out)
    ensures Unique(l', w.stamp)
  {
    TimeKeepsUnique(l, w.find, w.stamp);
    if out.Fresh? {
      var mid := l.(members := WithCredential(l.members, out.ip, out.cred));
      forall ip, jp, key | Holds(mid.members, ip, key, w.stamp) && Holds(mid.members, jp, key, w.stamp)
        ensures ip == jp
      {
        if ip != out.ip {
          assert Holds(l.members, ip, key, w.find) && Holds(l.members, ip, key, w.stamp);
        }
        if jp != out.ip {
          assert Holds(l.members, jp, key, w.find) && Holds(l.members, jp, key, w.stamp);
        }
      }
      SavingKeepsUnique(mid, l', disk, w.stamp);
    }
  }

  lemma IssueKeepsUnique(l: Ledger, l': Ledger, q: Request, w: Clocks, e: Engine, disk: Disk, out: Outcome)
    requires w.find <= w.scan <= w.stamp && Unique(l, w.find)
    requires Issue(l, l', q, w, e, disk, out)
    ensures Unique(l', w.stamp)
  {
    TimeKeepsUnique(l, w.find, w.stamp);
    if q.name == "" || q.memberKey == [] {
    } else if forall ip :: !Holds(l.members, ip, q.memberKey, w.find) {
      FreshKeepsUnique(l, l', q, w, e, disk, out);
    } else {
      var ip :| Holds(l.members, ip, q.memberKey, w.find) && IssueReturning(l, l', ip, q, w, e, disk, out);
      if e.renewal.Some? {
        var mid := l.(members := WithCredential(l.members, ip, out.cred));
        FewerLiveBefore(l, mid, ip, q.memberKey, w.find);
        SavingKeepsUnique(mid, l', disk, w.find);
        TimeKeepsUnique(l', w.find, w.stamp);
      } else {
        var mid := l.(members := WithoutCredential(l.members, ip));
        forall jp, key | Holds(mid.members, jp, key, w.find)
          ensures Holds(l.members, jp, key, w.find)
        {
        }
        FewerLiveKeepsUnique(l.members, mid.members, w.find);
        FreshKeepsUnique(mid, l', q, w, e, disk, out);
      }
    }
  }

  lemma FewerLiveBefore(l: Ledger, mid: Ledger, ip: Addr, key: Bytes, now: Time)
    requires Unique(l, now) && Holds(l.members, ip, key, now) && ip in mid.members && mid.members[ip].cred.Some?
    requires mid == l.(members := WithCredential(l.members, ip, mid.members[ip].cred.value))
    requires mid.members[ip].cred.value.memberKey == key
    ensures Unique(mid, now)
  {
    FewerLiveKeepsUnique(l.members, mid.members, now);
  }

  lemma UniqueIsKept(w: World, w': World, ev: Event)
    requires Unique(w.l, w.clock) && Next(w, w', ev)
    ensures Unique(w'.l, w'.clock)
  {
    TimeKeepsUnique(w.l, w.clock, ev.Starts());
    TimeKeepsUnique(w.l, w.clock, ev.Ends());
    match ev
    case Issuing(q, c, e, disk, out) => IssueKeepsUnique(w.l, w'.l, q, c, e, disk, out);
    case Kicking(ip, _, _, _, now, complete, disk) =>
      if KickTakesEffect(w.l, ev) {
        var mid := w.l.(members := Kicked(w.l.members, ip, now));
        FewerLiveKeepsUnique(w.l.members, mid.members, now);
        if complete { SavingKeepsUnique(mid, w'.l, disk, now); }
      }
    case Renewing(now, answers, disk) =>
      var mid := w.l.(members := Renewed(w.l.members, now, answers));
      FewerLiveKeepsUnique(w.l.members, mid.members, now);
      if AnyRenewed(w.l.members, now, answers) { SavingKeepsUnique(mid, w'.l, disk, now); }
    case Refreshing(now, _, _) => FewerLiveKeepsUnique(w.l.members, w'.l.members, now);
    case Forgetting(now) => FewerLiveKeepsUnique(w.l.members, w'.l.members, now);
    case SavingRoom(_, _) =>
    case RenewingCode(_, _, _) =>
    case Rebooting(now, readable) => ReopeningKeepsUnique(w.l, readable, now);
  }

  /** In every state of every run, crashes and restarts included, no member key owns two
      credentials that are unrevoked and unexpired. */
  lemma {:induction false} NoKeyOwnsTwoSeats(ws: seq<World>, evs: seq<Event>, i: nat)
    requires Run(ws, evs) && i < |ws|
    ensures Unique(ws[i].l, ws[i].clock)
  {
    if i > 0 {
      NoKeyOwnsTwoSeats(ws, evs, i - 1);
      assert StepAt(ws, evs, i - 1);
      UniqueIsKept(ws[i - 1], ws[i], evs[i - 1]);
    }
  }
}
