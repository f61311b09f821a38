/** Pins, lookups and restarts over every run of the seed registry. */
module RegistryRuns {
  import opened Common
  import opened Timing
  import opened InviteIds
  import opened Store
  import opened Registry

  /** Loading the file now would give the live entries of memory. */
  ghost predicate Mirrored(w: World) { Loaded(w.disk, w.clock) == Swept(w.rooms, w.clock) }

  /** The file still reserves for its host what memory reserves under `id`. */
  predicate Reserved(w: World, id: string) {
    id in w.rooms && w.clock <= w.rooms[id].pinUntil ==>
      && id in w.disk && WellFormed(id, w.disk[id])
      && w.disk[id].hostKey == w.rooms[id].hostKey && w.disk[id].pinUntil >= w.rooms[id].pinUntil
  }

  /** A file that agrees with memory reserves every id that memory does. */
  lemma MirroredReserves(w: World, id: string)
    requires Mirrored(w)
    ensures Reserved(w, id)
  {
    if id in w.rooms && w.clock <= w.rooms[id].pinUntil {
      assert id in Swept(w.rooms, w.clock);
      assert id in Loaded(w.disk, w.clock) && Loaded(w.disk, w.clock)[id] == Swept(w.rooms, w.clock)[id];
    }
  }

  ghost predicate RestartsReserve(ws: seq<World>, evs: seq<Event>, i: nat, j: nat, id: string)
    requires j <= |evs| < |ws|
  {
    forall k | i <= k < j && evs[k].Restart? :: Reserved(ws[k], id)
  }

  // --- a pinned id stays its host's ---

  ghost predicate PinKept(before: Rooms, after: Rooms, id: string)
    requires id in before
  {
    id in after && after[id].hostKey == before[id].hostKey && after[id].pinUntil >= before[id].pinUntil
  }

  lemma PinOutlivesSweep(before: Rooms, after: Rooms, sweep: Time, id: string)
    requires id in before && sweep <= before[id].pinUntil && Follows(before, after, sweep, true)
    ensures PinKept(before, after, id)
  {
    assert id in Swept(before, sweep);
  }

  lemma LockedBodyFollows(v: Verifier, w: World, ev: Event, file: Rooms)
    requires Sound(v, w, file, true) && Enabled(v, w, ev)
    requires ev.Insert? || ev.Publish? || ev.Retire? || ev.Sweep?
    ensures Follows(w.rooms, After(v, w, ev).rooms, if ev.Sweep? then ev.now else ev.w.sweep, true)
  {
    if ev.Publish? {
      PublishFollows(w.rooms, w.clock, ev.id, ev.key, ev.card, ev.sig, ev.w);
      assert After(v, w, ev).rooms == Published(w.rooms, ev.id, ev.key, ev.card, ev.sig, ev.w).0;
    } else {
      QuietBodyFollows(v, w, ev);
    }
  }

  lemma QuietBodyFollows(v: Verifier, w: World, ev: Event)
    requires Enabled(v, w, ev) && (ev.Insert? || ev.Retire? || ev.Sweep?)
    ensures Follows(w.rooms, After(v, w, ev).rooms, if ev.Sweep? then ev.now else ev.w.sweep, true)
  {
  }

  lemma PublishFollows(rooms: Rooms, clock: Time, id: string, key: Bytes, card: Bytes, sig: Bytes, k: Clocks)
    requires SoundRooms(rooms, clock, true) && clock <= k.sweep <= k.stamp
    ensures Follows(rooms, Published(rooms, id, key, card, sig, k).0, k.sweep, true)
  {
    if id in Swept(rooms, k.sweep) {
      assert SoundRoom(id, rooms[id], clock, true);
    }
  }

  lemma PinHoldsOneStep(v: Verifier, w: World, ev: Event, file: Rooms, id: string)
    requires Sound(v, w, file, true) && Enabled(v, w, ev) && id in w.rooms
    requires After(v, w, ev).clock <= w.rooms[id].pinUntil
    requires ev.Restart? ==> Reserved(w, id)
    ensures PinKept(w.rooms, After(v, w, ev).rooms, id)
  {
    if ev.Insert? || ev.Publish? || ev.Retire? || ev.Sweep? {
      LockedBodyFollows(v, w, ev, file);
      PinOutlivesSweep(w.rooms, After(v, w, ev).rooms, if ev.Sweep? then ev.now else ev.w.sweep, id);
    }
  }

  lemma RestartsReserveBefore(ws: seq<World>, evs: seq<Event>, i: nat, j: nat, id: string)
    requires i < j <= |evs| < |ws| && RestartsReserve(ws, evs, i, j, id)
    ensures RestartsReserve(ws, evs, i, j - 1, id)
  {
  }

  lemma ClockMoves(v: Verifier, ws: seq<World>, evs: seq<Event>, i: nat, j: nat)
    requires Run(v, ws, evs) && i <= j < |ws|
    ensures ws[i].clock <= ws[j].clock
  {
    if i < j {
      ClockMoves(v, ws, evs, i, j - 1);
      assert StepAt(v, ws, evs, j - 1);
    }
  }

  /** Until its pin passes an entry stays, keeps its host key and only ever gains time, whatever the
      other threads do, and across restarts whose file still reserves it. */
  lemma {:induction false} PinHolds(v: Verifier, ws: seq<World>, evs: seq<Event>, i: nat, j: nat, id: string)
    requires Run(v, ws, evs) && FileInReach(ws) && i <= j < |ws| && RestartsReserve(ws, evs, i, j, id)
    requires id in ws[i].rooms && ws[j].clock <= ws[i].rooms[id].pinUntil
    ensures PinKept(ws[i].rooms, ws[j].rooms, id)
  {
    if i < j {
      ClockMoves(v, ws, evs, j - 1, j);
      RestartsReserveBefore(ws, evs, i, j, id);
      PinHolds(v, ws, evs, i, j - 1, id);
      RunIsSound(v, ws, evs, j - 1, true);
      assert StepAt(v, ws, evs, j - 1);
      PinHoldsOneStep(v, ws[j - 1], evs[j - 1], ws[0].disk, id);
    }
  }

  ghost predicate IssuesId(v: Verifier, w: World, ev: Event, id: string) {
    Enabled(v, w, ev) && ev.Insert? && w.calls[ev.t].id == id && Insertion(w, ev).1
  }

  /** Two calls are given the same id only if the first pin had run out before the second insert. */
  lemma SameIdOnlyAfterPinLapsed(v: Verifier, ws: seq<World>, evs: seq<Event>, i: nat, j: nat, id: string)
    requires Run(v, ws, evs) && FileInReach(ws) && i < j < |evs| && RestartsReserve(ws, evs, i + 1, j, id)
    requires IssuesId(v, ws[i], evs[i], id) && IssuesId(v, ws[j], evs[j], id)
    ensures evs[i].t in ws[i + 1].calls && ws[i + 1].calls[evs[i].t] == Issued(id)
    ensures evs[j].t in ws[j + 1].calls && ws[j + 1].calls[evs[j].t] == Issued(id)
    ensures evs[j].w.sweep > evs[i].w.stamp + ROOM_TTL
  {
    assert StepAt(v, ws, evs, i) && StepAt(v, ws, evs, j);
    assert id in ws[i + 1].rooms && ws[i + 1].rooms[id].pinUntil == evs[i].w.stamp + ROOM_TTL;
    if evs[j].w.sweep <= evs[i].w.stamp + ROOM_TTL {
      PinHolds(v, ws, evs, i + 1, j, id);
    }
  }

  // --- an entry past its pin ---

  /** The instant at which a step drops what has outlived its pin. */
  function SweepsAt(ev: Event): Option<Time> {
    match ev
    case Insert(_, _, k) => Some(k.sweep)
    case Publish(_, _, _, _, _, k) => Some(k.sweep)
    case Retire(_, _, _, k) => Some(k.sweep)
    case Sweep(_, now) => Some(now)
    case Restart(now) => Some(now)
    case _ => None
  }

  predicate SweptAfter(ev: Event, pin: Time) { SweepsAt(ev).Some? && SweepsAt(ev).value > pin }

  /** A step that leaves the entry `r` to its fate, while it is there: nobody publishes or closes it,
      and a restart finds it on disk. */
  predicate LeavesToItsFate(w: World, ev: Event, id: string, r: Room) {
    id in w.rooms && w.rooms[id] == r ==>
      && !(ev.Publish? && ev.id == id && Published(w.rooms, id, ev.key, ev.card, ev.sig, ev.w).1.Done?)
      && !(ev.Retire? && ev.id == id && Retired(w.rooms, id, ev.key, ev.w).1.Done?)
      && (ev.Restart? ==> id in w.disk && w.disk[id] == r && WellFormed(id, r))
  }

  ghost predicate Resolves(w: World, id: string, r: Room) { Found(w.rooms, id) == Some(r) }

  lemma FateOneStep(v: Verifier, w: World, ev: Event, id: string, r: Room)
    requires Enabled(v, w, ev) && LeavesToItsFate(w, ev, id, r) && Resolves(w, id, r)
    ensures Resolves(After(v, w, ev), id, r) <==> !SweptAfter(ev, r.pinUntil)
    ensures SweptAfter(ev, r.pinUntil) ==> After(v, w, ev).clock > r.pinUntil
  {
  }

  /** Whoever takes the id afterwards is another entry. */
  lemma GoneOneStep(v: Verifier, w: World, ev: Event, id: string, r: Room)
    requires Enabled(v, w, ev) && !Resolves(w, id, r) && r.closedAt == 0 && w.clock > r.pinUntil && w.clock > 0
    ensures !Resolves(After(v, w, ev), id, r) && After(v, w, ev).clock > r.pinUntil
  {
  }

  /** An open entry keeps resolving, however long its pin has passed, if and only if no locked body
      and no restart has swept at an instant after the pin since. */
  lemma {:induction false} ResolvesUntilSwept(v: Verifier, ws: seq<World>, evs: seq<Event>, i: nat, j: nat,
                                             id: string, r: Room)
    requires Run(v, ws, evs) && i <= j < |ws| && Resolves(ws[i], id, r)
    requires forall k | i <= k < j :: LeavesToItsFate(ws[k], evs[k], id, r)
    ensures Resolves(ws[j], id, r) <==> forall k | i <= k < j :: !SweptAfter(evs[k], r.pinUntil)
    ensures !Resolves(ws[j], id, r) ==> ws[j].clock > r.pinUntil
  {
    if i < j {
      ResolvesUntilSwept(v, ws, evs, i, j - 1, id, r);
      assert StepAt(v, ws, evs, j - 1);
      if Resolves(ws[j - 1], id, r) {
        FateOneStep(v, ws[j - 1], evs[j - 1], id, r);
      } else {
        GoneOneStep(v, ws[j - 1], evs[j - 1], id, r);
      }
    }
  }

  // --- what a restart brings back ---

  /** Backups do not overlap, and their writes succeed. */
  predicate Careful(w: World, ev: Event) {
    (ev.CopyOut? ==> w.flying == map[]) && (ev.Rename? ==> ev.ok)
  }

  /** What a copy would hold if all its fields were read now. */
  function Content(rooms: Rooms, c: Copy): Rooms
    requires Named(rooms, c)
  {
    map id | id in c.fields :: Target(rooms, c, id)
  }

  ghost predicate UpToDate(rooms: Rooms, c: Copy) {
    Named(rooms, c) && forall id, r | id in c.fields && r in c.fields[id] :: r == Target(rooms, c, id)
  }

  ghost predicate CopyAgrees(rooms: Rooms, c: Copy, clock: Time) {
    UpToDate(rooms, c) && Swept(Content(rooms, c), clock) == Swept(rooms, clock)
  }

  /** Once nobody owes a backup, the copy under way, or else the disk, agrees with memory. */
  ghost predicate BackupsAgree(w: World) {
    && (w.busy.Some? ==> w.owed != {})
    && (w.owed == {} ==>
          && (w.flying == map[] ==> Mirrored(w))
          && forall t | t in w.flying :: CopyAgrees(w.rooms, w.flying[t], w.clock))
  }

  lemma SweptTwice(rooms: Rooms, now: Time, later: Time)
    requires now <= later
    ensures Swept(Swept(rooms, now), later) == Swept(rooms, later)
  {
  }

  lemma AgreeLater(a: Rooms, b: Rooms, now: Time, later: Time)
    requires Swept(a, now) == Swept(b, now) && now <= later
    ensures Swept(a, later) == Swept(b, later)
  {
    SweptTwice(a, now, later);
    SweptTwice(b, now, later);
  }

  lemma LoadedLater(disk: Rooms, rooms: Rooms, now: Time, later: Time)
    requires Loaded(disk, now) == Swept(rooms, now) && now <= later
    ensures Loaded(disk, later) == Swept(rooms, later)
  {
    assert Loaded(disk, later) == Swept(Loaded(disk, now), later);
    SweptTwice(rooms, now, later);
  }

  lemma DetachingKeepsContent(c: Copy, rooms: Rooms, now: Time)
    requires UpToDate(rooms, c)
    ensures UpToDate(Swept(rooms, now), Detach(c, rooms, now))
    ensures Content(Swept(rooms, now), Detach(c, rooms, now)) == Content(rooms, c)
  {
    var c' := Detach(c, rooms, now);
    forall id | id in c.fields
      ensures Target(Swept(rooms, now), c', id) == Target(rooms, c, id)
    {
    }
  }

  /** A locked body that only swept leaves every agreement as it was. */
  lemma SweepingAgrees(w: World, k: Clocks, t: nat)
    requires BackupsAgree(w) && w.clock <= k.sweep <= k.stamp
    ensures BackupsAgree(Settled(w, Swept(w.rooms, k.sweep), k, t, false))
  {
    var w' := Settled(w, Swept(w.rooms, k.sweep), k, t, false);
    if w.owed == {} {
      SweptTwice(w.rooms, k.sweep, k.stamp);
      assert w'.flying.Keys == w.flying.Keys;
      if w'.flying == map[] {
        assert w.flying == map[];
        LoadedLater(w.disk, w.rooms, w.clock, k.stamp);
        assert Swept(w'.rooms, k.stamp) == Swept(w.rooms, k.stamp);
      }
      forall u | u in w'.flying
        ensures CopyAgrees(w'.rooms, w'.flying[u], k.stamp)
      {
        DetachingKeepsContent(w.flying[u], w.rooms, k.sweep);
        AgreeLater(Content(w.rooms, w.flying[u]), w.rooms, w.clock, k.stamp);
      }
    }
  }

  lemma LockedStepAgrees(v: Verifier, w: World, ev: Event)
    requires BackupsAgree(w) && Enabled(v, w, ev)
    requires ev.Insert? || ev.Publish? || ev.Retire? || ev.Sweep?
    ensures BackupsAgree(After(v, w, ev))
  {
    var w' := After(v, w, ev);
    if w'.owed == {} {
      var k := if ev.Sweep? then Clocks(ev.now, ev.now) else ev.w;
      SweepingAgrees(w, k, ev.t);
      var swept := Settled(w, Swept(w.rooms, k.sweep), k, ev.t, false);
      assert ev.t !in w'.owed;
      assert w'.rooms == swept.rooms && w'.flying == swept.flying && w'.disk == swept.disk && w'.clock == swept.clock;
    }
  }

  lemma ReadingAgrees(rooms: Rooms, c: Copy, id: string, clock: Time)
    requires CopyAgrees(rooms, c, clock) && id in c.fields
    ensures CopyAgrees(rooms, WithRead(c, id, Target(rooms, c, id)), clock)
  {
    var c' := WithRead(c, id, Target(rooms, c, id));
    assert Named(rooms, c') && Content(rooms, c') == Content(rooms, c);
  }

  lemma OneCopyAgrees(w: World, t: nat, c: Copy)
    requires BackupsAgree(w) && t in w.flying && (w.owed == {} ==> CopyAgrees(w.rooms, c, w.clock))
    ensures BackupsAgree(w.(flying := w.flying[t := c]))
  {
  }

  lemma ReadAgrees(v: Verifier, w: World, ev: Event)
    requires BackupsAgree(w) && Enabled(v, w, ev) && ev.Read?
    ensures BackupsAgree(After(v, w, ev))
  {
    var c := w.flying[ev.t];
    if w.owed == {} {
      assert w.busy.None? && CopyAgrees(w.rooms, c, w.clock);
      ReadingAgrees(w.rooms, c, ev.id, w.clock);
    }
    OneCopyAgrees(w, ev.t, WithRead(c, ev.id, ReadFrom(w, ev)));
  }

  lemma FileIsContent(rooms: Rooms, c: Copy, clock: Time)
    requires SoundCopy(c, rooms, clock, false) && UpToDate(rooms, c)
    requires forall id | id in c.fields :: !Unread(c, id)
    ensures File(c) == Content(rooms, c)
  {
    forall id | id in c.fields
      ensures |c.fields[id]| == FIELDS && Assembled(c.fields[id]) == Target(rooms, c, id)
    {
      assert !Unread(c, id) && SoundReads(id, c.fields[id], Target(rooms, c, id), clock, false);
      SameReadsAreTheRoom(c.fields[id], Target(rooms, c, id));
    }
  }

  lemma SameReadsAreTheRoom(rs: seq<Room>, r: Room)
    requires |rs| == FIELDS && forall q | q in rs :: q == r
    ensures Assembled(rs) == r
  {
    assert rs[0] in rs && rs[1] in rs && rs[2] in rs && rs[3] in rs;
  }

  lemma RenameAgrees(v: Verifier, w: World, ev: Event, file: Rooms)
    requires Sound(v, w, file, false) && BackupsAgree(w) && Enabled(v, w, ev) && ev.Rename? && ev.ok
    ensures BackupsAgree(After(v, w, ev))
  {
    if w.owed == {} {
      var c := w.flying[ev.t];
      assert CopyAgrees(w.rooms, c, w.clock);
      FileIsContent(w.rooms, c, w.clock);
      FileIsSound(c, w.rooms, w.clock, false);
      LoadsAllAlive(File(c), w.clock, false, w.clock);
    }
  }

  lemma CopyOutAgrees(v: Verifier, w: World, ev: Event)
    requires BackupsAgree(w) && Enabled(v, w, ev) && ev.CopyOut? && w.flying == map[]
    ensures BackupsAgree(After(v, w, ev))
  {
    var c := NewCopy(w.rooms);
    assert ev.t in After(v, w, ev).flying && After(v, w, ev).flying == map[ev.t := c];
    assert Named(w.rooms, c) && Content(w.rooms, c) == w.rooms;
  }

  lemma ProbeAgrees(v: Verifier, w: World, ev: Event)
    requires BackupsAgree(w) && Enabled(v, w, ev) && ev.Probe?
    ensures BackupsAgree(After(v, w, ev))
  {
    if w.owed == {} {
      if w.flying == map[] {
        LoadedLater(w.disk, w.rooms, w.clock, ev.now);
      }
      forall u | u in w.flying
        ensures CopyAgrees(w.rooms, w.flying[u], ev.now)
      {
        AgreeLater(Content(w.rooms, w.flying[u]), w.rooms, w.clock, ev.now);
      }
    }
  }

  lemma RestartAgrees(disk: Rooms, now: Time)
    ensures BackupsAgree(Started(disk, now))
  {
    var w := Started(disk, now);
    assert w.rooms == Loaded(disk, now) && w.disk == disk && w.clock == now;
    assert Swept(w.rooms, now) == w.rooms;
    assert Mirrored(w);
  }

  lemma StepAgrees(v: Verifier, w: World, ev: Event, file: Rooms)
    requires Sound(v, w, file, false) && BackupsAgree(w) && Enabled(v, w, ev) && Careful(w, ev)
    ensures BackupsAgree(After(v, w, ev))
  {
    match ev
    case Probe(_, _, _, _) => ProbeAgrees(v, w, ev);
    case CopyOut(_) => CopyOutAgrees(v, w, ev);
    case Read(_, _, _) => ReadAgrees(v, w, ev);
    case Rename(_, _) => RenameAgrees(v, w, ev, file);
    case Restart(now) => RestartAgrees(w.disk, now);
    case Begin(_, _, _, _) => IdleAgrees(v, w, ev);
    case Unlock => IdleAgrees(v, w, ev);
    case Encode(_) => IdleAgrees(v, w, ev);
    case _ => LockedStepAgrees(v, w, ev);
  }

  lemma IdleAgrees(v: Verifier, w: World, ev: Event)
    requires BackupsAgree(w) && Enabled(v, w, ev) && (ev.Begin? || ev.Unlock? || ev.Encode?)
    ensures BackupsAgree(After(v, w, ev))
  {
    var w' := After(v, w, ev);
    assert w'.owed == w.owed && w'.flying == w.flying && w'.rooms == w.rooms;
    assert w'.disk == w.disk && w'.clock == w.clock && (w'.busy.Some? ==> w.busy.Some?);
  }

  lemma {:induction false} BackupsAlwaysAgree(v: Verifier, ws: seq<World>, evs: seq<Event>, i: nat)
    requires Run(v, ws, evs) && i < |ws|
    requires forall k | 0 <= k < |evs| :: Careful(ws[k], evs[k])
    ensures BackupsAgree(ws[i])
  {
    if i > 0 {
      BackupsAlwaysAgree(v, ws, evs, i - 1);
      RunIsSound(v, ws, evs, i - 1, false);
      assert StepAt(v, ws, evs, i - 1);
      StepAgrees(v, ws[i - 1], evs[i - 1], ws[0].disk);
    } else {
      assert Swept(ws[0].rooms, ws[0].clock) == ws[0].rooms;
    }
  }

  /** After any run of backups that do not overlap and succeed, once none is due, loading the
      file at any later instant gives exactly the entries of memory whose pin is alive then:
      whoever tears a backup owes another one. */
  lemma RestartRestoresMemory(v: Verifier, ws: seq<World>, evs: seq<Event>, i: nat, now: Time)
    requires Run(v, ws, evs) && i < |ws| && ws[i].clock <= now
    requires forall k | 0 <= k < |evs| :: Careful(ws[k], evs[k])
    requires ws[i].owed == {} && ws[i].flying == map[]
    ensures Loaded(ws[i].disk, now) == Swept(ws[i].rooms, now)
  {
    BackupsAlwaysAgree(v, ws, evs, i);
    LoadedLater(ws[i].disk, ws[i].rooms, ws[i].clock, now);
  }

  /** The entry that the backup is about to write is the room that memory holds under its id. */
  predicate SavedAsIs(rooms: Rooms, c: Copy, id: string)
    requires id in rooms
  {
    id in c.shared && id in File(c) && File(c)[id] == rooms[id]
  }

  /** What one save leaves on disk agrees with memory exactly when no room that is alive was inserted
      after the copy was taken, or given other contents after one of its fields was read. */
  lemma SaveAgreesExactly(v: Verifier, ws: seq<World>, evs: seq<Event>, i: nat)
    requires Run(v, ws, evs) && FileInReach(ws) && i < |evs| && evs[i].Rename? && evs[i].ok
    requires evs[i].t in ws[i].flying
    ensures Mirrored(ws[i + 1]) <==>
              forall id | id in ws[i].rooms && ws[i].clock <= ws[i].rooms[id].pinUntil ::
                SavedAsIs(ws[i].rooms, ws[i].flying[evs[i].t], id)
  {
    RunIsSound(v, ws, evs, i, true);
    assert StepAt(v, ws, evs, i);
    var c := ws[i].flying[evs[i].t];
    assert SoundCopy(c, ws[i].rooms, ws[i].clock, true);
    FileIsSound(c, ws[i].rooms, ws[i].clock, true);
    LoadsAllAlive(File(c), ws[i].clock, true, ws[i].clock);
    LivingEntriesAreShared(c, ws[i].rooms, ws[i].clock);
    SavedAgrees(c, ws[i].rooms, ws[i].clock);
  }

  lemma LivingEntriesAreShared(c: Copy, rooms: Rooms, clock: Time)
    requires SoundCopy(c, rooms, clock, true)
    ensures forall id | id in File(c) && clock <= File(c)[id].pinUntil ::
              id in c.shared && id in rooms && clock <= rooms[id].pinUntil
  {
    forall id | id in File(c) && clock <= File(c)[id].pinUntil
      ensures id in c.shared && id in rooms && clock <= rooms[id].pinUntil
    {
      var rs := c.fields[id];
      assert SoundReads(id, rs, Target(rooms, c, id), clock, true) && rs[2] in rs;
    }
  }

  lemma SavedAgrees(c: Copy, rooms: Rooms, clock: Time)
    requires forall id | id in File(c) && clock <= File(c)[id].pinUntil ::
               id in c.shared && id in rooms && clock <= rooms[id].pinUntil
    ensures Swept(File(c), clock) == Swept(rooms, clock) <==>
              forall id | id in rooms && clock <= rooms[id].pinUntil :: SavedAsIs(rooms, c, id)
  {
    var saved, live := Swept(File(c), clock), Swept(rooms, clock);
    if forall id | id in rooms && clock <= rooms[id].pinUntil :: SavedAsIs(rooms, c, id) {
      assert saved == live;
    } else {
      var id :| id in rooms && clock <= rooms[id].pinUntil && !SavedAsIs(rooms, c, id);
      assert id in live && (id in saved ==> saved[id] != live[id]);
    }
  }
}
