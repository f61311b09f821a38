/** Signed cards over every run of the seed registry: in memory, in the file, and after a restart. */
module RegistrySigning {
  import opened Common
  import opened Timing
  import opened InviteIds
  import opened Store
  import opened Registry

  predicate Signed(v: Verifier, r: Room) { r.closedAt == 0 ==> v(r.hostKey, r.card, r.sig) }

  /** As this store leaves a room: open with a card that its key signed, or closed without signature. */
  predicate Genuine(v: Verifier, r: Room) {
    if r.closedAt == 0 then v(r.hostKey, r.card, r.sig) else r.sig == []
  }

  // --- memory ---

  /** Whatever entry a step brings about in memory, short of a restart, is genuine. */
  lemma ChangedIsGenuine(v: Verifier, w: World, ev: Event, file: Rooms, id: string)
    requires Sound(v, w, file, false) && Enabled(v, w, ev) && !ev.Restart?
    requires id in After(v, w, ev).rooms
    ensures (id in w.rooms && w.rooms[id] == After(v, w, ev).rooms[id]) || Genuine(v, After(v, w, ev).rooms[id])
  {
    if ev.Insert? {
      assert SoundCall(v, w.calls[ev.t]);
    }
  }

  /** A process starts at the beginning of the run and at every restart. */
  predicate StartsAt(evs: seq<Event>, k: nat)
    requires k <= |evs|
  {
    k == 0 || evs[k - 1].Restart?
  }

  ghost predicate SameProcess(evs: seq<Event>, k: nat, i: nat)
    requires k <= i <= |evs|
  {
    StartsAt(evs, k) && forall m | k <= m < i :: !evs[m].Restart?
  }

  ghost predicate KeptSince(ws: seq<World>, k: nat, i: nat, id: string)
    requires k <= i < |ws|
  {
    id in ws[k].rooms && forall m | k <= m <= i :: id in ws[m].rooms && ws[m].rooms[id] == ws[k].rooms[id]
  }

  lemma {:induction false} StartOf(evs: seq<Event>, i: nat) returns (k: nat)
    requires i <= |evs|
    ensures k <= i && SameProcess(evs, k, i)
  {
    if StartsAt(evs, i) {
      k := i;
    } else {
      k := StartOf(evs, i - 1);
    }
  }

  /** An entry of memory is either genuine or exactly as its process loaded it. */
  lemma {:induction false} GenuineOrAsLoaded(v: Verifier, ws: seq<World>, evs: seq<Event>, k: nat, i: nat, id: string)
    requires Run(v, ws, evs) && k <= i < |ws| && SameProcess(evs, k, i) && id in ws[i].rooms
    ensures Genuine(v, ws[i].rooms[id]) || KeptSince(ws, k, i, id)
  {
    if k < i {
      RunIsSound(v, ws, evs, i - 1, false);
      assert StepAt(v, ws, evs, i - 1);
      ChangedIsGenuine(v, ws[i - 1], evs[i - 1], ws[0].disk, id);
      if id in ws[i - 1].rooms && ws[i - 1].rooms[id] == ws[i].rooms[id] {
        GenuineOrAsLoaded(v, ws, evs, k, i - 1, id);
      }
    }
  }

  /** In every reachable state a room in memory lacks a valid signature if and only if its process
      loaded it so and nobody has published, closed or reissued it since. */
  lemma UnsignedOnlyAsLoaded(v: Verifier, ws: seq<World>, evs: seq<Event>, i: nat, id: string) returns (k: nat)
    requires Run(v, ws, evs) && i < |ws| && id in ws[i].rooms
    ensures k <= i && SameProcess(evs, k, i)
    ensures !Signed(v, ws[i].rooms[id]) <==> KeptSince(ws, k, i, id) && !Signed(v, ws[k].rooms[id])
  {
    k := StartOf(evs, i);
    GenuineOrAsLoaded(v, ws, evs, k, i, id);
  }

  ghost predicate LoadedSigned(v: Verifier, w: World) { forall id | id in w.rooms :: Signed(v, w.rooms[id]) }

  /** So a process that loaded no unsigned room never resolves one. */
  lemma EveryCardIsSigned(v: Verifier, ws: seq<World>, evs: seq<Event>, k: nat, i: nat, id: string)
    requires Run(v, ws, evs) && k <= i < |ws| && SameProcess(evs, k, i) && LoadedSigned(v, ws[k])
    requires Found(ws[i].rooms, id).Some?
    ensures var r := Found(ws[i].rooms, id).value; v(r.hostKey, r.card, r.sig)
  {
    GenuineOrAsLoaded(v, ws, evs, k, i, id);
  }

  // --- the file ---

  /** A signature of a key checks for one card at most, and there is no empty one. */
  ghost predicate Binding(v: Verifier) {
    && (forall key, c, d, s :: v(key, c, s) && v(key, d, s) ==> c == d)
    && forall key, c :: !v(key, c, [])
  }

  ghost predicate GenuineRooms(v: Verifier, rooms: Rooms) { forall id | id in rooms :: Genuine(v, rooms[id]) }

  ghost predicate GenuineReads(v: Verifier, rs: seq<Room>) { forall r | r in rs :: Genuine(v, r) }

  ghost predicate GenuineCopy(v: Verifier, c: Copy) {
    GenuineRooms(v, c.detached) && forall id | id in c.fields :: GenuineReads(v, c.fields[id])
  }

  ghost predicate GenuineWorld(v: Verifier, w: World) {
    && GenuineRooms(v, w.rooms)
    && (forall t | t in w.flying :: GenuineCopy(v, w.flying[t]))
    && (w.busy.Some? ==> Genuine(v, w.busy.value.was))
  }

  lemma DetachingIsGenuine(v: Verifier, c: Copy, rooms: Rooms, now: Time)
    requires GenuineCopy(v, c) && GenuineRooms(v, rooms)
    ensures GenuineCopy(v, Detach(c, rooms, now))
  {
  }

  lemma CopiesStayGenuine(v: Verifier, w: World, ev: Event, t: nat)
    requires Enabled(v, w, ev) && !ev.Restart? && GenuineWorld(v, w) && t in After(v, w, ev).flying
    ensures GenuineCopy(v, After(v, w, ev).flying[t])
  {
    if ev.Read? && ev.t == t {
      var c := w.flying[t];
      assert GenuineCopy(v, c) && GenuineReads(v, c.fields[ev.id]);
      assert Genuine(v, ReadFrom(w, ev));
      assert GenuineReads(v, c.fields[ev.id] + [ReadFrom(w, ev)]);
    } else if ev.CopyOut? && ev.t == t {
      assert After(v, w, ev).flying[t] == NewCopy(w.rooms);
    } else if ev.Insert? || ev.Publish? || ev.Retire? || ev.Sweep? {
      DetachingIsGenuine(v, w.flying[t], w.rooms, if ev.Sweep? then ev.now else ev.w.sweep);
    }
  }

  lemma MemoryStaysGenuine(v: Verifier, w: World, ev: Event, file: Rooms)
    requires Sound(v, w, file, false) && Enabled(v, w, ev) && !ev.Restart? && GenuineWorld(v, w)
    ensures GenuineRooms(v, After(v, w, ev).rooms)
    ensures After(v, w, ev).busy.Some? ==> Genuine(v, After(v, w, ev).busy.value.was)
  {
    forall id | id in After(v, w, ev).rooms
      ensures Genuine(v, After(v, w, ev).rooms[id])
    {
      ChangedIsGenuine(v, w, ev, file, id);
    }
  }

  lemma {:induction false} ProcessStaysGenuine(v: Verifier, ws: seq<World>, evs: seq<Event>, k: nat, i: nat)
    requires Run(v, ws, evs) && k <= i < |ws| && SameProcess(evs, k, i) && GenuineRooms(v, ws[k].rooms)
    ensures GenuineWorld(v, ws[i])
  {
    if k < i {
      ProcessStaysGenuine(v, ws, evs, k, i - 1);
      RunIsSound(v, ws, evs, i - 1, false);
      assert StepAt(v, ws, evs, i - 1);
      MemoryStaysGenuine(v, ws[i - 1], evs[i - 1], ws[0].disk);
      forall t | t in ws[i].flying
        ensures GenuineCopy(v, ws[i].flying[t])
      {
        CopiesStayGenuine(v, ws[i - 1], evs[i - 1], t);
      }
    } else if k > 0 {
      assert StepAt(v, ws, evs, k - 1);
    }
  }

  /** What decides whether an entry assembled from reads of genuine states is signed. */
  predicate SignedReads(rs: seq<Room>)
    requires |rs| == FIELDS
  {
    rs[3].closedAt != 0 || (rs[1].closedAt == 0 && rs[0].card == rs[1].card)
  }

  lemma AssembledIsSigned(v: Verifier, rs: seq<Room>)
    requires Binding(v) && |rs| == FIELDS && GenuineReads(v, rs) && rs[0].hostKey == rs[1].hostKey
    ensures Signed(v, Assembled(rs)) <==> SignedReads(rs)
  {
    assert rs[1] in rs && Genuine(v, rs[1]);
  }

  /** A close after the signature was read, or a renewal of the same card, tears nothing: not every overwriting
      between two reads costs the signature. */
  lemma HarmlessOverwriting(v: Verifier, r: Room, sig: Bytes, now: Time)
    requires r.closedAt == 0 && v(r.hostKey, r.card, r.sig) && v(r.hostKey, r.card, sig) && now > 0
    ensures Signed(v, Assembled([r, r, Closed(r, now), Closed(r, now)]))
    ensures
      var again := Republished(r, r.card, sig, now);
      Signed(v, Assembled([r, again, again, again]))
  {
  }

  /** An entry that a process with genuine rooms writes is signed if and only if the room was closed
      when its date was read, or was open when its signature was read and still had the card read before. */
  lemma SavedEntryIsSignedExactly(v: Verifier, ws: seq<World>, evs: seq<Event>, k: nat, i: nat, id: string)
    requires Binding(v) && Run(v, ws, evs) && k <= i < |evs| && SameProcess(evs, k, i) && GenuineRooms(v, ws[k].rooms)
    requires evs[i].Rename? && evs[i].ok && evs[i].t in ws[i].flying && id in File(ws[i].flying[evs[i].t])
    ensures id in ws[i + 1].disk
    ensures Signed(v, ws[i + 1].disk[id]) <==> SignedReads(ws[i].flying[evs[i].t].fields[id])
  {
    var c := ws[i].flying[evs[i].t];
    RunIsSound(v, ws, evs, i, false);
    ProcessStaysGenuine(v, ws, evs, k, i);
    assert StepAt(v, ws, evs, i);
    assert SoundCopy(c, ws[i].rooms, ws[i].clock, false) && GenuineCopy(v, c);
    var rs := c.fields[id];
    assert SoundReads(id, rs, Target(ws[i].rooms, c, id), ws[i].clock, false) && rs[0] in rs && rs[1] in rs;
    AssembledIsSigned(v, rs);
  }

  /** The step overwrites the room that `id` names. */
  predicate Overwrites(w: World, ev: Event, id: string) {
    || (ev.Publish? && ev.id == id && Published(w.rooms, id, ev.key, ev.card, ev.sig, ev.w).1.Done?)
    || (ev.Retire? && ev.id == id && Retired(w.rooms, id, ev.key, ev.w).1.Done?)
  }

  ghost predicate WholeReads(rooms: Rooms, c: Copy, id: string) {
    id in c.fields ==> Named(rooms, c) && forall r | r in c.fields[id] :: r == Target(rooms, c, id)
  }

  ghost predicate ReadWhole(w: World, t: nat, id: string) {
    t in w.flying ==> WholeReads(w.rooms, w.flying[t], id)
  }

  /** A locked body that leaves a room alone leaves what a copy names by it alone. */
  lemma DetachingKeepsWhole(c: Copy, before: Rooms, rooms: Rooms, sweep: Time, id: string)
    requires WholeReads(before, c, id) && (id in c.fields ==> Named(before, c))
    requires Named(rooms, Detach(c, before, sweep))
    requires id in Swept(before, sweep) ==> id in rooms && rooms[id] == before[id]
    ensures WholeReads(rooms, Detach(c, before, sweep), id)
  {
  }

  lemma LeftAlone(v: Verifier, w: World, ev: Event, id: string)
    requires Enabled(v, w, ev) && !Overwrites(w, ev, id)
    requires ev.Insert? || ev.Publish? || ev.Retire? || ev.Sweep?
    ensures
      var sweep := if ev.Sweep? then ev.now else ev.w.sweep;
      id in Swept(w.rooms, sweep) ==> id in After(v, w, ev).rooms && After(v, w, ev).rooms[id] == w.rooms[id]
  {
  }

  lemma LockedReadsStayWhole(v: Verifier, w: World, ev: Event, file: Rooms, t: nat, id: string)
    requires Sound(v, w, file, false) && Enabled(v, w, ev) && Sound(v, After(v, w, ev), file, false)
    requires !Overwrites(w, ev, id) && ReadWhole(w, t, id) && t in w.flying
    requires ev.Insert? || ev.Publish? || ev.Retire? || ev.Sweep?
    ensures ReadWhole(After(v, w, ev), t, id)
  {
    var sweep := if ev.Sweep? then ev.now else ev.w.sweep;
    var w' := After(v, w, ev);
    LeftAlone(v, w, ev, id);
    assert w'.flying[t] == Detach(w.flying[t], w.rooms, sweep);
    assert SoundCopy(w'.flying[t], w'.rooms, w'.clock, false);
    DetachingKeepsWhole(w.flying[t], w.rooms, w'.rooms, sweep, id);
  }

  lemma ReadingKeepsWhole(rooms: Rooms, c: Copy, id: string, u: string, r: Room)
    requires WholeReads(rooms, c, id) && u in c.fields
    requires u == id ==> Named(rooms, c) && r == Target(rooms, c, id)
    ensures WholeReads(rooms, WithRead(c, u, r), id)
  {
  }

  lemma ReadStaysWhole(v: Verifier, w: World, ev: Event, file: Rooms, t: nat, id: string)
    requires Sound(v, w, file, false) && Enabled(v, w, ev) && ReadWhole(w, t, id) && ev.Read?
    requires w.busy.Some? ==> w.busy.value.id != id
    ensures ReadWhole(After(v, w, ev), t, id)
  {
    if t == ev.t {
      assert SoundCopy(w.flying[t], w.rooms, w.clock, false);
      ReadingKeepsWhole(w.rooms, w.flying[t], id, ev.id, ReadFrom(w, ev));
      assert After(v, w, ev).flying[t] == WithRead(w.flying[t], ev.id, ReadFrom(w, ev));
    } else if t in w.flying {
      assert After(v, w, ev).flying[t] == w.flying[t];
    }
  }

  lemma NewCopyIsWhole(v: Verifier, w: World, ev: Event, t: nat, id: string)
    requires Enabled(v, w, ev) && ReadWhole(w, t, id) && ev.CopyOut?
    ensures ReadWhole(After(v, w, ev), t, id)
  {
    if t == ev.t {
      assert After(v, w, ev).flying[t] == NewCopy(w.rooms);
    } else if t in w.flying {
      assert After(v, w, ev).flying[t] == w.flying[t];
    }
  }

  lemma ReadsStayWhole(v: Verifier, w: World, ev: Event, file: Rooms, t: nat, id: string)
    requires Sound(v, w, file, false) && Enabled(v, w, ev) && !Overwrites(w, ev, id)
    requires ReadWhole(w, t, id) && (w.busy.Some? ==> w.busy.value.id != id)
    ensures ReadWhole(After(v, w, ev), t, id)
  {
    if ev.Insert? || ev.Publish? || ev.Retire? || ev.Sweep? {
      StepIsSound(v, w, ev, file, false);
      if t in w.flying {
        LockedReadsStayWhole(v, w, ev, file, t, id);
      }
    } else if ev.Read? {
      ReadStaysWhole(v, w, ev, file, t, id);
    } else if ev.CopyOut? {
      NewCopyIsWhole(v, w, ev, t, id);
    }
  }

  lemma BusyElsewhere(v: Verifier, w: World, ev: Event, id: string)
    requires Enabled(v, w, ev) && !Overwrites(w, ev, id) && (w.busy.Some? ==> w.busy.value.id != id)
    ensures After(v, w, ev).busy.Some? ==> After(v, w, ev).busy.value.id != id
  {
  }

  /** If nothing publishes or closes a room from before its first field is read until after its last,
      its entry is the room as it stands, signature and all. */
  lemma {:induction false} UntouchedRoomIsSavedWhole(v: Verifier, ws: seq<World>, evs: seq<Event>, a: nat, i: nat,
                                                     t: nat, id: string)
    requires Run(v, ws, evs) && a <= i < |ws|
    requires t in ws[a].flying && id in ws[a].flying[t].fields ==> ws[a].flying[t].fields[id] == []
    requires ws[a].busy.Some? ==> ws[a].busy.value.id != id
    requires forall m | a <= m < i :: !Overwrites(ws[m], evs[m], id)
    ensures ReadWhole(ws[i], t, id) && (ws[i].busy.Some? ==> ws[i].busy.value.id != id)
    ensures t in ws[i].flying && id in File(ws[i].flying[t]) ==>
              Named(ws[i].rooms, ws[i].flying[t])
              && File(ws[i].flying[t])[id] == Target(ws[i].rooms, ws[i].flying[t], id)
  {
    if a < i {
      UntouchedRoomIsSavedWhole(v, ws, evs, a, i - 1, t, id);
      RunIsSound(v, ws, evs, i - 1, false);
      assert StepAt(v, ws, evs, i - 1);
      ReadsStayWhole(v, ws[i - 1], evs[i - 1], ws[0].disk, t, id);
      BusyElsewhere(v, ws[i - 1], evs[i - 1], id);
    } else {
      RunIsSound(v, ws, evs, i, false);
      if t in ws[a].flying {
        assert SoundCopy(ws[a].flying[t], ws[a].rooms, ws[a].clock, false);
      }
    }
    if t in ws[i].flying && id in File(ws[i].flying[t]) {
      var rs := ws[i].flying[t].fields[id];
      assert rs[0] in rs && rs[1] in rs && rs[2] in rs && rs[3] in rs;
    }
  }
}
