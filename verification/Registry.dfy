/** The seed registry as a protocol of many threads. The bodies that run under the store's lock
    are atomic steps; drawing, deriving and backing up happen between them. */
module Registry {
  import opened Common
  import opened Timing
  import opened InviteIds
  import opened Store

  const ISSUE_TRIES: nat := 8

  /** The fields of a room that a publish or a close overwrites: card, signature, pin, closing date. */
  const FIELDS: nat := 4

  /** A backup in progress shares its rooms: ids whose room is still the one in memory, and rooms
      that memory has let go of since. It is encoded field by field without the store's lock:
      `fields[id]` are the states of the room that its fields were read from, as far as it has got. */
  datatype Copy = Copy(shared: set<string>, detached: Rooms, fields: map<string, seq<Room>>)

  /** A locked body that is assigning the fields of a room one by one: what they were before. */
  datatype Overwrite = Overwrite(id: string, was: Room)

  /** The room that a copy names. */
  function Target(rooms: Rooms, c: Copy, id: string): Room
    requires id in c.shared ==> id in rooms
    requires id !in c.shared ==> id in c.detached
  {
    if id in c.shared then rooms[id] else c.detached[id]
  }

  /** The entry that the encoder makes of what it read. */
  function Assembled(rs: seq<Room>): Room
    requires |rs| == FIELDS
  {
    Room(rs[0].hostKey, rs[0].card, rs[1].sig, rs[0].rendezvousName, rs[2].pinUntil, rs[3].closedAt)
  }

  /** What gets written once everything is read. */
  function File(c: Copy): Rooms {
    map id | id in c.fields && |c.fields[id]| == FIELDS :: Assembled(c.fields[id])
  }

  /** What a sweep of `rooms` at `now` does to a copy that shares its rooms. */
  function Detach(c: Copy, rooms: Rooms, now: Time): Copy {
    var kept := Swept(rooms, now);
    Copy(c.shared * kept.Keys,
         c.detached + map id | id in c.shared && id in rooms && id !in kept :: rooms[id], c.fields)
  }

  datatype Call =
    | Drawing(key: Bytes, card: Bytes, sig: Bytes, tries: nat)
    | Deriving(key: Bytes, card: Bytes, sig: Bytes, tries: nat, id: string)
    | Issued(id: string)
    | GaveUp

  /** `owed` are the threads that changed memory and have not copied it out yet; `flying` are
      the copies taken and not saved yet; `keeper` is the thread that is saving one; `busy` is
      the overwriting under way. */
  datatype World = World(
    rooms: Rooms, disk: Rooms, clock: Time, calls: map<nat, Call>, owed: set<nat>, flying: map<nat, Copy>,
    keeper: Option<nat>, busy: Option<Overwrite>)

  /** A publish or a close takes effect at once for everybody who takes the lock, and ends with
      `Unlock`. Until then the encoder, which does not take it, may still read a field as it was. */
  datatype Event =
    | Begin(t: nat, key: Bytes, card: Bytes, sig: Bytes)
    | Probe(t: nat, id: string, now: Time, derived: bool)
    | Insert(t: nat, red: string, w: Clocks)
    | Publish(t: nat, id: string, key: Bytes, card: Bytes, sig: Bytes, w: Clocks)
    | Retire(t: nat, id: string, key: Bytes, w: Clocks)
    | Unlock
    | Sweep(t: nat, now: Time)
    | CopyOut(t: nat)
    | Encode(t: nat)
    | Read(t: nat, id: string, stale: bool)
    | Rename(t: nat, ok: bool)
    | Restart(now: Time)

  predicate Free(w: World, t: nat) { t !in w.owed && t !in w.flying }

  predicate Unread(c: Copy, id: string) { id in c.fields && |c.fields[id]| < FIELDS }

  predicate Enabled(v: Verifier, w: World, ev: Event) {
    match ev
    case Begin(t, key, card, sig) =>
      t !in w.calls && |key| == PUBLIC_KEY_SIZE && Deposit(v, key, card, sig).Done?
    case Probe(t, id, now, _) =>
      w.busy.None? && t in w.calls && w.calls[t].Drawing? && ParsedId(id) == Id(id) && w.clock <= now
    case Insert(t, red, k) =>
      && w.busy.None? && Free(w, t) && t in w.calls && w.calls[t].Deriving? && red != ""
      && w.clock <= k.sweep <= k.stamp
    case Publish(t, id, key, card, sig, k) =>
      w.busy.None? && Free(w, t) && Deposit(v, key, card, sig).Done? && w.clock <= k.sweep <= k.stamp
    case Retire(t, id, key, k) => w.busy.None? && Free(w, t) && w.clock <= k.sweep <= k.stamp
    case Unlock => w.busy.Some?
    case Sweep(t, now) => w.busy.None? && Free(w, t) && w.clock <= now
    case CopyOut(t) => w.busy.None? && t in w.owed
    case Encode(t) => w.keeper.None? && t in w.flying
    case Read(t, id, stale) =>
      && w.keeper == Some(t) && t in w.flying && Unread(w.flying[t], id)
      && (id in w.flying[t].shared ==> id in w.rooms)
      && (id !in w.flying[t].shared ==> id in w.flying[t].detached)
      && (stale ==> w.busy.Some? && w.busy.value.id == id && id in w.flying[t].shared)
    case Rename(t, _) =>
      w.keeper == Some(t) && t in w.flying && forall id | id in w.flying[t].fields :: !Unread(w.flying[t], id)
    case Restart(now) => w.clock <= now
  }

  function Retry(c: Call): Call
    requires c.Drawing? || c.Deriving?
  {
    if c.tries + 1 == ISSUE_TRIES then GaveUp else Drawing(c.key, c.card, c.sig, c.tries + 1)
  }

  /** Memory after a locked body that swept first; whoever changed it owes a backup. */
  function Settled(w: World, rooms: Rooms, k: Clocks, t: nat, changed: bool): World {
    w.(rooms := rooms, clock := k.stamp,
       owed := if changed then w.owed + {t} else w.owed,
       flying := map u | u in w.flying :: Detach(w.flying[u], w.rooms, k.sweep))
  }

  function Overwriting(rooms: Rooms, id: string, answer: Answer): Option<Overwrite> {
    if answer.Done? && id in rooms then Some(Overwrite(id, rooms[id])) else None
  }

  function Insertion(w: World, ev: Event): (Rooms, bool)
    requires ev.Insert? && ev.t in w.calls && w.calls[ev.t].Deriving?
  {
    var c := w.calls[ev.t];
    Inserted(w.rooms, c.id, NewRoom(c.key, c.card, c.sig, ev.red, ev.w.stamp), ev.w.sweep)
  }

  function NewCopy(rooms: Rooms): Copy { Copy(rooms.Keys, map[], map id | id in rooms :: []) }

  function WithRead(c: Copy, id: string, r: Room): Copy
    requires id in c.fields
  {
    c.(fields := c.fields[id := c.fields[id] + [r]])
  }

  /** The state of the room that a read comes from. */
  function ReadFrom(w: World, ev: Event): Room
    requires ev.Read? && ev.t in w.flying
    requires ev.id in w.flying[ev.t].shared ==> ev.id in w.rooms
    requires ev.id !in w.flying[ev.t].shared ==> ev.id in w.flying[ev.t].detached
    requires ev.stale ==> w.busy.Some?
  {
    if ev.stale then w.busy.value.was else Target(w.rooms, w.flying[ev.t], ev.id)
  }

  function After(v: Verifier, w: World, ev: Event): World
    requires Enabled(v, w, ev)
  {
    match ev
    case Begin(t, key, card, sig) => w.(calls := w.calls[t := Drawing(key, card, sig, 0)])
    case Probe(t, id, now, derived) =>
      var c := w.calls[t];
      var c' := if Occupied(w.rooms, id, now) then Retry(c)
                else if derived then Deriving(c.key, c.card, c.sig, c.tries, id)
                else GaveUp;
      w.(clock := now, calls := w.calls[t := c'])
    case Insert(t, red, k) =>
      var (rooms, ok) := Insertion(w, ev);
      Settled(w, rooms, k, t, ok).(
        calls := w.calls[t := if ok then Issued(w.calls[t].id) else Retry(w.calls[t])])
    case Publish(t, id, key, card, sig, k) =>
      var (rooms, answer) := Published(w.rooms, id, key, card, sig, k);
      Settled(w, rooms, k, t, answer.Done?).(busy := Overwriting(w.rooms, id, answer))
    case Retire(t, id, key, k) =>
      var (rooms, answer) := Retired(w.rooms, id, key, k);
      Settled(w, rooms, k, t, answer.Done?).(busy := Overwriting(w.rooms, id, answer))
    case Unlock => w.(busy := None)
    case Sweep(t, now) =>
      Settled(w, Swept(w.rooms, now), Clocks(now, now), t, Swept(w.rooms, now) != w.rooms)
    case CopyOut(t) =>
      w.(owed := w.owed - {t},
         flying := w.flying[t := NewCopy(w.rooms)])
    case Encode(t) => w.(keeper := Some(t))
    case Read(t, id, stale) =>
      w.(flying := w.flying[t := WithRead(w.flying[t], id, ReadFrom(w, ev))])
    case Rename(t, ok) =>
      w.(disk := if ok then File(w.flying[t]) else w.disk, flying := w.flying - {t}, keeper := None)
    case Restart(now) => Started(w.disk, now)
  }

  /** A process that has just loaded its file. */
  function Started(file: Rooms, now: Time): World {
    World(Loaded(file, now), file, now, map[], {}, map[], None, None)
  }

  ghost predicate StepAt(v: Verifier, ws: seq<World>, evs: seq<Event>, i: nat)
    requires i < |evs| < |ws|
  {
    Enabled(v, ws[i], evs[i]) && ws[i + 1] == After(v, ws[i], evs[i])
  }

  /** A run starts from any file at all: empty, of an older version without signatures, or tampered with. */
  ghost predicate Run(v: Verifier, ws: seq<World>, evs: seq<Event>) {
    && |ws| == |evs| + 1
    && ws[0].clock > 0 && ws[0] == Started(ws[0].disk, ws[0].clock)
    && forall i | 0 <= i < |evs| :: StepAt(v, ws, evs, i)
  }

  // --- every entry is well formed ---

  predicate InReach(r: Room, clock: Time) { r.pinUntil <= clock + ROOM_TTL }

  /** `reach` says whether no pin of the first file lies further ahead than the store would set it. */
  predicate SoundRoom(id: string, r: Room, clock: Time, reach: bool) {
    WellFormed(id, r) && (reach ==> InReach(r, clock))
  }

  ghost predicate SoundRooms(rooms: Rooms, clock: Time, reach: bool) {
    forall id | id in rooms :: SoundRoom(id, rooms[id], clock, reach)
  }

  /** `r` is an earlier state of the room that is now `now`. */
  predicate Earlier(id: string, r: Room, now: Room, clock: Time, reach: bool) {
    && SoundRoom(id, r, clock, reach)
    && r.hostKey == now.hostKey && r.rendezvousName == now.rendezvousName
    && (reach ==> r.pinUntil <= now.pinUntil)
  }

  ghost predicate Named(rooms: Rooms, c: Copy) {
    c.shared <= rooms.Keys && c.shared !! c.detached.Keys && c.fields.Keys == c.shared + c.detached.Keys
  }

  ghost predicate SoundReads(id: string, rs: seq<Room>, now: Room, clock: Time, reach: bool) {
    |rs| <= FIELDS && forall r | r in rs :: Earlier(id, r, now, clock, reach)
  }

  ghost predicate SoundCopy(c: Copy, rooms: Rooms, clock: Time, reach: bool) {
    && Named(rooms, c)
    && SoundRooms(c.detached, clock, reach)
    && (forall id | id in c.detached :: c.detached[id].pinUntil < clock)
    && forall id | id in c.fields :: SoundReads(id, c.fields[id], Target(rooms, c, id), clock, reach)
  }

  predicate SoundCall(v: Verifier, c: Call) {
    && (c.Drawing? || c.Deriving? ==> |c.key| == PUBLIC_KEY_SIZE && Deposit(v, c.key, c.card, c.sig).Done?)
    && (c.Deriving? ==> ParsedId(c.id).Id?)
  }

  ghost predicate SoundBusy(w: World, reach: bool) {
    w.busy.Some? ==>
      var o := w.busy.value;
      o.id in w.rooms && Earlier(o.id, o.was, w.rooms[o.id], w.clock, reach)
  }

  /** `file` is the one the run started from. */
  ghost predicate Sound(v: Verifier, w: World, file: Rooms, reach: bool) {
    && w.clock > 0
    && SoundRooms(w.rooms, w.clock, reach)
    && (w.disk == file || SoundRooms(w.disk, w.clock, reach))
    && (reach ==> forall id | id in file :: InReach(file[id], w.clock))
    && (forall t | t in w.flying :: SoundCopy(w.flying[t], w.rooms, w.clock, reach))
    && (forall t | t in w.calls :: SoundCall(v, w.calls[t]))
    && SoundBusy(w, reach)
  }

  lemma LaterIsSound(rooms: Rooms, clock: Time, later: Time, reach: bool)
    requires SoundRooms(rooms, clock, reach) && clock <= later
    ensures SoundRooms(rooms, later, reach)
  {
    forall id | id in rooms
      ensures SoundRoom(id, rooms[id], later, reach)
    {
      assert SoundRoom(id, rooms[id], clock, reach);
    }
  }

  lemma EarlierThanLater(id: string, r: Room, now: Room, next: Room, clock: Time, later: Time, reach: bool)
    requires Earlier(id, r, now, clock, reach) && clock <= later
    requires next.hostKey == now.hostKey && next.rendezvousName == now.rendezvousName
    requires reach ==> now.pinUntil <= next.pinUntil
    ensures Earlier(id, r, next, later, reach)
  {
  }

  /** What a locked body leaves of the rooms that its sweep keeps. */
  ghost predicate Follows(before: Rooms, rooms: Rooms, sweep: Time, reach: bool) {
    forall id | id in Swept(before, sweep) ::
      && id in rooms
      && rooms[id].hostKey == before[id].hostKey && rooms[id].rendezvousName == before[id].rendezvousName
      && (reach ==> before[id].pinUntil <= rooms[id].pinUntil)
  }

  lemma SettlingIsSound(v: Verifier, w: World, file: Rooms, reach: bool, rooms: Rooms, k: Clocks, t: nat, changed: bool)
    requires Sound(v, w, file, reach) && w.busy.None? && w.clock <= k.sweep <= k.stamp
    requires SoundRooms(rooms, k.stamp, reach) && Follows(w.rooms, rooms, k.sweep, reach)
    ensures Sound(v, Settled(w, rooms, k, t, changed), file, reach)
  {
    if w.disk != file {
      LaterIsSound(w.disk, w.clock, k.stamp, reach);
    }
    var w' := Settled(w, rooms, k, t, changed);
    forall u | u in w'.flying
      ensures SoundCopy(w'.flying[u], rooms, k.stamp, reach)
    {
      DetachingIsSound(w.flying[u], w.rooms, w.clock, reach, rooms, k);
    }
  }

  lemma DetachingIsSound(c: Copy, before: Rooms, clock: Time, reach: bool, rooms: Rooms, k: Clocks)
    requires SoundCopy(c, before, clock, reach) && SoundRooms(before, clock, reach) && clock <= k.sweep <= k.stamp
    requires Follows(before, rooms, k.sweep, reach)
    ensures SoundCopy(Detach(c, before, k.sweep), rooms, k.stamp, reach)
  {
    var c' := Detach(c, before, k.sweep);
    assert Named(rooms, c');
    forall id | id in c'.detached
      ensures SoundRoom(id, c'.detached[id], k.stamp, reach) && c'.detached[id].pinUntil < k.stamp
    {
      assert if id in c.detached && id !in c.shared then SoundRoom(id, c.detached[id], clock, reach)
             else SoundRoom(id, before[id], clock, reach);
    }
    forall id | id in c'.fields
      ensures SoundReads(id, c'.fields[id], Target(rooms, c', id), k.stamp, reach)
    {
      assert SoundReads(id, c.fields[id], Target(before, c, id), clock, reach);
      forall r | r in c.fields[id]
        ensures Earlier(id, r, Target(rooms, c', id), k.stamp, reach)
      {
        EarlierThanLater(id, r, Target(before, c, id), Target(rooms, c', id), clock, k.stamp, reach);
      }
    }
  }

  lemma SweepingIsSound(rooms: Rooms, clock: Time, k: Clocks, reach: bool)
    requires SoundRooms(rooms, clock, reach) && clock <= k.sweep <= k.stamp
    ensures SoundRooms(Swept(rooms, k.sweep), k.stamp, reach)
    ensures Follows(rooms, Swept(rooms, k.sweep), k.sweep, reach)
  {
    LaterIsSound(rooms, clock, k.stamp, reach);
  }

  lemma InsertedIsSound(v: Verifier, w: World, file: Rooms, reach: bool, id: string, r: Room, k: Clocks, t: nat)
    requires Sound(v, w, file, reach) && w.busy.None? && w.clock <= k.sweep <= k.stamp
    requires SoundRoom(id, r, k.stamp, reach)
    ensures
      var (rooms, ok) := Inserted(w.rooms, id, r, k.sweep);
      Sound(v, Settled(w, rooms, k, t, ok), file, reach)
  {
    SweepingIsSound(w.rooms, w.clock, k, reach);
    var (rooms, ok) := Inserted(w.rooms, id, r, k.sweep);
    SettlingIsSound(v, w, file, reach, rooms, k, t, ok);
  }

  lemma CallsAlone(v: Verifier, w: World, file: Rooms, reach: bool, t: nat, c: Call)
    requires Sound(v, w, file, reach) && SoundCall(v, c)
    ensures Sound(v, w.(calls := w.calls[t := c]), file, reach)
  {
  }

  lemma InsertIsSound(v: Verifier, w: World, ev: Event, file: Rooms, reach: bool)
    requires Sound(v, w, file, reach) && Enabled(v, w, ev) && ev.Insert?
    ensures Sound(v, After(v, w, ev), file, reach)
  {
    var c := w.calls[ev.t];
    assert SoundCall(v, c);
    var r := NewRoom(c.key, c.card, c.sig, ev.red, ev.w.stamp);
    assert SoundRoom(c.id, r, ev.w.stamp, reach);
    InsertedIsSound(v, w, file, reach, c.id, r, ev.w, ev.t);
    var (rooms, ok) := Insertion(w, ev);
    CallsAlone(v, Settled(w, rooms, ev.w, ev.t, ok), file, reach, ev.t, if ok then Issued(c.id) else Retry(c));
  }

  /** A publish or a close, seen as one room's new contents. */
  lemma OverwriteIsSound(v: Verifier, w: World, file: Rooms, reach: bool, id: string, next: Room, k: Clocks, t: nat)
    requires Sound(v, w, file, reach) && w.busy.None? && w.clock <= k.sweep <= k.stamp
    requires id in Swept(w.rooms, k.sweep) && Earlier(id, w.rooms[id], next, k.stamp, reach)
    requires SoundRoom(id, next, k.stamp, reach)
    ensures
      var rooms := Swept(w.rooms, k.sweep)[id := next];
      Sound(v, Settled(w, rooms, k, t, true).(busy := Some(Overwrite(id, w.rooms[id]))), file, reach)
  {
    SweepingIsSound(w.rooms, w.clock, k, reach);
    var rooms := Swept(w.rooms, k.sweep)[id := next];
    SettlingIsSound(v, w, file, reach, rooms, k, t, true);
    var w' := Settled(w, rooms, k, t, true);
    BusyAlone(v, w', file, reach, w'.(busy := Some(Overwrite(id, w.rooms[id]))));
  }

  lemma BusyAlone(v: Verifier, w: World, file: Rooms, reach: bool, w': World)
    requires Sound(v, w, file, reach) && w' == w.(busy := w'.busy) && SoundBusy(w', reach)
    ensures Sound(v, w', file, reach)
  {
  }

  lemma PublishIsSound(v: Verifier, w: World, ev: Event, file: Rooms, reach: bool)
    requires Sound(v, w, file, reach) && Enabled(v, w, ev) && ev.Publish?
    ensures Sound(v, After(v, w, ev), file, reach)
  {
    var kept := Swept(w.rooms, ev.w.sweep);
    SweepingIsSound(w.rooms, w.clock, ev.w, reach);
    if Owner(kept, ev.id, ev.key).Done? {
      assert SoundRoom(ev.id, w.rooms[ev.id], w.clock, reach);
      OverwriteIsSound(v, w, file, reach, ev.id,
                       Republished(kept[ev.id], ev.card, ev.sig, ev.w.stamp), ev.w, ev.t);
    } else {
      SettlingIsSound(v, w, file, reach, kept, ev.w, ev.t, false);
    }
  }

  lemma RetireIsSound(v: Verifier, w: World, ev: Event, file: Rooms, reach: bool)
    requires Sound(v, w, file, reach) && Enabled(v, w, ev) && ev.Retire?
    ensures Sound(v, After(v, w, ev), file, reach)
  {
    var kept := Swept(w.rooms, ev.w.sweep);
    SweepingIsSound(w.rooms, w.clock, ev.w, reach);
    if Owner(kept, ev.id, ev.key).Done? {
      assert SoundRoom(ev.id, w.rooms[ev.id], w.clock, reach);
      OverwriteIsSound(v, w, file, reach, ev.id, Closed(kept[ev.id], ev.w.stamp), ev.w, ev.t);
    } else {
      SettlingIsSound(v, w, file, reach, kept, ev.w, ev.t, false);
    }
  }

  lemma ProbeIsSound(v: Verifier, w: World, ev: Event, file: Rooms, reach: bool)
    requires Sound(v, w, file, reach) && Enabled(v, w, ev) && ev.Probe?
    ensures Sound(v, After(v, w, ev), file, reach)
  {
    var c := w.calls[ev.t];
    assert SoundCall(v, c);
    TimeIsSound(v, w, ev.now, file, reach);
    CallsAlone(v, w.(clock := ev.now), file, reach, ev.t,
               if Occupied(w.rooms, ev.id, ev.now) then Retry(c)
               else if ev.derived then Deriving(c.key, c.card, c.sig, c.tries, ev.id)
               else GaveUp);
  }

  lemma TimeIsSound(v: Verifier, w: World, now: Time, file: Rooms, reach: bool)
    requires Sound(v, w, file, reach) && w.clock <= now
    ensures Sound(v, w.(clock := now), file, reach)
  {
    LaterIsSound(w.rooms, w.clock, now, reach);
    if w.disk != file {
      LaterIsSound(w.disk, w.clock, now, reach);
    }
    forall t | t in w.flying
      ensures SoundCopy(w.flying[t], w.rooms, now, reach)
    {
      WaitingIsSound(w.flying[t], w.rooms, w.clock, now, reach);
    }
  }

  lemma WaitingIsSound(c: Copy, rooms: Rooms, clock: Time, later: Time, reach: bool)
    requires SoundCopy(c, rooms, clock, reach) && clock <= later
    ensures SoundCopy(c, rooms, later, reach)
  {
    LaterIsSound(c.detached, clock, later, reach);
    forall id | id in c.fields
      ensures SoundReads(id, c.fields[id], Target(rooms, c, id), later, reach)
    {
      assert SoundReads(id, c.fields[id], Target(rooms, c, id), clock, reach);
    }
  }

  lemma ReadingIsSound(c: Copy, rooms: Rooms, id: string, r: Room, clock: Time, reach: bool)
    requires SoundCopy(c, rooms, clock, reach) && Unread(c, id)
    requires Earlier(id, r, Target(rooms, c, id), clock, reach)
    ensures SoundCopy(WithRead(c, id, r), rooms, clock, reach)
  {
    var c' := WithRead(c, id, r);
    forall u | u in c'.fields
      ensures SoundReads(u, c'.fields[u], Target(rooms, c', u), clock, reach)
    {
      assert SoundReads(u, c.fields[u], Target(rooms, c, u), clock, reach);
    }
  }

  lemma CopyAlone(v: Verifier, w: World, file: Rooms, reach: bool, t: nat, c: Copy)
    requires Sound(v, w, file, reach) && SoundCopy(c, w.rooms, w.clock, reach)
    ensures Sound(v, w.(flying := w.flying[t := c]), file, reach)
  {
  }

  lemma ReadIsSound(v: Verifier, w: World, ev: Event, file: Rooms, reach: bool)
    requires Sound(v, w, file, reach) && Enabled(v, w, ev) && ev.Read?
    ensures Sound(v, After(v, w, ev), file, reach)
  {
    var c := w.flying[ev.t];
    assert SoundCopy(c, w.rooms, w.clock, reach);
    assert SoundRoom(ev.id, Target(w.rooms, c, ev.id), w.clock, reach);
    var r := ReadFrom(w, ev);
    ReadingIsSound(c, w.rooms, ev.id, r, w.clock, reach);
    CopyAlone(v, w, file, reach, ev.t, WithRead(c, ev.id, r));
  }

  lemma FileIsSound(c: Copy, rooms: Rooms, clock: Time, reach: bool)
    requires SoundCopy(c, rooms, clock, reach)
    ensures SoundRooms(File(c), clock, reach)
  {
    forall id | id in File(c)
      ensures SoundRoom(id, File(c)[id], clock, reach)
    {
      var rs := c.fields[id];
      assert SoundReads(id, rs, Target(rooms, c, id), clock, reach);
      assert forall n | 0 <= n < FIELDS :: rs[n] in rs && Earlier(id, rs[n], Target(rooms, c, id), clock, reach);
    }
  }

  lemma StepIsSound(v: Verifier, w: World, ev: Event, file: Rooms, reach: bool)
    requires Sound(v, w, file, reach) && Enabled(v, w, ev)
    ensures Sound(v, After(v, w, ev), file, reach)
  {
    match ev
    case Insert(_, _, _) => InsertIsSound(v, w, ev, file, reach);
    case Publish(_, _, _, _, _, _) => PublishIsSound(v, w, ev, file, reach);
    case Retire(_, _, _, _) => RetireIsSound(v, w, ev, file, reach);
    case Restart(now) => StartingIsSound(v, w, now, file, reach);
    case Probe(_, _, _, _) => ProbeIsSound(v, w, ev, file, reach);
    case Read(_, _, _) => ReadIsSound(v, w, ev, file, reach);
    case _ => ShortStepIsSound(v, w, ev, file, reach);
  }

  lemma SweepIsSound(v: Verifier, w: World, ev: Event, file: Rooms, reach: bool)
    requires Sound(v, w, file, reach) && Enabled(v, w, ev) && ev.Sweep?
    ensures Sound(v, After(v, w, ev), file, reach)
  {
    var k, swept := Clocks(ev.now, ev.now), Swept(w.rooms, ev.now);
    SweepingIsSound(w.rooms, w.clock, k, reach);
    SettlingIsSound(v, w, file, reach, swept, k, ev.t, swept != w.rooms);
  }

  lemma NewCopyIsSound(rooms: Rooms, clock: Time, reach: bool)
    requires SoundRooms(rooms, clock, reach)
    ensures SoundCopy(NewCopy(rooms), rooms, clock, reach)
  {
  }

  lemma OwedAlone(v: Verifier, w: World, file: Rooms, reach: bool, owed: set<nat>)
    requires Sound(v, w, file, reach)
    ensures Sound(v, w.(owed := owed), file, reach)
  {
  }

  lemma CopyOutIsSound(v: Verifier, w: World, ev: Event, file: Rooms, reach: bool)
    requires Sound(v, w, file, reach) && Enabled(v, w, ev) && ev.CopyOut?
    ensures Sound(v, After(v, w, ev), file, reach)
  {
    NewCopyIsSound(w.rooms, w.clock, reach);
    CopyAlone(v, w, file, reach, ev.t, NewCopy(w.rooms));
    OwedAlone(v, w.(flying := w.flying[ev.t := NewCopy(w.rooms)]), file, reach, w.owed - {ev.t});
  }

  lemma RenameIsSound(v: Verifier, w: World, ev: Event, file: Rooms, reach: bool)
    requires Sound(v, w, file, reach) && Enabled(v, w, ev) && ev.Rename?
    ensures Sound(v, After(v, w, ev), file, reach)
  {
    FileIsSound(w.flying[ev.t], w.rooms, w.clock, reach);
    DiskAlone(v, w, file, reach, if ev.ok then File(w.flying[ev.t]) else w.disk, w.flying - {ev.t});
  }

  lemma DiskAlone(v: Verifier, w: World, file: Rooms, reach: bool, disk: Rooms, flying: map<nat, Copy>)
    requires Sound(v, w, file, reach) && (disk == w.disk || SoundRooms(disk, w.clock, reach))
    requires forall t | t in flying :: t in w.flying && flying[t] == w.flying[t]
    ensures Sound(v, w.(disk := disk, flying := flying, keeper := None), file, reach)
  {
  }

  lemma ShortStepIsSound(v: Verifier, w: World, ev: Event, file: Rooms, reach: bool)
    requires Sound(v, w, file, reach) && Enabled(v, w, ev)
    requires ev.Begin? || ev.Sweep? || ev.CopyOut? || ev.Encode? || ev.Rename? || ev.Unlock?
    ensures Sound(v, After(v, w, ev), file, reach)
  {
    match ev
    case Begin(t, key, card, sig) => CallsAlone(v, w, file, reach, t, Drawing(key, card, sig, 0));
    case Sweep(_, _) => SweepIsSound(v, w, ev, file, reach);
    case CopyOut(_) => CopyOutIsSound(v, w, ev, file, reach);
    case Rename(_, _) => RenameIsSound(v, w, ev, file, reach);
    case Unlock => BusyAlone(v, w, file, reach, After(v, w, ev));
    case Encode(_) =>
  }

  lemma StartingIsSound(v: Verifier, w: World, now: Time, file: Rooms, reach: bool)
    requires w.clock > 0 && w.clock <= now
    requires w.disk == file || SoundRooms(w.disk, w.clock, reach)
    requires reach ==> forall id | id in file :: InReach(file[id], w.clock)
    ensures Sound(v, Started(w.disk, now), file, reach)
  {
    if w.disk != file {
      LaterIsSound(w.disk, w.clock, now, reach);
    }
    forall id | id in Loaded(w.disk, now)
      ensures SoundRoom(id, w.disk[id], now, reach)
    {
      assert w.disk != file ==> SoundRoom(id, w.disk[id], now, reach);
    }
  }

  ghost predicate FileInReach(ws: seq<World>)
    requires ws != []
  {
    forall id | id in ws[0].disk :: InReach(ws[0].disk[id], ws[0].clock)
  }

  lemma {:induction false} RunIsSound(v: Verifier, ws: seq<World>, evs: seq<Event>, i: nat, reach: bool)
    requires Run(v, ws, evs) && i < |ws| && (reach ==> FileInReach(ws))
    ensures Sound(v, ws[i], ws[0].disk, reach)
  {
    if i > 0 {
      RunIsSound(v, ws, evs, i - 1, reach);
      assert StepAt(v, ws, evs, i - 1);
      StepIsSound(v, ws[i - 1], evs[i - 1], ws[0].disk, reach);
    } else {
      StartingIsSound(v, ws[0], ws[0].clock, ws[0].disk, reach);
    }
  }

  /** Once the store has replaced the file it found, loading drops nothing except by date: what it
      writes is well formed, however the encoding was torn. */
  lemma OnlyDatesAreDropped(v: Verifier, ws: seq<World>, evs: seq<Event>, i: nat, now: Time)
    requires Run(v, ws, evs) && i < |ws| && ws[i].disk != ws[0].disk
    ensures Loaded(ws[i].disk, now) == Swept(ws[i].disk, now)
  {
    RunIsSound(v, ws, evs, i, false);
    LoadsAllAlive(ws[i].disk, ws[i].clock, false, now);
  }

  lemma LoadsAllAlive(disk: Rooms, clock: Time, reach: bool, now: Time)
    requires SoundRooms(disk, clock, reach)
    ensures Loaded(disk, now) == Swept(disk, now)
  {
    forall id | id in disk
      ensures WellFormed(id, disk[id])
    {
      assert SoundRoom(id, disk[id], clock, reach);
    }
  }
}
