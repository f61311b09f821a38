/** registry/store.go and registry/persist.go: the seed's rooms, and what each call may do to them. */
module Store {
  import opened Common
  import opened Timing
  import opened InviteIds

  const MAX_CARD_BYTES: nat := 512
  const PUBLIC_KEY_SIZE: nat := 32

  /** Signature checking: key, card, signature. */
  type Verifier = (Bytes, Bytes, Bytes) -> bool

  datatype Room = Room(
    hostKey: Bytes, card: Bytes, sig: Bytes, rendezvousName: string, pinUntil: Time, closedAt: Time)

  type Rooms = map<string, Room>

  datatype Answer = Done | NotFound | Pinned | CardTooBig | BadSig

  /** What one call reads from the clock: while sweeping, and while stamping. */
  datatype Clocks = Clocks(sweep: Time, stamp: Time)

  function Swept(rooms: Rooms, now: Time): Rooms {
    map id | id in rooms && now <= rooms[id].pinUntil :: rooms[id]
  }

  predicate Occupied(rooms: Rooms, id: string, now: Time) {
    id in rooms && now <= rooms[id].pinUntil
  }

  function NewRoom(hostKey: Bytes, card: Bytes, sig: Bytes, red: string, now: Time): Room {
    Room(hostKey, card, sig, red, now + ROOM_TTL, 0)
  }

  function Inserted(rooms: Rooms, id: string, room: Room, sweep: Time): (Rooms, bool) {
    var kept := Swept(rooms, sweep);
    if id in kept then (kept, false) else (kept[id := room], true)
  }

  function Republished(r: Room, card: Bytes, sig: Bytes, now: Time): Room {
    r.(card := card, sig := sig, pinUntil := now + ROOM_TTL, closedAt := 0)
  }

  function Closed(r: Room, now: Time): Room { r.(card := [], sig := [], closedAt := now) }

  function Owner(rooms: Rooms, id: string, hostKey: Bytes): Answer {
    if id !in rooms then NotFound else if rooms[id].hostKey != hostKey then Pinned else Done
  }

  function Deposit(v: Verifier, hostKey: Bytes, card: Bytes, sig: Bytes): Answer {
    if |card| > MAX_CARD_BYTES then CardTooBig else if !v(hostKey, card, sig) then BadSig else Done
  }

  function Published(rooms: Rooms, id: string, hostKey: Bytes, card: Bytes, sig: Bytes, w: Clocks): (Rooms, Answer) {
    var kept := Swept(rooms, w.sweep);
    var answer := Owner(kept, id, hostKey);
    (if answer.Done? then kept[id := Republished(kept[id], card, sig, w.stamp)] else kept, answer)
  }

  function Retired(rooms: Rooms, id: string, hostKey: Bytes, w: Clocks): (Rooms, Answer) {
    var kept := Swept(rooms, w.sweep);
    var answer := Owner(kept, id, hostKey);
    (if answer.Done? then kept[id := Closed(kept[id], w.stamp)] else kept, answer)
  }

  function Found(rooms: Rooms, id: string): Option<Room> {
    if id !in rooms || rooms[id].closedAt != 0 then None else Some(rooms[id])
  }

  /** What an entry of the file must be to survive loading, its date apart. */
  predicate WellFormed(id: string, r: Room) {
    && |r.hostKey| == PUBLIC_KEY_SIZE
    && |r.card| <= MAX_CARD_BYTES
    && r.rendezvousName != ""
    && r.pinUntil != 0
    && ParsedId(id).Id?
  }

  predicate Sane(id: string, r: Room, now: Time) { WellFormed(id, r) && now <= r.pinUntil }

  function Loaded(file: Rooms, now: Time): Rooms {
    map id | id in file && Sane(id, file[id], now) :: file[id]
  }

  class Store {
    var rooms: Rooms

    constructor ()
      ensures rooms == map[]
    {
      rooms := map[];
    }

    method Clean(now: Time) returns (n: nat)
      modifies this
      ensures rooms == Swept(old(rooms), now)
      ensures n == |old(rooms)| - |rooms|
    {
      n := 0;
      var todo := rooms.Keys;
      while todo != {}
        invariant todo <= rooms.Keys <= old(rooms).Keys
        invariant n + |rooms| == |old(rooms)|
        invariant forall id | id in old(rooms) && id !in todo :: id in rooms <==> now <= old(rooms)[id].pinUntil
        invariant forall id | id in rooms :: rooms[id] == old(rooms)[id]
        decreases |todo|
      {
        var id :| id in todo;
        todo := todo - {id};
        if now > rooms[id].pinUntil {
          rooms := rooms - {id};
          n := n + 1;
        }
      }
    }

    method IsOccupied(id: string, now: Time) returns (taken: bool)
      ensures taken == Occupied(rooms, id, now)
      ensures taken <==> id in rooms && now <= rooms[id].pinUntil
    {
      return id in rooms && !(now > rooms[id].pinUntil);
    }

    method Insert(id: string, hostKey: Bytes, card: Bytes, sig: Bytes, red: string, w: Clocks) returns (ok: bool)
      modifies this
      ensures (rooms, ok) == Inserted(old(rooms), id, NewRoom(hostKey, card, sig, red, w.stamp), w.sweep)
      ensures ok <==> !(id in old(rooms) && w.sweep <= old(rooms)[id].pinUntil)
      ensures ok ==> id in rooms && rooms[id] == Room(hostKey, card, sig, red, w.stamp + ROOM_TTL, 0)
    {
      var _ := Clean(w.sweep);
      if id in rooms {
        return false;
      }
      rooms := rooms[id := Room(hostKey, card, sig, red, w.stamp + ROOM_TTL, 0)];
      return true;
    }

    method PublishUnderLock(id: string, hostKey: Bytes, card: Bytes, sig: Bytes, w: Clocks) returns (answer: Answer)
      modifies this
      ensures (rooms, answer) == Published(old(rooms), id, hostKey, card, sig, w)
      ensures answer.NotFound? <==> !(id in old(rooms) && w.sweep <= old(rooms)[id].pinUntil)
      ensures answer.Pinned? <==> !answer.NotFound? && old(rooms)[id].hostKey != hostKey
      ensures answer.NotFound? || answer.Pinned? || answer.Done?
      ensures answer.Done? ==>
        id in rooms && rooms[id] == Room(hostKey, card, sig, old(rooms)[id].rendezvousName, w.stamp + ROOM_TTL, 0)
    {
      var _ := Clean(w.sweep);
      if id !in rooms {
        return NotFound;
      }
      if rooms[id].hostKey != hostKey {
        return Pinned;
      }
      rooms := rooms[id := rooms[id].(card := card, sig := sig, pinUntil := w.stamp + ROOM_TTL, closedAt := 0)];
      return Done;
    }

    /** Nothing is touched unless the card fits and its signature checks. */
    method Publish(v: Verifier, id: string, hostKey: Bytes, card: Bytes, sig: Bytes, w: Clocks)
      returns (answer: Answer)
      modifies this
      ensures Deposit(v, hostKey, card, sig).Done? ==>
        (rooms, answer) == Published(old(rooms), id, hostKey, card, sig, w)
      ensures !Deposit(v, hostKey, card, sig).Done? ==>
        rooms == old(rooms) && answer == Deposit(v, hostKey, card, sig)
      ensures answer.CardTooBig? <==> |card| > MAX_CARD_BYTES
      ensures answer.BadSig? <==> |card| <= MAX_CARD_BYTES && !v(hostKey, card, sig)
    {
      if |card| > MAX_CARD_BYTES {
        return CardTooBig;
      }
      if !v(hostKey, card, sig) {
        return BadSig;
      }
      answer := PublishUnderLock(id, hostKey, card, sig, w);
    }

    method RetireUnderLock(id: string, hostKey: Bytes, w: Clocks) returns (answer: Answer)
      modifies this
      ensures (rooms, answer) == Retired(old(rooms), id, hostKey, w)
      ensures answer.NotFound? <==> !(id in old(rooms) && w.sweep <= old(rooms)[id].pinUntil)
      ensures answer.Pinned? <==> !answer.NotFound? && old(rooms)[id].hostKey != hostKey
      ensures answer.NotFound? || answer.Pinned? || answer.Done?
      ensures answer.Done? ==>
        && id in rooms
        && rooms[id] == Room(hostKey, [], [], old(rooms)[id].rendezvousName, old(rooms)[id].pinUntil, w.stamp)
    {
      var _ := Clean(w.sweep);
      if id !in rooms {
        return NotFound;
      }
      if rooms[id].hostKey != hostKey {
        return Pinned;
      }
      rooms := rooms[id := rooms[id].(card := [], sig := [], closedAt := w.stamp)];
      return Done;
    }

    method Lookup(id: string) returns (r: Option<Room>)
      ensures r == Found(rooms, id)
      ensures r.Some? <==> id in rooms && rooms[id].closedAt == 0
    {
      if id !in rooms || rooms[id].closedAt != 0 {
        return None;
      }
      return Some(rooms[id]);
    }
  }

  method Sift(file: Rooms, sane: (string, Room) -> bool) returns (out: Rooms, discarded: nat)
    ensures out == map id | id in file && sane(id, file[id]) :: file[id]
    ensures discarded == |file| - |out|
  {
    out, discarded := map[], 0;
    var todo := file.Keys;
    while todo != {}
      invariant todo <= file.Keys && out.Keys <= file.Keys - todo
      invariant discarded + |out| + |todo| == |file|
      invariant forall id | id in file && id !in todo :: id in out <==> sane(id, file[id])
      invariant forall id | id in out :: out[id] == file[id]
      decreases |todo|
    {
      var id :| id in todo;
      todo := todo - {id};
      if sane(id, file[id]) {
        out := out[id := file[id]];
      } else {
        discarded := discarded + 1;
      }
    }
  }

  method Load(file: Rooms, now: Time) returns (out: Rooms, discarded: nat)
    ensures out == Loaded(file, now)
    ensures forall id :: id in out <==>
              && id in file && now <= file[id].pinUntil && file[id].pinUntil != 0
              && |file[id].hostKey| == 32 && |file[id].card| <= 512 && file[id].rendezvousName != ""
              && ParsedId(id).Id?
    ensures discarded == |file| - |out|
  {
    out, discarded := Sift(file, (id, r) => Sane(id, r, now));
  }
}
