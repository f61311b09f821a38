/** Runs of the seed registry that show where its promises end. */
module RegistryExamples {
  import opened Common
  import opened Timing
  import opened InviteIds
  import opened Store
  import opened Registry
  import opened RegistryRuns
  import opened RegistrySigning

  /** A run goes on with any step that is enabled at its end. */
  lemma Extend(v: Verifier, ws: seq<World>, evs: seq<Event>, ev: Event) returns (more: seq<World>, also: seq<Event>)
    requires Run(v, ws, evs) && Enabled(v, ws[|evs|], ev)
    ensures Run(v, more, also) && also == evs + [ev] && more == ws + [After(v, ws[|evs|], ev)]
  {
    more, also := ws + [After(v, ws[|evs|], ev)], evs + [ev];
    forall i | 0 <= i < |also|
      ensures StepAt(v, more, also, i)
    {
      if i < |evs| {
        assert StepAt(v, ws, evs, i);
        assert more[i] == ws[i] && more[i + 1] == ws[i + 1] && also[i] == evs[i];
      }
    }
  }

  lemma Join(v: Verifier, ws: seq<World>, evs: seq<Event>, ev: Event, next: World)
    returns (more: seq<World>, also: seq<Event>)
    requires Run(v, ws, evs) && Enabled(v, ws[|evs|], ev) && After(v, ws[|evs|], ev) == next
    requires ev.Rename? ==> ev.ok
    requires WritesSucceed(evs)
    ensures Run(v, more, also) && WritesSucceed(also) && |also| == |evs| + 1 && more[|also|] == next
  {
    more, also := Extend(v, ws, evs, ev);
  }

  predicate WritesSucceed(evs: seq<Event>) { forall k | 0 <= k < |evs| && evs[k].Rename? :: evs[k].ok }

  /** A room as it is the instant it is issued, at 1, with a deposit that its key signed. */
  predicate Depositable(v: Verifier, r: Room) {
    && Deposit(v, r.hostKey, r.card, r.sig).Done? && |r.hostKey| == PUBLIC_KEY_SIZE
    && r == NewRoom(r.hostKey, r.card, r.sig, r.rendezvousName, 1) && r.rendezvousName != ""
  }

  const AT_ONE := Clocks(1, 1)

  /** The states of the examples: everything happens at instant 1 unless said otherwise. */
  function Quiet(rooms: Rooms, calls: map<nat, Call>, owed: set<nat>): World {
    World(rooms, map[], 1, calls, owed, map[], None, None)
  }

  function Encoding(rooms: Rooms, calls: map<nat, Call>, owed: set<nat>, c: Copy, busy: Option<Overwrite>): World {
    World(rooms, map[], 1, calls, owed, map[0 := c], Some(0), busy)
  }

  lemma EmptyRun(v: Verifier) returns (ws: seq<World>, evs: seq<Event>)
    ensures Run(v, ws, evs) && WritesSucceed(evs) && evs == [] && ws[0] == Quiet(map[], map[], {})
  {
    ws, evs := [Quiet(map[], map[], {})], [];
    assert Loaded(map[], 1) == map[];
  }

  /** Thread `t` gets `id` for the room `r`. */
  lemma Issuing(v: Verifier, ws: seq<World>, evs: seq<Event>, r: Room, t: nat, id: string)
    returns (more: seq<World>, also: seq<Event>)
    requires Run(v, ws, evs) && WritesSucceed(evs) && Depositable(v, r) && ParsedId(id) == Id(id)
    requires
      var w := ws[|evs|];
      && w.clock == 1 && w.busy.None? && t !in w.calls && Free(w, t) && id !in w.rooms
      && Swept(w.rooms, 1) == w.rooms
      && forall u | u in w.flying :: Detach(w.flying[u], w.rooms, 1) == w.flying[u]
    ensures Run(v, more, also) && WritesSucceed(also)
    ensures
      var w := ws[|evs|];
      more[|also|] == w.(rooms := w.rooms[id := r], calls := w.calls[t := Issued(id)], owed := w.owed + {t})
  {
    var w := ws[|evs|];
    more, also := Join(v, ws, evs, Begin(t, r.hostKey, r.card, r.sig),
                       w.(calls := w.calls[t := Drawing(r.hostKey, r.card, r.sig, 0)]));
    var w1 := w.(calls := w.calls[t := Deriving(r.hostKey, r.card, r.sig, 0, id)]);
    assert w1.calls == w.calls[t := Drawing(r.hostKey, r.card, r.sig, 0)][t := w1.calls[t]];
    more, also := Join(v, more, also, Probe(t, id, 1, true), w1);
    var w2 := w.(rooms := w.rooms[id := r], calls := w.calls[t := Issued(id)], owed := w.owed + {t});
    assert w2.calls == w1.calls[t := Issued(id)];
    assert w2.flying == map u | u in w.flying :: Detach(w.flying[u], w.rooms, 1);
    more, also := Join(v, more, also, Insert(t, r.rendezvousName, AT_ONE), w2);
  }

  // --- a torn backup ---

  function Copied(id: string, fields: seq<Room>): Copy { Copy({id}, map[], map[id := fields]) }

  lemma Reading(v: Verifier, ws: seq<World>, evs: seq<Event>, id: string, rs: seq<Room>, r: Room, stale: bool,
                next: seq<Room>)
    returns (more: seq<World>, also: seq<Event>)
    requires Run(v, ws, evs) && WritesSucceed(evs) && |rs| < FIELDS && next == rs + [r]
    requires
      var w := ws[|evs|];
      && id in w.rooms
      && w == Encoding(w.rooms, w.calls, w.owed, Copied(id, rs), w.busy)
      && (if stale then w.busy == Some(Overwrite(id, r)) else w.rooms[id] == r)
    ensures Run(v, more, also) && WritesSucceed(also)
    ensures
      var w := ws[|evs|];
      more[|also|] == Encoding(w.rooms, w.calls, w.owed, Copied(id, next), w.busy)
  {
    var w := ws[|evs|];
    assert map[id := rs][id := next] == map[id := next];
    assert map[0 := Copied(id, rs)][0 := Copied(id, next)] == map[0 := Copied(id, next)];
    more, also := Join(v, ws, evs, Read(0, id, stale),
                       Encoding(w.rooms, w.calls, w.owed, Copied(id, next), w.busy));
  }

  /** A backup of one room is being encoded. */
  lemma BackupBegins(v: Verifier, r: Room, id: string) returns (ws: seq<World>, evs: seq<Event>)
    requires Depositable(v, r) && ParsedId(id) == Id(id)
    ensures Run(v, ws, evs) && WritesSucceed(evs)
    ensures ws[|evs|] == Encoding(map[id := r], map[0 := Issued(id)], {}, Copied(id, []), None)
  {
    ws, evs := EmptyRun(v);
    ws, evs := Issuing(v, ws, evs, r, 0, id);
    var rooms, calls := map[id := r], map[0 := Issued(id)];
    assert ws[|evs|] == Quiet(rooms, calls, {0});
    assert NewCopy(rooms) == Copied(id, []);
    var w := Quiet(rooms, calls, {}).(flying := map[0 := Copied(id, [])]);
    ws, evs := Join(v, ws, evs, CopyOut(0), w);
    ws, evs := Join(v, ws, evs, Encode(0), Encoding(rooms, calls, {}, Copied(id, []), None));
  }

  /** The encoded fields become the file, and the process dies before anybody else saves. */
  lemma CrashAfterSaving(v: Verifier, ws: seq<World>, evs: seq<Event>, id: string, rs: seq<Room>)
    returns (more: seq<World>, also: seq<Event>)
    requires Run(v, ws, evs) && WritesSucceed(evs) && |rs| == FIELDS
    requires
      var w := ws[|evs|];
      w == Encoding(w.rooms, w.calls, w.owed, Copied(id, rs), w.busy) && Sane(id, Assembled(rs), 1)
    ensures Run(v, more, also) && WritesSucceed(also)
    ensures more[|also|].rooms == map[id := Assembled(rs)]
  {
    var w := ws[|evs|];
    var disk := map[id := Assembled(rs)];
    assert File(Copied(id, rs)) == disk;
    assert map[0 := Copied(id, rs)] - {0} == map[];
    more, also := Join(v, ws, evs, Rename(0, true), w.(disk := disk, flying := map[], keeper := None));
    assert Loaded(disk, 1) == disk;
    more, also := Join(v, more, also, Restart(1), Started(disk, 1));
  }

  lemma BodyRuns(v: Verifier, ws: seq<World>, evs: seq<Event>, id: string, rs: seq<Room>, r: Room, next: Room,
                 ev: Event)
    returns (more: seq<World>, also: seq<Event>)
    requires Run(v, ws, evs) && WritesSucceed(evs) && 1 <= r.pinUntil && Enabled(v, ws[|evs|], ev) && !ev.Rename?
    requires ws[|evs|] == Encoding(map[id := r], ws[|evs|].calls, {}, Copied(id, rs), None)
    requires
      || (ev == Publish(1, id, r.hostKey, next.card, next.sig, AT_ONE)
          && next == Republished(r, next.card, next.sig, 1))
      || (ev == Retire(1, id, r.hostKey, AT_ONE) && next == Closed(r, 1))
    ensures Run(v, more, also) && WritesSucceed(also)
    ensures more[|also|] ==
      Encoding(map[id := next], ws[|evs|].calls, {1}, Copied(id, rs), Some(Overwrite(id, r)))
  {
    var w := ws[|evs|];
    NothingToSweep(id, rs, r, next);
    assert (map u | u in w.flying :: Detach(w.flying[u], w.rooms, 1)) == w.flying;
    more, also := Join(v, ws, evs, ev, Encoding(map[id := next], w.calls, {1}, Copied(id, rs), Some(Overwrite(id, r))));
  }

  lemma NothingToSweep(id: string, rs: seq<Room>, r: Room, next: Room)
    requires 1 <= r.pinUntil
    ensures Swept(map[id := r], 1) == map[id := r] && map[id := r][id := next] == map[id := next]
    ensures Detach(Copied(id, rs), map[id := r], 1) == Copied(id, rs)
  {
  }

  /** A publish between the reads of card and signature, a crash before the publisher's own backup:
      the restarted registry resolves a room whose signature does not check. */
  lemma TornPublishLosesTheSignature(v: Verifier, r: Room, id: string, card: Bytes, sig: Bytes)
    returns (ws: seq<World>, evs: seq<Event>)
    requires Depositable(v, r) && ParsedId(id) == Id(id)
    requires Deposit(v, r.hostKey, card, sig).Done? && !v(r.hostKey, r.card, sig)
    ensures Run(v, ws, evs) && WritesSucceed(evs)
    ensures
      var found := Found(ws[|evs|].rooms, id);
      found.Some? && !v(found.value.hostKey, found.value.card, found.value.sig)
  {
    var next := Republished(r, card, sig, 1);
    ws, evs := BackupBegins(v, r, id);
    ws, evs := Reading(v, ws, evs, id, [], r, false, [r]);
    ws, evs := BodyRuns(v, ws, evs, id, [r], r, next, Publish(1, id, r.hostKey, card, sig, AT_ONE));
    ws, evs := Reading(v, ws, evs, id, [r], next, false, [r, next]);
    ws, evs := Reading(v, ws, evs, id, [r, next], next, false, [r, next, next]);
    ws, evs := Reading(v, ws, evs, id, [r, next, next], next, false, [r, next, next, next]);
    ws, evs := CrashAfterSaving(v, ws, evs, id, [r, next, next, next]);
  }

  /** A close whose date is the only thing not yet assigned when it is read: the restarted registry
      resolves the closed room, without card or signature. */
  lemma TornCloseReopensTheRoom(v: Verifier, r: Room, id: string) returns (ws: seq<World>, evs: seq<Event>)
    requires Depositable(v, r) && ParsedId(id) == Id(id)
    ensures Run(v, ws, evs) && WritesSucceed(evs)
    ensures
      var found := Found(ws[|evs|].rooms, id);
      found.Some? && found.value.hostKey == r.hostKey && found.value.card == found.value.sig == []
  {
    var next := Closed(r, 1);
    ws, evs := BackupBegins(v, r, id);
    ws, evs := BodyRuns(v, ws, evs, id, [], r, next, Retire(1, id, r.hostKey, AT_ONE));
    ws, evs := Reading(v, ws, evs, id, [], next, false, [next]);
    ws, evs := Reading(v, ws, evs, id, [next], next, false, [next, next]);
    ws, evs := Reading(v, ws, evs, id, [next, next], next, false, [next, next, next]);
    ws, evs := Reading(v, ws, evs, id, [next, next, next], r, true, [next, next, next, r]);
    ws, evs := CrashAfterSaving(v, ws, evs, id, [next, next, next, r]);
  }

  // --- backups that overlap ---

  function WithFields(w: World, t: nat, id: string, rs: seq<Room>): World
    requires t in w.flying
  {
    w.(flying := w.flying[t := w.flying[t].(fields := w.flying[t].fields[id := rs])])
  }

  lemma FieldsTwice(w: World, t: nat, id: string, rs: seq<Room>, qs: seq<Room>)
    requires t in w.flying
    ensures WithFields(WithFields(w, t, id, rs), t, id, qs) == WithFields(w, t, id, qs)
  {
    var c := w.flying[t];
    assert c.fields[id := rs][id := qs] == c.fields[id := qs];
    assert w.flying[t := c.(fields := c.fields[id := rs])][t := c.(fields := c.fields[id := qs])]
        == w.flying[t := c.(fields := c.fields[id := qs])];
  }

  predicate Readable(w: World, t: nat, id: string, rs: seq<Room>) {
    && w.keeper == Some(t) && t in w.flying && id in w.flying[t].shared && id in w.rooms
    && id in w.flying[t].fields && w.flying[t].fields[id] == rs
  }

  lemma ReadingOn(v: Verifier, ws: seq<World>, evs: seq<Event>, t: nat, id: string, rs: seq<Room>, next: seq<Room>)
    returns (more: seq<World>, also: seq<Event>)
    requires Run(v, ws, evs) && WritesSucceed(evs) && Readable(ws[|evs|], t, id, rs) && |rs| < FIELDS
    requires next == rs + [ws[|evs|].rooms[id]]
    ensures Run(v, more, also) && WritesSucceed(also) && more[|also|] == WithFields(ws[|evs|], t, id, next)
  {
    more, also := Join(v, ws, evs, Read(t, id, false), WithFields(ws[|evs|], t, id, next));
  }

  lemma ReadingWhole(v: Verifier, ws: seq<World>, evs: seq<Event>, t: nat, id: string)
    returns (more: seq<World>, also: seq<Event>)
    requires Run(v, ws, evs) && WritesSucceed(evs) && Readable(ws[|evs|], t, id, [])
    ensures Run(v, more, also) && WritesSucceed(also)
    ensures var r := ws[|evs|].rooms[id];
      more[|also|] == WithFields(ws[|evs|], t, id, [r, r, r, r])
  {
    var w, r := ws[|evs|], ws[|evs|].rooms[id];
    more, also := ReadingOn(v, ws, evs, t, id, [], [r]);
    more, also := ReadingOn(v, more, also, t, id, [r], [r, r]);
    FieldsTwice(w, t, id, [r], [r, r]);
    more, also := ReadingOn(v, more, also, t, id, [r, r], [r, r, r]);
    FieldsTwice(w, t, id, [r, r], [r, r, r]);
    more, also := ReadingOn(v, more, also, t, id, [r, r, r], [r, r, r, r]);
    FieldsTwice(w, t, id, [r, r, r], [r, r, r, r]);
  }

  function BothCopied(r: Room, a: string, b: string, disk: Rooms, flying: map<nat, Copy>, keeper: Option<nat>): World {
    World(map[a := r, b := r], disk, 1, map[0 := Issued(a), 1 := Issued(b)], {}, flying, keeper, None)
  }

  function OneCopied(r: Room, a: string): World {
    Quiet(map[a := r], map[0 := Issued(a)], {}).(flying := map[0 := Copied(a, [])])
  }

  lemma OneCopy(v: Verifier, r: Room, a: string) returns (ws: seq<World>, evs: seq<Event>)
    requires Depositable(v, r) && ParsedId(a) == Id(a)
    ensures Run(v, ws, evs) && WritesSucceed(evs) && ws[|evs|] == OneCopied(r, a)
  {
    ws, evs := EmptyRun(v);
    ws, evs := Issuing(v, ws, evs, r, 0, a);
    var w := ws[|evs|];
    assert NewCopy(w.rooms) == Copied(a, []);
    ws, evs := Join(v, ws, evs, CopyOut(0), OneCopied(r, a));
  }

  /** Two rooms are issued and copied out, and nothing is saved yet: the second copy has them both. */
  lemma TwoCopies(v: Verifier, r: Room, a: string, b: string) returns (ws: seq<World>, evs: seq<Event>)
    requires Depositable(v, r) && ParsedId(a) == Id(a) && ParsedId(b) == Id(b) && a != b
    ensures Run(v, ws, evs) && WritesSucceed(evs)
    ensures ws[|evs|] == BothCopied(r, a, b, map[], Second(a, b, [], []), None)
  {
    ws, evs := OneCopy(v, r, a);
    NothingToSweep(a, [], r, r);
    ws, evs := Issuing(v, ws, evs, r, 1, b);
    BothIssued(r, a, b);
    ws, evs := Join(v, ws, evs, CopyOut(1), BothCopied(r, a, b, map[], Second(a, b, [], []), None));
  }

  lemma BothIssued(r: Room, a: string, b: string)
    requires a != b
    ensures
      var rooms := map[a := r][b := r];
      && rooms == map[a := r, b := r]
      && NewCopy(rooms) == Copy({a, b}, map[], map[a := [], b := []])
    ensures map[0 := Issued(a)][1 := Issued(b)] == map[0 := Issued(a), 1 := Issued(b)]
  {
    var rooms: Rooms := map[a := r][b := r];
    assert rooms.Keys == {a, b};
    var c := NewCopy(rooms);
    assert c.fields == map[a := [], b := []];
  }

  /** The second copy while it is encoded: `xs` and `ys` are the fields read of each room. */
  function Second(a: string, b: string, xs: seq<Room>, ys: seq<Room>): map<nat, Copy> {
    map[0 := Copied(a, []), 1 := Copy({a, b}, map[], map[a := xs, b := ys])]
  }

  lemma SecondIsRead(w: World, r: Room, a: string, b: string, xs: seq<Room>)
    requires a != b && 1 in w.flying
    ensures w == BothCopied(r, a, b, map[], Second(a, b, [], []), Some(1)) ==>
              WithFields(w, 1, a, xs) == BothCopied(r, a, b, map[], Second(a, b, xs, []), Some(1))
    ensures w == BothCopied(r, a, b, map[], Second(a, b, xs, []), Some(1)) ==>
              WithFields(w, 1, b, xs) == BothCopied(r, a, b, map[], Second(a, b, xs, xs), Some(1))
  {
    assert map[a := [], b := []][a := xs] == map[a := xs, b := []];
    assert map[a := xs, b := []][b := xs] == map[a := xs, b := xs];
    var c := Copy({a, b}, map[], map[a := xs, b := []]);
    var d := Copy({a, b}, map[], map[a := xs, b := xs]);
    assert Second(a, b, [], [])[1 := c] == Second(a, b, xs, []);
    assert Second(a, b, xs, [])[1 := d] == Second(a, b, xs, xs);
  }

  lemma SecondIsEncoded(v: Verifier, r: Room, a: string, b: string) returns (ws: seq<World>, evs: seq<Event>)
    requires Depositable(v, r) && ParsedId(a) == Id(a) && ParsedId(b) == Id(b) && a != b
    ensures Run(v, ws, evs) && WritesSucceed(evs)
    ensures ws[|evs|] == BothCopied(r, a, b, map[], Second(a, b, [r, r, r, r], [r, r, r, r]), Some(1))
  {
    ws, evs := TwoCopies(v, r, a, b);
    ws, evs := Join(v, ws, evs, Encode(1), BothCopied(r, a, b, map[], Second(a, b, [], []), Some(1)));
    SecondIsRead(ws[|evs|], r, a, b, [r, r, r, r]);
    ws, evs := ReadingWhole(v, ws, evs, 1, a);
    SecondIsRead(ws[|evs|], r, a, b, [r, r, r, r]);
    ws, evs := ReadingWhole(v, ws, evs, 1, b);
  }

  /** The second copy is saved first. */
  lemma SecondIsSaved(v: Verifier, r: Room, a: string, b: string) returns (ws: seq<World>, evs: seq<Event>)
    requires Depositable(v, r) && ParsedId(a) == Id(a) && ParsedId(b) == Id(b) && a != b
    ensures Run(v, ws, evs) && WritesSucceed(evs)
    ensures ws[|evs|] == BothCopied(r, a, b, map[a := r, b := r], map[0 := Copied(a, [])], None)
  {
    ws, evs := SecondIsEncoded(v, r, a, b);
    var all := [r, r, r, r];
    assert File(Second(a, b, all, all)[1]) == map[a := r, b := r];
    assert Second(a, b, all, all) - {1} == map[0 := Copied(a, [])];
    ws, evs := Join(v, ws, evs, Rename(1, true),
                    BothCopied(r, a, b, map[a := r, b := r], map[0 := Copied(a, [])], None));
  }

  lemma FirstIsEncoded(v: Verifier, r: Room, a: string, b: string) returns (ws: seq<World>, evs: seq<Event>)
    requires Depositable(v, r) && ParsedId(a) == Id(a) && ParsedId(b) == Id(b) && a != b
    ensures Run(v, ws, evs) && WritesSucceed(evs)
    ensures ws[|evs|] == BothCopied(r, a, b, map[a := r, b := r], map[0 := Copied(a, [r, r, r, r])], Some(0))
  {
    ws, evs := SecondIsSaved(v, r, a, b);
    var all, disk := [r, r, r, r], map[a := r, b := r];
    ws, evs := Join(v, ws, evs, Encode(0), BothCopied(r, a, b, disk, map[0 := Copied(a, [])], Some(0)));
    ws, evs := ReadingWhole(v, ws, evs, 0, a);
    assert Copied(a, []).fields[a := all] == Copied(a, all).fields;
    assert map[0 := Copied(a, [])][0 := Copied(a, all)] == map[0 := Copied(a, all)];
  }

  /** Then the first, and a living room that memory holds is not in the file although no backup is due. */
  lemma OverlappingBackupsLoseARoom(v: Verifier, r: Room, a: string, b: string)
    returns (ws: seq<World>, evs: seq<Event>)
    requires Depositable(v, r) && ParsedId(a) == Id(a) && ParsedId(b) == Id(b) && a != b
    ensures Run(v, ws, evs) && WritesSucceed(evs)
    ensures var last := ws[|evs|];
      last.owed == {} && last.flying == map[] && b in Swept(last.rooms, last.clock) && b !in last.disk
  {
    ws, evs := FirstIsEncoded(v, r, a, b);
    var all := [r, r, r, r];
    assert File(Copied(a, all)) == map[a := r] && map[0 := Copied(a, all)] - {0} == map[];
    ws, evs := Join(v, ws, evs, Rename(0, true), BothCopied(r, a, b, map[a := r], map[], None));
  }

  // --- an entry past its pin ---

  /** Nobody has swept since the pin passed, so the entry still resolves. */
  lemma ExpiredEntryResolves(v: Verifier, r: Room, id: string) returns (ws: seq<World>, evs: seq<Event>)
    requires Depositable(v, r) && ParsedId(id) == Id(id)
    ensures Run(v, ws, evs) && ws[|evs|].clock > r.pinUntil && Resolves(ws[|evs|], id, r)
  {
    ws, evs := EmptyRun(v);
    ws, evs := Issuing(v, ws, evs, r, 0, id);
    assert 1 !in ws[|evs|].calls;
    ws, evs := Extend(v, ws, evs, Begin(1, r.hostKey, r.card, r.sig));
    ws, evs := Extend(v, ws, evs, Probe(1, id, 2 + ROOM_TTL, false));
  }
}
