/** What the answers of the seed registry promise about later lookups, over every run. */
module RegistryActs {
  import opened Common
  import opened Timing
  import opened InviteIds
  import opened Store
  import opened Registry
  import opened RegistryRuns

  /** The id has an entry whose pin is alive when the call sweeps, pinned by `key`. */
  predicate OwnedBy(rooms: Rooms, id: string, key: Bytes, sweep: Time) {
    id in rooms && sweep <= rooms[id].pinUntil && rooms[id].hostKey == key
  }

  predicate Vacant(rooms: Rooms, id: string, sweep: Time) { id in rooms ==> rooms[id].pinUntil < sweep }

  /** A publish or a close of `id` that is answered Done, or an insertion of it that succeeds. */
  predicate Acts(w: World, ev: Event, id: string) {
    match ev
    case Publish(_, target, key, _, _, k) => target == id && OwnedBy(w.rooms, id, key, k.sweep)
    case Retire(_, target, key, k) => target == id && OwnedBy(w.rooms, id, key, k.sweep)
    case Insert(t, _, k) => t in w.calls && w.calls[t].Deriving? && w.calls[t].id == id && Vacant(w.rooms, id, k.sweep)
    case _ => false
  }

  /** The entry that such an act promises. */
  function Promised(w: World, ev: Event, id: string): Room
    requires Acts(w, ev, id)
  {
    match ev
    case Publish(_, _, key, card, sig, k) => Room(key, card, sig, w.rooms[id].rendezvousName, k.stamp + ROOM_TTL, 0)
    case Retire(_, _, key, k) => Room(key, [], [], w.rooms[id].rendezvousName, w.rooms[id].pinUntil, k.stamp)
    case Insert(t, red, k) =>
      Room(w.calls[t].key, w.calls[t].card, w.calls[t].sig, red, k.stamp + ROOM_TTL, 0)
  }

  lemma ActKeepsPromise(v: Verifier, w: World, ev: Event, id: string)
    requires Enabled(v, w, ev) && Acts(w, ev, id)
    ensures id in After(v, w, ev).rooms && After(v, w, ev).rooms[id] == Promised(w, ev, id)
  {
  }

  /** Without an act on the id or a restart, its entry stays as it is until a sweep past its pin. */
  lemma EntryStaysUntilSwept(v: Verifier, w: World, ev: Event, id: string)
    requires Enabled(v, w, ev) && !Acts(w, ev, id) && !ev.Restart?
    ensures id in After(v, w, ev).rooms <==> id in w.rooms && !SweptAfter(ev, w.rooms[id].pinUntil)
    ensures id in After(v, w, ev).rooms ==> After(v, w, ev).rooms[id] == w.rooms[id]
  {
  }

  predicate ActsAt(ws: seq<World>, evs: seq<Event>, k: nat, id: string)
    requires k < |evs| < |ws|
  {
    Acts(ws[k], evs[k], id)
  }

  ghost predicate QuietSince(ws: seq<World>, evs: seq<Event>, i: nat, j: nat, id: string)
    requires j <= |evs| < |ws|
  {
    forall k | i <= k < j :: !ActsAt(ws, evs, k, id) && !evs[k].Restart?
  }

  /** While nobody acts on an id and the process lives, its entry is the one that the last act promised,
      and it is there if and only if no sweep has come after its pin. */
  lemma {:induction false} LastActStands(v: Verifier, ws: seq<World>, evs: seq<Event>, i: nat, j: nat, id: string)
    requires Run(v, ws, evs) && i < j < |ws| && ActsAt(ws, evs, i, id) && QuietSince(ws, evs, i + 1, j, id)
    ensures id in ws[j].rooms <==>
              forall k | i < k < j :: !SweptAfter(evs[k], Promised(ws[i], evs[i], id).pinUntil)
    ensures id in ws[j].rooms ==> ws[j].rooms[id] == Promised(ws[i], evs[i], id)
  {
    if j == i + 1 {
      assert StepAt(v, ws, evs, i);
      ActKeepsPromise(v, ws[i], evs[i], id);
    } else {
      LastActStands(v, ws, evs, i, j - 1, id);
      assert StepAt(v, ws, evs, j - 1) && !ActsAt(ws, evs, j - 1, id);
      EntryStaysUntilSwept(v, ws[j - 1], evs[j - 1], id);
    }
  }

  /** Between two acts on it, an id resolves if and only if the last act was not a close and no sweep has
      come after the pin that the act left, and then to exactly what was published or inserted, whether
      the room was open or closed before. */
  lemma ResolvesToTheLastAct(v: Verifier, ws: seq<World>, evs: seq<Event>, i: nat, j: nat, id: string)
    requires Run(v, ws, evs) && i < j < |ws| && ActsAt(ws, evs, i, id) && QuietSince(ws, evs, i + 1, j, id)
    ensures Found(ws[j].rooms, id).Some? <==>
              && !evs[i].Retire?
              && forall k | i < k < j :: !SweptAfter(evs[k], Promised(ws[i], evs[i], id).pinUntil)
    ensures Found(ws[j].rooms, id).Some? ==> Found(ws[j].rooms, id).value == Promised(ws[i], evs[i], id)
  {
    LastActStands(v, ws, evs, i, j, id);
    RunIsSound(v, ws, evs, i, false);
    assert StepAt(v, ws, evs, i);
  }

  predicate Reopens(w: World, ev: Event, id: string) { Acts(w, ev, id) && !ev.Retire? }

  predicate ReopensAt(ws: seq<World>, evs: seq<Event>, k: nat, id: string)
    requires k < |evs| < |ws|
  {
    Reopens(ws[k], evs[k], id)
  }

  /** A closed room does not resolve, however often it is closed again, until a publish is answered Done
      or the id is inserted anew. */
  lemma {:induction false} ClosedStaysClosed(v: Verifier, ws: seq<World>, evs: seq<Event>, i: nat, j: nat, id: string)
    requires Run(v, ws, evs) && i < j < |ws| && ActsAt(ws, evs, i, id) && evs[i].Retire?
    requires forall k | i < k < j :: !ReopensAt(ws, evs, k, id) && !evs[k].Restart?
    ensures Found(ws[j].rooms, id).None?
  {
    RunIsSound(v, ws, evs, j - 1, false);
    assert StepAt(v, ws, evs, j - 1);
    if ActsAt(ws, evs, j - 1, id) {
      assert j - 1 > i ==> !ReopensAt(ws, evs, j - 1, id);
      ActKeepsPromise(v, ws[j - 1], evs[j - 1], id);
    } else {
      ClosedStaysClosed(v, ws, evs, i, j - 1, id);
      EntryStaysUntilSwept(v, ws[j - 1], evs[j - 1], id);
    }
  }

  /** The file changes only by a save that succeeds, and then holds exactly what that save has read. */
  lemma OnlySavesTouchTheFile(v: Verifier, w: World, ev: Event)
    requires Enabled(v, w, ev)
    ensures After(v, w, ev).disk == if ev.Rename? && ev.ok then File(w.flying[ev.t]) else w.disk
  {
  }

  // --- what a registration is told ---

  /** A drawn id goes on to its derivation exactly when no living pin holds it; the derivation may fail. */
  lemma ProbeGoesOnExactly(v: Verifier, w: World, ev: Event)
    requires Enabled(v, w, ev) && ev.Probe?
    ensures
      var taken := ev.id in w.rooms && ev.now <= w.rooms[ev.id].pinUntil;
      var next := After(v, w, ev).calls[ev.t];
      && (next.Deriving? <==> !taken && ev.derived)
      && (next.Deriving? ==>
            && next.id == ev.id && next.key == w.calls[ev.t].key
            && next.card == w.calls[ev.t].card && next.sig == w.calls[ev.t].sig)
      && (next.Drawing? || (taken && next.GaveUp?) <==> taken)
      && After(v, w, ev).rooms == w.rooms
  {
  }

  /** A registration is answered with its id exactly when the insertion of it took effect. */
  lemma AnsweredExactlyWhenInserted(v: Verifier, w: World, ev: Event, id: string)
    requires Enabled(v, w, ev) && ev.Insert?
    ensures After(v, w, ev).calls[ev.t] == Issued(id) <==> Acts(w, ev, id)
  {
  }

  // --- a registration ends within eight draws ---

  /** How many ids thread `t` drew since step `i`. */
  function Draws(evs: seq<Event>, i: nat, j: nat, t: nat): nat
    requires i <= j <= |evs|
  {
    if i == j then 0 else Draws(evs, i, j - 1, t) + if evs[j - 1].Probe? && evs[j - 1].t == t then 1 else 0
  }

  predicate CountsDraws(c: Call, draws: nat) {
    match c
    case Drawing(_, _, _, tries) => tries == draws < 8
    case Deriving(_, _, _, tries, _) => tries + 1 == draws <= 8
    case Issued(_) => 1 <= draws <= 8
    case GaveUp => 1 <= draws <= 8
  }

  lemma DrawsOneStep(v: Verifier, w: World, ev: Event, t: nat, draws: nat)
    requires Enabled(v, w, ev) && !ev.Restart? && t in w.calls && CountsDraws(w.calls[t], draws)
    ensures t in After(v, w, ev).calls
    ensures CountsDraws(After(v, w, ev).calls[t], draws + if ev.Probe? && ev.t == t then 1 else 0)
    ensures After(v, w, ev).calls[t].GaveUp? && !w.calls[t].GaveUp? && !(ev.Probe? && !ev.derived) ==>
              draws + (if ev.Probe? && ev.t == t then 1 else 0) == 8
  {
  }

  /** A registration probes at most eight ids, and one that found all of its ids taken probed eight. */
  lemma {:induction false} EndsWithinEightDraws(v: Verifier, ws: seq<World>, evs: seq<Event>, i: nat, j: nat, t: nat)
    requires Run(v, ws, evs) && i < j < |ws| && evs[i].Begin? && evs[i].t == t
    requires forall k | i < k < j :: !evs[k].Restart?
    ensures t in ws[j].calls && CountsDraws(ws[j].calls[t], Draws(evs, i, j, t))
    ensures ws[j].calls[t].GaveUp? ==>
              Draws(evs, i, j, t) == 8 || exists k :: i < k < j && evs[k].Probe? && evs[k].t == t && !evs[k].derived
  {
    assert StepAt(v, ws, evs, j - 1);
    if j > i + 1 {
      EndsWithinEightDraws(v, ws, evs, i, j - 1, t);
      DrawsOneStep(v, ws[j - 1], evs[j - 1], t, Draws(evs, i, j - 1, t));
    }
  }
}
