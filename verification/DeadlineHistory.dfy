/** The deadlines said of the events of a run: what was heard, when the tunnel fell, who left and why. */
module DeadlineHistory {
  import opened Common
  import opened Timing
  import opened Deadlines

  predicate InRoom(s: RoomState) { s.conn != Idle }

  // --- the tunnel ---

  /** A beat ends the room for the tunnel exactly when it has been down for the limit and the host's
      absence, which is looked at first, does not end it. */
  lemma TickLosesTheTunnelExactly(w: World, w': World, now: Time)
    requires Marked(w) && Next(w, w', Tick(now))
    ensures ExitsFor(w, w', TunnelLost) <==>
              && InRoom(w.s) && w.s.reconnectingSince != 0 && now >= w.s.reconnectingSince + RECONNECT_LIMIT
              && !(w.s.role == GuestRole
                   && now >= HOST_ABSENCE_LIMIT + if w.s.hostPresent then w.s.hostLastHeard else w.s.hostGoneSince)
  {
  }

  lemma TunnelLostOnlyByTick(w: World, w': World, ev: Event)
    requires Marked(w) && Next(w, w', ev) && ExitsFor(w, w', TunnelLost) && !ev.Leave?
    ensures ev.Tick?
  {
  }

  /** The tunnel fell in step `k`, and neither came back nor was the room left before step `i`. */
  predicate DownFrom(ws: seq<World>, evs: seq<Event>, k: nat, i: nat)
    requires i <= |evs| < |ws|
  {
    && k < i && evs[k].TunnelWentDown? && InRoom(ws[k].s)
    && forall m | k < m < i :: InRoom(ws[m].s) && !evs[m].TunnelCameUp?
  }

  ghost predicate FirstDown(ws: seq<World>, evs: seq<Event>, k: nat, i: nat)
    requires i <= |evs| < |ws|
  {
    DownFrom(ws, evs, k, i) && forall h: nat | DownFrom(ws, evs, h, i) :: k <= h
  }

  ghost predicate NeverDown(ws: seq<World>, evs: seq<Event>, i: nat)
    requires i <= |evs| < |ws|
  {
    forall h: nat :: !DownFrom(ws, evs, h, i)
  }

  lemma FallStays(ws: seq<World>, evs: seq<Event>, k: nat, i: nat)
    requires 0 < i <= |evs| < |ws| && FirstDown(ws, evs, k, i - 1)
    requires InRoom(ws[i - 1].s) && !evs[i - 1].TunnelCameUp?
    ensures FirstDown(ws, evs, k, i)
  {
    forall h: nat | DownFrom(ws, evs, h, i)
      ensures k <= h
    {
      assert h < i - 1 ==> DownFrom(ws, evs, h, i - 1);
    }
  }

  lemma FallsNow(ws: seq<World>, evs: seq<Event>, i: nat)
    requires 0 < i <= |evs| < |ws| && NeverDown(ws, evs, i - 1)
    requires InRoom(ws[i - 1].s) && evs[i - 1].TunnelWentDown?
    ensures FirstDown(ws, evs, i - 1, i)
  {
    forall h: nat | DownFrom(ws, evs, h, i)
      ensures i - 1 <= h
    {
      assert h < i - 1 ==> DownFrom(ws, evs, h, i - 1);
    }
  }

  lemma StaysUp(ws: seq<World>, evs: seq<Event>, i: nat)
    requires 0 < i <= |evs| < |ws| && !evs[i - 1].TunnelWentDown?
    requires !InRoom(ws[i - 1].s) || evs[i - 1].TunnelCameUp? || NeverDown(ws, evs, i - 1)
    ensures NeverDown(ws, evs, i)
  {
    forall h: nat
      ensures !DownFrom(ws, evs, h, i)
    {
      assert h < i - 1 && DownFrom(ws, evs, h, i) ==> DownFrom(ws, evs, h, i - 1);
    }
  }

  /** One step of the mark of the tunnel. */
  lemma MarkOneStep(w: World, w': World, ev: Event)
    requires Marked(w) && Next(w, w', ev) && InRoom(w'.s)
    ensures ev.TunnelWentDown? ==> InRoom(w.s)
    ensures w'.s.reconnectingSince ==
            if !InRoom(w.s) || ev.TunnelCameUp? then 0
            else if ev.TunnelWentDown? && w.s.reconnectingSince == 0 then ev.now
            else w.s.reconnectingSince
    ensures ev.now > 0
  {
  }

  /** In a room, the mark of the tunnel is the instant of its first fall since it was last up. */
  lemma {:induction false} MarkIsTheFirstFall(ws: seq<World>, evs: seq<Event>, i: nat) returns (k: nat)
    requires Run(ws, evs) && i < |ws| && InRoom(ws[i].s)
    ensures ws[i].s.reconnectingSince == 0 ==> NeverDown(ws, evs, i)
    ensures ws[i].s.reconnectingSince != 0 ==>
              FirstDown(ws, evs, k, i) && ws[i].s.reconnectingSince == evs[k].now
  {
    k := 0;
    if i > 0 {
      AlwaysMarked(ws, evs, i - 1);
      assert Next(ws[i - 1], ws[i], evs[i - 1]);
      MarkOneStep(ws[i - 1], ws[i], evs[i - 1]);
      if !InRoom(ws[i - 1].s) || evs[i - 1].TunnelCameUp? {
        StaysUp(ws, evs, i);
      } else {
        k := MarkIsTheFirstFall(ws, evs, i - 1);
        if ws[i - 1].s.reconnectingSince != 0 {
          FallStays(ws, evs, k, i);
        } else if evs[i - 1].TunnelWentDown? {
          FallsNow(ws, evs, i);
          k := i - 1;
        } else {
          StaysUp(ws, evs, i);
        }
      }
    }
  }

  /** Never too soon: whoever loses the room for its tunnel, and did not leave on somebody's word, has been
      without it since a fall a whole limit ago. */
  lemma TunnelIsNeverLostTooSoon(ws: seq<World>, evs: seq<Event>, i: nat) returns (k: nat)
    requires Run(ws, evs) && i < |evs|
    requires ExitsFor(ws[i], ws[i + 1], TunnelLost) && !evs[i].Leave?
    ensures ws[i].s.reconnectingSince != 0 && ws[i + 1].clock >= ws[i].s.reconnectingSince + RECONNECT_LIMIT
    ensures DownFrom(ws, evs, k, i) && ws[i + 1].clock >= evs[k].now + RECONNECT_LIMIT
  {
    AlwaysMarked(ws, evs, i);
    assert Next(ws[i], ws[i + 1], evs[i]);
    TunnelLostOnlyByTick(ws[i], ws[i + 1], evs[i]);
    TickLosesTheTunnelExactly(ws[i], ws[i + 1], evs[i].now);
    k := MarkIsTheFirstFall(ws, evs, i);
  }

  // --- the host ---

  /** The guest enters, hears the host, or sees it back. */
  predicate Proves(s: RoomState, ev: Event) {
    match ev
    case Enter(role, _) => role == GuestRole && !InRoom(s)
    case HeardHost(_) => InRoom(s) && s.role == GuestRole
    case Presence(present, _) => present && InRoom(s) && s.role == GuestRole
    case _ => false
  }

  predicate ProofOfLife(ws: seq<World>, evs: seq<Event>, k: nat)
    requires k < |evs| < |ws|
  {
    Proves(ws[k].s, evs[k])
  }

  lemma HeardOneStep(w: World, w': World, ev: Event)
    requires Marked(w) && Next(w, w', ev) && InRoom(w'.s) && w'.s.role == GuestRole
    ensures Proves(w.s, ev) ==> w'.s.hostLastHeard == ev.now
    ensures !Proves(w.s, ev) ==>
              InRoom(w.s) && w.s.role == GuestRole && w'.s.hostLastHeard == w.s.hostLastHeard
  {
  }

  /** A guest's last sign of the host is the instant of its latest proof of life. */
  lemma {:induction false} HeardIsTheLatestProof(ws: seq<World>, evs: seq<Event>, i: nat) returns (k: nat)
    requires Run(ws, evs) && i < |ws| && InRoom(ws[i].s) && ws[i].s.role == GuestRole
    ensures k < i && ProofOfLife(ws, evs, k) && ws[i].s.hostLastHeard == evs[k].now
    ensures forall m | k < m < i :: !ProofOfLife(ws, evs, m)
  {
    if i > 0 {
      AlwaysMarked(ws, evs, i - 1);
      assert Next(ws[i - 1], ws[i], evs[i - 1]);
      HeardOneStep(ws[i - 1], ws[i], evs[i - 1]);
      k := i - 1;
      if !ProofOfLife(ws, evs, i - 1) {
        k := HeardIsTheLatestProof(ws, evs, i - 1);
      }
    }
  }

  /** Never too soon: in the whole absence limit before a guest is taken out for its host, there was no
      proof of life. */
  lemma NoProofBeforeLeaving(ws: seq<World>, evs: seq<Event>, i: nat) returns (k: nat)
    requires Run(ws, evs) && i < |evs|
    requires ExitsFor(ws[i], ws[i + 1], HostGone) && !evs[i].Leave?
    ensures k < i && ProofOfLife(ws, evs, k) && ws[i + 1].clock >= evs[k].now + HOST_ABSENCE_LIMIT
    ensures forall m | k < m < i :: !ProofOfLife(ws, evs, m)
  {
    NeverLeavesTooSoon(ws, evs, i);
    k := HeardIsTheLatestProof(ws, evs, i);
  }

  /** A guest that has its host in sight loses it exactly by being told so, by an established mesh without
      it, by the fall of the tunnel, or by silence up to the limit; the absence counts from then, but
      after silence from the last sign. */
  lemma HostGoesMissingExactly(w: World, w': World, ev: Event)
    requires Marked(w) && Next(w, w', ev) && w.s.hostPresent
    requires InRoom(w.s) && w.s.role == GuestRole && InRoom(w'.s)
    ensures !w'.s.hostPresent <==>
              || (ev.Presence? && !ev.present) || ev.TunnelWentDown?
              || (ev.HostNotInMesh? && (w.s.conn == Connected || w.s.conn == Degraded))
              || (ev.Tick? && ev.now >= w.s.hostLastHeard + HOST_SILENCE_LIMIT)
    ensures !w'.s.hostPresent ==> w'.s.hostGoneSince == if ev.Tick? then w.s.hostLastHeard else ev.now
  {
  }

  /** And it has it back exactly by hearing it or being told so. */
  lemma HostComesBackExactly(w: World, w': World, ev: Event)
    requires Marked(w) && Next(w, w', ev) && !w.s.hostPresent
    requires InRoom(w.s) && w.s.role == GuestRole && InRoom(w'.s)
    ensures w'.s.hostPresent <==> ev.HeardHost? || (ev.Presence? && ev.present)
    ensures !w'.s.hostPresent ==> w'.s.hostGoneSince == w.s.hostGoneSince
  {
  }

  /** A host does not miss itself: nothing that happens while it has its room touches its presence marks. */
  lemma HostNeverMissesItself(w: World, w': World, ev: Event)
    requires Marked(w) && Next(w, w', ev) && w.s.role == HostRole && InRoom(w.s) && InRoom(w'.s)
    ensures w'.s.hostPresent == w.s.hostPresent && w'.s.hostGoneSince == w.s.hostGoneSince
    ensures w'.s.hostLastHeard == w.s.hostLastHeard
  {
  }

  /** The other clock that looks at the host's absence leaves exactly when that is over the limit. */
  lemma AbsenceTickLeavesExactly(w: World, w': World, now: Time)
    requires Marked(w) && Next(w, w', AbsenceTick(now)) && InRoom(w.s)
    ensures ExitsFor(w, w', HostGone) <==>
              w.s.role == GuestRole && !w.s.hostPresent && now >= w.s.hostGoneSince + HOST_ABSENCE_LIMIT
    ensures InRoom(w'.s) ==> w'.s == w.s
  {
  }

  // --- the connection ---

  /** The connection while in a room: a fall leads to reconnecting from wherever it was, the tunnel's
      return to connected, and only an established connection is rated again. */
  lemma ConnectionFollowsTheTunnel(w: World, w': World, ev: Event)
    requires Marked(w) && Next(w, w', ev) && InRoom(w.s) && InRoom(w'.s)
    requires w.s.conn in {Connected, Degraded, Reconnecting}
    ensures w'.s.conn ==
            if ev.TunnelWentDown? then Reconnecting
            else if ev.TunnelCameUp? then Connected
            else if ev.Rederived? && w.s.conn != Reconnecting && w.s.reconnectingSince == 0
                    && ev.conn in {Connected, Degraded}
            then ev.conn else w.s.conn
    ensures w'.s.role == w.s.role && w'.s.gen == w.s.gen && w'.s.lastExit == w.s.lastExit
  {
  }

  /** While the mark of the tunnel stands the connection is reconnecting, and the other way round. */
  lemma {:induction false} ReconnectingWhileDown(ws: seq<World>, evs: seq<Event>, i: nat)
    requires Run(ws, evs) && i < |ws|
    ensures ws[i].s.conn in {Idle, Connected, Degraded, Reconnecting}
    ensures ws[i].s.conn == Reconnecting <==> ws[i].s.reconnectingSince != 0
  {
    if i > 0 {
      ReconnectingWhileDown(ws, evs, i - 1);
      AlwaysMarked(ws, evs, i - 1);
      assert Next(ws[i - 1], ws[i], evs[i - 1]);
      if InRoom(ws[i - 1].s) && InRoom(ws[i].s) {
        ConnectionFollowsTheTunnel(ws[i - 1], ws[i], evs[i - 1]);
      }
    }
  }

  /** Entering starts afresh: a guest has just heard its host, nobody's tunnel is marked; and outside of a room
      nothing else changes anything. */
  lemma EnteringStartsAfresh(w: World, w': World, ev: Event)
    requires Marked(w) && Next(w, w', ev) && !InRoom(w.s)
    ensures ev.Enter? && ev.role != NoRole ==>
              w'.s == RoomState(Connected, ev.role, true, 0, if ev.role == GuestRole then ev.now else 0, 0,
                                w.s.gen, w.s.lastExit)
    ensures !(ev.Enter? && ev.role != NoRole) ==> w'.s == w.s
  {
  }

  /** Leaving empties the room at once, keeps count of it, and remembers why. */
  lemma LeavingRemembersWhy(w: World, w': World, ev: Event)
    requires Next(w, w', ev) && ev.Leave? && InRoom(w.s)
    ensures w'.s == RoomState(Idle, NoRole, false, 0, 0, 0, w.s.gen + 1,
                              if ev.exit == NoExit then w.s.lastExit else ev.exit)
  {
  }

  /** A legal sequence of connections. */
  predicate Walk(cs: seq<Conn>) {
    cs != [] && forall i | 0 <= i < |cs| - 1 :: cs[i].CanGoTo(cs[i + 1])
  }

  /** The legal transitions: everything goes home; one enters by resolving and then connecting and by no
      other way; and the three connections of a room reach each other, except that nothing already
      connected goes back to connecting. */
  lemma LegalTransitions(c: Conn, d: Conn)
    requires c != d
    ensures d == Idle ==> c.CanGoTo(d)
    ensures d == Resolving ==> (c.CanGoTo(d) <==> c == Idle)
    ensures d == Connecting ==> (c.CanGoTo(d) <==> c == Resolving)
    ensures d == Connected ==> (c.CanGoTo(d) <==> c in {Connecting, Degraded, Reconnecting})
    ensures d == Degraded ==> (c.CanGoTo(d) <==> c in {Connected, Reconnecting})
    ensures d == Reconnecting ==> (c.CanGoTo(d) <==> c in {Connecting, Connected, Degraded})
  {
  }

  /** Whoever got from idle to a connection of the room resolved its code before. */
  lemma {:induction false} NobodyGetsInUnresolved(cs: seq<Conn>) returns (i: nat)
    requires Walk(cs) && cs[0] == Idle && cs[|cs| - 1] !in {Idle, Resolving}
    ensures 0 < i && i + 1 < |cs| && cs[i] == Resolving && cs[i + 1] == Connecting
    ensures forall m | i < m < |cs| :: cs[m] !in {Idle, Resolving}
  {
    var n := |cs| - 1;
    LegalTransitionsInto(cs[n - 1], cs[n]);
    assert cs[n - 1].CanGoTo(cs[n]);
    if cs[n - 1] == Resolving {
      i := n - 1;
    } else {
      i := NobodyGetsInUnresolved(cs[..n]);
    }
  }

  lemma LegalTransitionsInto(c: Conn, d: Conn)
    requires d !in {Idle, Resolving}
    ensures c.CanGoTo(d) ==> c != Idle && (c == Resolving ==> d == Connecting)
  {
  }
}
