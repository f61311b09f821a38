/** The room's connection state and its timers: core/domain/state.go, core/usecase/deadlines.go
    and the presence edges of core/usecase. */
module Deadlines {
  import opened Common
  import opened Timing

  datatype Conn = Idle | Resolving | Connecting | Connected | Degraded | Reconnecting {
    predicate InRoom() { !Idle? }
    predicate Established() { Connected? || Degraded? }

    predicate CanGoTo(next: Conn) {
      this == next ||
      match this
      case Idle => next.Resolving?
      case Resolving => next.Connecting? || next.Idle?
      case Connecting => next.Connected? || next.Reconnecting? || next.Idle?
      case Connected => next.Degraded? || next.Reconnecting? || next.Idle?
      case Degraded => next.Connected? || next.Reconnecting? || next.Idle?
      case Reconnecting => next.Connected? || next.Degraded? || next.Idle?
    }
  }

  datatype Role = NoRole | HostRole | GuestRole

  datatype Exit = NoExit | ByUser | ByKick | RoomClosed | HostGone | TunnelLost

  datatype RoomState = RoomState(
    conn: Conn, role: Role, hostPresent: bool, hostGoneSince: Time, hostLastHeard: Time,
    reconnectingSince: Time, gen: nat, lastExit: Exit)
  {
    predicate Guest() { conn.InRoom() && role.GuestRole? }

    predicate HostSilent(now: Time) {
      role.GuestRole? && hostLastHeard != 0 && now - hostLastHeard >= HOST_SILENCE_LIMIT
    }

    predicate ShouldLeaveForHostAbsence(now: Time) {
      role.GuestRole? && !hostPresent && hostGoneSince != 0 && now - hostGoneSince >= HOST_ABSENCE_LIMIT
    }

    predicate ShouldLeaveForReconnectTimeout(now: Time) {
      conn.InRoom() && reconnectingSince != 0 && now - reconnectingSince >= RECONNECT_LIMIT
    }

    function WithHost(present: bool, now: Time): RoomState {
      if present then this.(hostPresent := true, hostGoneSince := 0, hostLastHeard := now)
      else this.(hostPresent := false,
                 hostGoneSince := if hostPresent || hostGoneSince == 0 then now else hostGoneSince)
    }

    function WithHostAlive(now: Time): RoomState {
      if role.GuestRole? then WithHost(true, now) else this
    }

    function WithTunnelDown(now: Time): RoomState {
      if reconnectingSince == 0 then this.(reconnectingSince := now) else this
    }

    /** The transition, or nothing when the table forbids it; going idle empties the room. */
    function GoneTo(next: Conn, exit: Exit): RoomState {
      if !conn.CanGoTo(next) then this
      else if next.Idle? then Emptied(if exit.NoExit? then lastExit else exit)
      else this.(conn := next)
    }

    function Emptied(exit: Exit): RoomState {
      RoomState(Idle, NoRole, false, 0, 0, 0, gen + 1, exit)
    }

    function Left(exit: Exit): RoomState {
      if conn.InRoom() then GoneTo(Idle, exit) else this
    }

    function WithSilenceNoticed(now: Time): RoomState {
      if HostSilent(now) && hostPresent then WithHost(false, hostLastHeard) else this
    }

    /** The deadlines of one beat, in their order: silence, absence, tunnel. */
    function Enforced(now: Time): RoomState {
      var s := WithSilenceNoticed(now);
      if !conn.InRoom() then this
      else if s.ShouldLeaveForHostAbsence(now) then s.Left(HostGone)
      else if s.ShouldLeaveForReconnectTimeout(now) then s.Left(TunnelLost)
      else s
    }
  }

  datatype Event =
    | Enter(role: Role, now: Time)
    | HeardHost(now: Time)
    | Presence(present: bool, now: Time)
    | HostNotInMesh(now: Time)
    | TunnelWentDown(now: Time)
    | TunnelCameUp(now: Time)
    | Rederived(conn: Conn, now: Time)
    | Tick(now: Time)
    | AbsenceTick(now: Time)
    | Leave(exit: Exit, now: Time)

  function After(s: RoomState, ev: Event): RoomState {
    match ev
    case Enter(role, now) =>
      if s.conn.InRoom() || role.NoRole? then s
      else
        var entered := s.(conn := Connected, role := role);
        if role.GuestRole? then entered.WithHostAlive(now) else entered.(hostPresent := true)
    case HeardHost(now) => if s.conn.InRoom() then s.WithHostAlive(now) else s
    case Presence(present, now) => if s.Guest() then s.WithHost(present, now) else s
    case HostNotInMesh(now) => if s.Guest() && s.conn.Established() then s.WithHost(false, now) else s
    case TunnelWentDown(now) =>
      if !s.conn.InRoom() then s
      else
        var down := s.WithTunnelDown(now);
        (if down.role.HostRole? then down else down.WithHost(false, now)).GoneTo(Reconnecting, NoExit)
    case TunnelCameUp(_) =>
      if s.conn.InRoom() then s.(reconnectingSince := 0).GoneTo(Connected, NoExit) else s
    case Rederived(conn, _) =>
      if s.conn.Established() && s.reconnectingSince == 0 && conn.Established() then s.GoneTo(conn, NoExit) else s
    case Tick(now) => s.Enforced(now)
    case AbsenceTick(now) => if s.ShouldLeaveForHostAbsence(now) then s.Left(HostGone) else s
    case Leave(exit, _) => s.Left(exit)
  }

  /** The fields of RoomState that a session updates in place. */
  class Session {
    var conn: Conn
    var role: Role
    var hostPresent: bool
    var hostGoneSince: Time
    var hostLastHeard: Time
    var reconnectingSince: Time
    var gen: nat
    var lastExit: Exit

    ghost function State(): RoomState
      reads this
    {
      RoomState(conn, role, hostPresent, hostGoneSince, hostLastHeard, reconnectingSince, gen, lastExit)
    }

    constructor ()
      ensures State() == RoomState(Idle, NoRole, false, 0, 0, 0, 0, NoExit)
    {
      conn, role, hostPresent := Idle, NoRole, false;
      hostGoneSince, hostLastHeard, reconnectingSince := 0, 0, 0;
      gen, lastExit := 0, NoExit;
    }

    method SetHostPresent(present: bool, now: Time)
      modifies this
      ensures State() == old(State()).WithHost(present, now)
    {
      if present {
        hostPresent := true;
        hostGoneSince := 0;
        hostLastHeard := now;
        return;
      }
      if hostPresent || hostGoneSince == 0 {
        hostGoneSince := now;
      }
      hostPresent := false;
    }

    method NoteHostAlive(now: Time)
      modifies this
      ensures State() == old(State()).WithHostAlive(now)
    {
      if !role.GuestRole? {
        return;
      }
      SetHostPresent(true, now);
    }

    method SetTunnelDown(now: Time)
      modifies this
      ensures State() == old(State()).WithTunnelDown(now)
    {
      if reconnectingSince == 0 {
        reconnectingSince := now;
      }
    }

    method ClearRoom()
      modifies this
      ensures State() == old(State()).Emptied(lastExit).(conn := conn)
      ensures conn == old(conn) && lastExit == old(lastExit)
    {
      role, hostPresent := NoRole, false;
      hostGoneSince, hostLastHeard, reconnectingSince := 0, 0, 0;
      gen := gen + 1;
    }

    method TransitionWithExit(next: Conn, exit: Exit) returns (ok: bool)
      modifies this
      ensures ok == old(conn).CanGoTo(next)
      ensures State() == old(State()).GoneTo(next, exit)
    {
      if !conn.CanGoTo(next) {
        return false;
      }
      conn := next;
      if next.Idle? {
        ClearRoom();
        if !exit.NoExit? {
          lastExit := exit;
        }
      }
      return true;
    }

    method LeaveLocked(exit: Exit)
      modifies this
      ensures State() == old(State()).Left(exit)
    {
      if !conn.InRoom() {
        return;
      }
      var ok := TransitionWithExit(Idle, exit);
    }

    method LeaveForHostAbsence(now: Time) returns (gone: bool)
      modifies this
      ensures gone == old(State()).ShouldLeaveForHostAbsence(now)
      ensures State() == if gone then old(State()).Left(HostGone) else old(State())
    {
      if !(role.GuestRole? && !hostPresent && hostGoneSince != 0 && now - hostGoneSince >= HOST_ABSENCE_LIMIT) {
        return false;
      }
      LeaveLocked(HostGone);
      return true;
    }

    /** Says whether the room was left. */
    method EnforceDeadlines(now: Time) returns (left: bool)
      modifies this
      ensures State() == old(State()).Enforced(now)
      ensures left <==> old(conn).InRoom() && !conn.InRoom()
    {
      if !conn.InRoom() {
        return false;
      }
      var silent := role.GuestRole? && hostLastHeard != 0 && now - hostLastHeard >= HOST_SILENCE_LIMIT;
      if silent && hostPresent {
        SetHostPresent(false, hostLastHeard);
      }
      var gone := LeaveForHostAbsence(now);
      if gone {
        return true;
      }
      if reconnectingSince != 0 && now - reconnectingSince >= RECONNECT_LIMIT {
        LeaveLocked(TunnelLost);
        return true;
      }
      return false;
    }

    method TunnelDown(now: Time)
      modifies this
      ensures State() == After(old(State()), TunnelWentDown(now))
    {
      if !conn.InRoom() {
        return;
      }
      SetTunnelDown(now);
      if !role.HostRole? {
        SetHostPresent(false, now);
      }
      var ok := TransitionWithExit(Reconnecting, NoExit);
    }
  }

  // --- two-sided bounds over every run ---

  /** The state, the clock, and the last beat that enforced the deadlines. */
  datatype World = World(s: RoomState, clock: Time, lastTick: Time)

  ghost predicate Next(w: World, w': World, ev: Event) {
    && w.clock <= ev.now
    && w'.s == After(w.s, ev)
    && w'.clock == ev.now
    && w'.lastTick == if ev.Tick? || (ev.Enter? && !w.s.conn.InRoom()) then ev.now else w.lastTick
  }

  ghost predicate Run(ws: seq<World>, evs: seq<Event>) {
    && |ws| == |evs| + 1
    && ws[0].s == RoomState(Idle, NoRole, false, 0, 0, 0, 0, NoExit)
    && 0 < ws[0].lastTick <= ws[0].clock
    && forall i | 0 <= i < |evs| :: Next(ws[i], ws[i + 1], evs[i])
  }

  /** A guest's marks: the host was heard, and an absence starts no earlier than that. */
  predicate Marked(w: World) {
    && 0 < w.lastTick <= w.clock
    && (w.s.Guest() ==>
          && 0 < w.s.hostLastHeard <= w.clock
          && (w.s.hostPresent ==> w.s.hostGoneSince == 0)
          && (!w.s.hostPresent ==> w.s.hostLastHeard <= w.s.hostGoneSince <= w.clock))
    && w.s.reconnectingSince <= w.clock
    && (!w.s.conn.InRoom() ==> w.s == RoomState(Idle, NoRole, false, 0, 0, 0, w.s.gen, w.s.lastExit))
  }

  lemma MarksAreKept(w: World, w': World, ev: Event)
    requires Marked(w) && Next(w, w', ev)
    ensures Marked(w')
  {
  }

  lemma {:induction false} AlwaysMarked(ws: seq<World>, evs: seq<Event>, i: nat)
    requires Run(ws, evs) && i < |ws|
    ensures Marked(ws[i])
  {
    if i > 0 {
      AlwaysMarked(ws, evs, i - 1);
      MarksAreKept(ws[i - 1], ws[i], evs[i - 1]);
    }
  }

  predicate ExitsFor(w: World, w': World, exit: Exit) {
    w.s.conn.InRoom() && !w'.s.conn.InRoom() && w'.s.lastExit == exit
  }

  /** A beat ends the room for the host's absence exactly when the host was marked absent an
      absence limit ago, or was still thought present and last heard that long ago. */
  lemma TickLeavesExactly(w: World, w': World, now: Time)
    requires Marked(w) && Next(w, w', Tick(now))
    ensures ExitsFor(w, w', HostGone) <==>
      w.s.Guest() && now >= HOST_ABSENCE_LIMIT + if w.s.hostPresent then w.s.hostLastHeard else w.s.hostGoneSince
  {
  }

  /** Never too soon: whoever is taken out of a room because the host is gone, and did not leave
      on somebody's word, last heard it an absence limit ago. */
  lemma NeverLeavesTooSoon(ws: seq<World>, evs: seq<Event>, i: nat)
    requires Run(ws, evs) && i < |evs|
    requires ExitsFor(ws[i], ws[i + 1], HostGone) && !evs[i].Leave?
    ensures ws[i].s.Guest() && ws[i + 1].clock >= ws[i].s.hostLastHeard + HOST_ABSENCE_LIMIT
  {
    AlwaysMarked(ws, evs, i);
    assert Next(ws[i], ws[i + 1], evs[i]);
  }

  /** While the host stays absent the start of the absence does not move, and it is never
      earlier than the last time the host was heard. */
  lemma AbsenceStartIsFixed(w: World, w': World, ev: Event)
    requires Marked(w) && Next(w, w', ev)
    requires w.s.Guest() && w'.s.Guest() && w.s.gen == w'.s.gen && !w.s.hostPresent && !w'.s.hostPresent
    ensures w'.s.hostGoneSince == w.s.hostGoneSince >= w'.s.hostLastHeard
  {
  }

  /** The next beat comes within `d` of the last one. */
  predicate Timely(w: World, ev: Event, d: nat) { ev.now <= w.lastTick + d }

  predicate Bounded(w: World, d: nat) {
    && w.clock <= w.lastTick + d
    && (w.s.Guest() && w.s.hostPresent ==> w.lastTick < w.s.hostLastHeard + HOST_SILENCE_LIMIT)
    && (w.s.Guest() && !w.s.hostPresent ==>
          && w.s.hostGoneSince < w.s.hostLastHeard + HOST_SILENCE_LIMIT + d
          && w.lastTick < w.s.hostGoneSince + HOST_ABSENCE_LIMIT)
    && (w.s.conn.InRoom() && w.s.reconnectingSince != 0 ==> w.lastTick < w.s.reconnectingSince + RECONNECT_LIMIT)
  }

  lemma BoundsAreKept(w: World, w': World, ev: Event, d: nat)
    requires Marked(w) && Bounded(w, d) && d > 0 && Next(w, w', ev) && Timely(w, ev, d)
    ensures Bounded(w', d)
  {
  }

  /** Never too late: with beats at most `d` apart, a guest still in the room heard its host
      less than both limits and two beats ago, and a tunnel still down went down less than its
      limit and one beat ago. */
  lemma {:induction false} NeverStaysTooLong(ws: seq<World>, evs: seq<Event>, i: nat, d: nat)
    requires Run(ws, evs) && i < |ws| && d > 0 && ws[0].clock <= ws[0].lastTick + d
    requires forall k | 0 <= k < |evs| :: Timely(ws[k], evs[k], d)
    ensures Bounded(ws[i], d)
    ensures ws[i].s.Guest() ==>
      ws[i].clock < ws[i].s.hostLastHeard + HOST_SILENCE_LIMIT + HOST_ABSENCE_LIMIT + 2 * d
    ensures ws[i].s.conn.InRoom() && ws[i].s.reconnectingSince != 0 ==>
      ws[i].clock < ws[i].s.reconnectingSince + RECONNECT_LIMIT + d
  {
    if i > 0 {
      NeverStaysTooLong(ws, evs, i - 1, d);
      AlwaysMarked(ws, evs, i - 1);
      BoundsAreKept(ws[i - 1], ws[i], evs[i - 1], d);
    }
  }
}
