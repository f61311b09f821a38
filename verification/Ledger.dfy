/** The membership ledger as a state machine: what each step of the host may do to it. */
module Ledger {
  import opened Common
  import opened Timing
  import opened Members
  import opened Seats
  import opened Book

  /** Memory, and the two files: the book of credentials, and the code and generation that the room
      file carries. Renewing the code changes `room`. */
  datatype Ledger = Ledger(
    room: RoomId, subnet: Option<Subnet>, members: Table, gen: nat, book: Option<BookFile>, roomGen: nat,
    fileRoom: RoomId)

  function EntryOf(ip: Addr, c: Credential): BookEntry {
    BookEntry(ip, c.id, c.name, c.memberKey, c.issuedAt, c.expiresAt, c.revoked)
  }

  function CredentialOf(e: BookEntry): Credential {
    Credential(e.id, e.name, e.memberKey, e.issuedAt, e.expiresAt, e.revoked)
  }

  // --- writing and reading the files ---

  /** Whether each of the two writes of a save reached the disk, in their order. */
  datatype Disk = Disk(bookOk: bool, roomOk: bool)

  /** `ss` lists every credential of `ms` once, in any order. */
  ghost predicate Lists(ss: seq<StoredEntry>, ms: Table) {
    && (forall s | s in ss ::
          s.ip.Some? && s.ip.value in ms && ms[s.ip.value].cred.Some?
          && s == StoredForm(EntryOf(s.ip.value, ms[s.ip.value].cred.value)))
    && (forall ip | ip in ms && ms[ip].cred.Some? :: StoredForm(EntryOf(ip, ms[ip].cred.value)) in ss)
    && (forall i, j | 0 <= i < j < |ss| :: ss[i].ip != ss[j].ip)
  }

  /** The room file carries the code and the generation of memory. */
  function RoomSaved(l: Ledger, ok: bool): Ledger {
    if ok then l.(roomGen := l.gen, fileRoom := l.room) else l
  }

  ghost predicate Saved(l: Ledger, l': Ledger, disk: Disk) {
    if l.room.code == "" || !disk.bookOk then l' == l
    else
      && l'.book.Some?
      && l'.book.value.version == BOOK_VERSION && l'.book.value.gen == l.gen + 1 && l'.book.value.room == l.room
      && Lists(l'.book.value.entries, l.members)
      && l' == RoomSaved(l.(gen := l.gen + 1, book := l'.book), disk.roomOk)
  }

  function WithEntry(t: Table, e: BookEntry): Table {
    t[e.ip := At(t, e.ip).(cred := Some(CredentialOf(e)), name := e.name)]
  }

  function Loaded(t: Table, es: seq<BookEntry>): Table {
    if es == [] then t else WithEntry(Loaded(t, es[..|es| - 1]), es[|es| - 1])
  }

  /** The process dies and the room is opened again from the files. */
  function Reopen(l: Ledger, readable: bool, now: Time): Ledger {
    if OpensBook(l, readable, now)
    then
      var b := BookIn(l.book.value, l.roomGen, l.fileRoom, now).book;
      l.(room := l.fileRoom, members := Loaded(map[], b.entries), gen := b.gen)
    else l.(room := l.fileRoom, members := map[], gen := l.roomGen)
  }

  predicate OpensBook(l: Ledger, readable: bool, now: Time) {
    readable && l.book.Some? && BookIn(l.book.value, l.roomGen, l.fileRoom, now).Opened?
  }

  // --- IssueCredentialFor ---

  datatype Request = Request(name: string, memberKey: Bytes)

  /** The instants at which a call reads the clock: searching, scanning, stamping. */
  datatype Clocks = Clocks(find: Time, scan: Time, stamp: Time)

  /** The engine's answers: the date a renewal got, and the id of a new credential. */
  datatype Engine = Engine(renewal: Option<Time>, issued: Option<string>)

  datatype Outcome = Returned(ip: Addr, cred: Credential) | Fresh(ip: Addr, cred: Credential) | Refused

  function WithCredential(t: Table, ip: Addr, c: Credential): Table {
    t[ip := At(t, ip).(cred := Some(c), name := c.name)]
  }

  function WithoutCredential(t: Table, ip: Addr): Table {
    t[ip := At(t, ip).(cred := None)]
  }

  function NewCredential(q: Request, id: string, now: Time): Credential {
    Credential(id, q.name, q.memberKey, now, now + CREDENTIAL_TTL, false)
  }

  ghost predicate IssueFresh(l: Ledger, l': Ledger, q: Request, w: Clocks, e: Engine, disk: Disk, out: Outcome)
  {
    if l.subnet.None? || FreeSet(l.subnet.value, Taken(l.members, l.subnet.value, w.scan)) == {} || e.issued.None?
    then l' == l && out == Refused
    else
      && out.Fresh?
      && IsSmallestFree(l.subnet.value, Taken(l.members, l.subnet.value, w.scan), out.ip)
      && out.cred == NewCredential(q, e.issued.value, w.stamp)
      && Saved(l.(members := WithCredential(l.members, out.ip, out.cred)), l', disk)
  }

  ghost predicate IssueReturning(
    l: Ledger, l': Ledger, ip: Addr, q: Request, w: Clocks, e: Engine, disk: Disk, out: Outcome)
    requires Holds(l.members, ip, q.memberKey, w.find)
  {
    var c := l.members[ip].cred.value;
    if e.renewal.Some? then
      && out == Returned(ip, c.(expiresAt := e.renewal.value, name := q.name))
      && Saved(l.(members := WithCredential(l.members, ip, out.cred)), l', disk)
    else IssueFresh(l.(members := WithoutCredential(l.members, ip)), l', q, w, e, disk, out)
  }

  ghost predicate Issue(l: Ledger, l': Ledger, q: Request, w: Clocks, e: Engine, disk: Disk, out: Outcome)
  {
    if q.name == "" || q.memberKey == [] then l' == l && out == Refused
    else if forall ip :: !Holds(l.members, ip, q.memberKey, w.find) then IssueFresh(l, l', q, w, e, disk, out)
    else exists ip :: Holds(l.members, ip, q.memberKey, w.find) && IssueReturning(l, l', ip, q, w, e, disk, out)
  }

  // --- KickMember ---

  predicate Kickable(t: Table, ip: Addr, listed: bool, isSelf: bool, find: Time) {
    && (listed || (ip in t && t[ip].cred.Some? && t[ip].cred.value.Live(find)))
    && !(listed && isSelf)
    && ip in t && t[ip].cred.Some?
  }

  function Kicked(t: Table, ip: Addr, now: Time): Table
    requires ip in t && t[ip].cred.Some?
  {
    t[ip := t[ip].(kicked := true, kickedAt := now,
                   cred := Some(t[ip].cred.value.(revoked := true, expiresAt := now + ARRIVAL_GRACE)))]
  }

  /** `complete` says that the engine revoked and that the rules were applied. */
  ghost predicate Kick(
    l: Ledger, l': Ledger, ip: Addr, listed: bool, isSelf: bool, find: Time, now: Time, complete: bool, disk: Disk)
  {
    if !Kickable(l.members, ip, listed, isSelf, find) then l' == l
    else
      var kicked := l.(members := Kicked(l.members, ip, now));
      if complete then Saved(kicked, l', disk) else l' == kicked
  }

  // --- renewCredentialsLocked ---

  predicate Renewable(m: Member, now: Time) {
    m.cred.Some? && m.cred.value.Live(now) && (m.inMesh || m.cred.value.ArrivalGraceOpen(now))
  }

  /** `answers` holds the dates of the renewals that the engine accepted. */
  function Renewal(m: Member, ip: Addr, now: Time, answers: map<Addr, Time>): Member {
    if Renewable(m, now) && ip in answers then m.(cred := Some(m.cred.value.(expiresAt := answers[ip]))) else m
  }

  function Renewed(t: Table, now: Time, answers: map<Addr, Time>): Table {
    map ip | ip in t :: Renewal(t[ip], ip, now, answers)
  }

  ghost predicate AnyRenewed(t: Table, now: Time, answers: map<Addr, Time>) {
    exists ip :: ip in t && ip in answers && Renewable(t[ip], now)
  }

  /** Everybody but `todo` went through the round already. */
  ghost predicate RenewedBut(t: Table, t': Table, todo: set<Addr>, now: Time, answers: map<Addr, Time>) {
    && t'.Keys == t.Keys
    && forall ip | ip in t :: t'[ip] == if ip in todo then t[ip] else Renewal(t[ip], ip, now, answers)
  }

  ghost predicate NoneDue(t: Table, seen: set<Addr>, now: Time, answers: map<Addr, Time>) {
    forall ip | ip in seen && ip in t && ip in answers :: !Renewable(t[ip], now)
  }

  lemma OneMoreRenewed(t: Table, t': Table, todo: set<Addr>, ip: Addr, now: Time, answers: map<Addr, Time>)
    requires RenewedBut(t, t', todo, now, answers) && ip in todo && ip in t
    ensures t'[ip] == t[ip]
    ensures RenewedBut(t, t'[ip := Renewal(t'[ip], ip, now, answers)], todo - {ip}, now, answers)
    ensures NoneDue(t, t.Keys - todo, now, answers) && !(ip in answers && Renewable(t[ip], now)) ==>
              NoneDue(t, t.Keys - (todo - {ip}), now, answers)
  {
  }

  ghost predicate Renew(l: Ledger, l': Ledger, now: Time, answers: map<Addr, Time>, disk: Disk) {
    var renewed := l.(members := Renewed(l.members, now, answers));
    if AnyRenewed(l.members, now, answers) then Saved(renewed, l', disk) else l' == renewed
  }

  // --- every step of the host ---

  datatype Event =
    | Issuing(q: Request, w: Clocks, e: Engine, disk: Disk, out: Outcome)
    | Kicking(ip: Addr, listed: bool, isSelf: bool, find: Time, now: Time, complete: bool, disk: Disk)
    | Renewing(now: Time, answers: map<Addr, Time>, disk: Disk)
    | Refreshing(now: Time, mesh: seq<MeshPeer>, channels: seq<Addr>)
    | Forgetting(now: Time)
    | SavingRoom(now: Time, ok: bool)
    | RenewingCode(now: Time, room: RoomId, ok: bool)
    | Rebooting(now: Time, readable: bool)
  {
    function Starts(): Time {
      match this
      case Issuing(_, w, _, _, _) => w.find
      case Kicking(_, _, _, find, _, _, _) => find
      case _ => this.now
    }

    function Ends(): Time {
      match this
      case Issuing(_, w, _, _, _) => w.stamp
      case _ => this.now
    }

    /** The clock never goes back while a step runs. */
    predicate InOrder() {
      match this
      case Issuing(_, w, _, _, _) => w.find <= w.scan <= w.stamp
      case Kicking(_, _, _, find, now, _, _) => find <= now
      case _ => true
    }
  }

  ghost predicate Steps(l: Ledger, l': Ledger, ev: Event)
  {
    match ev
    case Issuing(q, w, e, disk, out) => Issue(l, l', q, w, e, disk, out)
    case Kicking(ip, listed, isSelf, find, now, complete, disk) =>
      Kick(l, l', ip, listed, isSelf, find, now, complete, disk)
    case Renewing(now, answers, disk) => Renew(l, l', now, answers, disk)
    case Refreshing(now, mesh, channels) => l' == l.(members := Refreshed(l.members, now, mesh, channels))
    case Forgetting(now) => l' == l.(members := Forgotten(l.members, now))
    case SavingRoom(_, ok) => l' == RoomSaved(l, ok)
    case RenewingCode(_, room, ok) => l' == RoomSaved(l.(room := room), ok)
    case Rebooting(now, readable) => l' == Reopen(l, readable, now)
  }
}
