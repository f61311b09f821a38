/** The host's session: the methods of core/usecase that change the ledger in place. */
module Host {
  import opened Common
  import opened Timing
  import opened Members
  import opened Seats
  import opened Book
  import opened Ledger
  import opened Sorting

  class Host {
    var room: RoomId
    const subnet: Option<Subnet>
    var members: Table
    var gen: nat
    var book: Option<BookFile>
    var roomGen: nat
    var fileRoom: RoomId

    constructor (room: RoomId, subnet: Option<Subnet>)
      ensures State() == Ledger(room, subnet, map[], 0, None, 0, room)
    {
      this.room, this.subnet, fileRoom := room, subnet, room;
      members, gen, book, roomGen := map[], 0, None, 0;
    }

    ghost function State(): Ledger
      reads this
    {
      Ledger(room, subnet, members, gen, book, roomGen, fileRoom)
    }

    method Forget(now: Time)
      modifies this`members
      ensures members == Forgotten(old(members), now)
    {
      var todo := members.Keys;
      while todo != {}
        invariant todo <= old(members).Keys && todo <= members.Keys <= old(members).Keys
        invariant forall ip | ip in todo :: members[ip] == old(members)[ip]
        invariant forall ip | ip in old(members).Keys - todo ::
            if old(members)[ip].VetoLifted(now).WorthKeeping(now)
            then ip in members && members[ip] == old(members)[ip].VetoLifted(now)
            else ip !in members
        decreases |todo|
      {
        var ip :| ip in todo;
        todo := todo - {ip};
        var m := members[ip];
        if m.kicked && now - m.kickedAt >= KICK_GRACE {
          m := m.(kicked := false);
        }
        if m.inMesh || m.hasChannel || m.kicked || (m.cred.Some? && !m.cred.value.Expired(now)) {
          members := members[ip := m];
        } else {
          members := members - {ip};
        }
      }
    }

    /** Reads the mesh, then the open channels, then sweeps. */
    method RefreshMembers(now: Time, mesh: seq<MeshPeer>, channels: seq<Addr>)
      modifies this`members
      ensures members == Refreshed(old(members), now, mesh, channels)
    {
      NoteMesh(now, mesh);
      NoteOutOfMesh(MeshAddresses(mesh));
      NoteChannels(now, channels);
      NoteNoChannel(set c | c in channels);
      PassesMerge(old(members), now, mesh, channels);
      Forget(now);
    }

    method NoteMesh(now: Time, mesh: seq<MeshPeer>)
      modifies this`members
      ensures members == MeshRead(old(members), now, mesh)
    {
      for i := 0 to |mesh|
        invariant members == MeshRead(old(members), now, mesh[..i])
      {
        assert mesh[..i + 1][..i] == mesh[..i];
        var p := mesh[i];
        var m := At(members, p.ip).(inMesh := true, meshAt := now);
        if p.name != "" {
          m := m.(name := p.name);
        }
        members := members[p.ip := m];
      }
      assert mesh[..|mesh|] == mesh;
    }

    method NoteOutOfMesh(seen: set<Addr>)
      modifies this`members
      ensures members == Cleared(old(members), seen)
    {
      var todo := members.Keys;
      while todo != {}
        invariant members.Keys == old(members).Keys && todo <= members.Keys
        invariant forall ip | ip in members ::
            members[ip] == if ip in todo then old(members)[ip] else Cleared(old(members), seen)[ip]
        decreases |todo|
      {
        var ip :| ip in todo;
        todo := todo - {ip};
        if ip !in seen {
          members := members[ip := members[ip].(inMesh := false)];
        }
      }
    }

    method NoteChannels(now: Time, channels: seq<Addr>)
      modifies this`members
      ensures members == ChannelsRead(old(members), now, channels)
    {
      for i := 0 to |channels|
        invariant members == ChannelsRead(old(members), now, channels[..i])
      {
        assert channels[..i + 1][..i] == channels[..i];
        var ip := channels[i];
        var m := At(members, ip);
        if !m.hasChannel {
          m := m.(channelSince := now);
        }
        members := members[ip := m.(hasChannel := true)];
      }
      assert channels[..|channels|] == channels;
    }

    method NoteNoChannel(listening: set<Addr>)
      modifies this`members
      ensures members == Silenced(old(members), listening)
    {
      var todo := members.Keys;
      while todo != {}
        invariant members.Keys == old(members).Keys && todo <= members.Keys
        invariant forall ip | ip in members ::
            members[ip] == if ip in todo then old(members)[ip] else Silenced(old(members), listening)[ip]
        decreases |todo|
      {
        var ip :| ip in todo;
        todo := todo - {ip};
        if ip !in listening {
          members := members[ip := members[ip].(hasChannel := false, channelSince := 0)];
        }
      }
    }

    method CredentialByMember(key: Bytes, now: Time) returns (r: Option<Addr>)
      ensures r.Some? ==> Holds(members, r.value, key, now)
      ensures r.None? ==> forall ip :: !Holds(members, ip, key, now)
    {
      var todo := members.Keys;
      while todo != {}
        invariant todo <= members.Keys
        invariant forall ip | ip in members.Keys - todo :: !Holds(members, ip, key, now)
        decreases |todo|
      {
        var ip :| ip in todo;
        todo := todo - {ip};
        var c := members[ip].cred;
        if c.None? || c.value.revoked || c.value.Expired(now) || c.value.memberKey != key {
          continue;
        }
        return Some(ip);
      }
      return None;
    }

    /** Whom the control channel is opened to, in ascending order. */
    method MemberIps(now: Time, self: Addr) returns (out: seq<Addr>)
      ensures Ascending(out)
      ensures forall ip :: ip in out <==>
                && ip != self && ip in members && !members[ip].kicked
                && (members[ip].inMesh
                    || (members[ip].cred.Some? && !members[ip].cred.value.revoked
                        && (members[ip].cred.value.expiresAt == 0 || now < members[ip].cred.value.expiresAt)))
    {
      out := [];
      var todo := members.Keys;
      while todo != {}
        invariant todo <= members.Keys && Distinct(out)
        invariant forall ip :: ip in out <==> ip != self && ip in members.Keys - todo && members[ip].IsMember(now)
        decreases |todo|
      {
        var ip :| ip in todo;
        todo := todo - {ip};
        if ip == self || !members[ip].IsMember(now) {
          continue;
        }
        AppendFresh(out, ip);
        out := out + [ip];
      }
      SortedNumbersAscend(out);
      out := Sort(out, AtMost);
    }

    method TakenAddresses(p: Subnet, now: Time) returns (taken: set<Addr>)
      ensures taken == Taken(members, p, now)
    {
      taken := {p.addr, HostAddress(p), p.Last()};
      var todo := members.Keys;
      while todo != {}
        invariant todo <= members.Keys
        invariant taken == {p.addr, HostAddress(p), p.Last()}
                         + set ip | ip in members.Keys - todo && members[ip].HoldsSeat(now)
        decreases |todo|
      {
        var ip :| ip in todo;
        todo := todo - {ip};
        if members[ip].inMesh || (members[ip].cred.Some? && !members[ip].cred.value.Expired(now)) {
          taken := taken + {ip};
        }
      }
    }

    method ListEntries() returns (entries: seq<StoredEntry>)
      ensures Lists(entries, members)
    {
      entries := [];
      var todo := members.Keys;
      ghost var done: Table := map[];
      while todo != {}
        invariant todo <= members.Keys && done.Keys == members.Keys - todo
        invariant forall ip | ip in done :: done[ip] == members[ip]
        invariant Lists(entries, done)
        decreases |todo|
      {
        var ip :| ip in todo;
        todo := todo - {ip};
        if members[ip].cred.Some? {
          ListsOneMore(entries, done, ip, members[ip]);
          entries := entries + [StoredForm(EntryOf(ip, members[ip].cred.value))];
        }
        done := done[ip := members[ip]];
      }
      assert done == members;
    }

    /** Writes the book, and only then the room file that carries its generation. */
    method SaveMembers(disk: Disk)
      modifies this`gen, this`book, this`roomGen, this`fileRoom
      ensures Saved(old(State()), State(), disk)
    {
      if room.code == "" {
        return;
      }
      var entries := ListEntries();
      if disk.bookOk {
        book := Some(BookFile(BOOK_VERSION, gen + 1, room, entries));
        gen := gen + 1;
        SaveRoom(disk.roomOk);
      }
    }

    lemma ListsOneMore(entries: seq<StoredEntry>, t: Table, ip: Addr, m: Member)
      requires Lists(entries, t) && ip !in t && m.cred.Some?
      ensures Lists(entries + [StoredForm(EntryOf(ip, m.cred.value))], t[ip := m])
    {
    }

    /** `ok` says whether the write reached the disk. */
    method SaveRoom(ok: bool)
      modifies this`roomGen, this`fileRoom
      ensures State() == RoomSaved(old(State()), ok)
    {
      if ok {
        roomGen := gen;
        fileRoom := room;
      }
    }

    /** A renewed code goes into memory and into the room file; the book is not written. */
    method TakeNewCode(next: RoomId, ok: bool)
      modifies this`room, this`roomGen, this`fileRoom
      ensures State() == RoomSaved(old(State()).(room := next), ok)
    {
      room := next;
      SaveRoom(ok);
    }

    /** A restart: memory is lost and the book is overlaid on an empty table. */
    method ResumeFromDisk(readable: bool, now: Time)
      modifies this`members, this`gen, this`room
      ensures State() == Reopen(old(State()), readable, now)
    {
      members, room := map[], fileRoom;
      if book.None? || !readable {
        gen := roomGen;
        return;
      }
      var decoded := DecodeCredentialBook(book.value, roomGen, room, now);
      if decoded.Rejected? {
        gen := roomGen;
        return;
      }
      var entries := decoded.book.entries;
      for i := 0 to |entries|
        invariant room == fileRoom && members == Loaded(map[], entries[..i])
      {
        assert entries[..i + 1][..i] == entries[..i];
        var e := entries[i];
        members := members[e.ip := At(members, e.ip).(cred := Some(CredentialOf(e)), name := e.name)];
      }
      assert entries[..|entries|] == entries;
      gen := decoded.book.gen;
    }

    method IssueCredentialFor(q: Request, w: Clocks, e: Engine, disk: Disk) returns (out: Outcome)
      modifies this
      ensures Issue(old(State()), State(), q, w, e, disk, out)
    {
      if q.name == "" || q.memberKey == [] {
        return Refused;
      }
      var found := CredentialByMember(q.memberKey, w.find);
      if found.Some? {
        var ip := found.value;
        if e.renewal.Some? {
          var c := members[ip].cred.value.(expiresAt := e.renewal.value, name := q.name);
          members := members[ip := members[ip].(cred := Some(c), name := c.name)];
          SaveMembers(disk);
          return Returned(ip, c);
        }
        members := members[ip := members[ip].(cred := None)];
      }
      label searched:
      if subnet.None? {
        return Refused;
      }
      var taken := TakenAddresses(subnet.value, w.scan);
      var free := NextFreeAddress(subnet, taken);
      if free.None? || e.issued.None? {
        return Refused;
      }
      SomeSeat(subnet.value, taken, free.value);
      var cred := NewCredential(q, e.issued.value, w.stamp);
      members := members[free.value := At(members, free.value).(cred := Some(cred), name := cred.name)];
      SaveMembers(disk);
      out := Fresh(free.value, cred);
      assert IssueFresh(old@searched(State()), State(), q, w, e, disk, out);
    }

    lemma SomeSeat(p: Subnet, taken: set<Addr>, a: Addr)
      requires IsSmallestFree(p, taken, a)
      ensures a in FreeSet(p, taken)
    {
      assert Between(p.addr, a, p.Last() + 1);
    }

    /** `listed` and `isSelf` describe the peer list; `complete` says that the engine revoked
        and the rules were applied. Returns whether anybody was expelled. */
    method KickMember(ip: Addr, listed: bool, isSelf: bool, find: Time, now: Time, complete: bool, disk: Disk)
      returns (expelled: bool)
      modifies this
      ensures Kick(old(State()), State(), ip, listed, isSelf, find, now, complete, disk)
      ensures expelled <==>
                && !(listed && isSelf) && ip in old(members) && old(members)[ip].cred.Some?
                && (listed
                    || (!old(members)[ip].cred.value.revoked
                        && (old(members)[ip].cred.value.expiresAt == 0
                            || find < old(members)[ip].cred.value.expiresAt)))
      ensures !expelled ==> State() == old(State())
      ensures expelled ==> members == old(members)[ip := old(members)[ip].(
                kicked := true, kickedAt := now,
                cred := Some(old(members)[ip].cred.value.(revoked := true, expiresAt := now + ARRIVAL_GRACE)))]
    {
      var live := ip in members && members[ip].cred.Some? && members[ip].cred.value.Live(find);
      if !listed && !live {
        return false;
      }
      if listed && isSelf {
        return false;
      }
      if ip !in members || members[ip].cred.None? {
        return false;
      }
      var c := members[ip].cred.value.(revoked := true, expiresAt := now + ARRIVAL_GRACE);
      members := members[ip := members[ip].(kicked := true, kickedAt := now, cred := Some(c))];
      if complete {
        SaveMembers(disk);
      }
      return true;
    }

    /** One member of the round. */
    method RenewOne(ip: Addr, now: Time, answers: map<Addr, Time>) returns (renewed: bool)
      requires ip in members
      modifies this`members
      ensures members == old(members)[ip := Renewal(old(members)[ip], ip, now, answers)]
      ensures renewed == (ip in answers && Renewable(old(members)[ip], now))
      ensures renewed <==>
                && ip in answers && old(members)[ip].cred.Some? && !old(members)[ip].cred.value.revoked
                && (old(members)[ip].cred.value.expiresAt == 0 || now < old(members)[ip].cred.value.expiresAt)
                && (old(members)[ip].inMesh || now < old(members)[ip].cred.value.issuedAt + ARRIVAL_GRACE)
    {
      var m := members[ip];
      assert members[ip := m] == members;
      if m.cred.None? {
        return false;
      }
      var c := m.cred.value;
      if c.Expired(now) || c.revoked {
        return false;
      }
      if !m.inMesh && !c.ArrivalGraceOpen(now) {
        return false;
      }
      if ip !in answers {
        return false;
      }
      members := members[ip := m.(cred := Some(c.(expiresAt := answers[ip])))];
      return true;
    }

    method RenewEach(now: Time, answers: map<Addr, Time>) returns (renewed: nat)
      modifies this`members
      ensures members == Renewed(old(members), now, answers)
      ensures renewed > 0 <==> AnyRenewed(old(members), now, answers)
    {
      ghost var t := members;
      renewed := 0;
      var todo := members.Keys;
      while todo != {}
        invariant todo <= members.Keys && RenewedBut(t, members, todo, now, answers)
        invariant renewed > 0 ==> AnyRenewed(t, now, answers)
        invariant renewed == 0 ==> NoneDue(t, t.Keys - todo, now, answers)
        decreases |todo|
      {
        var ip :| ip in todo;
        OneMoreRenewed(t, members, todo, ip, now, answers);
        todo := todo - {ip};
        var done := RenewOne(ip, now, answers);
        if done {
          renewed := renewed + 1;
        }
      }
    }

    method RenewCredentials(now: Time, answers: map<Addr, Time>, disk: Disk)
      modifies this
      ensures Renew(old(State()), State(), now, answers, disk)
    {
      var renewed := RenewEach(now, answers);
      if renewed > 0 {
        SaveMembers(disk);
      }
    }
  }
}
