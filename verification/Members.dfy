/** core/domain/member.go and the credential it carries: one record per address. */
module Members {
  import opened Common
  import opened Timing

  /** Addresses are numbers; those below 2^32 are the IPv4 ones. */
  type Addr = nat

  predicate Is4(a: Addr) { a < 0x1_0000_0000 }

  datatype Credential = Credential(
    id: string, name: string, memberKey: Bytes, issuedAt: Time, expiresAt: Time, revoked: bool)
  {
    /** An unset date never expires. */
    predicate Expired(now: Time) { expiresAt != 0 && now >= expiresAt }

    predicate Live(now: Time) { !revoked && !Expired(now) }

    predicate ArrivalGraceOpen(now: Time) { now - issuedAt < ARRIVAL_GRACE }
  }

  datatype Member = Member(
    name: string, inMesh: bool, meshAt: Time, hasChannel: bool, channelSince: Time,
    kicked: bool, kickedAt: Time, cred: Option<Credential>)
  {
    predicate IsMember(now: Time) {
      !kicked && (inMesh || (cred.Some? && cred.value.Live(now)))
    }

    /** What makes an address unavailable to the allocator. */
    predicate HoldsSeat(now: Time) {
      inMesh || (cred.Some? && !cred.value.Expired(now))
    }

    function VetoLifted(now: Time): Member {
      if kicked && now - kickedAt >= KICK_GRACE then this.(kicked := false) else this
    }

    predicate WorthKeeping(now: Time) {
      inMesh || hasChannel || kicked || (cred.Some? && !cred.value.Expired(now))
    }
  }

  type Table = map<Addr, Member>

  const BLANK := Member("", false, 0, false, 0, false, 0, None)

  function At(t: Table, ip: Addr): Member {
    if ip in t then t[ip] else BLANK
  }

  /** The member at `ip` carries a credential of `key` that still authorises. */
  ghost predicate Holds(t: Table, ip: Addr, key: Bytes, now: Time) {
    ip in t && t[ip].cred.Some? && t[ip].cred.value.Live(now) && t[ip].cred.value.memberKey == key
  }

  function Forgotten(t: Table, now: Time): Table {
    map ip | ip in t && t[ip].VetoLifted(now).WorthKeeping(now) :: t[ip].VetoLifted(now)
  }

  datatype MeshPeer = MeshPeer(ip: Addr, name: string)

  /** The last non-empty name the mesh reported for `ip`, or `otherwise`. */
  function ReportedName(mesh: seq<MeshPeer>, ip: Addr, otherwise: string): string {
    if mesh == [] then otherwise
    else
      var last := mesh[|mesh| - 1];
      if last.ip == ip && last.name != "" then last.name
      else ReportedName(mesh[..|mesh| - 1], ip, otherwise)
  }

  function MeshAddresses(mesh: seq<MeshPeer>): set<Addr> {
    set p | p in mesh :: p.ip
  }

  /** One pass over the mesh reading, in its order. */
  function MeshRead(t: Table, now: Time, mesh: seq<MeshPeer>): Table {
    if mesh == [] then t
    else
      var p := mesh[|mesh| - 1];
      var before := MeshRead(t, now, mesh[..|mesh| - 1]);
      var m := At(before, p.ip).(inMesh := true, meshAt := now);
      before[p.ip := if p.name != "" then m.(name := p.name) else m]
  }

  lemma {:induction false} MeshReadAt(t: Table, now: Time, mesh: seq<MeshPeer>, ip: Addr)
    ensures ip in MeshRead(t, now, mesh) <==> ip in t || ip in MeshAddresses(mesh)
    ensures At(MeshRead(t, now, mesh), ip).(inMesh := ip in MeshAddresses(mesh)) == Sighted(At(t, ip), ip, now, mesh)
    ensures ip in MeshAddresses(mesh) ==> At(MeshRead(t, now, mesh), ip).inMesh
  {
    if mesh == [] {
    } else {
      var init, p := mesh[..|mesh| - 1], mesh[|mesh| - 1];
      MeshReadAt(t, now, init, ip);
      OneMorePeer(mesh);
      var before := MeshRead(t, now, init);
      if p.ip != ip {
        assert At(MeshRead(t, now, mesh), ip) == At(before, ip);
        assert ReportedName(mesh, ip, At(t, ip).name) == ReportedName(init, ip, At(t, ip).name);
      }
    }
  }

  lemma OneMorePeer(mesh: seq<MeshPeer>)
    requires mesh != []
    ensures MeshAddresses(mesh) == MeshAddresses(mesh[..|mesh| - 1]) + {mesh[|mesh| - 1].ip}
  {
    assert mesh == mesh[..|mesh| - 1] + [mesh[|mesh| - 1]];
  }

  function ChannelsRead(t: Table, now: Time, channels: seq<Addr>): Table {
    if channels == [] then t
    else
      var ip := channels[|channels| - 1];
      var before := ChannelsRead(t, now, channels[..|channels| - 1]);
      var m := At(before, ip);
      before[ip := m.(hasChannel := true, channelSince := if m.hasChannel then m.channelSince else now)]
  }

  lemma {:induction false} ChannelsReadAt(t: Table, now: Time, channels: seq<Addr>, ip: Addr)
    ensures ip in ChannelsRead(t, now, channels) <==> ip in t || ip in channels
    ensures At(ChannelsRead(t, now, channels), ip)
         == if ip in channels then Listening(At(t, ip), ip, now, channels) else At(t, ip)
  {
    if channels == [] {
    } else {
      var n := |channels| - 1;
      ChannelsReadAt(t, now, channels[..n], ip);
      assert channels == channels[..n] + [channels[n]];
    }
  }

  function Sighted(m: Member, ip: Addr, now: Time, mesh: seq<MeshPeer>): Member {
    m.(inMesh := ip in MeshAddresses(mesh),
       meshAt := if ip in MeshAddresses(mesh) then now else m.meshAt,
       name := ReportedName(mesh, ip, m.name))
  }

  function Listening(m: Member, ip: Addr, now: Time, channels: seq<Addr>): Member {
    m.(hasChannel := ip in channels,
       channelSince := if ip !in channels then 0 else if m.hasChannel then m.channelSince else now)
  }

  function Cleared(t: Table, seen: set<Addr>): Table {
    map ip | ip in t :: if ip in seen then t[ip] else t[ip].(inMesh := false)
  }

  function Silenced(t: Table, listening: set<Addr>): Table {
    map ip | ip in t :: if ip in listening then t[ip] else t[ip].(hasChannel := false, channelSince := 0)
  }

  function Merged(t: Table, now: Time, mesh: seq<MeshPeer>, channels: seq<Addr>): Table {
    map ip | ip in t.Keys + MeshAddresses(mesh) + (set c | c in channels) ::
      Listening(Sighted(At(t, ip), ip, now, mesh), ip, now, channels)
  }

  /** The four passes over the table amount to one verdict per address, whatever their order. */
  lemma PassesMerge(t: Table, now: Time, mesh: seq<MeshPeer>, channels: seq<Addr>)
    ensures Silenced(ChannelsRead(Cleared(MeshRead(t, now, mesh), MeshAddresses(mesh)), now, channels),
                     set c | c in channels)
         == Merged(t, now, mesh, channels)
  {
    var after := Silenced(ChannelsRead(Cleared(MeshRead(t, now, mesh), MeshAddresses(mesh)), now, channels),
                          set c | c in channels);
    forall ip: Addr
      ensures ip in after <==> ip in Merged(t, now, mesh, channels)
      ensures ip in after ==> after[ip] == Merged(t, now, mesh, channels)[ip]
    {
      PassesMergeAt(t, now, mesh, channels, ip);
    }
  }

  lemma PassesMergeAt(t: Table, now: Time, mesh: seq<MeshPeer>, channels: seq<Addr>, ip: Addr)
    ensures
      var cleared := Cleared(MeshRead(t, now, mesh), MeshAddresses(mesh));
      var after := Silenced(ChannelsRead(cleared, now, channels), set c | c in channels);
      && (ip in after <==> ip in Merged(t, now, mesh, channels))
      && (ip in after ==> after[ip] == Merged(t, now, mesh, channels)[ip])
  {
    var cleared := Cleared(MeshRead(t, now, mesh), MeshAddresses(mesh));
    MeshReadAt(t, now, mesh, ip);
    assert At(cleared, ip) == Sighted(At(t, ip), ip, now, mesh);
    ChannelsReadAt(cleared, now, channels, ip);
  }

  /** What a mesh reading and the list of open channels make of the table. */
  function Refreshed(t: Table, now: Time, mesh: seq<MeshPeer>, channels: seq<Addr>): Table {
    Forgotten(Merged(t, now, mesh, channels), now)
  }

  /** One sweep, field by field: what is in the mesh, has a channel, is in the first KICK_GRACE of its
      veto, or carries a credential in date stays, and nothing else does; only old vetoes change. */
  lemma SweepKeepsExactly(t: Table, now: Time, ip: Addr)
    ensures ip in Forgotten(t, now) <==>
              && ip in t
              && (t[ip].inMesh || t[ip].hasChannel || (t[ip].kicked && now < t[ip].kickedAt + KICK_GRACE)
                  || (t[ip].cred.Some? && (t[ip].cred.value.expiresAt == 0 || now < t[ip].cred.value.expiresAt)))
    ensures ip in Forgotten(t, now) ==>
              Forgotten(t, now)[ip] == t[ip].(kicked := t[ip].kicked && now < t[ip].kickedAt + KICK_GRACE)
  {
  }

  predicate IsReported(mesh: seq<MeshPeer>, ip: Addr) { exists p :: p in mesh && p.ip == ip }

  /** The `k`-th peer is the last one to report a name for `ip`. */
  predicate NamedLast(mesh: seq<MeshPeer>, ip: Addr, k: nat) {
    && k < |mesh| && mesh[k].ip == ip && mesh[k].name != ""
    && forall j | k < j < |mesh| && mesh[j].ip == ip :: mesh[j].name == ""
  }

  lemma {:induction false} LastNameCounts(mesh: seq<MeshPeer>, ip: Addr, otherwise: string, k: nat)
    requires NamedLast(mesh, ip, k)
    ensures ReportedName(mesh, ip, otherwise) == mesh[k].name
  {
    var n := |mesh| - 1;
    if k < n {
      assert NamedLast(mesh[..n], ip, k);
      LastNameCounts(mesh[..n], ip, otherwise, k);
    }
  }

  lemma {:induction false} NamelessKeepsName(mesh: seq<MeshPeer>, ip: Addr, otherwise: string)
    requires forall p | p in mesh && p.ip == ip :: p.name == ""
    ensures ReportedName(mesh, ip, otherwise) == otherwise
  {
    if mesh != [] {
      assert mesh[|mesh| - 1] in mesh;
      NamelessKeepsName(mesh[..|mesh| - 1], ip, otherwise);
    }
  }

  /** A refresh, field by field: who is in the mesh and who has a channel is what was just read, with its
      dates; the last name that is not empty counts; and credentials are left as they were. */
  lemma RefreshShows(t: Table, now: Time, mesh: seq<MeshPeer>, channels: seq<Addr>, ip: Addr)
    requires ip in Refreshed(t, now, mesh, channels)
    ensures
      var m, m' := At(t, ip), Refreshed(t, now, mesh, channels)[ip];
      && (m'.inMesh <==> IsReported(mesh, ip)) && m'.meshAt == (if IsReported(mesh, ip) then now else m.meshAt)
      && (m'.hasChannel <==> ip in channels)
      && m'.channelSince == (if ip !in channels then 0 else if m.hasChannel then m.channelSince else now)
      && (forall k: nat | NamedLast(mesh, ip, k) :: m'.name == mesh[k].name)
      && ((forall p | p in mesh && p.ip == ip :: p.name == "") ==> m'.name == m.name)
      && m'.cred == m.cred && m'.kickedAt == m.kickedAt
      && (m'.kicked <==> m.kicked && now < m.kickedAt + KICK_GRACE)
  {
    assert ip in MeshAddresses(mesh) <==> IsReported(mesh, ip);
    forall k: nat | NamedLast(mesh, ip, k)
      ensures ReportedName(mesh, ip, At(t, ip).name) == mesh[k].name
    {
      LastNameCounts(mesh, ip, At(t, ip).name, k);
    }
    if forall p | p in mesh && p.ip == ip :: p.name == "" {
      NamelessKeepsName(mesh, ip, At(t, ip).name);
    }
    SweepKeepsExactly(Merged(t, now, mesh, channels), now, ip);
  }

  /** Whoever is reported, has a channel, or holds a credential in date is there after a refresh. */
  lemma RefreshKeepsExactly(t: Table, now: Time, mesh: seq<MeshPeer>, channels: seq<Addr>, ip: Addr)
    ensures ip in Refreshed(t, now, mesh, channels) <==>
              || IsReported(mesh, ip) || ip in channels
              || (ip in t && t[ip].kicked && now < t[ip].kickedAt + KICK_GRACE)
              || (ip in t && t[ip].cred.Some?
                  && (t[ip].cred.value.expiresAt == 0 || now < t[ip].cred.value.expiresAt))
  {
    assert ip in MeshAddresses(mesh) <==> IsReported(mesh, ip);
    SweepKeepsExactly(Merged(t, now, mesh, channels), now, ip);
  }
}
