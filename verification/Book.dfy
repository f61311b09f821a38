/** core/domain/credentialbook.go: the credential book as it goes to disk and comes back. */
module Book {
  import opened Common
  import opened Timing
  import opened Members

  datatype RoomId = RoomId(code: string, seed: string)

  datatype BookEntry = BookEntry(
    ip: Addr, id: string, name: string, memberKey: Bytes, issuedAt: Time, expiresAt: Time, revoked: bool)

  datatype CredentialBook = CredentialBook(gen: nat, room: RoomId, entries: seq<BookEntry>)

  /** One entry of the file. A text field that does not parse reads as None. Dates are whole seconds. */
  datatype StoredEntry = StoredEntry(
    ip: Option<Addr>, id: string, name: Option<string>, memberKey: Option<Bytes>,
    issuedAt: nat, expiresAt: nat, revoked: bool)

  datatype BookFile = BookFile(version: nat, gen: nat, room: RoomId, entries: seq<StoredEntry>)

  datatype DecodeError = BadShape | RolledBack | OtherRoom

  datatype Decoded = Opened(book: CredentialBook) | Rejected(error: DecodeError)

  const BOOK_VERSION := 1

  function WholeSeconds(t: Time): nat { t / SECOND }

  function StoredForm(e: BookEntry): StoredEntry {
    StoredEntry(Some(e.ip), e.id, Some(e.name), Some(e.memberKey),
                WholeSeconds(e.issuedAt), WholeSeconds(e.expiresAt), e.revoked)
  }

  /** What survives a trip through the file: the entry with its dates cut to the second. */
  function Rounded(e: BookEntry): BookEntry {
    e.(issuedAt := WholeSeconds(e.issuedAt) * SECOND, expiresAt := WholeSeconds(e.expiresAt) * SECOND)
  }

  predicate Survives(e: BookEntry, room: RoomId, now: Time) {
    (room.code == "" || Is4(e.ip)) && Rounded(e).expiresAt > now && e.memberKey != []
  }

  predicate Acceptable(s: StoredEntry, room: RoomId, now: Time) {
    && s.ip.Some?
    && (room.code == "" || Is4(s.ip.value))
    && s.expiresAt * SECOND > now
    && s.memberKey.Some? && s.memberKey.value != []
  }

  function Reopened(s: StoredEntry): BookEntry
    requires s.ip.Some? && s.memberKey.Some?
  {
    BookEntry(s.ip.value, s.id, if s.name.Some? then s.name.value else "", s.memberKey.value,
              s.issuedAt * SECOND, s.expiresAt * SECOND, s.revoked)
  }

  function StoredForms(es: seq<BookEntry>): seq<StoredEntry> {
    seq(|es|, i requires 0 <= i < |es| => StoredForm(es[i]))
  }

  function FileOf(b: CredentialBook): BookFile {
    BookFile(BOOK_VERSION, b.gen, b.room, StoredForms(b.entries))
  }

  function AcceptedEntries(ss: seq<StoredEntry>, room: RoomId, now: Time): seq<BookEntry> {
    if ss == [] then []
    else
      var s := ss[|ss| - 1];
      AcceptedEntries(ss[..|ss| - 1], room, now) + if Acceptable(s, room, now) then [Reopened(s)] else []
  }

  function BookIn(f: BookFile, knownGen: nat, room: RoomId, now: Time): Decoded {
    if f.version != BOOK_VERSION then Rejected(BadShape)
    else if f.gen < knownGen then Rejected(RolledBack)
    else if f.room != room then Rejected(OtherRoom)
    else Opened(CredentialBook(f.gen, room, AcceptedEntries(f.entries, room, now)))
  }

  method Encode(b: CredentialBook) returns (f: BookFile)
    ensures f == FileOf(b)
  {
    var out: seq<StoredEntry> := [];
    for i := 0 to |b.entries|
      invariant out == StoredForms(b.entries)[..i]
    {
      out := out + [StoredForm(b.entries[i])];
    }
    return BookFile(BOOK_VERSION, b.gen, b.room, out);
  }

  method DecodeCredentialBook(f: BookFile, knownGen: nat, room: RoomId, now: Time) returns (r: Decoded)
    ensures r == BookIn(f, knownGen, room, now)
    ensures r.Rejected? ==>
              r.error == if f.version != 1 then BadShape else if f.gen < knownGen then RolledBack else OtherRoom
    ensures r.Opened? <==> f.version == 1 && knownGen <= f.gen && f.room == room
    ensures r.Opened? ==> r.book.gen == f.gen && r.book.room == room
  {
    if f.version != BOOK_VERSION {
      return Rejected(BadShape);
    }
    if f.gen < knownGen {
      return Rejected(RolledBack);
    }
    if f.room != room {
      return Rejected(OtherRoom);
    }
    var out: seq<BookEntry> := [];
    for i := 0 to |f.entries|
      invariant out == AcceptedEntries(f.entries[..i], room, now)
    {
      assert f.entries[..i + 1][..i] == f.entries[..i];
      var s := f.entries[i];
      if s.ip.None? || (room.code != "" && !Is4(s.ip.value)) {
        continue;
      }
      if s.expiresAt * SECOND <= now {
        continue;
      }
      if s.memberKey.None? || s.memberKey.value == [] {
        continue;
      }
      out := out + [Reopened(s)];
    }
    assert f.entries[..|f.entries|] == f.entries;
    return Opened(CredentialBook(f.gen, room, out));
  }

  /** The entries of `es` that `keep` selects, in their order. */
  ghost function Selected(es: seq<BookEntry>, keep: BookEntry -> bool): seq<BookEntry> {
    if es == [] then []
    else
      Selected(es[..|es| - 1], keep) + if keep(es[|es| - 1]) then [es[|es| - 1]] else []
  }

  ghost function EachRounded(es: seq<BookEntry>): seq<BookEntry> {
    seq(|es|, i requires 0 <= i < |es| => Rounded(es[i]))
  }

  lemma {:induction false} EntriesRoundTrip(es: seq<BookEntry>, room: RoomId, now: Time)
    ensures AcceptedEntries(StoredForms(es), room, now)
         == EachRounded(Selected(es, e => Survives(e, room, now)))
  {
    if es == [] {
    } else {
      var n := |es| - 1;
      EntriesRoundTrip(es[..n], room, now);
      assert StoredForms(es)[..n] == StoredForms(es[..n]);
      var keep := e => Survives(e, room, now);
      var rest := Selected(es[..n], keep);
      assert Selected(es, keep) == rest + if keep(es[n]) then [es[n]] else [];
      assert EachRounded(rest + [es[n]]) == EachRounded(rest) + [Rounded(es[n])];
      assert Reopened(StoredForm(es[n])) == Rounded(es[n]);
      assert rest + [] == rest;
    }
  }

  /** A book read back at `now` under its own room and a generation not above its own is
      exactly its surviving entries, revoked ones included, in order, dates cut to the second. */
  lemma EncodeThenDecode(b: CredentialBook, knownGen: nat, now: Time)
    requires knownGen <= b.gen
    ensures BookIn(FileOf(b), knownGen, b.room, now)
         == Opened(b.(entries := EachRounded(Selected(b.entries, e => Survives(e, b.room, now)))))
  {
    EntriesRoundTrip(b.entries, b.room, now);
  }

  /** A book this host wrote for this room is rejected exactly when it is older than `knownGen`. */
  lemma RejectedOnlyAsRolledBack(b: CredentialBook, knownGen: nat, room: RoomId, now: Time)
    requires b.room == room
    ensures BookIn(FileOf(b), knownGen, room, now).Rejected? <==> b.gen < knownGen
    ensures b.gen < knownGen ==> BookIn(FileOf(b), knownGen, room, now) == Rejected(RolledBack)
  {
  }

  lemma {:induction false} AcceptedComesFromFile(ss: seq<StoredEntry>, room: RoomId, now: Time, e: BookEntry)
    ensures e in AcceptedEntries(ss, room, now)
       <==> exists s :: s in ss && Acceptable(s, room, now) && Reopened(s) == e
  {
    if ss == [] {
    } else {
      var n := |ss| - 1;
      AcceptedComesFromFile(ss[..n], room, now, e);
      assert ss == ss[..n] + [ss[n]];
    }
  }

  /** Entries are read one by one: an address, an IPv4 one in a room with a code, an expiry that is still
      ahead, and a key that is not empty let one in; a name that does not parse and a revocation do not
      keep it out. */
  lemma {:induction false} ReadingGoesEntryByEntry(xs: seq<StoredEntry>, ys: seq<StoredEntry>, room: RoomId, now: Time)
    ensures AcceptedEntries(xs + ys, room, now) == AcceptedEntries(xs, room, now) + AcceptedEntries(ys, room, now)
    ensures |ys| == 1 ==>
              var s := ys[0];
              AcceptedEntries(ys, room, now) ==
                if s.ip.Some? && (room.code == "" || s.ip.value < 0x1_0000_0000) && s.expiresAt * 1_000_000_000 > now
                   && s.memberKey.Some? && s.memberKey.value != []
                then [BookEntry(s.ip.value, s.id, s.name.UnwrapOr(""), s.memberKey.value,
                                s.issuedAt * 1_000_000_000, s.expiresAt * 1_000_000_000, s.revoked)]
                else []
  {
    if ys == [] {
      assert xs + ys == xs;
    } else {
      var n := |ys| - 1;
      ReadingGoesEntryByEntry(xs, ys[..n], room, now);
      assert (xs + ys)[..|xs + ys| - 1] == xs + ys[..n];
    }
  }

  /** An entry that was written comes back as it was, its dates cut to the second, if it is of IPv4 or the
      room has no code, has a key, and is in date; otherwise it does not come back. */
  lemma WrittenEntryComesBack(e: BookEntry, room: RoomId, now: Time)
    ensures
      var issued, expires := e.issuedAt / 1_000_000_000 * 1_000_000_000, e.expiresAt / 1_000_000_000 * 1_000_000_000;
      AcceptedEntries(StoredForms([e]), room, now) ==
        if (room.code == "" || e.ip < 0x1_0000_0000) && e.memberKey != [] && now < expires
        then [e.(issuedAt := issued, expiresAt := expires)] else []
  {
    ReadingGoesEntryByEntry([], StoredForms([e]), room, now);
  }
}
