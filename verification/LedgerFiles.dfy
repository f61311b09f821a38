/** The two files of the host over every run: what a restart finds, and what it brings back. */
module LedgerFiles {
  import opened Common
  import opened Timing
  import opened Members
  import opened Seats
  import opened Book
  import opened Ledger
  import opened LedgerRuns
  import opened LedgerSafety

  ghost predicate FilesAgree(l: Ledger) {
    && l.roomGen <= l.gen
    && (l.book.Some? ==>
          && l.book.value.version == BOOK_VERSION && l.gen <= l.book.value.gen
          && forall i, j | 0 <= i < j < |l.book.value.entries| ::
               l.book.value.entries[i].ip != l.book.value.entries[j].ip)
  }

  lemma StepKeepsAgreement(w: World, w': World, ev: Event)
    requires FilesAgree(w.l) && Next(w, w', ev)
    ensures FilesAgree(w'.l) && w.l.roomGen <= w'.l.roomGen
  {
    if ev.Issuing? {
      var mid := IssueShape(w, w', ev);
    }
  }

  lemma AgreementAt(ws: seq<World>, evs: seq<Event>, i: nat)
    requires Run(ws, evs) && i < |evs| && FilesAgree(ws[i].l)
    ensures FilesAgree(ws[i + 1].l) && ws[i].l.roomGen <= ws[i + 1].l.roomGen
  {
    assert StepAt(ws, evs, i);
    StepKeepsAgreement(ws[i], ws[i + 1], evs[i]);
  }

  lemma {:induction false} FilesAlwaysAgree(ws: seq<World>, evs: seq<Event>, i: nat)
    requires Run(ws, evs) && i < |ws|
    ensures FilesAgree(ws[i].l)
  {
    if i > 0 {
      FilesAlwaysAgree(ws, evs, i - 1);
      AgreementAt(ws, evs, i - 1);
    }
  }

  // --- when the book opens ---

  /** For every pattern of failed writes, unreadable files, renewed codes and restarts, the book on disk
      is never too old for the room file. It is rejected exactly when the two carry different codes. */
  lemma BookOpensExactlyForItsCode(ws: seq<World>, evs: seq<Event>, i: nat, now: Time)
    requires Run(ws, evs) && i < |ws| && ws[i].l.book.Some?
    ensures
      var l := ws[i].l;
      var decoded := BookIn(l.book.value, l.roomGen, l.fileRoom, now);
      && (decoded.Opened? <==> l.book.value.room == l.fileRoom)
      && (decoded.Rejected? ==> decoded == Rejected(OtherRoom))
  {
    FilesAlwaysAgree(ws, evs, i);
  }

  /** A step that writes the room file without the book, under a code that is not `code`. */
  predicate FilesOtherCode(w: World, ev: Event, code: RoomId) {
    || (ev.RenewingCode? && ev.ok && ev.room != code)
    || (ev.SavingRoom? && ev.ok && w.l.room != code)
  }

  ghost predicate SameBook(ws: seq<World>, evs: seq<Event>, a: nat, i: nat)
    requires a <= i <= |evs| < |ws|
  {
    forall k | a <= k < i :: !WritesBook(ws[k].l, evs[k])
  }

  lemma UnwrittenBookStays(w: World, w': World, ev: Event)
    requires Next(w, w', ev) && !WritesBook(w.l, ev)
    ensures w'.l.book == w.l.book
    ensures w'.l.room == if ev.RenewingCode? then ev.room else if ev.Rebooting? then w.l.fileRoom else w.l.room
    ensures w'.l.fileRoom == if ev.RenewingCode? && ev.ok then ev.room
                             else if ev.SavingRoom? && ev.ok then w.l.room
                             else w.l.fileRoom
    ensures !ev.Rebooting? ==> w'.l.gen == w.l.gen
  {
    if ev.Issuing? {
      var mid := IssueShape(w, w', ev);
    }
  }

  lemma CodeStep(w: World, w': World, ev: Event, code: RoomId)
    requires Next(w, w', ev) && !WritesBook(w.l, ev) && (ev.RenewingCode? ==> ev.room != code)
    requires w.l.fileRoom != code ==> w.l.room != code
    ensures w'.l.fileRoom == code <==> w.l.fileRoom == code && !FilesOtherCode(w, ev, code)
    ensures w'.l.fileRoom != code ==> w'.l.room != code
  {
    UnwrittenBookStays(w, w', ev);
  }

  lemma CodeStepAt(ws: seq<World>, evs: seq<Event>, i: nat, code: RoomId)
    requires Run(ws, evs) && i < |evs| && !WritesBook(ws[i].l, evs[i])
    requires evs[i].RenewingCode? ==> evs[i].room != code
    requires ws[i].l.fileRoom != code ==> ws[i].l.room != code
    ensures ws[i + 1].l.book == ws[i].l.book
    ensures ws[i + 1].l.fileRoom == code <==> ws[i].l.fileRoom == code && !FilesOtherCode(ws[i], evs[i], code)
    ensures ws[i + 1].l.fileRoom != code ==> ws[i + 1].l.room != code
  {
    assert StepAt(ws, evs, i);
    CodeStep(ws[i], ws[i + 1], evs[i], code);
    UnwrittenBookStays(ws[i], ws[i + 1], evs[i]);
  }

  lemma {:induction false} CodeUntilRenewed(ws: seq<World>, evs: seq<Event>, a: nat, i: nat, code: RoomId)
    requires Run(ws, evs) && a <= i < |ws| && SameBook(ws, evs, a, i) && ws[a].l.fileRoom == code
    requires forall k | a <= k < i && evs[k].RenewingCode? :: evs[k].room != code
    ensures ws[i].l.book == ws[a].l.book
    ensures ws[i].l.fileRoom == code <==> forall k | a <= k < i :: !FilesOtherCode(ws[k], evs[k], code)
    ensures ws[i].l.fileRoom != code ==> ws[i].l.room != code
  {
    if a < i {
      CodeUntilRenewed(ws, evs, a, i - 1, code);
      CodeStepAt(ws, evs, i - 1, code);
    }
  }

  /** From a state in which the room file carries the code of the book, and until the book is written
      again: the book opens on a restart if and only if the room file was not written under another code
      since, as renewing the code does. Renewed codes are new ones. */
  lemma BookOpensUnlessCodeRenewed(ws: seq<World>, evs: seq<Event>, a: nat, i: nat, now: Time)
    requires Run(ws, evs) && a <= i < |ws| && SameBook(ws, evs, a, i) && ws[a].l.book.Some?
    requires ws[a].l.book.value.room == ws[a].l.fileRoom
    requires forall k | a <= k < i && evs[k].RenewingCode? :: evs[k].room != ws[a].l.fileRoom
    ensures OpensBook(ws[i].l, true, now) <==>
              forall k | a <= k < i :: !FilesOtherCode(ws[k], evs[k], ws[a].l.fileRoom)
  {
    CodeUntilRenewed(ws, evs, a, i, ws[a].l.fileRoom);
    BookOpensExactlyForItsCode(ws, evs, i, now);
  }

  /** A save that completes both writes makes the files carry the code of memory. */
  lemma CompleteSaveSettles(l: Ledger, l': Ledger, disk: Disk)
    requires Saved(l, l', disk) && disk.bookOk && disk.roomOk && l.room.code != ""
    ensures l'.book.Some? && l'.book.value.room == l'.fileRoom == l'.room == l.room
    ensures l'.roomGen == l'.gen == l'.book.value.gen == l.gen + 1
  {
  }

  /** The empty host with its code in both memory and the room file. */
  function EmptyHost(room: RoomId): World {
    World(Ledger(room, Some(ROOM_NET), map[], 0, None, 0, room), 1, 0, {}, {})
  }

  function IssueSaved(q: Request, id: string, disk: Disk): Event {
    Issuing(q, Clocks(1, 1, 1), Engine(None, Some(id)), disk, Fresh(SEAT, NewCredential(q, id, 1)))
  }

  function EntrySaved(q: Request, id: string): StoredEntry { StoredForm(EntryOf(SEAT, NewCredential(q, id, 1))) }

  /** An empty host issues its first seat, and the book reaches the disk. */
  lemma IssueToDisk(w: World, q: Request, id: string, disk: Disk) returns (w': World)
    requires w.l.members == map[] && w.l.subnet == Some(ROOM_NET) && w.clock == 1 && disk.bookOk
    requires q.name != "" && q.memberKey != [] && w.l.room.code != ""
    ensures Next(w, w', IssueSaved(q, id, disk)) && w'.clock == 1
    ensures
      var book := BookFile(BOOK_VERSION, w.l.gen + 1, w.l.room, [EntrySaved(q, id)]);
      w'.l == RoomSaved(w.l.(members := w'.l.members, gen := w.l.gen + 1, book := Some(book)), disk.roomOk)
  {
    var cred := NewCredential(q, id, 1);
    var members := WithCredential(map[], SEAT, cred);
    var book := BookFile(BOOK_VERSION, w.l.gen + 1, w.l.room, [EntrySaved(q, id)]);
    var l := RoomSaved(w.l.(members := members, gen := w.l.gen + 1, book := Some(book)), disk.roomOk);
    SeatIsSmallest(map[], 1);
    assert Lists(book.entries, members);
    w' := After(w, l, IssueSaved(q, id, disk));
  }

  lemma ThreeSteps(w0: World, w1: World, w2: World, w3: World, a: Event, b: Event, c: Event)
    requires Start(w0) && Next(w0, w1, a) && Next(w1, w2, b) && Next(w2, w3, c)
    ensures Run([w0, w1, w2, w3], [a, b, c])
  {
  }

  lemma TakingCode(w: World, room: RoomId, ok: bool) returns (w': World)
    ensures Next(w, w', RenewingCode(w.clock, room, ok)) && w'.l == RoomSaved(w.l.(room := room), ok)
    ensures w'.clock == w.clock
  {
    w' := After(w, RoomSaved(w.l.(room := room), ok), RenewingCode(w.clock, room, ok));
  }

  lemma Restarting(w: World, readable: bool) returns (w': World)
    ensures Next(w, w', Rebooting(w.clock, readable)) && w'.l == Reopen(w.l, readable, w.clock)
    ensures w'.clock == w.clock
  {
    w' := After(w, Reopen(w.l, readable, w.clock), Rebooting(w.clock, readable));
  }

  /** The failing run: a member is issued a credential and saved, the code is renewed and saved, and a
      restart comes before the next save of the book. The book lists a living unrevoked credential, and
      the host comes back without members. */
  lemma RenewedCodeForgetsMembers(q: Request, id: string, before: RoomId, next: RoomId)
    returns (ws: seq<World>, evs: seq<Event>, s: StoredEntry)
    requires q.name != "" && q.memberKey != [] && before.code != "" && next.code != "" && before != next
    ensures Run(ws, evs) && |evs| == 3 && evs[1] == RenewingCode(1, next, true) && evs[2] == Rebooting(1, true)
    ensures ws[3].l.members == map[]
    ensures ws[2].l.book.Some? && s in ws[2].l.book.value.entries && !s.revoked && Acceptable(s, ws[2].l.fileRoom, 1)
  {
    var w0 := EmptyHost(before);
    s := EntrySaved(q, id);
    var w1 := IssueToDisk(w0, q, id, Disk(true, true));
    var w2 := TakingCode(w1, next, true);
    var w3 := Restarting(w2, true);
    ws, evs := [w0, w1, w2, w3], [IssueSaved(q, id, Disk(true, true)), RenewingCode(1, next, true), Rebooting(1, true)];
    ThreeSteps(w0, w1, w2, w3, evs[0], evs[1], evs[2]);
    InDate(q, id, w2.l.fileRoom);
  }

  lemma InDate(q: Request, id: string, room: RoomId)
    requires q.memberKey != []
    ensures !EntrySaved(q, id).revoked && Acceptable(EntrySaved(q, id), room, 1)
  {
  }

  // --- copies of the book put back in its place ---

  lemma {:induction false} RoomFileOnlyGrows(ws: seq<World>, evs: seq<Event>, i: nat, j: nat)
    requires Run(ws, evs) && i <= j < |ws|
    ensures ws[i].l.roomGen <= ws[j].l.roomGen
  {
    if i < j {
      RoomFileOnlyGrows(ws, evs, i, j - 1);
      FilesAlwaysAgree(ws, evs, j - 1);
      AgreementAt(ws, evs, j - 1);
    }
  }

  /** A restart that does not open the book and takes the lower generation of the room file. */
  predicate FallsBack(w: World, ev: Event) {
    ev.Rebooting? && w.l.book.Some? && !OpensBook(w.l, ev.readable, ev.now) && w.l.roomGen < w.l.book.value.gen
  }

  /** Some restart since step `i` fell back, and so did every restart after it. */
  ghost predicate Behind(ws: seq<World>, evs: seq<Event>, i: nat, k: nat)
    requires k <= |evs| < |ws|
  {
    exists m :: i < m < k && FallsBack(ws[m], evs[m]) && FallsFrom(ws, evs, m, k)
  }

  ghost predicate FallsFrom(ws: seq<World>, evs: seq<Event>, m: nat, k: nat)
    requires k <= |evs| < |ws|
  {
    forall n | m < n < k && evs[n].Rebooting? :: FallsBack(ws[n], evs[n])
  }

  lemma GenerationStep(w: World, w': World, ev: Event)
    requires Next(w, w', ev) && !WritesBook(w.l, ev) && FilesAgree(w.l) && w.l.book.Some?
    ensures w'.l.book == w.l.book
    ensures !ev.Rebooting? ==> w'.l.gen == w.l.gen
    ensures ev.Rebooting? && FallsBack(w, ev) ==> w'.l.gen < w.l.book.value.gen
    ensures ev.Rebooting? && !FallsBack(w, ev) ==> w'.l.gen == w.l.book.value.gen
  {
    UnwrittenBookStays(w, w', ev);
  }

  lemma WritingSetsGeneration(w: World, w': World, ev: Event)
    requires Next(w, w', ev) && WritesBook(w.l, ev)
    ensures w'.l.book.Some? && w'.l.book.value.gen == w'.l.gen == w.l.gen + 1
    ensures w'.l.book.value.room == w.l.room
    ensures ev.disk.roomOk ==> w'.l.roomGen == w'.l.gen && w'.l.fileRoom == w.l.room
  {
    if ev.Issuing? {
      var mid := IssueShape(w, w', ev);
    }
  }

  /** After a book was written at step `i` and until the next one, memory is behind it exactly when the
      last restarts fell back. */
  lemma {:induction false} GenerationSince(ws: seq<World>, evs: seq<Event>, i: nat, k: nat)
    requires Run(ws, evs) && i < k <= |evs| && WritesBook(ws[i].l, evs[i]) && SameBook(ws, evs, i + 1, k)
    ensures ws[k].l.book.Some? && ws[k].l.book == ws[i + 1].l.book
    ensures ws[k].l.gen < ws[k].l.book.value.gen <==> Behind(ws, evs, i, k)
    ensures ws[k].l.gen <= ws[k].l.book.value.gen
  {
    if k == i + 1 {
      assert StepAt(ws, evs, i);
      WritingSetsGeneration(ws[i], ws[k], evs[i]);
    } else {
      GenerationSince(ws, evs, i, k - 1);
      GenerationOneMore(ws, evs, i, k);
    }
  }

  lemma GenerationOneMore(ws: seq<World>, evs: seq<Event>, i: nat, k: nat)
    requires Run(ws, evs) && i + 1 < k <= |evs| && !WritesBook(ws[k - 1].l, evs[k - 1])
    requires ws[k - 1].l.book.Some?
    requires ws[k - 1].l.gen < ws[k - 1].l.book.value.gen <==> Behind(ws, evs, i, k - 1)
    ensures ws[k].l.book == ws[k - 1].l.book
    ensures ws[k].l.gen < ws[k].l.book.value.gen <==> Behind(ws, evs, i, k)
    ensures ws[k].l.gen <= ws[k].l.book.value.gen
  {
    FilesAlwaysAgree(ws, evs, k - 1);
    FilesAlwaysAgree(ws, evs, k);
    assert StepAt(ws, evs, k - 1);
    GenerationStep(ws[k - 1], ws[k], evs[k - 1]);
    BehindOneMore(ws, evs, i, k);
  }

  lemma BehindOneMore(ws: seq<World>, evs: seq<Event>, i: nat, k: nat)
    requires i + 1 < k <= |evs| < |ws|
    ensures Behind(ws, evs, i, k) <==>
              if evs[k - 1].Rebooting? then FallsBack(ws[k - 1], evs[k - 1]) else Behind(ws, evs, i, k - 1)
  {
    if FallsBack(ws[k - 1], evs[k - 1]) {
      assert FallsFrom(ws, evs, k - 1, k);
    }
    if m :| i < m < k - 1 && FallsBack(ws[m], evs[m]) && FallsFrom(ws, evs, m, k - 1) && !evs[k - 1].Rebooting? {
      assert FallsFrom(ws, evs, m, k);
    }
    if m :| i < m < k && FallsBack(ws[m], evs[m]) && FallsFrom(ws, evs, m, k) && m < k - 1 {
      assert FallsFrom(ws, evs, m, k - 1);
    }
  }

  lemma WrittenAt(ws: seq<World>, evs: seq<Event>, i: nat)
    requires Run(ws, evs) && i < |evs| && WritesBook(ws[i].l, evs[i])
    ensures ws[i + 1].l.book.Some? && ws[i + 1].l.book.value.version == BOOK_VERSION
    ensures ws[i + 1].l.book.value.gen == ws[i + 1].l.gen == ws[i].l.gen + 1
    ensures ws[i + 1].l.book.value.room == ws[i].l.room
    ensures evs[i].disk.roomOk ==> ws[i + 1].l.roomGen == ws[i + 1].l.gen && ws[i + 1].l.fileRoom == ws[i].l.room
  {
    FilesAlwaysAgree(ws, evs, i + 1);
    assert StepAt(ws, evs, i);
    WritingSetsGeneration(ws[i], ws[i + 1], evs[i]);
  }

  /** The book written at step `i` is replaced by a save at step `k` that completes both writes. A copy of
      it put back is then refused if and only if no restart in between fell back below it, or a later one
      opened it again; and once refused it is refused for good, under the same code. */
  lemma RolledBackCopyIsRefused(ws: seq<World>, evs: seq<Event>, i: nat, k: nat, now: Time) returns (copy: BookFile)
    requires Run(ws, evs) && i < k < |evs| && WritesBook(ws[i].l, evs[i]) && SameBook(ws, evs, i + 1, k)
    requires WritesBook(ws[k].l, evs[k]) && evs[k].disk.roomOk
    ensures ws[k].l.book == Some(copy)
    ensures copy.room == ws[k + 1].l.fileRoom ==>
              (BookIn(copy, ws[k + 1].l.roomGen, ws[k + 1].l.fileRoom, now).Rejected? <==> !Behind(ws, evs, i, k))
    ensures !Behind(ws, evs, i, k) ==>
              forall j | k < j < |ws| :: BookIn(copy, ws[j].l.roomGen, ws[j].l.fileRoom, now) == Rejected(RolledBack)
  {
    GenerationSince(ws, evs, i, k);
    FilesAlwaysAgree(ws, evs, k);
    copy := ws[k].l.book.value;
    WrittenAt(ws, evs, k);
    forall j | k < j < |ws|
      ensures ws[k + 1].l.roomGen <= ws[j].l.roomGen
    {
      RoomFileOnlyGrows(ws, evs, k + 1, j);
    }
  }

  /** A restart that takes a generation below `g`. */
  predicate FallsBelow(w: World, ev: Event, g: nat) {
    ev.Rebooting? && !OpensBook(w.l, ev.readable, ev.now) && w.l.roomGen < g
  }

  lemma GenerationStaysUp(w: World, w': World, ev: Event, g: nat)
    requires Next(w, w', ev) && FilesAgree(w.l) && w.l.gen >= g && !FallsBelow(w, ev, g)
    ensures w'.l.gen >= g
  {
    if WritesBook(w.l, ev) {
      WritingSetsGeneration(w, w', ev);
    } else {
      UnwrittenBookStays(w, w', ev);
    }
  }

  lemma GenerationStaysUpAt(ws: seq<World>, evs: seq<Event>, i: nat, g: nat)
    requires Run(ws, evs) && i < |evs| && ws[i].l.gen >= g && !FallsBelow(ws[i], evs[i], g)
    ensures ws[i + 1].l.gen >= g
  {
    FilesAlwaysAgree(ws, evs, i);
    assert StepAt(ws, evs, i);
    GenerationStaysUp(ws[i], ws[i + 1], evs[i], g);
  }

  lemma {:induction false} GenerationAtLeast(ws: seq<World>, evs: seq<Event>, i: nat, k: nat, g: nat)
    requires Run(ws, evs) && i <= k < |ws| && ws[i].l.gen >= g
    requires forall m | i <= m < k :: !FallsBelow(ws[m], evs[m], g)
    ensures ws[k].l.gen >= g
  {
    if i < k {
      GenerationAtLeast(ws, evs, i, k - 1, g);
      GenerationStaysUpAt(ws, evs, k - 1, g);
    }
  }

  /** However many books were written since, an earlier one is refused for good after a save that completes
      both writes, if no restart in between took a room-file generation below that book's. */
  lemma EarlierCopiesAreRefused(ws: seq<World>, evs: seq<Event>, i: nat, k: nat, j: nat, now: Time)
    requires Run(ws, evs) && i < k < |evs| && k < j < |ws| && WritesBook(ws[i].l, evs[i])
    requires WritesBook(ws[k].l, evs[k]) && evs[k].disk.roomOk
    requires forall m | i < m < k :: !FallsBelow(ws[m], evs[m], ws[i + 1].l.gen)
    ensures ws[i + 1].l.book.Some? && ws[i + 1].l.book.value.gen == ws[i + 1].l.gen
    ensures BookIn(ws[i + 1].l.book.value, ws[j].l.roomGen, ws[j].l.fileRoom, now) == Rejected(RolledBack)
  {
    WrittenAt(ws, evs, i);
    GenerationAtLeast(ws, evs, i + 1, k, ws[i + 1].l.gen);
    WrittenAt(ws, evs, k);
    RoomFileOnlyGrows(ws, evs, k + 1, j);
  }

  function FirstBook(q: Request, id: string, room: RoomId): BookFile {
    BookFile(BOOK_VERSION, 1, room, [EntrySaved(q, id)])
  }

  lemma RepeatingSteps(q: Request, room: RoomId) returns (w1: World, w2: World, w3: World)
    requires q.name != "" && q.memberKey != [] && room.code != ""
    ensures Next(EmptyHost(room), w1, IssueSaved(q, "x", Disk(true, false)))
    ensures Next(w1, w2, Rebooting(1, false))
    ensures Next(w2, w3, IssueSaved(q, "y", Disk(true, true)))
    ensures w1.l.book == Some(FirstBook(q, "x", room)) && w3.l.book == Some(FirstBook(q, "y", room))
    ensures w2.l.room == room && w3.l.roomGen == 1 && w3.l.fileRoom == room
  {
    w1 := IssueToDisk(EmptyHost(room), q, "x", Disk(true, false));
    w2 := Restarting(w1, false);
    w3 := IssueToDisk(w2, q, "y", Disk(true, true));
  }

  /** Generations repeat: a save that loses the room file, a restart that cannot read the book and a complete
      save give a second book of generation 1, and the first one is accepted in its place. */
  lemma GenerationsRepeat(q: Request, room: RoomId, now: Time) returns (ws: seq<World>, evs: seq<Event>, copy: BookFile)
    requires q.name != "" && q.memberKey != [] && room.code != ""
    ensures Run(ws, evs) && |evs| == 3 && evs[2].Issuing? && !evs[2].out.Refused? && evs[2].disk == Disk(true, true)
    ensures ws[1].l.book == Some(copy) && ws[3].l.book.Some? && ws[3].l.book != Some(copy)
    ensures BookIn(copy, ws[3].l.roomGen, ws[3].l.fileRoom, now).Opened?
  {
    var w1, w2, w3 := RepeatingSteps(q, room);
    ws := [EmptyHost(room), w1, w2, w3];
    evs := [IssueSaved(q, "x", Disk(true, false)), Rebooting(1, false), IssueSaved(q, "y", Disk(true, true))];
    ThreeSteps(EmptyHost(room), w1, w2, w3, evs[0], evs[1], evs[2]);
    copy := FirstBook(q, "x", room);
    DifferentEntries(q, copy, FirstBook(q, "y", room));
    OpensUnder(copy, room, now);
  }

  lemma OpensUnder(copy: BookFile, room: RoomId, now: Time)
    requires copy.version == BOOK_VERSION && copy.gen == 1 && copy.room == room
    ensures BookIn(copy, 1, room, now).Opened?
  {
  }

  lemma DifferentEntries(q: Request, a: BookFile, b: BookFile)
    requires a.entries == [EntrySaved(q, "x")] && b.entries == [EntrySaved(q, "y")]
    ensures a != b
  {
    assert a.entries[0].id == "x" && b.entries[0].id == "y";
  }

  // --- what a restart brings back ---

  ghost predicate SomebodyCarries(t: Table, id: string) { exists ip :: CarriesUnrevoked(t, ip, id) }

  /** After any restart, from any state that a run reaches, somebody carries a given id unrevoked if and
      only if the book could be read, opens for the room file, and lists that id unrevoked and in date. */
  lemma RestartBringsBackExactly(ws: seq<World>, evs: seq<Event>, i: nat, id: string)
    requires Run(ws, evs) && i < |evs| && evs[i].Rebooting?
    ensures SomebodyCarries(ws[i + 1].l.members, id) <==>
              && OpensBook(ws[i].l, evs[i].readable, evs[i].now)
              && exists s :: ListsUnrevoked(ws[i].l, s, id, evs[i].now)
  {
    FilesAlwaysAgree(ws, evs, i);
    assert StepAt(ws, evs, i);
    var l, readable, now := ws[i].l, evs[i].readable, evs[i].now;
    var members := ws[i + 1].l.members;
    if SomebodyCarries(members, id) {
      var ip :| CarriesUnrevoked(members, ip, id);
      var s := ReopenedSeat(l, readable, now, ip);
      assert ListsUnrevoked(l, s, id, now);
    }
    if OpensBook(l, readable, now) {
      if s :| ListsUnrevoked(l, s, id, now) {
        ListedComesBack(l, s, now);
        assert CarriesUnrevoked(members, s.ip.value, id);
      }
    }
  }

  /** So the hypothesis on restarts in `RevocationIsForGood` excludes those that undo a revocation, and no others. */
  lemma RestartUndoesRevocationExactly(ws: seq<World>, evs: seq<Event>, i: nat)
    requires Run(ws, evs) && i < |evs| && evs[i].Rebooting?
    ensures (exists id :: id in ws[i].revoked && SomebodyCarries(ws[i + 1].l.members, id)) <==>
              BringsBack(ws[i], evs[i])
  {
    var members := ws[i + 1].l.members;
    forall id | id in ws[i].revoked
      ensures SomebodyCarries(members, id) <==>
                && OpensBook(ws[i].l, evs[i].readable, evs[i].now)
                && exists s :: ListsUnrevoked(ws[i].l, s, id, evs[i].now)
    {
      RestartBringsBackExactly(ws, evs, i, id);
    }
  }

  lemma ListedComesBack(l: Ledger, s: StoredEntry, now: Time)
    requires FilesAgree(l) && OpensBook(l, true, now)
    requires s in l.book.value.entries && Acceptable(s, l.fileRoom, now)
    ensures s.ip.value in Reopen(l, true, now).members
    ensures Reopen(l, true, now).members[s.ip.value].cred == Some(CredentialOf(Reopened(s)))
  {
    AcceptedComesFromFile(l.book.value.entries, l.fileRoom, now, Reopened(s));
    LoadedFrom(AcceptedEntries(l.book.value.entries, l.fileRoom, now), s.ip.value);
    var other := ReopenedSeat(l, true, now, s.ip.value);
  }

  lemma WrittenKickIsRevoked(w: World, w1: World, kick: Event, s: StoredEntry)
    requires TracksIds(w) && Next(w, w1, kick) && KickTakesEffect(w.l, kick) && WritesBook(w.l, kick)
    requires w1.l.book.Some? && s in w1.l.book.value.entries
    requires s.id == w.l.members[kick.ip].cred.value.id
    ensures s.revoked
  {
  }
}
