# Kanpachi: a verified model of its state-carrying decisions

Kanpachi lets a group of friends play LAN games over an encrypted mesh. A host opens a room, hands
credentials and addresses to its guests, opens exactly the firewall ports a game needs, and publishes a
signed card in a seed's registry. Most of that is decided by deterministic code that takes the time and the
answers of the outside world as inputs. This project models that code in Dafny and proves what it is for.

## What is modelled

* **The membership ledger of the host** (`Members`, `Seats`, `Book`, `Ledger`, `Host`). A table from address
  to member, and two files: the credential book and the room file that remembers the generation of the book.
  `Host.Host` holds the table and the files in fields that its methods update, and each method is proved
  against a relation or function of `Ledger`. `LedgerRuns`, `LedgerSafety`, `LedgerSeats` and `LedgerFiles` prove
  properties of every run of those steps: issue, return, renew, expel, refresh from the mesh, forget, save, crash and
  reopen.
* **The seed registry** (`Store`, `Registry`, `RegistryRuns`, `RegistryActs`, `RegistrySigning`, `RegistryExamples`).
  `Store.Store` is the map of rooms with its methods. `Registry` makes a protocol of it for any number of threads: the bodies that
  run under the lock are steps, and drawing, deriving and backing up happen between them. A backup shares its rooms
  with memory and is encoded field by field without the lock, so a publish or a close can come between two reads, and
  a read can still see a field that a body under way has not assigned yet. A run starts from any file.
* **The canary round and its alarm** (`Canary`, `Alarm`, `AlarmReports`), **the deadlines of a room** (`Deadlines`,
  `DeadlineHistory`).
* **Room codes** (`Text`, `InviteIds`, `RoomCode`, `CodeSpellings`, `CardKeys`): the parser, the printers, that one
  inverts the others, and which texts are read as which room.
* **Policy** (`Ports`, `Policy`, `PolicyRoles`), **addressing** (`Networks`, `Addressing`, `LobbyGuests`), **observed ports**
  (`Discovery`), **the enforcement verdict** (`Enforcement`).
* **Two bounded structures** (`Limiter`, `Journals`).

The table of forbidden ports is a parameter of the policy functions whose default is the source's table, so the
theorems about it hold for every table.

Instants and durations are natural numbers of nanoseconds, and 0 is the unset instant. Addresses are natural
numbers; those below 2^32 are the IPv4 ones. The engine, the disk, the mesh, the control channel, the clock,
the random source and signature checking enter as inputs of each step, so every theorem holds for all their
answers. Walking a map is modelled as picking its keys in any order. Go's sorting library is modelled by an
insertion sort; `Policy.OrderIsSettledByNames`, `Discovery.CoverIsUnique`,
`Enforcement.MeasuringOrderDoesNotMatter` and `Canary.InterleavingDoesNotMatter` show that the results do not
depend on that choice.

## Where the code says something else than its comments

* `lookup` (registry/store.go:467-476) tests presence and `ClosedAt` only, while core/timing/timing.go:722-724
  says that expiry is checked on reading too. `RegistryExamples.ExpiredEntryResolves` is a run in which an entry past
  its pin resolves, and `RegistryRuns.ResolvesUntilSwept` says exactly how long one does.
* `respaldar` (registry/store.go:197-211) copies the map under the read lock, and `save` (registry/persist.go:88-95)
  encodes the shared rooms without it. Two backups can be saved in the opposite order
  (`RegistryExamples.OverlappingBackupsLoseARoom`), and a backup can be torn: with a publish between the reads of card
  and signature, or a close whose date is read before it is assigned, and a crash before the writer's own backup, the
  restarted registry serves a card whose signature does not check (`RegistryExamples.TornPublishLosesTheSignature`) or
  a closed room (`RegistryExamples.TornCloseReopensTheRoom`). `RegistrySigning.SavedEntryIsSignedExactly` and
  `RegistryRuns.SaveAgreesExactly` say exactly when a save is signed and when it agrees with memory. Not every
  overwriting between two reads tears an entry: `RegistrySigning.HarmlessOverwriting`.
* `IsMember` (core/domain/member.go:170-178) tests the expulsion flag and not its age, so only `Forget` lifts a
  veto. If the table is not swept for the whole of ArrivalGrace - KickGrace, an address can be handed out while
  its veto still stands: `LedgerSafety.UnsweptVetoIsReissued` is the run, `LedgerSafety.NeverIssuedUnderVeto`
  the theorem under that cadence, and `LedgerSafety.VetoedSeatIsReissuedExactlyLate` the exact condition over every run.
* An expulsion that was only half carried out returns before saving (core/usecase/kickmember.go:138-153), so a
  restart can bring the credential back. `LedgerFiles.RestartBringsBackExactly` says exactly when a restart does.
* core/usecase/persist.go:49-56 expects a failed book write to leave a room file that is ahead of the book. The
  code returns before writing the room file in that case, and `LedgerFiles.BookOpensExactlyForItsCode` shows that
  the book is never too old for the room file.
* The generation is there so that an old book put back is noticed (core/domain/credentialbook.go:140-170), but
  generations repeat: after a restart that cannot read the book, the next ones are numbered from the room file's again.
  `LedgerFiles.GenerationsRepeat` is a run in which an earlier, different book is accepted, and
  `LedgerFiles.RolledBackCopyIsRefused` says exactly when the replaced one is refused.
* Renewing the code writes the room file and not the book (core/usecase/rotateinvite.go:141-153), so a restart before
  the next save of the book rejects it as another room's: `LedgerFiles.RenewedCodeForgetsMembers` is the run,
  `LedgerFiles.BookOpensUnlessCodeRenewed` the exact condition.
* `PlanAddresses` (core/domain/addressing.go:177-189) explains its second branch by a strange routing table.
  `Addressing.PlanIsSound` shows that the branch is reached only when a read of the random source fails.
* A cap of zero still lets the first request of each window through (registry/http.go:652-672), hence
  `AtLeastOne(cap)` in the bounds of `Limiter`.
* `InviteLink` with a key fits the parser's 300 characters only up to a seed of 238, while hosts may have 253:
  `RoomCode.LinkParsesExactlyWhenShort`.

## Model

| member | source | states |
|---|---|---|
| LedgerSafety.NeverIssuedUnderVeto | core/usecase/issuecredential.go:135-311 | over every run swept at least once per ArrivalGrace - KickGrace, no issue, fresh or returning, hands out an address whose member is flagged as expelled, and every flag comes with a revoked credential that expires ArrivalGrace after the expulsion |
| LedgerSafety.TiesHold | core/usecase/kickmember.go:93-128 | in every run, swept or not, up to the first time that a flagged address is handed out, every flag comes with a revoked credential that expires ArrivalGrace after the expulsion |
| LedgerSafety.VetoedSeatIsReissuedExactlyLate | core/usecase/issuecredential.go:271-311 | in every run, for an issue before which no flagged address was handed out: it hands one out if and only if it is fresh and the smallest guest seat that nobody holds at the scan is flagged, not in the mesh, and was flagged ArrivalGrace ago |
| LedgerSafety.AlwaysFresh | core/domain/member.go:220-231 | in every reachable state no flag is older than KickGrace at the last sweep |
| LedgerSafety.UnsweptVetoIsReissued | core/domain/member.go:220-231 | a run without that cadence, on 100.64.0.0/24, in which a flagged address is handed to somebody else, who then counts as nobody |
| LedgerSafety.ExpelledIsNoMember | core/domain/member.go:170-178 | whatever steps follow short of a restart, an expelled address stays flagged and is nobody's for all of KickGrace |
| LedgerSafety.ReturningKeepsItsSeat | core/usecase/issuecredential.go:161-217 | in every reachable state a key with a live credential that the engine renews gets the same credential at the same address, with the engine's date and the name it gave |
| LedgerSeats.AbsentMemberKeepsItsSeat | core/domain/member.go:164-178 | in every run, an address that carries an unrevoked credential in date up to an instant still carries the same id and key then, present or not, is nobody's fresh seat in between, and its owner stays a member if no veto stood, provided that there is no restart, no expulsion of it, no disowned return of its key and no granted date before that instant |
| LedgerSeats.SeatOutlivesStepExactly | core/domain/member.go:220-231 | short of a restart each single step leaves that credential at its seat if and only if it does not expel the address, the engine does not disown the key and grants no date before that instant, unless it repeats the id |
| LedgerSeats.AbsentSeatFreesItself | core/domain/member.go:164-178 | in every run, whoever is out of the mesh past ArrivalGrace is not renewed, so its seat is free once the date of its credential has passed |
| LedgerSeats.IssueHandsOut | core/usecase/issuecredential.go:135-230 | a fresh credential is the caller's, dated at the stamp and good for CredentialTTL; a returned one is the unrevoked credential in date of that key with the engine's date and the caller's name |
| LedgerSeats.IssueRefusesExactly | core/usecase/issuecredential.go:135-230 | who is refused: exactly a caller without name or key, or one whose key holds no credential that the engine renews while there is no subnet, no new credential, or no guest seat free of present members and credentials in date |
| LedgerSeats.IssueSparesTheOthers | core/usecase/issuecredential.go:135-230 | an issue leaves every other member as it is, except that a disowned credential of the caller's key is dropped |
| LedgerRuns.NoKeyOwnsTwoSeats | core/usecase/issuecredential.go:244-254 | in every state of every run, crashes included, no key owns two unrevoked unexpired credentials, in memory or in the book |
| LedgerRuns.UniqueIsKept | core/usecase/issuecredential.go:135-230 | each single step of the host keeps that uniqueness, in memory and on disk |
| LedgerSafety.RevocationIsForGood | core/usecase/kickmember.go:100-128 | over runs whose engine repeats no id and without a restart that brings a revoked id back, a revoked id is never issued, returned or restored, and whoever carries it carries it revoked |
| LedgerSafety.IdsStayTracked | core/usecase/issuecredential.go:55-93 | one step keeps ids unique per address and revoked ids revoked, and no issue answers with a revoked id |
| LedgerFiles.RestartBringsBackExactly | core/usecase/persist.go:99-135 | after any restart in any run somebody carries a given id unrevoked if and only if the book is readable, opens for the room file, and lists the id unrevoked and in date |
| LedgerFiles.RestartUndoesRevocationExactly | core/usecase/persist.go:99-135 | a restart gives somebody a revoked id unrevoked if and only if it is one that the hypothesis of RevocationIsForGood excludes |
| LedgerFiles.WrittenKickIsRevoked | core/usecase/kickmember.go:155-159 | an expulsion that wrote the book left no unrevoked entry with that id in it |
| LedgerFiles.ListedComesBack | core/usecase/persist.go:99-135 | an acceptable entry of a book that opens comes back at its address with its own credential |
| LedgerFiles.BookOpensExactlyForItsCode | core/usecase/persist.go:60-135 | for every pattern of failed writes, unreadable files, renewed codes and restarts the book opens if and only if it carries the code of the room file, and is otherwise rejected as another room's, never as too old |
| LedgerFiles.BookOpensUnlessCodeRenewed | core/usecase/rotateinvite.go:141-153 | once both files carry one code, and until the book is written again, it opens if and only if the room file was not written under a renewed code since |
| LedgerFiles.CompleteSaveSettles | core/usecase/persist.go:60-90 | a save that completes both writes makes both files carry the code and the generation of memory |
| LedgerFiles.RenewedCodeForgetsMembers | core/usecase/rotateinvite.go:141-153 | a run in which a renewed code and a restart leave the host without members although the book lists a living unrevoked credential |
| LedgerFiles.RolledBackCopyIsRefused | core/domain/credentialbook.go:157-208 | in every run, the book that a complete save replaces is refused afterwards if and only if the last restart since it was written, if any, did not fall back to a lower generation of the room file; and then for good |
| LedgerFiles.EarlierCopiesAreRefused | core/domain/credentialbook.go:157-208 | however many books were written since, an earlier one is refused for good after a complete save, if no restart in between fell back below its generation |
| LedgerFiles.GenerationsRepeat | core/usecase/persist.go:99-135 | a run in which, after an unreadable restart and a complete save, an earlier and different book is accepted |
| LedgerSafety.FreshIssueCostsOneSeat | core/usecase/issuecredential.go:271-311 | a fresh issue lowers the number of free addresses by exactly one |
| LedgerSafety.ReturningCostsNoSeat | core/usecase/issuecredential.go:161-217 | a return whose new date is still ahead leaves the free addresses exactly as they were |
| LedgerSafety.IssueShape | core/usecase/issuecredential.go:135-230 | every issue drops at most one disowned live credential, seats the caller at the smallest free address or at its old one, or refuses, and saves only when it seats |
| LedgerRuns.ReopenedSeat | core/usecase/persist.go:99-135 | every seat after a restart comes from an acceptable entry of the book at that address, with nothing else set |
| Host.Host.IssueCredentialFor | core/usecase/issuecredential.go:135-230 | in place: refuses without name or key, returns a renewed live credential at its address, drops a disowned one, otherwise issues at the smallest free address and saves |
| Host.Host.CredentialByMember | core/usecase/issuecredential.go:244-254 | finds an address where the key holds an unrevoked unexpired credential, and finds none only if there is none |
| Host.Host.TakenAddresses | core/usecase/issuecredential.go:271-292 | walking the table in any order collects the taken set that LedgerSeats.TakenReads describes |
| LedgerSeats.TakenReads | core/usecase/issuecredential.go:271-292 | the taken set is network, host, broadcast and every address in the mesh or with an unexpired credential, revoked ones included |
| Host.Host.KickMember | core/usecase/kickmember.go:34-163 | flags the member, revokes its credential and pins its expiry to ArrivalGrace; saves only when both layers worked; changes nothing for a stranger, the host itself or a member without credential |
| Host.Host.RenewEach | core/usecase/issuecredential.go:55-93 | moves the expiry of exactly the live credentials that are present or freshly issued and whose renewal the engine accepted, and reports whether there was any |
| Host.Host.RenewOne | core/usecase/issuecredential.go:55-93 | one member's turn: everybody else stays as they were |
| Host.Host.RenewCredentials | core/usecase/issuecredential.go:43-118 | the same, and the book is saved if and only if some renewal succeeded |
| Host.Host.Forget | core/domain/member.go:220-231 | walking the table in any order has the effect of the sweep that Members.SweepKeepsExactly describes |
| Members.SweepKeepsExactly | core/domain/member.go:220-231 | an entry survives a sweep if and only if it is in the mesh, has a channel, is in the first KickGrace of its veto, or carries a credential without date or with one still ahead; only older vetoes change |
| Members.RefreshKeepsExactly | core/usecase/joinroom.go:643-694 | after a refresh exactly the reported addresses, those with a channel, those in the first KickGrace of a veto and those with a credential in date are there |
| Members.RefreshShows | core/usecase/joinroom.go:643-694 | after a refresh presence, channel and their dates are what was just read, the last name that is not empty counts, and credentials are as they were |
| Host.Host.RefreshMembers | core/usecase/joinroom.go:643-694 | the four passes over mesh and channels followed by the sweep leave one verdict per address |
| Host.Host.NoteMesh | core/usecase/joinroom.go:643-694 | reading the mesh marks each reported address present now and keeps the last non-empty name |
| Host.Host.NoteOutOfMesh | core/domain/member.go:97-101 | exactly the addresses that were not reported stop counting as present |
| Host.Host.NoteChannels | core/domain/member.go:104-109 | an open channel is noted, and its start is kept while it stays open |
| Host.Host.NoteNoChannel | core/domain/member.go:112-115 | exactly the addresses without a channel lose it together with its start |
| Host.Host.MemberIps | core/domain/member.go:203-213 | the addresses the channel is opened to are exactly the current members other than the host, in ascending order |
| Host.Host.SaveMembers | core/usecase/persist.go:60-90 | the book lists every credential exactly once under the next generation, is written before the room file, and a failed first write changes nothing |
| Host.Host.SaveRoom | core/usecase/persist.go:20-44 | the room file takes the current generation and code, if the write succeeds |
| Host.Host.TakeNewCode | core/usecase/rotateinvite.go:141-153 | a renewed code goes into memory and the room file, and the book stays as it was |
| Host.Host.ListEntries | core/usecase/persist.go:64-77 | walking the table in any order lists each credential exactly once, in the form the file keeps |
| Host.Host.ResumeFromDisk | core/usecase/persist.go:99-135 | the room is the room file's; an absent, unreadable or rejected book leaves no members and the room file's generation; an accepted one brings back its entries and its generation |
| Members.PassesMerge | core/usecase/joinroom.go:643-694 | the four passes amount to one function of the table, the mesh and the channels, address by address |
| Members.MeshReadAt | core/usecase/joinroom.go:643-694 | what reading the mesh does to one address does not depend on the others |
| Members.ChannelsReadAt | core/usecase/joinroom.go:643-694 | what reading the channels does to one address does not depend on the others |
| Seats.NextFreeAddress | core/usecase/issuecredential.go:301-311 | the smallest free address of the prefix, or none exactly when no address is free |
| Seats.FreeAddressCount | core/usecase/diagnose.go:437-445 | the number of free addresses of the prefix |
| Seats.FreePlusOccupiedIsSize | core/usecase/diagnose.go:437-445 | free and occupied addresses of a masked subnet add up to its size |
| Seats.FreeIsGuestSeat | core/usecase/issuecredential.go:271-311 | what the allocator may hand out lies inside the subnet, is not its network, host or broadcast address, and nobody holds it |
| Broadcast.LastAddress | core/usecase/issuecredential.go:316-326 | setting the host bits one by one in the four bytes gives the last address of the prefix |
| Broadcast.ByteCarriesBit | core/usecase/issuecredential.go:316-326 | setting a bit in its byte sets that bit of the whole address and stays within the byte |
| Book.Encode | core/domain/credentialbook.go:115-138 | the file carries every entry in order, with its dates in whole seconds |
| Book.DecodeCredentialBook | core/domain/credentialbook.go:157-208 | rejects another version, an older generation and another room in that order, and keeps the acceptable entries in order |
| Book.EncodeThenDecode | core/domain/credentialbook.go:115-208 | a book read back is exactly its unexpired IPv4 entries that carry a key, revoked ones included, in order, dates cut to the second |
| Book.RejectedOnlyAsRolledBack | core/domain/credentialbook.go:157-208 | a book of this room is rejected exactly when its generation is below the known one |
| Book.AcceptedComesFromFile | core/domain/credentialbook.go:157-208 | an entry is in the opened book if and only if some acceptable entry of the file reads as it |
| Book.ReadingGoesEntryByEntry | core/domain/credentialbook.go:157-208 | entries are read one by one, in order: an address, IPv4 in a room with a code, an expiry still ahead and a key that is not empty let one in; a bad name and a revocation do not keep it out |
| Book.WrittenEntryComesBack | core/domain/credentialbook.go:115-208 | a written entry comes back as it was, dates cut to the second, if it is IPv4 or the room has no code, has a key and is in date, and otherwise not at all |
| RegistryRuns.PinHolds | registry/store.go:326-342 | under any interleaving, until its pin passes an entry stays, keeps its host key and its pin never decreases, across restarts whose file still reserves that id for its host, if the first file had no pin further ahead than the store sets |
| RegistryRuns.MirroredReserves | registry/persist.go:142-207 | a file that agrees with memory still reserves for its host every id that memory does |
| RegistryRuns.SameIdOnlyAfterPinLapsed | registry/store.go:222-257 | two calls are given the same id only if the first pin had run out before the second insertion swept |
| RegistryRuns.RestartRestoresMemory | registry/store.go:197-211 | from any file, after any run of backups that do not overlap and succeed, however torn in between, once none is due loading at any later instant gives exactly the entries of memory whose pin is alive then |
| RegistryRuns.BackupsAlwaysAgree | registry/store.go:483-507 | along such runs, once nobody owes a backup, the copy under way or else the disk agrees with memory, although failed calls sweep memory without writing |
| RegistryRuns.SaveAgreesExactly | registry/store.go:197-211 | one save leaves disk and memory in agreement if and only if every living room of memory was in its copy and each of its fields, as it was read, is still what memory holds, if the first file had no pin further ahead than the store sets |
| RegistryRuns.ResolvesUntilSwept | registry/store.go:467-507 | in every run, an open entry that nobody publishes or closes resolves if and only if no locked body and no restart has swept at an instant after its pin |
| RegistryActs.ResolvesToTheLastAct | registry/store.go:467-476 | in every run, after a publish or close answered Done or an insertion that succeeds, and until the next such act on the id or a restart, the id resolves if and only if that act was not a close and no sweep came after its pin; it then resolves to exactly the published or inserted card, signature, key and pin, whatever the entry was before |
| RegistryActs.LastActStands | registry/store.go:370-448 | in that time the entry is exactly what the last act promised, a close keeping key and pin, and is there if and only if no sweep came after its pin |
| RegistryActs.ClosedStaysClosed | registry/store.go:391-448 | a closed room does not resolve, however often it is closed again, until a publish is answered Done, the id is inserted anew, or the process restarts |
| RegistryActs.EndsWithinEightDraws | registry/store.go:230-257 | in every run a registration draws at most eight ids, and gives up after fewer only when a derivation fails |
| RegistryActs.ProbeGoesOnExactly | registry/store.go:230-257 | a drawn id goes on to its derivation if and only if no living pin holds it, and a taken one leads to another draw or, at the eighth, to giving up |
| RegistryActs.AnsweredExactlyWhenInserted | registry/store.go:326-342 | a registration is answered with its id if and only if its insertion found the id free |
| RegistryActs.OnlySavesTouchTheFile | registry/persist.go:88-131 | the file changes only by a save that succeeds, and then holds exactly the fields that save read |
| RegistryExamples.OverlappingBackupsLoseARoom | registry/store.go:197-211 | a run with two overlapping successful backups after which a living room is not in the file and no backup is due |
| RegistryExamples.ExpiredEntryResolves | registry/store.go:467-476 | a run in which an entry past its pin resolves |
| RegistryExamples.TornPublishLosesTheSignature | registry/persist.go:88-95 | a run in which a publish between two reads of the encoder and a crash make the registry resolve a card whose signature does not check |
| RegistryExamples.TornCloseReopensTheRoom | registry/store.go:430-448 | a run in which a close during the encoding and a crash make a closed room resolve, with empty card and signature |
| RegistrySigning.EveryCardIsSigned | registry/store.go:370-390 | in every reachable state of a process that loaded no unsigned room, every room that resolves carries a card signed with its pinned key |
| RegistrySigning.UnsignedOnlyAsLoaded | registry/store.go:326-448 | in every reachable state a room lacks a valid signature if and only if its process loaded it so and it has not changed since |
| RegistrySigning.SavedEntryIsSignedExactly | registry/persist.go:88-95 | for a process that loaded genuine rooms and a scheme whose signatures bind one card, a written entry is signed if and only if the room was closed when its date was read, or was open when its signature was read and had the card that was read |
| RegistrySigning.UntouchedRoomIsSavedWhole | registry/persist.go:88-95 | a room that nobody publishes or closes from before its first field is read until after its last is written exactly as it stands |
| RegistrySigning.HarmlessOverwriting | registry/store.go:370-448 | a close after the signature was read, and a renewal of the same card, leave the entry signed |
| Registry.OnlyDatesAreDropped | registry/persist.go:142-207 | from the first file that the store writes on, loading drops nothing except by date, however the encoding was torn |
| Registry.RunIsSound | registry/store.go:222-257 | every entry in memory, in flight and in any file the store wrote is well formed and keeps the host key of its room, and if the first file's pins are no further ahead than the room's time to live, so are all later ones |
| Registry.StepIsSound | registry/store.go:326-448 | each locked body, field read, backup and restart keeps every entry well formed and its pin within bounds |
| Store.Store.Clean | registry/store.go:497-507 | removes exactly the entries whose pin has passed and counts them |
| Store.Store.IsOccupied | registry/store.go:316-322 | an id is occupied while its entry's pin has not passed |
| Store.Store.Insert | registry/store.go:326-342 | sweeps, then inserts a pinned open room exactly when the id is free |
| Store.Store.PublishUnderLock | registry/store.go:370-390 | sweeps; answers that there is no entry, that another key pinned it, or Done exactly when each is the case; on Done the entry is open with this card and signature and a new pin, whatever it was before; never creates |
| Store.Store.Publish | registry/store.go:352-366 | nothing is touched unless the card fits and its signature checks |
| Store.Store.RetireUnderLock | registry/store.go:430-448 | sweeps, with the same answers; on Done the room is empty and closed, with its key and pin |
| Store.Store.Lookup | registry/store.go:467-476 | resolves exactly the entries that are present and open |
| Store.Load | registry/persist.go:142-177 | keeps exactly the sane entries of the file and counts the rest |
| Store.Sift | registry/persist.go:167-176 | walking the file in any order keeps exactly the entries that pass and counts the others |
| Canary.Round.Record | core/domain/canary.go:249-264 | admits a report only for the round's port, from an asked address that has not answered |
| Canary.Round.NameOf | core/domain/canary.go:266-273 | the name under which an address was first asked, if it was |
| Canary.Round.EverybodyAnswered | core/domain/canary.go:291-305 | true exactly when somebody was asked and every asked address has answered |
| Canary.Round.Collect | core/usecase/canary.go:232-271 | the round is the fold of exactly the reports before the first touch, deadline, cancellation or complete set of answers, or of all of them |
| Canary.Round.Take | core/usecase/canary.go:253-262 | records one report and says whether it completed the answers |
| Canary.FoldIsFirstReports | core/domain/canary.go:249-264 | the fold of any reports is exactly the first matching report of each asked address, in order of arrival |
| Canary.ClosingEarlyLosesNothing | core/usecase/canary.go:243-271 | once everybody answered, no further reports change the round |
| Canary.AnswerIsOwnFirstReport | core/domain/canary.go:249-264 | what is filed under an address is determined by that sender's own reports |
| Canary.OneAnswerEach | core/domain/canary.go:249-264 | no address is filed twice |
| Canary.FirstNameCounts | core/domain/canary.go:266-273 | an answer goes by the name of the first entry that asks its sender |
| Canary.AnswersAscend | core/usecase/canary.go:433-435 | the answers of a round are sorted ascending by address, none lost |
| Canary.InterleavingDoesNotMatter | core/usecase/canary.go:433-435 | any interleaving that keeps each sender's order gives the same sorted answers |
| Alarm.Session.FoldCanary | core/usecase/canary.go:278-329 | in place: the three branches by verdict, a round of another room left out; what they mean for the reports is AlarmReports.ReportsDecideTheAlarm |
| AlarmReports.ReportsDecideTheAlarm | core/usecase/canary.go:278-329 | for any reports: the alarm comes down if and only if the round was measured, the port was left alone, somebody's first report measured something and nobody's claims an answer or a refusal; a touched port spends a repair or raises the alarm; every other round leaves alerts and repairs as they were |
| AlarmReports.VerdictOfReports | core/domain/canary.go:340-366 | the exact condition on the reports of each of the five verdicts |
| AlarmReports.LateRoundsAreDropped | core/usecase/canary.go:279-291 | a round of a room that is over changes nothing, and one of this room is kept sorted |
| AlarmReports.DroppingGoesAlertByAlert | core/domain/exposure.go:522-533 | dropping a kind keeps exactly the other alerts, in order |
| AlarmReports.KeepingGoesAlertByAlert | core/domain/exposure.go:491-494 | a refresh keeps exactly the lobby conflicts, unfinished expulsions, leaks and lost games that were showing, in order |
| Alarm.Session.DropAlerts | core/domain/exposure.go:522-533 | removes exactly the alerts of a kind, keeping the order of the rest |
| Alarm.Session.HasAlert | core/domain/exposure.go:508-515 | true exactly when the list holds an alert of the kind |
| Alarm.Session.RefreshAlerts | core/usecase/diagnose.go:254-263 | the list becomes what was found now followed by the sticky alerts that were showing |
| Alarm.AlarmAfterStep | core/usecase/canary.go:278-329 | after one step the alarm is up if and only if this round leaked with repairs spent, or it was up and neither a clean round of the room nor its end took it away; never twice, and never before the repairs are spent |
| Alarm.AlwaysSettled | core/usecase/canary.go:278-329 | in every reachable state the alarm is listed at most once, and only after the silent repairs were spent |
| Alarm.OnlyCleanRoundsClear | core/domain/canary.go:376-391 | along every run, once up the alarm stays up, exactly once, until a clean round of the same room or the end of the room |
| Alarm.SortingKeepsVerdict | core/usecase/canary.go:433-435 | sorting the answers changes no verdict |
| Deadlines.Session.SetHostPresent | core/domain/state.go:466-483 | presence refreshes the proof of life and clears the absence; absence is dated at its edge and not moved again |
| Deadlines.Session.NoteHostAlive | core/domain/state.go:493-498 | only a guest takes a proof of life |
| Deadlines.Session.SetTunnelDown | core/domain/state.go:517-521 | the first fall of the tunnel sets the mark and later ones keep it |
| Deadlines.Session.ClearRoom | core/domain/state.go:408-438 | every timer and mark is emptied and the generation grows |
| Deadlines.Session.TransitionWithExit | core/domain/state.go:388-400 | moves only as the table allows; going idle empties the room and keeps the reason given |
| Deadlines.Session.LeaveLocked | core/usecase/leaveroom.go:185-309 | leaving empties the room with its reason, and does nothing outside a room |
| Deadlines.Session.LeaveForHostAbsence | core/usecase/deadlines.go:162-168 | leaves exactly when the absence limit is reached |
| Deadlines.Session.EnforceDeadlines | core/usecase/deadlines.go:69-93 | in place: silence, absence and tunnel in that order, and whether the room was left; the exact conditions are Deadlines.TickLeavesExactly and DeadlineHistory.TickLosesTheTunnelExactly |
| DeadlineHistory.TickLosesTheTunnelExactly | core/domain/state.go:535-540 | a beat ends the room for its tunnel if and only if the tunnel has been down for ReconnectLimit and the host's absence does not end it first |
| DeadlineHistory.TunnelIsNeverLostTooSoon | core/usecase/deadlines.go:94-97 | over every run, who loses the room for its tunnel, not by an explicit leave, has been without it since a fall at least ReconnectLimit ago, and never had it back since |
| DeadlineHistory.MarkIsTheFirstFall | core/domain/state.go:517-524 | in every reachable state in a room the mark of the tunnel is the instant of the first fall since it was last up, and is unset if there was none |
| DeadlineHistory.HeardIsTheLatestProof | core/domain/state.go:466-497 | in every reachable state a guest's last sign of its host is the instant of the latest proof of life |
| DeadlineHistory.NoProofBeforeLeaving | core/domain/state.go:453-458 | over every run, no proof of life came in the whole HostAbsenceLimit before a guest is taken out because the host is gone |
| DeadlineHistory.AbsenceTickLeavesExactly | core/usecase/deadlines.go:162-168 | the absence clock takes a guest out if and only if its host has been marked absent for HostAbsenceLimit, and otherwise changes nothing |
| DeadlineHistory.HostGoesMissingExactly | core/usecase/deadlines.go:77-89 | a guest loses sight of its host if and only if it is told so, the established mesh lacks it, the tunnel falls or it was silent for HostSilenceLimit; the absence counts from then, or from the last sign after silence |
| DeadlineHistory.HostComesBackExactly | core/domain/state.go:466-497 | an absent host is back if and only if it was heard or announced, and until then the start of the absence stays |
| DeadlineHistory.HostNeverMissesItself | core/domain/state.go:466-497 | nothing that happens in its room touches a host's own presence marks |
| DeadlineHistory.ConnectionFollowsTheTunnel | core/domain/state.go:79-89 | in a room a fall leads to reconnecting, the return to connected, and only an established connection is rated again |
| DeadlineHistory.ReconnectingWhileDown | core/domain/state.go:517-527 | in every reachable state the connection is reconnecting if and only if the mark of the tunnel is set |
| DeadlineHistory.LegalTransitions | core/domain/state.go:63-89 | for each connection, from which others it is reached |
| DeadlineHistory.NobodyGetsInUnresolved | core/domain/state.go:63-89 | every legal way from idle to a connection of the room went through resolving and then connecting, and not through idle or resolving since |
| DeadlineHistory.EnteringStartsAfresh | core/domain/state.go:388-440 | a room is entered with empty timers, a guest having just heard its host, and outside of a room nothing but entering changes anything |
| DeadlineHistory.LeavingRemembersWhy | core/domain/state.go:388-440 | leaving empties the room, counts it, and keeps the reason it was given |
| Deadlines.Session.TunnelDown | core/usecase/engineevent.go:229-240 | a fallen tunnel marks itself, marks the host absent for a guest and reconnects |
| Deadlines.TickLeavesExactly | core/usecase/deadlines.go:69-93 | a beat leaves for the host's absence if and only if the absence started, or the host was last heard while thought present, an absence limit ago |
| Deadlines.NeverLeavesTooSoon | core/domain/state.go:453-458 | over every run, who is taken out because the host is gone, not by an explicit leave, last heard it at least HostAbsenceLimit ago |
| Deadlines.AbsenceStartIsFixed | core/domain/state.go:466-483 | while the host stays absent the start of the absence does not move and is not earlier than the last proof of life |
| Deadlines.NeverStaysTooLong | core/usecase/deadlines.go:69-93 | with beats at most d apart a guest in a room heard its host less than HostSilenceLimit + HostAbsenceLimit + 2d ago, and a fallen tunnel is less than ReconnectLimit + d old |
| Deadlines.AlwaysMarked | core/domain/state.go:453-510 | in every reachable state a guest has a proof of life, an absence starts no earlier than it, and an idle state is empty |
| Limiter.Limiter.Allow | registry/http.go:652-672 | the answer and the new table, with windows reset after the span and old ones discarded when there are more than 4096 |
| Limiter.Limiter.Prune | registry/http.go:657-669 | discards exactly the windows that are over |
| Limiter.PruningChangesNoAnswer | registry/http.go:652-672 | over every run with a clock that does not go back, each answer equals that of a limiter that never discards |
| Limiter.AtMostTwiceTheCap | registry/http.go:652-672 | no address gets more than twice the cap through in any closed interval of one span |
| Limiter.OpenWindowIsExact | registry/http.go:652-672 | the open window has let through exactly its first requests up to the cap, the first one always |
| RoomCode.ParseRoom | core/domain/room.go:95-193 | trims, cuts the fragment, strips the scheme, splits and checks both halves, each failure with its error |
| RoomCode.StripScheme | core/domain/room.go:95-193 | removes one of the three schemes whatever its case, and the slash after the custom one |
| RoomCode.SplitHalves | core/domain/room.go:95-193 | accepts id@host, host/id and a lone id, and rejects both separators, repeated ones and query characters |
| RoomCode.ParseParts | core/domain/room.go:95-193 | the id is judged before the seed, and a missing seed has its own error |
| RoomCode.ParseSeedHost | core/domain/room.go:276-307 | accepts, in lower case and without its final dot, exactly the host names made of good labels with a letter in the last |
| RoomCode.SeedIsFixedPoint | core/domain/room.go:276-307 | an accepted seed parses as itself (labels of section 2.3.4 of RFC 1035) |
| RoomCode.ParsedRoomIsValid | core/domain/room.go:95-193 | whatever parses has eight symbols of the alphabet and a canonical seed |
| RoomCode.UrlRoundTrip | core/domain/room.go:206-208 | for any input that parses, the printed URL, the id@seed form and the https and custom forms parse to the same room |
| RoomCode.PrintedFormsParse | core/domain/room.go:95-208 | every printed form under any wrapping and any fragment parses to its room if it has at most 300 characters, and otherwise fails as too long |
| CodeSpellings.EverySpellingParses | core/domain/room.go:95-193 | any spelling of a code, with or without one of the three schemes, letters in any case, separators in the id, a final dot in the seed, the empty path of the custom scheme and any fragment, is read as its room if it has at most 300 characters |
| CodeSpellings.BlanksDoNotMatter | core/domain/room.go:95-104 | blanks around a code do not change what it is read as |
| CodeSpellings.IdIsReadFromItsSpellings | core/domain/inviteid.go:93-156 | a text is read as an id if and only if it is the eight symbols in any case with separators put in anywhere |
| CodeSpellings.IdErrorsExactly | core/domain/inviteid.go:93-104 | the length is wrong if and only if there are not eight symbols, and a symbol is wrong if and only if there are eight that spell no id |
| CodeSpellings.SeedIsReadFromItsSpellings | core/domain/room.go:276-307 | a text is read as a seed if and only if it is a good host name in any case, perhaps with a final dot |
| CodeSpellings.GoodHostsExactly | core/domain/room.go:276-307 | character by character, which host names are good: length, a dot, labels of 1 to 63 small letters, digits and inner dashes, and a letter after the last dot (section 2.3.4 of RFC 1035) |
| CodeSpellings.AddressesAreNoSeeds | core/domain/room.go:262-274 | no text without a letter after its last dot, a final one aside, is a seed, so no way of writing an IPv4 address is |
| CodeSpellings.RoomIsReadExactly | core/domain/room.go:178-193 | the id is judged first, then whether there is a seed, then the seed, each failure with its own error |
| CodeSpellings.AtSplits | core/domain/room.go:137-158 | text with an at sign is accepted if and only if there is one, no slash, and something behind it |
| CodeSpellings.SlashSplits | core/domain/room.go:160-171 | text with a slash is split at the first one and accepted if and only if no path or query follows |
| RoomCode.LinkParsesExactlyWhenShort | core/domain/roomcard.go:232-237 | a shared link parses to its room exactly when the key is all zeros or the seed has at most 238 characters |
| RoomCode.FragmentLength | core/domain/roomcard.go:190-192 | the unpadded base64url fragment (section 5 of RFC 4648) has four characters for every three bytes, rounded up |
| CardKeys.FragmentDecodes | core/domain/roomcard.go:190-192 | the fragment decodes, as base64url without padding (section 5 of RFC 4648), to exactly the bytes of the key |
| CodeSpellings.LinkReads | core/domain/roomcard.go:232-237 | a link is the https scheme, the seed, a slash and the printed id, with the fragment behind a hash unless the key is all zeros |
| InviteIds.ParseInviteId | core/domain/inviteid.go:93-104 | eight symbols of the alphabet once separators are dropped and letters are raised, or the matching error |
| InviteIds.NormalizeInviteId | core/domain/inviteid.go:142-156 | drops dashes, spaces, underscores and tabs and raises letters |
| InviteIds.PrintInviteId | core/domain/inviteid.go:107-120 | the symbols in groups of four joined by a dash |
| InviteIds.PrintedIdParses | core/domain/inviteid.go:93-156 | a printed id parses back to its symbols |
| Ports.HitsForbidden | core/domain/gameprofile.go:285-292 | the first forbidden port that the range contains, or none when it contains none |
| Ports.FirstOfTheTable | core/domain/gameprofile.go:285-292 | the port found is the first one of the table |
| Ports.ParsedIsAcceptable | core/domain/gameprofile.go:199-227 | a parsed range is ordered, within 1 to 65535 and contains no forbidden port |
| Ports.SpecParses | core/domain/gameprofile.go:199-308 | the printed form of an acceptable range parses back to it |
| Ports.NumbersRead | core/domain/gameprofile.go:199-227 | what any two numbers with a dash in between are read as, or which of the errors comes first |
| Ports.SpecIsInjective | core/domain/gameprofile.go:303-308 | ranges with the same printed form have the same bounds |
| Policy.NormalizeMembers | core/domain/policy.go:378-390 | the loop and the sort compute the specified scope |
| Policy.NormalizedIsTheOthers | core/domain/policy.go:378-390 | the scope is exactly the valid members other than the machine itself, each once, in ascending order |
| Policy.ScopeIsCanonical | core/domain/policy.go:378-390 | member lists with the same other members give the same scope, element by element |
| Policy.BuildRuleSet | core/domain/policy.go:175-218 | the loops compute the specified rule set; what it opens for each role is PolicyRoles.GuestOpensTheClientPorts and HostOpensTheHostPorts |
| PolicyRoles.GuestOpensTheClientPorts | core/domain/policy.go:183-218 | a guest's rule set opens a port in a protocol if and only if there is a profile, somebody else is present, and a range of the client ports asks for it in that protocol or in both |
| PolicyRoles.HostOpensTheHostPorts | core/domain/policy.go:183-218 | a host's does so if and only if a range of the host ports does |
| PolicyRoles.OtherListIsIgnored | core/domain/policy.go:183-186 | changing the list of the other role changes nothing |
| PolicyRoles.RefusalNamesAnAskedPort | core/domain/policy.go:197-200 | the port a refusal names is forbidden and asked for by a range of that role |
| PolicyRoles.FirstRangeIsNamed | core/domain/policy.go:196-200 | a refusal names the port of the first range that contains a forbidden one |
| PolicyRoles.RulesComeByName | core/domain/policy.go:213-217 | rules come in the order of Go strings: the first character in which two names differ ascends |
| Policy.RuleSetIsCanonical | core/domain/policy.go:175-218 | member lists with the same other members give the same rule set, whatever their order and repetitions |
| Policy.AllowsExactlyTheRanges | core/domain/policy.go:152-218 | a port is allowed if and only if a range of the role contains it and somebody else is present |
| Policy.ForbiddenPortsStayShut | core/domain/policy.go:197-200 | no rule set allows a forbidden port, whatever the profile |
| Policy.RefusesExactlyForbiddenRanges | core/domain/policy.go:175-218 | the guard fires if and only if a rule would have to open a forbidden port, and a missing address fails exactly when there is a profile |
| Policy.EveryRuleIsNarrow | core/domain/policy.go:50-103 | every rule names TCP or UDP, the machine's own address, and exactly the others in ascending order, at least one |
| Policy.RuleNameIsInjective | core/domain/policy.go:368-370 | for valid profile ids the name of a rule determines profile, role, protocol and ports |
| Policy.EqualNamesMeanEqualRules | core/domain/policy.go:196-217 | within one rule set rules with the same name are the same rule |
| Policy.OrderIsSettledByNames | core/domain/policy.go:213-217 | any sorting by name gives the same sequence |
| Policy.GameRulesAreNotControl | core/domain/policy.go:290-306 | no rule of a valid profile id has the prefix of the control channel |
| Policy.ChannelRulesComeOffCleanly | core/domain/policy.go:128-134 | adding channel rules and filtering them out again gives the game rules back in the same order |
| Policy.OnlyTheChannelIsOpened | core/domain/policy.go:242-288 | only a host opens the channel, on its one TCP port, to the /24 of its lobby address inside the lobby space and to the present members other than itself |
| PolicyRoles.ChannelIsOpenedExactly | core/domain/policy.go:242-288 | the door is open if and only if a host has a lobby address, the hall if and only if a host has a room address and somebody else is there, nothing else is, and a lobby address outside of the lobby space is the only refusal |
| Networks.OverlapIsSharing | core/domain/addressing.go:266-281 | cutting both prefixes to the shorter length compares equal if and only if some address belongs to both |
| Networks.Nested | core/domain/addressing.go:266-281 | an address of the longer prefix is in the shorter one if and only if the two overlap |
| Networks.CandidateIsARoom | core/domain/addressing.go:221-225 | every candidate is a masked /24 all of whose addresses lie in the space, and the 32-bit sum does not wrap |
| Networks.EveryRoomIsACandidate | core/domain/addressing.go:212-225 | every masked /24 of the space is a candidate |
| Networks.CircleReaches | core/domain/addressing.go:221-222 | going round from any start reaches each index exactly once |
| Addressing.RandomIndex | core/domain/addressing.go:245-264 | at most 64 reads, the first below the limit decides, and each failure has its outcome |
| Addressing.FirstUsableReadDecides | core/domain/addressing.go:245-264 | the first read that fails or lies below the largest multiple of the count decides, and as many reads above it as there are tries end the attempt |
| Addressing.DrawIsFair | core/domain/addressing.go:249-258 | each index is reached by the same number of accepted 32-bit draws, and more than half of all draws are accepted |
| Addressing.PowersOfTwoAcceptAll | core/domain/addressing.go:239-249 | for counts that are powers of two, as in both spaces, no draw is rejected |
| Addressing.FirstOverlap | core/domain/addressing.go:271-281 | the first IPv4 entry that touches the prefix, or none when none does |
| Addressing.FirstTouchingIsNamed | core/domain/addressing.go:271-281 | the entry found is the first one that touches |
| Addressing.PickSubnet | core/domain/addressing.go:203-237 | the first free candidate going round from the draw |
| Addressing.SearchIsExact | core/domain/addressing.go:221-236 | what is picked is a masked /24 of the space that nothing local touches, and the search gives up if and only if there is none |
| Addressing.SearchStopsAtTheFirstFree | core/domain/addressing.go:221-236 | everything visited before the result was taken |
| Addressing.UntouchedSpaceTakesTheFirstDraw | core/domain/addressing.go:221-236 | if nothing local touches the space, the drawn /24 itself is picked |
| Addressing.PickIsExact | core/domain/addressing.go:203-264 | for the masked spaces the outcome is decided by the first read: failed read, full space, or a free /24, and the drawn one if nothing touches the space |
| Addressing.PlanAddresses | core/domain/addressing.go:157-194 | which space is tried, in which order, and the reason given |
| Addressing.PlanIsSound | core/domain/addressing.go:157-194 | a planned subnet is a free /24 of the space its reason names; it is free of conflict, and the first draw, if and only if nothing touches the shared space (section 7 of RFC 6598) and the random source answers; the last fallback needs a failed read |
| Addressing.PlanSaysWhy | core/domain/addressing.go:157-194 | if something local touches the shared space the reason names such an entry, and with a working random source the plan fails if and only if no /24 of the fallback space is free |
| Addressing.LobbyOverlap | core/domain/addressing.go:132-142 | finds a local route of at least /24 that overlaps the lobby, and none only if there is none |
| Addressing.RivalLiesInsideTheLobby | core/domain/addressing.go:117-142 | such a route lies wholly within the lobby |
| LobbyGuests.RendezvousGuestAddress | core/domain/peer.go:349-372 | the first unoccupied guest address going round from the draw, the drawn one when all are occupied, none when the read fails |
| LobbyGuests.IsOccupied | core/domain/peer.go:375-382 | true exactly when some local prefix contains the address |
| LobbyGuests.GuestIsFreeIfAnyoneIs | core/domain/peer.go:349-382 | the address ends in 2 to 254 and is occupied if and only if all 253 are |
| Discovery.ObservedRanges | core/domain/discovery.go:116-163 | the ranges cover exactly the relevant protocol and port pairs, and are sorted, disjoint and never adjacent within a protocol |
| Discovery.ObservedExactly | core/domain/discovery.go:116-141 | what counts as observed: a socket of the tree, of one protocol, on a port other than zero, bound to every interface, and unless asked for not one of Steam's ports |
| Discovery.CompactReads | core/domain/discovery.go:143-162 | TCP ranges come before UDP ranges, and ranges of one protocol ascend with a gap in between |
| Discovery.InOrder | core/domain/discovery.go:143-152 | the keys of the map in strictly ascending order, whatever order the map is walked in |
| Discovery.Coalesce | core/domain/discovery.go:154-162 | joining the sorted keys covers exactly them; the 16-bit sum never joins by wrapping |
| Discovery.CoverIsUnique | core/domain/discovery.go:116-163 | there is only one such list of ranges for a set of ports |
| Discovery.CompactIsMinimal | core/domain/discovery.go:100-110 | no other list of ranges with the same ports is shorter |
| Discovery.PhotoOrderDoesNotMatter | core/domain/discovery.go:143-152 | socket tables with the same entries give the same ranges |
| Enforcement.Compare | core/domain/enforcement.go:144-189 | missing, extra and gate verdicts as specified, both lists sorted |
| Enforcement.DiffReads | core/domain/enforcement.go:144-189 | a desired name is missing if and only if no enabled firewall rule carries it, extra is every other name a firewall rule carries, and the gate is missing or unchecked exactly as measured |
| Enforcement.InPlace | core/domain/enforcement.go:147-159 | a name is noted exactly when a firewall rule bears it, as working exactly when an enabled one does |
| Enforcement.MissingOf | core/domain/enforcement.go:161-167 | each desired name without a working rule, as often as it is desired |
| Enforcement.ExtraOf | core/domain/enforcement.go:169-173 | each standing name that nobody desires, once |
| Enforcement.MeasuringOrderDoesNotMatter | core/domain/enforcement.go:174-179 | the verdict does not depend on the order of the measured or the desired rules |
| Enforcement.IntactMeansExactlyAsAsked | core/domain/enforcement.go:126-133 | intact holds if and only if the working rules and the standing rules of the group are exactly the desired ones and a required gate was not found absent |
| Journals.Journal.Begin | core/usecase/progress.go:91-109 | a new operation forgets the previous one |
| Journals.Journal.Note | core/usecase/progress.go:117-147 | a step is added to the operation in progress and ignored otherwise; the diary stays in its closed form |
| Journals.Journal.DropMiddle | core/usecase/progress.go:127-134 | removes in place the step in the middle |
| Journals.Journal.Push | core/usecase/progress.go:127-140 | a full diary loses its middle step before taking a new one, and counts it |
| Journals.Journal.End | core/usecase/progress.go:159-183 | closes once, keeping the steps and the error |
| Journals.Journal.Report | core/usecase/progress.go:189-215 | a fresh copy holding all steps up to 64, otherwise the first 32 and the last 32, with dropped plus kept equal to all |
| Journals.DroppingTheMiddleKeepsTheEnds | core/usecase/progress.go:127-134 | dropping the middle step of a full diary before each new one keeps exactly the two ends |
| Journals.KeptEnds | core/usecase/progress.go:189-215 | of a longer operation the first 32 and the last 32 steps are left, in order |

## Left out

* HTTP handlers, page rendering, systemd, release polling and the counter: input and output plumbing.
* Cryptography: signature checking is an arbitrary predicate, key derivation may succeed or fail, sealing a card
  and reading a key back from a pasted link are not part of this model.
* The data race of the encoder with the writers is modelled field by field; a read of half a field, which Go's memory
  model does not exclude, is not. The encoder may read rooms in any order.
* JSON and the file system: a file is the last value written with success. Of the registry's file the version
  check and the unreadable file are left out; of the book they are modelled.
* The engine, the firewall, adapters and control sockets: their answers are inputs of the steps.
* `requireHost`, `applyPolicy`, `desiredRuleSetLocked`, `Rejoin`, `ResumeRoom`, the notice sent to an expelled
  member and the failed join: the ledger and alarm theorems are about the modelled steps only.
* The peer list that is shown (`peersFromMembersLocked`, `markRoles`, away times) and `tellStaleMembersLocked`: easy members, and so are
  `StaleNext`, path and round-trip time of a member, and the subnet, token and network name of a credential.
* Planning a canary round, its nonce and draining stale reports: what is asked is an input of the round.
* The session of the source is one object; here each concern (ledger, alarm, deadlines) is a class with the
  fields it uses. Clearing the member table when a room is closed for good is not modelled: a run of the ledger
  is the life of one room.
* The engine giving up and every other reason to leave are one `Leave` step of `Deadlines`; deriving the
  connection state from relayed peers is an input of `Rederived`.
* Invalid and IPv6 addresses outside `Policy` and `Addressing`, where they are `None` and `Skipped`.
* Protocol values other than TCP, UDP and both: every range in circulation comes from a parser that yields one
  of the three.
* Input outside ASCII: the parser theorems are about ASCII text.
* Saturation of Go's durations and clocks that go back: the runs of `Limiter`, `Ledger`, `Registry` and
  `Deadlines` have clocks that do not decrease, which is what Go's monotonic readings give.
* The growth of Go slices: the diary is one buffer of 64 steps. Log lines are left out.
* `MirrorLocal`, the throttle of failed passwords, catalogue import, known hosts, probe reports, profile
  settings, enum names and texts: easy members.
* `LedgerSafety.RevocationIsForGood`: assumes that the engine repeats no id and that no restart brings a revoked id
  back; `LedgerFiles.RestartUndoesRevocationExactly` says which restarts those are.
* `RegistryRuns.RestartRestoresMemory`: needs backups that do not overlap and succeed, for the reason that
  `RegistryExamples.OverlappingBackupsLoseARoom` shows.
* `LedgerSafety.ExpelledIsNoMember`: stops at a restart, because the source does not write the veto to disk; the
  revocation, which it does write, is the subject of `LedgerSafety.RevocationIsForGood`.
