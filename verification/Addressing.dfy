/** When two prefixes touch (netip.Prefix.Overlaps), and the /24 networks of a space. */
module Networks {
  import opened Common
  import opened Seats
  import B = Broadcast

  const WORD: nat := 0x1_0000_0000

  const ROOM_PREFIX_BITS: nat := 24

  /** Equal once both are cut to the shorter of the two lengths. */
  predicate Overlaps(p: Subnet, q: Subnet) {
    var m := if p.bits < q.bits then p.bits else q.bits;
    p.addr / Pow2(32 - m) == q.addr / Pow2(32 - m)
  }

  lemma ContainsIsSameBlock(p: Subnet, a: nat)
    ensures p.Contains(a) <==> a / p.Size() == p.addr / p.Size()
  {
    var s, n := p.Size(), p.addr / p.Size();
    assert p.Network() == s * n && a == s * (a / s) + a % s;
    if p.Contains(a) {
      B.QuotientIsUnique(a, s, n, a - s * n);
    }
  }

  /** An address of the narrower prefix is in the wider one exactly when the two overlap. */
  lemma Nested(p: Subnet, q: Subnet, a: nat)
    requires p.bits <= q.bits && q.Contains(a)
    ensures p.Contains(a) <==> Overlaps(p, q)
  {
    var k := Pow2(q.bits - p.bits);
    Pow2Sum(32 - q.bits, q.bits - p.bits, 32 - p.bits);
    ContainsIsSameBlock(p, a);
    ContainsIsSameBlock(q, a);
    B.DivDiv(a, q.Size(), k);
    B.DivDiv(q.addr, q.Size(), k);
  }

  lemma Pow2Sum(m: nat, k: nat, n: nat)
    requires n == m + k
    ensures Pow2(n) == Pow2(m) * Pow2(k)
  {
    B.Pow2Add(m, k);
  }

  lemma AddrIsInside(p: Subnet)
    ensures p.Contains(p.addr)
  {
    ContainsIsSameBlock(p, p.addr);
  }

  ghost predicate Share(p: Subnet, q: Subnet, a: nat) { p.Contains(a) && q.Contains(a) }

  /** The comparison of cut addresses decides whether some address belongs to both. */
  lemma OverlapIsSharing(p: Subnet, q: Subnet)
    ensures Overlaps(p, q) <==> exists a :: Share(p, q, a)
  {
    var wide, narrow := if p.bits <= q.bits then p else q, if p.bits <= q.bits then q else p;
    AddrIsInside(narrow);
    Nested(wide, narrow, narrow.addr);
    if a :| Share(p, q, a) {
      Nested(wide, narrow, a);
    }
    if Overlaps(p, q) {
      assert Share(p, q, narrow.addr);
    }
  }

  /** A masked /24 all of whose addresses belong to `space`. */
  ghost predicate RoomIn(space: Subnet, q: Subnet) {
    q.bits == ROOM_PREFIX_BITS && q.Masked() && forall a: nat | q.Contains(a) :: space.Contains(a)
  }

  function Count(space: Subnet): (n: nat)
    requires space.bits <= ROOM_PREFIX_BITS
    ensures n > 0
  {
    Pow2(ROOM_PREFIX_BITS - space.bits)
  }

  /** The `idx`-th candidate, in the 32-bit arithmetic of the source. */
  function Candidate(space: Subnet, idx: nat): Subnet {
    Prefix((space.addr + idx * 256) % WORD, ROOM_PREFIX_BITS)
  }

  lemma PowersOfTwo()
    ensures Pow2(8) == 0x100 && Pow2(14) == 0x4000 && Pow2(16) == 0x1_0000 && Pow2(22) == 0x40_0000
    ensures Pow2(32) == WORD
  {
    assert Pow2(4) == 0x10;
    B.Pow2Add(4, 4);
    assert Pow2(6) == 0x40;
    B.Pow2Add(8, 6);
    B.Pow2Add(8, 8);
    B.Pow2Add(16, 6);
    B.Pow2Add(16, 16);
  }

  /** A masked space starts at a multiple of its size and ends inside the 32-bit range. */
  lemma SpaceLayout(space: Subnet) returns (m: nat)
    requires space.bits <= ROOM_PREFIX_BITS && space.Masked()
    ensures space.Size() == 256 * Count(space)
    ensures space.addr == 256 * (m * Count(space)) && space.addr % 256 == 0
    ensures space.addr + space.Size() <= WORD
  {
    m := space.addr / space.Size();
    LayoutOfBits(space.bits, space.addr, m);
  }

  lemma LayoutOfBits(bits: nat, x: nat, m: nat)
    requires bits <= ROOM_PREFIX_BITS && x < WORD && x == m * Pow2(32 - bits)
    ensures Pow2(32 - bits) == 256 * Pow2(24 - bits)
    ensures x == 256 * (m * Pow2(24 - bits)) && x % 256 == 0
    ensures x + Pow2(32 - bits) <= WORD
  {
    var s, n, c := Pow2(32 - bits), Pow2(bits), Pow2(24 - bits);
    assert s == 256 * c && s * n == WORD by {
      Sizes(bits);
    }
    Layout(s, n, m, c, x);
  }

  lemma Layout(s: nat, n: nat, m: nat, c: nat, x: nat)
    requires s == 256 * c && s * n == WORD && x == m * s && x < WORD
    ensures x == 256 * (m * c) && x % 256 == 0 && x + s <= WORD
  {
    LastBlockFits(s, n, m, x);
    Regroup(m, c);
  }

  lemma Sizes(bits: nat)
    requires bits <= ROOM_PREFIX_BITS
    ensures Pow2(32 - bits) == 256 * Pow2(24 - bits)
    ensures Pow2(32 - bits) * Pow2(bits) == WORD
  {
    PowersOfTwo();
    Pow2Sum(8, 24 - bits, 32 - bits);
    Pow2Sum(32 - bits, bits, 32);
  }

  lemma Regroup(m: nat, c: nat)
    ensures m * (256 * c) == 256 * (m * c) && m * (256 * c) % 256 == 0
  {
  }

  lemma NoWrap(base: nat, count: nat, idx: nat)
    requires base + 256 * count <= WORD && idx < count
    ensures (base + idx * 256) % WORD == base + idx * 256
  {
  }

  lemma LastBlockFits(s: nat, n: nat, m: nat, x: nat)
    requires s * n == WORD && x == m * s && x < WORD
    ensures x + s <= WORD
  {
    if m >= n {
      B.MulMono(s, n, m);
    } else {
      B.MulMono(s, m + 1, n);
      assert s * (m + 1) == s * m + s;
    }
  }

  lemma TwentyFour(q: Subnet, a: nat)
    requires q.bits == ROOM_PREFIX_BITS
    ensures q.Size() == 256
    ensures q.Contains(a) <==> a / 256 == q.addr / 256
    ensures q.Masked() <==> q.addr % 256 == 0
  {
    PowersOfTwo();
    ContainsIsSameBlock(q, a);
  }

  lemma CandidateAddress(space: Subnet, idx: nat)
    requires space.bits <= ROOM_PREFIX_BITS && space.Masked() && idx < Count(space)
    ensures Candidate(space, idx).addr == space.addr + idx * 256
    ensures space.addr % 256 == 0
  {
    var _ := SpaceLayout(space);
    NoWrap(space.addr, Count(space), idx);
  }

  lemma CandidateIsMasked(space: Subnet, idx: nat)
    requires space.bits <= ROOM_PREFIX_BITS && space.Masked() && idx < Count(space)
    ensures Candidate(space, idx).bits == ROOM_PREFIX_BITS && Candidate(space, idx).Masked()
  {
    CandidateAddress(space, idx);
    TwentyFour(Candidate(space, idx), 0);
    MultipleOf256(space.addr, idx);
  }

  lemma MultipleOf256(base: nat, idx: nat)
    requires base % 256 == 0
    ensures (base + idx * 256) % 256 == 0
  {
  }

  /** The candidates are the masked /24 networks of the space, every one of them and nothing else. */
  lemma CandidateIsARoom(space: Subnet, idx: nat)
    requires space.bits <= ROOM_PREFIX_BITS && space.Masked() && idx < Count(space)
    ensures RoomIn(space, Candidate(space, idx))
  {
    CandidateIsMasked(space, idx);
    forall a: nat | Candidate(space, idx).Contains(a)
      ensures space.Contains(a)
    {
      CandidateStaysInside(space, idx, a);
    }
  }

  lemma CandidateStaysInside(space: Subnet, idx: nat, a: nat)
    requires space.bits <= ROOM_PREFIX_BITS && space.Masked() && idx < Count(space)
    requires Candidate(space, idx).Contains(a)
    ensures space.Contains(a)
  {
    var m := SpaceLayout(space);
    CandidateAddress(space, idx);
    TwentyFour(Candidate(space, idx), a);
    InsideTheSpace(space.addr, Count(space), idx, a);
  }

  lemma InsideTheSpace(base: nat, count: nat, idx: nat, a: nat)
    requires idx < count && base % 256 == 0 && a / 256 == (base + idx * 256) / 256
    ensures base <= a < base + 256 * count
  {
  }

  lemma EveryRoomIsACandidate(space: Subnet, q: Subnet) returns (idx: nat)
    requires space.bits <= ROOM_PREFIX_BITS && space.Masked() && RoomIn(space, q)
    ensures idx < Count(space) && q == Candidate(space, idx)
  {
    var m := SpaceLayout(space);
    AddrIsInside(q);
    TwentyFour(q, q.addr);
    idx := q.addr / 256 - m * Count(space);
    assert q.addr == space.addr + idx * 256;
  }

  function Place(start: nat, k: nat, count: nat): nat
    requires count > 0
  {
    (start + k) % count
  }

  lemma PlaceByCases(start: nat, k: nat, count: nat)
    requires start < count && k < count
    ensures Place(start, k, count) == if start + k < count then start + k else start + k - count
  {
    if start + k < count {
      B.QuotientIsUnique(start + k, count, 0, start + k);
    } else {
      B.QuotientIsUnique(start + k, count, 1, start + k - count);
    }
  }

  /** Going round a circle of `count` places from `start` stops at each place exactly once. */
  lemma CircleReaches(start: nat, count: nat, idx: nat) returns (j: nat)
    requires start < count && idx < count
    ensures j < count && Place(start, j, count) == idx
    ensures forall k: nat | k < count && Place(start, k, count) == idx :: k == j
  {
    j := if idx >= start then idx - start else idx + count - start;
    PlaceByCases(start, j, count);
    forall k: nat | k < count && Place(start, k, count) == idx
      ensures k == j
    {
      PlaceByCases(start, k, count);
    }
  }
}

/** core/domain/addressing.go: drawing an index and choosing the /24 of a room. */
module Addressing {
  import opened Common
  import opened Seats
  import opened Networks
  import B = Broadcast

  /** What the routing table holds: an IPv4 prefix, or an entry the search skips. */
  datatype Entry = V4(net: Subnet) | Skipped

  type Word = x: nat | x < WORD

  /** One outcome per read of the random source. */
  type Reader = seq<Option<Word>>

  datatype Outcome<T> = Good(value: T) | NoSubnet | ReadFailed | Unusable

  const TRIES: nat := 64

  /** Draws from here on would favour the low indices. */
  function Limit(count: nat): (l: nat)
    requires 0 < count <= WORD
    ensures l <= WORD
  {
    WORD - WORD % count
  }

  function Indexed(count: nat, reader: Reader, tries: nat): (Outcome<nat>, Reader)
    requires 0 < count <= WORD
    decreases tries
  {
    if tries == 0 then (Unusable, reader)
    else if reader == [] then (ReadFailed, [])
    else if reader[0].None? then (ReadFailed, reader[1..])
    else if reader[0].value < Limit(count) then (Good(reader[0].value % count), reader[1..])
    else Indexed(count, reader[1..], tries - 1)
  }

  method RandomIndex(count: nat, reader: Reader) returns (r: Outcome<nat>, rest: Reader)
    requires count <= WORD
    ensures count == 0 ==> r == NoSubnet && rest == reader
    ensures count > 0 ==> (r, rest) == Indexed(count, reader, TRIES)
  {
    if count == 0 {
      return NoSubnet, reader;
    }
    var limit := WORD - WORD % count;
    rest := reader;
    for tries := 0 to TRIES
      invariant Indexed(count, reader, TRIES) == Indexed(count, rest, TRIES - tries)
    {
      if rest == [] {
        return ReadFailed, [];
      }
      var v := rest[0];
      if v.None? {
        return ReadFailed, rest[1..];
      }
      if v.value < limit {
        return Good(v.value % count), rest[1..];
      }
      rest := rest[1..];
    }
    return Unusable, rest;
  }

  /** The first `k` reads answered above the limit. */
  predicate Rejected(reader: Reader, count: nat, k: nat)
    requires 0 < count <= WORD && k <= |reader|
  {
    forall i | 0 <= i < k :: reader[i].Some? && reader[i].value >= WORD - WORD % count
  }

  /** The first read that fails or stays below the largest multiple of the count decides; 64 reads above it
      end the attempt. */
  lemma {:induction false} FirstUsableReadDecides(count: nat, reader: Reader, tries: nat, k: nat)
    requires 0 < count <= WORD && k <= |reader| && k <= tries && Rejected(reader, count, k)
    ensures k == tries ==> Indexed(count, reader, tries) == (Unusable, reader[k..])
    ensures k < tries && k == |reader| ==> Indexed(count, reader, tries) == (ReadFailed, [])
    ensures k < tries && k < |reader| && reader[k].None? ==>
              Indexed(count, reader, tries) == (ReadFailed, reader[k + 1..])
    ensures k < tries && k < |reader| && reader[k].Some? && reader[k].value < WORD - WORD % count ==>
              Indexed(count, reader, tries).0 == Good(reader[k].value % count)
              && Indexed(count, reader, tries).1 == reader[k + 1..]
  {
    if k > 0 {
      assert Rejected(reader[1..], count, k - 1);
      FirstUsableReadDecides(count, reader[1..], tries - 1, k - 1);
      assert reader[0].Some? && reader[0].value >= Limit(count);
    }
  }

  predicate Lands(v: nat, count: nat, i: nat)
    requires count > 0
  {
    v % count == i
  }

  function Landing(n: nat, count: nat, i: nat): set<nat>
    requires count > 0
  {
    set v: nat | v < n && Lands(v, count, i)
  }

  lemma {:induction false} LandingOfBlocks(q: nat, count: nat, i: nat)
    requires i < count
    ensures |Landing(q * count, count, i)| == q
  {
    if q > 0 {
      LandingOfBlocks(q - 1, count, i);
      var low, v := (q - 1) * count, (q - 1) * count + i;
      assert q * count == low + count;
      forall w: nat | w < q * count
        ensures Lands(w, count, i) <==> w == v || (w < low && Lands(w, count, i))
      {
        if w >= low {
          B.QuotientIsUnique(w, count, q - 1, w - low);
        }
      }
      assert Landing(q * count, count, i) == Landing(low, count, i) + {v};
    } else {
      assert Landing(q * count, count, i) == {};
    }
  }

  /** The same number of accepted draws leads to each index, and more than half of all draws are accepted. */
  lemma DrawIsFair(count: nat, i: nat)
    requires i < count <= WORD
    ensures |Landing(Limit(count), count, i)| == WORD / count
    ensures 2 * Limit(count) > WORD
  {
    var q := WORD / count;
    assert WORD == count * q + WORD % count;
    assert Limit(count) == q * count;
    LandingOfBlocks(q, count, i);
    if 2 * (WORD % count) >= WORD {
      assert q >= 1;
      B.MulMono(count, 1, q);
      assert false;
    }
  }

  /** No draw is rejected for the power-of-two counts of the product's spaces. */
  lemma PowersOfTwoAcceptAll(bits: nat)
    requires bits <= 32
    ensures Pow2(bits) <= WORD && Limit(Pow2(bits)) == WORD
  {
    PowersOfTwo();
    Pow2Sum(bits, 32 - bits, 32);
    assert WORD == Pow2(bits) * Pow2(32 - bits) + 0;
    B.QuotientIsUnique(WORD, Pow2(bits), Pow2(32 - bits), 0);
    B.MulMono(Pow2(bits), 1, Pow2(32 - bits));
  }

  /** The first entry of the routing table that touches `want`. */
  function FirstTouching(local: seq<Entry>, want: Subnet): (hit: Option<Subnet>)
    ensures hit.Some? ==> V4(hit.value) in local && Overlaps(hit.value, want)
    ensures hit.None? <==> Untouched(local, want)
  {
    if local == [] then None
    else
      assert local == [local[0]] + local[1..];
      if local[0].V4? && Overlaps(local[0].net, want) then Some(local[0].net)
      else FirstTouching(local[1..], want)
  }

  /** It is the first one. */
  lemma {:induction false} FirstTouchingIsNamed(local: seq<Entry>, want: Subnet, k: nat)
    requires k < |local| && local[k].V4? && Overlaps(local[k].net, want)
    requires forall j | 0 <= j < k :: local[j].V4? ==> !Overlaps(local[j].net, want)
    ensures FirstTouching(local, want) == Some(local[k].net)
  {
    if k > 0 {
      FirstTouchingIsNamed(local[1..], want, k - 1);
    }
  }

  predicate Untouched(local: seq<Entry>, want: Subnet) {
    forall e | e in local && e.V4? :: !Overlaps(e.net, want)
  }

  method FirstOverlap(local: seq<Entry>, want: Subnet) returns (hit: Option<Subnet>)
    ensures hit == FirstTouching(local, want)
  {
    for i := 0 to |local|
      invariant FirstTouching(local, want) == FirstTouching(local[i..], want)
    {
      if local[i].Skipped? {
        continue;
      }
      if Overlaps(local[i].net, want) {
        return Some(local[i].net);
      }
    }
    return None;
  }

  function Search(space: Subnet, local: seq<Entry>, start: nat, k: nat): Option<Subnet>
    requires space.bits <= ROOM_PREFIX_BITS && k <= Count(space)
    decreases Count(space) - k
  {
    if k == Count(space) then None
    else
      var c := Candidate(space, Place(start, k, Count(space)));
      if FirstTouching(local, c).Some? then Search(space, local, start, k + 1) else Some(c)
  }

  lemma CountFits(space: Subnet)
    requires space.bits <= ROOM_PREFIX_BITS
    ensures Count(space) <= WORD && Limit(Count(space)) == WORD
  {
    PowersOfTwoAcceptAll(ROOM_PREFIX_BITS - space.bits);
  }

  function Picked(space: Option<Subnet>, local: seq<Entry>, reader: Reader): (Outcome<Subnet>, Reader) {
    if space.None? || space.value.bits > ROOM_PREFIX_BITS then (NoSubnet, reader)
    else
      CountFits(space.value);
      match Indexed(Count(space.value), reader, TRIES)
      case (Good(start), rest) =>
        var found := Search(space.value, local, start, 0);
        (if found.Some? then Good(found.value) else NoSubnet, rest)
      case (NoSubnet, rest) => (NoSubnet, rest)
      case (ReadFailed, rest) => (ReadFailed, rest)
      case (Unusable, rest) => (Unusable, rest)
  }

  /** A space is `None` when its address is not IPv4. */
  method PickSubnet(space: Option<Subnet>, local: seq<Entry>, reader: Reader) returns (r: Outcome<Subnet>, rest: Reader)
    ensures (r, rest) == Picked(space, local, reader)
  {
    if space.None? || space.value.bits > ROOM_PREFIX_BITS {
      return NoSubnet, reader;
    }
    var count := Count(space.value);
    CountFits(space.value);
    var start;
    start, rest := RandomIndex(count, reader);
    match start {
      case NoSubnet => return NoSubnet, rest;
      case ReadFailed => return ReadFailed, rest;
      case Unusable => return Unusable, rest;
      case Good(first) =>
        for i := 0 to count
          invariant Search(space.value, local, first, 0) == Search(space.value, local, first, i)
        {
          var candidate := Candidate(space.value, (first + i) % count);
          var hit := FirstOverlap(local, candidate);
          if hit.None? {
            return Good(candidate), rest;
          }
        }
        return NoSubnet, rest;
    }
  }

  ghost predicate Free(space: Subnet, local: seq<Entry>, q: Subnet) { RoomIn(space, q) && Untouched(local, q) }

  /** The `j`-th place going round from `start` is taken. */
  predicate TakenAt(space: Subnet, local: seq<Entry>, start: nat, j: nat)
    requires space.bits <= ROOM_PREFIX_BITS
  {
    !Untouched(local, Candidate(space, Place(start, j, Count(space))))
  }

  lemma {:induction false} SearchStopsAtTheFirstFree(space: Subnet, local: seq<Entry>, start: nat, k: nat)
    requires space.bits <= ROOM_PREFIX_BITS && k <= Count(space)
    ensures
      var found := Search(space, local, start, k);
      && (found.None? ==> forall j: nat | k <= j < Count(space) :: TakenAt(space, local, start, j))
      && (found.Some? ==> exists j: nat | k <= j < Count(space) ::
           && !TakenAt(space, local, start, j)
           && found.value == Candidate(space, Place(start, j, Count(space)))
           && forall i: nat | k <= i < j :: TakenAt(space, local, start, i))
    decreases Count(space) - k
  {
    if k < Count(space) {
      var c := Candidate(space, Place(start, k, Count(space)));
      if FirstTouching(local, c).Some? {
        SearchStopsAtTheFirstFree(space, local, start, k + 1);
        assert TakenAt(space, local, start, k);
      } else {
        assert !TakenAt(space, local, start, k);
      }
    }
  }

  /** The choice is a masked /24 of the space that no IPv4 route or address touches; the search
      gives up exactly when there is none, wherever it starts. */
  lemma SearchIsExact(space: Subnet, local: seq<Entry>, start: nat)
    requires space.bits <= ROOM_PREFIX_BITS && space.Masked() && start < Count(space)
    ensures Search(space, local, start, 0).Some? ==> Free(space, local, Search(space, local, start, 0).value)
    ensures Search(space, local, start, 0).None? <==> forall q: Subnet | RoomIn(space, q) :: !Untouched(local, q)
  {
    var n := Count(space);
    SearchStopsAtTheFirstFree(space, local, start, 0);
    if Search(space, local, start, 0).Some? {
      var j: nat :| j < n && !TakenAt(space, local, start, j)
        && Search(space, local, start, 0).value == Candidate(space, Place(start, j, n));
      CandidateIsARoom(space, Place(start, j, n));
    } else {
      forall q: Subnet | RoomIn(space, q)
        ensures !Untouched(local, q)
      {
        var idx := EveryRoomIsACandidate(space, q);
        var j := CircleReaches(start, n, idx);
        assert TakenAt(space, local, start, j);
      }
    }
  }

  /** If nothing touches the space, the first draw decides. */
  lemma UntouchedSpaceTakesTheFirstDraw(space: Subnet, local: seq<Entry>, start: nat)
    requires space.bits <= ROOM_PREFIX_BITS && space.Masked() && start < Count(space)
    requires Untouched(local, space)
    ensures Search(space, local, start, 0) == Some(Candidate(space, start))
  {
    var c := Candidate(space, start);
    PlaceByCases(start, 0, Count(space));
    CandidateIsARoom(space, start);
    forall e | e in local && e.V4?
      ensures !Overlaps(e.net, c)
    {
      OverlapIsSharing(e.net, c);
      OverlapIsSharing(e.net, space);
      if a :| Share(e.net, c, a) {
        assert Share(e.net, space, a);
      }
    }
  }

  const SHARED_SPACE: Subnet := Prefix(0x6440_0000, 10)

  const FALLBACK_SPACE: Subnet := Prefix(0x0A63_0000, 16)

  lemma SpacesAreMasked()
    ensures SHARED_SPACE.Masked() && Count(SHARED_SPACE) == 0x4000
    ensures FALLBACK_SPACE.Masked() && Count(FALLBACK_SPACE) == 0x100
  {
    PowersOfTwo();
  }

  datatype Reason = NoConflict | SharedTouchedBy(net: Subnet) | SharedUnavailable

  datatype Plan = Plan(subnet: Subnet, reason: Reason)

  function Because(r: Outcome<Subnet>, reason: Reason): Outcome<Plan> {
    match r
    case Good(net) => Good(Plan(net, reason))
    case NoSubnet => NoSubnet
    case ReadFailed => ReadFailed
    case Unusable => Unusable
  }

  function Planned(local: seq<Entry>, reader: Reader): Outcome<Plan> {
    var touching := FirstTouching(local, SHARED_SPACE);
    var shared := Picked(Some(SHARED_SPACE), local, reader);
    if touching.Some? then Because(Picked(Some(FALLBACK_SPACE), local, reader).0, SharedTouchedBy(touching.value))
    else if shared.0.Good? then Because(shared.0, NoConflict)
    else Because(Picked(Some(FALLBACK_SPACE), local, shared.1).0, SharedUnavailable)
  }

  method PlanAddresses(local: seq<Entry>, reader: Reader) returns (r: Outcome<Plan>)
    ensures r == Planned(local, reader)
  {
    var touching := FirstOverlap(local, SHARED_SPACE);
    if touching.Some? {
      var sub, _ := PickSubnet(Some(FALLBACK_SPACE), local, reader);
      return Because(sub, SharedTouchedBy(touching.value));
    }
    var sub, rest := PickSubnet(Some(SHARED_SPACE), local, reader);
    if !sub.Good? {
      sub, rest := PickSubnet(Some(FALLBACK_SPACE), local, rest);
      return Because(sub, SharedUnavailable);
    }
    return Because(sub, NoConflict);
  }

  lemma PickIsExact(space: Subnet, local: seq<Entry>, reader: Reader)
    requires space.bits <= ROOM_PREFIX_BITS && space.Masked()
    ensures
      var (r, _) := Picked(Some(space), local, reader);
      var readable := reader != [] && reader[0].Some?;
      && (r.Good? ==> Free(space, local, r.value))
      && (r.ReadFailed? <==> !readable) && !r.Unusable?
      && (r.NoSubnet? <==> readable && forall q: Subnet | RoomIn(space, q) :: !Untouched(local, q))
      && (readable && Untouched(local, space) ==> r == Good(Candidate(space, reader[0].value % Count(space))))
  {
    CountFits(space);
    if reader != [] && reader[0].Some? {
      var start := reader[0].value % Count(space);
      assert Indexed(Count(space), reader, TRIES) == (Good(start), reader[1..]);
      SearchIsExact(space, local, start);
      if Untouched(local, space) {
        UntouchedSpaceTakesTheFirstDraw(space, local, start);
      }
    }
  }

  /** A planned subnet touches nothing local. It lies in the shared space, and is the very first draw,
      if and only if nothing local touches that space and the random source answers; the branch for a
      full shared space is reached only when a read fails. */
  lemma PlanIsSound(local: seq<Entry>, reader: Reader, r: Outcome<Plan>)
    requires r == Planned(local, reader)
    ensures r.Good? ==>
              Free(if r.value.reason == NoConflict then SHARED_SPACE else FALLBACK_SPACE, local, r.value.subnet)
    ensures
      var readable := reader != [] && reader[0].Some?;
      && (Untouched(local, SHARED_SPACE) && readable ==>
           r == Good(Plan(Candidate(SHARED_SPACE, reader[0].value % 0x4000), NoConflict)))
      && (r.Good? && r.value.reason == NoConflict <==> Untouched(local, SHARED_SPACE) && readable)
      && (r.Good? && r.value.reason == SharedUnavailable ==> !readable)
      && (r.NoSubnet? ==> forall q: Subnet | RoomIn(FALLBACK_SPACE, q) :: !Untouched(local, q))
  {
    SpacesAreMasked();
    PickIsExact(SHARED_SPACE, local, reader);
    PickIsExact(FALLBACK_SPACE, local, reader);
    PickIsExact(FALLBACK_SPACE, local, Picked(Some(SHARED_SPACE), local, reader).1);
  }

  /** Why a plan left the shared space: a local entry that touches it, whenever there is one; and then it
      fails with a working random source only when no /24 of the fallback space is free. */
  lemma PlanSaysWhy(local: seq<Entry>, reader: Reader)
    ensures
      var r := Planned(local, reader);
      var readable := reader != [] && reader[0].Some?;
      !Untouched(local, SHARED_SPACE) ==>
        && (r.Good? ==>
              && r.value.reason.SharedTouchedBy?
              && V4(r.value.reason.net) in local && Overlaps(r.value.reason.net, SHARED_SPACE))
        && (r.Good? <==> readable && exists q: Subnet :: Free(FALLBACK_SPACE, local, q))
        && (r.NoSubnet? <==> readable && !exists q: Subnet :: Free(FALLBACK_SPACE, local, q))
        && (r.ReadFailed? <==> !readable)
  {
    SpacesAreMasked();
    PickIsExact(FALLBACK_SPACE, local, reader);
  }

  /** A local route of at least the lobby's length beats it or ties with it. */
  method LobbyOverlap(local: seq<Entry>, lobby: Subnet) returns (hit: Option<Subnet>)
    ensures hit.Some? ==> V4(hit.value) in local && hit.value.bits >= ROOM_PREFIX_BITS && Overlaps(hit.value, lobby)
    ensures hit.None? ==> forall e | e in local && e.V4? && e.net.bits >= ROOM_PREFIX_BITS :: !Overlaps(e.net, lobby)
  {
    for i := 0 to |local|
      invariant forall j | 0 <= j < i && local[j].V4? && local[j].net.bits >= ROOM_PREFIX_BITS ::
                  !Overlaps(local[j].net, lobby)
    {
      if local[i].Skipped? {
        continue;
      }
      if local[i].net.bits >= ROOM_PREFIX_BITS && Overlaps(local[i].net, lobby) {
        return Some(local[i].net);
      }
    }
    return None;
  }

  /** So what it reports lies wholly within the /24 of the lobby. */
  lemma RivalLiesInsideTheLobby(rival: Subnet, lobby: Subnet, a: nat)
    requires lobby.bits == ROOM_PREFIX_BITS <= rival.bits && Overlaps(rival, lobby)
    ensures rival.Contains(a) ==> lobby.Contains(a)
  {
    if rival.Contains(a) {
      Nested(lobby, rival, a);
    }
  }
}

/** core/domain/peer.go: the address of a guest that enters the lobby. */
module LobbyGuests {
  import opened Common
  import opened Seats
  import opened Networks
  import opened Addressing

  const SEATS: nat := 253

  predicate Occupied(local: seq<Entry>, a: nat) { exists e :: e in local && e.V4? && e.net.Contains(a) }

  method IsOccupied(local: seq<Entry>, a: nat) returns (yes: bool)
    ensures yes == Occupied(local, a)
  {
    for i := 0 to |local|
      invariant !Occupied(local[..i], a)
    {
      assert local[..i + 1] == local[..i] + [local[i]];
      if local[i].V4? && local[i].net.Contains(a) {
        assert local[i] in local;
        return true;
      }
    }
    assert local[..|local|] == local;
    return false;
  }

  /** The address with its last octet overwritten. */
  function WithLastOctet(a: nat, octet: nat): nat { a / 256 * 256 + octet }

  function GuestAt(lobby: Subnet, start: nat, i: nat): nat { WithLastOctet(lobby.addr, 2 + Place(start, i, SEATS)) }

  ghost predicate FirstFreeGuest(lobby: Subnet, local: seq<Entry>, start: nat, i: nat) {
    && i < SEATS && !Occupied(local, GuestAt(lobby, start, i))
    && forall j: nat | j < i :: Occupied(local, GuestAt(lobby, start, j))
  }

  /** The first free address going round from the draw; the draw itself when all are occupied. */
  ghost predicate Assigned(lobby: Subnet, local: seq<Entry>, start: nat, a: nat) {
    || (exists i :: FirstFreeGuest(lobby, local, start, i) && a == GuestAt(lobby, start, i))
    || (a == WithLastOctet(lobby.addr, 2 + start)
        && forall i: nat | i < SEATS :: Occupied(local, GuestAt(lobby, start, i)))
  }

  /** `b` is the byte the random source gave, if it gave one. */
  method RendezvousGuestAddress(b: Option<byte>, lobby: Subnet, local: seq<Entry>) returns (r: Option<nat>)
    ensures r.None? <==> b.None?
    ensures r.Some? ==> Assigned(lobby, local, b.value as nat % SEATS, r.value)
  {
    if b.None? {
      return None;
    }
    var start := b.value as nat % 253;
    for i := 0 to 253
      invariant forall j: nat | j < i :: Occupied(local, GuestAt(lobby, start, j))
    {
      var cand := WithLastOctet(lobby.addr, 2 + (start + i) % 253);
      var taken := IsOccupied(local, cand);
      if !taken {
        assert FirstFreeGuest(lobby, local, start, i);
        return Some(cand);
      }
    }
    return Some(WithLastOctet(lobby.addr, 2 + start));
  }

  /** The guest gets an occupied address only when all 253 guest addresses of the lobby are occupied,
      and it is never the network, the host or the broadcast address. */
  lemma GuestIsFreeIfAnyoneIs(start: nat, lobby: Subnet, local: seq<Entry>, r: nat)
    requires start < SEATS && Assigned(lobby, local, start, r)
    ensures r / 256 == lobby.addr / 256 && 2 <= r % 256 <= 254
    ensures Occupied(local, r) <==>
              forall octet: nat | 2 <= octet <= 254 :: Occupied(local, WithLastOctet(lobby.addr, octet))
  {
    forall octet: nat | 2 <= octet <= 254 && forall i: nat | i < SEATS :: Occupied(local, GuestAt(lobby, start, i))
      ensures Occupied(local, WithLastOctet(lobby.addr, octet))
    {
      var i := CircleReaches(start, SEATS, octet - 2);
      assert GuestAt(lobby, start, i) == WithLastOctet(lobby.addr, octet);
    }
  }
}
