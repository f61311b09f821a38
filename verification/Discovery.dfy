/** core/domain/discovery.go: from a photo of the sockets to the ranges of a profile. */
module Discovery {
  import opened Common
  import opened Ports
  import opened Sorting
  import Text

  type Port = p: nat | p <= MAX_PORT

  datatype Listener = Listener(proto: Proto, port: Port, address: string, pid: int)

  datatype Key = Key(proto: Proto, port: Port)

  const STEAM_NOISE: seq<(nat, nat)> := [(27015, 27030), (27036, 27036)]

  predicate IsSteamNoise(p: Port) { exists r | r in STEAM_NOISE :: r.0 <= p <= r.1 }

  predicate ListensEverywhere(address: string) {
    var a := Text.TrimSpace(address);
    a == "0.0.0.0" || a == "*" || a == "::" || a == "[::]" || a == ""
  }

  /** Of the process tree, on a real port of every interface, and not Steam's own. */
  predicate Relevant(l: Listener, tree: set<int>, keepSteam: bool) {
    && l.pid in tree
    && l.port != 0 && ListensEverywhere(l.address)
    && (keepSteam || !IsSteamNoise(l.port))
    && l.proto != Both
  }

  ghost predicate Observed(ls: seq<Listener>, tree: set<int>, keepSteam: bool, k: Key) {
    exists l :: l in ls && Relevant(l, tree, keepSteam) && k == Key(l.proto, l.port)
  }

  function Rank(p: Proto): nat { match p case TCP => 1 case UDP => 2 case Both => 3 }

  predicate NoLater(a: Key, b: Key) {
    if a.proto != b.proto then Rank(a.proto) < Rank(b.proto) else a.port <= b.port
  }

  predicate Before(a: Key, b: Key) { NoLater(a, b) && a != b }

  predicate Ascending(ks: seq<Key>) { forall i, j | 0 <= i < j < |ks| :: Before(ks[i], ks[j]) }

  /** The keys of a map in order, whatever order the map is walked in. */
  method InOrder(seen: set<Key>) returns (flat: seq<Key>)
    ensures Ascending(flat)
    ensures forall k :: k in flat <==> k in seen
  {
    var todo := seen;
    var keys: seq<Key> := [];
    while todo != {}
      invariant Distinct(keys)
      invariant todo <= seen
      invariant forall k :: k in keys <==> k in seen - todo
      decreases todo
    {
      var k :| k in todo;
      AppendFresh(keys, k);
      keys := keys + [k];
      todo := todo - {k};
    }
    flat := Sort(keys, NoLater);
    assert TotalPreorder(NoLater);
    SortIsOrderedPermutation(keys, NoLater);
    PermutationStaysDistinct(keys, flat);
    PermutationsShareElements(keys, flat);
  }

  ghost predicate Covered(out: seq<PortRange>, k: Key) {
    exists r :: r in out && r.proto == k.proto && r.Covers(k.port)
  }

  /** `r` lies wholly before `q` and one range could not replace both. */
  predicate Apart(r: PortRange, q: PortRange) {
    if r.proto != q.proto then Rank(r.proto) < Rank(q.proto) else r.to + 1 < q.from
  }

  predicate Compact(out: seq<PortRange>) {
    && (forall r | r in out :: 0 < r.from <= r.to <= MAX_PORT && r.proto != Both)
    && forall i, j | 0 <= i < j < |out| :: Apart(out[i], out[j])
  }

  predicate EndsAt(out: seq<PortRange>, ks: seq<Key>) {
    if ks == [] then out == []
    else out != [] && out[|out| - 1].proto == ks[|ks| - 1].proto && out[|out| - 1].to == ks[|ks| - 1].port
  }

  function Joined(out: seq<PortRange>, k: Key): seq<PortRange> {
    var n := |out|;
    if n > 0 && out[n - 1].proto == k.proto && (out[n - 1].to + 1) % 0x1_0000 == k.port
    then out[n - 1 := out[n - 1].(to := k.port)]
    else out + [PortRange(k.proto, k.port, k.port)]
  }

  /** One more key, later than all before it, lengthens the last range or starts a new one;
      the 16-bit sum never wraps into a merge because no key has port 0. */
  lemma JoinStaysCompact(out: seq<PortRange>, ks: seq<Key>, k: Key)
    requires Compact(out) && EndsAt(out, ks) && Ascending(ks + [k]) && k.port > 0 && k.proto != Both
    ensures Compact(Joined(out, k)) && EndsAt(Joined(out, k), ks + [k])
  {
    var n := |out|;
    if n > 0 {
      var last := out[n - 1];
      assert Before((ks + [k])[|ks| - 1], (ks + [k])[|ks|]);
      assert last.to <= MAX_PORT;
      forall i | 0 <= i < n - 1
        ensures Apart(out[i], last.(to := k.port)) || last.proto != k.proto
        ensures Apart(out[i], PortRange(k.proto, k.port, k.port))
      {
        assert Apart(out[i], last);
      }
    }
  }

  lemma JoinCoversOneMore(out: seq<PortRange>, ks: seq<Key>, k: Key, x: Key)
    requires Compact(out) && EndsAt(out, ks) && Ascending(ks + [k]) && k.port > 0
    ensures Covered(Joined(out, k), x) <==> x == k || Covered(out, x)
  {
    var n, more := |out|, Joined(out, k);
    if |more| == n {
      var last := out[n - 1];
      assert Before((ks + [k])[|ks| - 1], (ks + [k])[|ks|]);
      assert out == out[..n - 1] + [last] && more == out[..n - 1] + [last.(to := k.port)];
      assert last in out && last.(to := k.port) in more;
    } else {
      assert PortRange(k.proto, k.port, k.port) in more;
    }
  }

  method Coalesce(flat: seq<Key>) returns (out: seq<PortRange>)
    requires Ascending(flat) && forall k | k in flat :: k.port > 0 && k.proto != Both
    ensures Compact(out)
    ensures forall k :: Covered(out, k) <==> k in flat
  {
    out := [];
    for i := 0 to |flat|
      invariant Compact(out) && EndsAt(out, flat[..i])
      invariant forall k :: Covered(out, k) <==> k in flat[..i]
    {
      var k, n := flat[i], |out|;
      ghost var was := out;
      assert flat[..i + 1] == flat[..i] + [k];
      JoinStaysCompact(out, flat[..i], k);
      forall x
        ensures Covered(Joined(out, k), x) <==> x == k || Covered(out, x)
      {
        JoinCoversOneMore(out, flat[..i], k, x);
      }
      if n > 0 && out[n - 1].proto == k.proto && (out[n - 1].to + 1) % 0x1_0000 == k.port {
        out := out[n - 1 := out[n - 1].(to := k.port)];
      } else {
        out := out + [PortRange(k.proto, k.port, k.port)];
      }
      assert out == Joined(was, k);
    }
    assert flat[..|flat|] == flat;
  }

  method ObservedRanges(ls: seq<Listener>, tree: set<int>, keepSteam: bool) returns (out: seq<PortRange>)
    ensures Compact(out)
    ensures forall k :: Covered(out, k) <==> Observed(ls, tree, keepSteam, k)
  {
    var seen: set<Key> := {};
    for i := 0 to |ls|
      invariant forall k :: k in seen <==> Observed(ls[..i], tree, keepSteam, k)
    {
      var l := ls[i];
      assert ls[..i + 1] == ls[..i] + [l];
      if !Relevant(l, tree, keepSteam) {
        continue;
      }
      seen := seen + {Key(l.proto, l.port)};
    }
    assert ls[..|ls|] == ls;
    var flat := InOrder(seen);
    out := Coalesce(flat);
  }

  lemma NothingBeforeTheFirst(out: seq<PortRange>, k: Key)
    requires Compact(out) && Covered(out, k)
    ensures NoLater(Key(out[0].proto, out[0].from), k)
  {
    var r :| r in out && r.proto == k.proto && r.Covers(k.port);
    var j :| 0 <= j < |out| && out[j] == r;
    assert j > 0 ==> Apart(out[0], out[j]);
  }

  /** The port after a range is free for its protocol. */
  lemma GapAfter(out: seq<PortRange>, i: nat, k: Key)
    requires Compact(out) && i < |out| && k.proto == out[i].proto && k.port == out[i].to + 1
    ensures !Covered(out, k)
  {
    forall r | r in out && r.proto == k.proto
      ensures !r.Covers(k.port)
    {
      var j :| 0 <= j < |out| && out[j] == r;
      assert j < i ==> Apart(out[j], out[i]);
      assert j > i ==> Apart(out[i], out[j]);
    }
  }

  lemma TailCoversTheRest(out: seq<PortRange>, k: Key)
    requires Compact(out) && out != []
    ensures Compact(out[1..])
    ensures Covered(out[1..], k) <==> Covered(out, k) && !(out[0].proto == k.proto && out[0].Covers(k.port))
  {
    assert out == [out[0]] + out[1..];
    forall r | r in out[1..]
      ensures Apart(out[0], r)
    {
      var j :| 0 <= j < |out[1..]| && out[1..][j] == r;
      assert out[j + 1] == r;
    }
  }

  lemma FirstRangesAgree(a: seq<PortRange>, b: seq<PortRange>)
    requires Compact(a) && Compact(b) && a != [] && b != []
    requires forall k :: Covered(a, k) <==> Covered(b, k)
    ensures a[0].proto == b[0].proto && a[0].from == b[0].from && a[0].to <= b[0].to
  {
    assert a[0] in a && b[0] in b;
    var first, other := Key(a[0].proto, a[0].from), Key(b[0].proto, b[0].from);
    assert Covered(a, first) && Covered(b, other);
    NothingBeforeTheFirst(a, other);
    NothingBeforeTheFirst(b, first);
    assert Rank(first.proto) == Rank(other.proto);
    if b[0].to < a[0].to {
      var next := Key(b[0].proto, b[0].to + 1);
      assert Covered(a, next);
      GapAfter(b, 0, next);
    }
  }

  /** There is only one compact list of ranges for a set of ports. */
  lemma {:induction false} CoverIsUnique(a: seq<PortRange>, b: seq<PortRange>)
    requires Compact(a) && Compact(b)
    requires forall k :: Covered(a, k) <==> Covered(b, k)
    ensures a == b
  {
    if a == [] || b == [] {
      if a != [] {
        assert a[0] in a && Covered(a, Key(a[0].proto, a[0].from));
      }
      if b != [] {
        assert b[0] in b && Covered(b, Key(b[0].proto, b[0].from));
      }
    } else {
      FirstRangesAgree(a, b);
      FirstRangesAgree(b, a);
      forall k
        ensures Covered(a[1..], k) <==> Covered(b[1..], k)
      {
        TailCoversTheRest(a, k);
        TailCoversTheRest(b, k);
      }
      TailCoversTheRest(a, Key(TCP, 0));
      TailCoversTheRest(b, Key(TCP, 0));
      CoverIsUnique(a[1..], b[1..]);
      assert a == [a[0]] + a[1..] && b == [b[0]] + b[1..];
    }
  }

  /** The ranges do not depend on the order of the socket table nor on its repetitions. */
  lemma PhotoOrderDoesNotMatter(ls: seq<Listener>, ms: seq<Listener>, tree: set<int>, keepSteam: bool,
                                a: seq<PortRange>, b: seq<PortRange>)
    requires forall l :: l in ls <==> l in ms
    requires Compact(a) && forall k :: Covered(a, k) <==> Observed(ls, tree, keepSteam, k)
    requires Compact(b) && forall k :: Covered(b, k) <==> Observed(ms, tree, keepSteam, k)
    ensures a == b
  {
    CoverIsUnique(a, b);
  }

  ghost function CoveredBy(qs: seq<PortRange>, k: Key): (i: nat)
    requires Covered(qs, k)
    ensures i < |qs| && qs[i].proto == k.proto && qs[i].Covers(k.port)
  {
    var i: nat :| i < |qs| && qs[i].proto == k.proto && qs[i].Covers(k.port);
    i
  }

  lemma {:induction false} PigeonHole(f: seq<nat>, n: nat)
    requires Distinct(f) && forall x | x in f :: x < n
    ensures |f| <= n
  {
    assert f != [] ==> f[0] in f;
    if n == 0 {
    } else if i :| 0 <= i < |f| && f[i] == n - 1 {
      var g := f[..i] + f[i + 1..];
      assert f == f[..i] + [n - 1] + f[i + 1..];
      forall x | x in g
        ensures x < n - 1
      {
        var j :| 0 <= j < |g| && g[j] == x;
        var k := if j < i then j else j + 1;
        assert g[j] == f[k] && f[k] in f;
        assert k < i ==> f[k] != f[i];
        assert k > i ==> f[i] != f[k];
      }
      PigeonHole(g, n - 1);
    } else {
      PigeonHole(f, n - 1);
    }
  }

  ghost predicate HeadCovered(qs: seq<PortRange>, r: PortRange) {
    r.from <= MAX_PORT && Covered(qs, Key(r.proto, r.from))
  }

  ghost function HeadCover(qs: seq<PortRange>, r: PortRange): nat
    requires HeadCovered(qs, r)
  {
    CoveredBy(qs, Key(r.proto, r.from))
  }

  /** One range cannot cover the heads of two: it would cover the gap between them. */
  lemma HeadsNeedDifferentRanges(out: seq<PortRange>, qs: seq<PortRange>, i: nat, j: nat)
    requires Compact(out) && forall k :: Covered(out, k) <==> Covered(qs, k)
    requires i < j < |out| && HeadCovered(qs, out[i]) && HeadCovered(qs, out[j])
    ensures HeadCover(qs, out[i]) != HeadCover(qs, out[j])
  {
    var c := HeadCover(qs, out[i]);
    if c == HeadCover(qs, out[j]) {
      assert Apart(out[i], out[j]) && out[i] in out;
      var gap := Key(out[i].proto, out[i].to + 1);
      assert qs[c] in qs && Covered(qs, gap);
      GapAfter(out, i, gap);
    }
  }

  /** No other list of ranges, compact or not, covers the same ports with fewer of them. */
  lemma CompactIsMinimal(out: seq<PortRange>, qs: seq<PortRange>)
    requires Compact(out) && forall k :: Covered(out, k) <==> Covered(qs, k)
    ensures |out| <= |qs|
  {
    var f := HeadCovers(out, qs);
    forall i: nat, j: nat | i < j < |f|
      ensures f[i] != f[j]
    {
      HeadsNeedDifferentRanges(out, qs, i, j);
    }
    PigeonHole(f, |qs|);
  }

  lemma HeadCovers(out: seq<PortRange>, qs: seq<PortRange>) returns (f: seq<nat>)
    requires Compact(out) && forall k :: Covered(out, k) <==> Covered(qs, k)
    ensures |f| == |out| && forall x | x in f :: x < |qs|
    ensures forall i: nat | i < |out| :: HeadCovered(qs, out[i]) && f[i] == HeadCover(qs, out[i])
  {
    f := [];
    for n := 0 to |out|
      invariant |f| == n && forall x | x in f :: x < |qs|
      invariant forall i: nat | i < n :: HeadCovered(qs, out[i]) && f[i] == HeadCover(qs, out[i])
    {
      var r := out[n];
      assert r in out && Covered(out, Key(r.proto, r.from));
      f := f + [HeadCover(qs, r)];
    }
  }

  /** What counts as observed: a socket of the process tree, of one protocol, on a port that is not zero,
      bound to every interface, and unless asked for not one of Steam's own. */
  lemma ObservedExactly(ls: seq<Listener>, tree: set<int>, keepSteam: bool, k: Key)
    ensures Observed(ls, tree, keepSteam, k) <==> exists l ::
              && l in ls && l.proto == k.proto && l.port == k.port && l.pid in tree
              && l.port != 0 && l.proto != Both
              && (keepSteam || !(27015 <= l.port <= 27030 || l.port == 27036))
              && Text.TrimSpace(l.address) in ["0.0.0.0", "*", "::", "[::]", ""]
  {
    assert forall p: Port :: IsSteamNoise(p) <==> 27015 <= p <= 27030 || p == 27036 by {
      assert STEAM_NOISE[0] == (27015, 27030) && STEAM_NOISE[1] == (27036, 27036);
    }
  }

  /** In a compact list TCP comes before UDP, and ranges of one protocol ascend with a gap in between. */
  lemma CompactReads(out: seq<PortRange>, i: nat, j: nat)
    requires Compact(out) && i < j < |out|
    ensures out[i].proto == out[j].proto ==> out[i].to + 1 < out[j].from
    ensures out[i].proto != out[j].proto ==> out[i].proto == TCP && out[j].proto == UDP
  {
    assert Apart(out[i], out[j]);
    assert out[i] in out && out[j] in out;
  }
}
