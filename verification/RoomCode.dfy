/** ASCII text operations of the standard library that the parser of room codes leans on. */
module Text {
  import opened Common

  predicate IsSpace(c: char) { c == ' ' || '\U{9}' <= c <= '\U{D}' }

  function TrimLeft(s: string): string {
    if s != "" && IsSpace(s[0]) then TrimLeft(s[1..]) else s
  }

  function TrimRight(s: string): string {
    if s != "" && IsSpace(s[|s| - 1]) then TrimRight(s[..|s| - 1]) else s
  }

  function TrimSpace(s: string): string { TrimRight(TrimLeft(s)) }

  function LowerChar(c: char): char {
    if 'A' <= c <= 'Z' then (c as int + 32) as char else c
  }

  function Lower(s: string): string {
    seq(|s|, i requires 0 <= i < |s| => LowerChar(s[i]))
  }

  /** The position of the first `c`, or the length of `s`. */
  function IndexOf(s: string, c: char): (i: nat)
    ensures i <= |s|
    ensures c !in s[..i] && (i < |s| ==> s[i] == c)
    ensures i == |s| <==> c !in s
  {
    if s == "" then 0 else if s[0] == c then 0
    else
      var k := IndexOf(s[1..], c);
      assert s == [s[0]] + s[1..] && s[..k + 1] == [s[0]] + s[1..][..k];
      k + 1
  }

  lemma {:induction false} IndexAfter(a: string, c: char, b: string)
    requires c !in a
    ensures IndexOf(a + [c] + b, c) == |a|
  {
    if a != "" {
      IndexAfter(a[1..], c, b);
      assert a[0] in a;
      assert (a + [c] + b)[1..] == a[1..] + [c] + b;
    }
  }

  /** The pieces of `s` between the dots. */
  function Labels(s: string): (ls: seq<string>)
    ensures |ls| > 0
    decreases |s|
  {
    var i := IndexOf(s, '.');
    if i == |s| then [s] else [s[..i]] + Labels(s[i + 1..])
  }

  lemma {:induction false} LabelsCover(s: string, k: nat)
    requires k < |s|
    ensures s[k] == '.' || exists l :: l in Labels(s) && s[k] in l
    decreases |s|
  {
    var i := IndexOf(s, '.');
    if i == |s| {
      var l := s;
      assert l in Labels(s) && s[k] in l;
    } else if k < i {
      var l := s[..i];
      assert Labels(s)[0] == l && l[k] == s[k];
      assert l in Labels(s) && s[k] in l;
    } else if k > i {
      LabelsCover(s[i + 1..], k - i - 1);
      assert s[k] == s[i + 1..][k - i - 1];
      if s[k] != '.' {
        var l :| l in Labels(s[i + 1..]) && s[k] in l;
        assert l in Labels(s);
      }
    }
  }

  lemma {:induction false} LastLabelEnds(s: string)
    requires Labels(s)[|Labels(s)| - 1] != ""
    ensures s != "" && s[|s| - 1] in Labels(s)[|Labels(s)| - 1]
    decreases |s|
  {
    var i := IndexOf(s, '.');
    if i < |s| {
      var tail := s[i + 1..];
      var rest := Labels(tail);
      assert Labels(s) == [s[..i]] + rest;
      assert Labels(s)[|Labels(s)| - 1] == rest[|rest| - 1];
      LastLabelEnds(tail);
    }
  }

  lemma TrimKeeps(s: string)
    requires s != "" && !IsSpace(s[0])
    ensures TrimSpace(s) == TrimRight(s)
  {
  }

  /** Trimming on the right stops at the last character of `a` that is not a space. */
  lemma {:induction false} TrimRightStops(a: string, b: string)
    requires a != "" && !IsSpace(a[|a| - 1])
    ensures TrimRight(a + b) == a + TrimRight(b) || TrimRight(a + b) == a
    ensures b != "" && !IsSpace(b[0]) ==> TrimRight(b) != "" && TrimRight(b)[0] == b[0]
    ensures TrimRight(a + b) == a + TrimRight(b)
  {
    if b == "" {
      assert a + b == a;
    } else if IsSpace(b[|b| - 1]) {
      TrimRightStops(a, b[..|b| - 1]);
      assert (a + b)[..|a + b| - 1] == a + b[..|b| - 1];
    }
  }
}

/** core/domain/inviteid.go: the eight symbols that name a room. */
module InviteIds {
  import opened Common
  import opened Text

  const ALPHABET: string := "23456789ABCDEFGHJKLMNPQRSTUVWXYZ"
  const INVITE_ID_LEN: nat := 8
  const GROUP_LEN: nat := 4

  predicate IsRaw(s: string) { |s| == INVITE_ID_LEN && forall c | c in s :: c in ALPHABET }

  predicate Skipped(c: char) { c == '-' || c == ' ' || c == '_' || c == '\t' }

  function Upper(c: char): char {
    if 'a' <= c <= 'z' then (c as int - 32) as char else c
  }

  function Normalized(s: string): string {
    if s == "" then ""
    else
      var c := s[|s| - 1];
      Normalized(s[..|s| - 1]) + if Skipped(c) then "" else [Upper(c)]
  }

  datatype IdResult = Id(raw: string) | BadLength | BadSymbol

  function ParsedId(s: string): IdResult {
    var n := Normalized(s);
    if |n| != INVITE_ID_LEN then BadLength else if IsRaw(n) then Id(n) else BadSymbol
  }

  /** Groups of four joined by a dash. */
  function Printed(raw: string): string {
    if |raw| <= GROUP_LEN then raw else raw[..GROUP_LEN] + "-" + Printed(raw[GROUP_LEN..])
  }

  method NormalizeInviteId(s: string) returns (n: string)
    ensures n == Normalized(s)
  {
    n := "";
    for i := 0 to |s|
      invariant n == Normalized(s[..i])
    {
      assert s[..i + 1][..i] == s[..i];
      var c := s[i];
      if c == '-' || c == ' ' || c == '_' || c == '\t' {
        assert n + "" == n;
      } else if 'a' <= c <= 'z' {
        n := n + [(c as int - 32) as char];
      } else {
        n := n + [c];
      }
    }
    assert s[..|s|] == s;
  }

  method ParseInviteId(s: string) returns (r: IdResult)
    ensures r == ParsedId(s)
  {
    var n := NormalizeInviteId(s);
    if |n| != INVITE_ID_LEN {
      return BadLength;
    }
    for i := 0 to |n|
      invariant forall k | 0 <= k < i :: n[k] in ALPHABET
    {
      if n[i] !in ALPHABET {
        return BadSymbol;
      }
    }
    return Id(n);
  }

  method PrintInviteId(raw: string) returns (s: string)
    requires |raw| % GROUP_LEN == 0
    ensures s == Printed(raw)
  {
    s := "";
    var p := 0;
    while p < |raw|
      invariant p <= |raw| && p % GROUP_LEN == 0
      invariant Printed(raw) == if p == 0 then Printed(raw[p..])
                                else if p == |raw| then s
                                else s + "-" + Printed(raw[p..])
      invariant p == 0 ==> s == ""
    {
      if p > 0 {
        s := s + "-";
      }
      assert raw[p..][..GROUP_LEN] == raw[p..p + GROUP_LEN] && raw[p..][GROUP_LEN..] == raw[p + GROUP_LEN..];
      s := s + raw[p..p + GROUP_LEN];
      p := p + GROUP_LEN;
    }
  }

  lemma {:induction false} NormalizedConcat(a: string, b: string)
    ensures Normalized(a + b) == Normalized(a) + Normalized(b)
  {
    if b == "" {
      assert a + b == a;
    } else {
      NormalizedConcat(a, b[..|b| - 1]);
      assert (a + b)[..|a + b| - 1] == a + b[..|b| - 1];
    }
  }

  predicate PlainSymbol(c: char) { '2' <= c <= '9' || 'A' <= c <= 'Z' }

  lemma SymbolIsPlain(c: char)
    requires c in ALPHABET
    ensures PlainSymbol(c)
  {
  }

  lemma RawIsPlain(raw: string)
    requires IsRaw(raw)
    ensures forall c | c in raw :: PlainSymbol(c)
  {
    forall c | c in raw
      ensures PlainSymbol(c)
    {
      SymbolIsPlain(c);
    }
  }

  lemma {:induction false} SymbolsStay(s: string)
    requires forall c | c in s :: PlainSymbol(c)
    ensures Normalized(s) == s
  {
    if s != "" {
      SymbolsStay(s[..|s| - 1]);
      assert s[|s| - 1] in s;
      assert s == s[..|s| - 1] + [s[|s| - 1]];
    }
  }

  /** Reading back what was printed gives the same eight symbols. */
  lemma PrintedIdParses(raw: string)
    requires IsRaw(raw)
    ensures ParsedId(Printed(raw)) == Id(raw)
    ensures Printed(raw) == raw[..4] + "-" + raw[4..]
  {
    RawIsPlain(raw);
    TwoGroups(raw);
    DashIsSkipped(raw[..4], raw[4..]);
    assert raw == raw[..4] + raw[4..];
  }

  lemma TwoGroups(raw: string)
    requires |raw| == INVITE_ID_LEN
    ensures Printed(raw) == raw[..4] + "-" + raw[4..]
  {
  }

  lemma DashIsSkipped(a: string, b: string)
    requires forall c | c in a + b :: PlainSymbol(c)
    ensures Normalized(a + "-" + b) == a + b
  {
    SymbolsStay(a);
    SymbolsStay(b);
    NormalizedConcat(a + "-", b);
    NormalizedConcat(a, "-");
    assert Normalized("-") == "" && a + "" == a;
  }
}

/** core/domain/room.go and the printed link of core/domain/roomcard.go. */
module RoomCode {
  import opened Common
  import opened Text
  import opened InviteIds

  const MAX_INPUT_LEN: nat := 300
  const MAX_HOST_LEN: nat := 253
  const CARD_KEY_LEN: nat := 32

  datatype Room = Room(id: string, seed: string)

  datatype ParseError = InputTooLong | InputShape | SeedHostBad | SeedMissing | IdLength | IdSymbol

  datatype Parsed<T> = Ok(value: T) | Err(error: ParseError)

  // --- the seed's host name ---

  predicate HostChar(c: char) { '0' <= c <= '9' || 'a' <= c <= 'z' || c == '-' }

  predicate GoodLabel(l: string) {
    && 0 < |l| <= 63
    && l[0] != '-' && l[|l| - 1] != '-'
    && forall c | c in l :: HostChar(c)
  }

  predicate HasLetter(l: string) { exists c :: c in l && 'a' <= c <= 'z' }

  predicate GoodHost(h: string) {
    && h != "" && |h| <= MAX_HOST_LEN
    && '.' in h
    && (forall l | l in Labels(h) :: GoodLabel(l))
    && HasLetter(Labels(h)[|Labels(h)| - 1])
  }

  function WithoutSuffix(h: string, c: char): string {
    if h != "" && h[|h| - 1] == c then h[..|h| - 1] else h
  }

  function SeedHost(h: string): Parsed<string> {
    var l := Lower(WithoutSuffix(h, '.'));
    if GoodHost(l) then Ok(l) else Err(SeedHostBad)
  }

  method ParseSeedHost(host: string) returns (r: Parsed<string>)
    ensures r == SeedHost(host)
  {
    var h := Lower(WithoutSuffix(host, '.'));
    if h == "" || |h| > MAX_HOST_LEN {
      return Err(SeedHostBad);
    }
    if '.' !in h {
      return Err(SeedHostBad);
    }
    var labels := Labels(h);
    for k := 0 to |labels|
      invariant forall j | 0 <= j < k :: GoodLabel(labels[j])
    {
      var l := labels[k];
      assert l in labels;
      if l == "" || |l| > 63 {
        return Err(SeedHostBad);
      }
      if l[0] == '-' || l[|l| - 1] == '-' {
        return Err(SeedHostBad);
      }
      for i := 0 to |l|
        invariant forall j | 0 <= j < i :: HostChar(l[j])
      {
        var isDigit := '0' <= l[i] <= '9';
        var isLower := 'a' <= l[i] <= 'z';
        assert l[i] in l;
        if !isDigit && !isLower && l[i] != '-' {
          return Err(SeedHostBad);
        }
      }
    }
    var last := labels[|labels| - 1];
    for i := 0 to |last|
      invariant forall j | 0 <= j < i :: !('a' <= last[j] <= 'z')
    {
      if 'a' <= last[i] <= 'z' {
        assert last[i] in last;
        return Ok(h);
      }
    }
    return Err(SeedHostBad);
  }

  // --- the code a user pastes ---

  const KANPACHI: string := "kanpachi://"
  const HTTPS: string := "https://"
  const HTTP: string := "http://"

  predicate HasScheme(s: string, scheme: string) {
    |s| >= |scheme| && Lower(s[..|scheme|]) == scheme
  }

  function WithoutScheme(s: string): string {
    if HasScheme(s, KANPACHI) then WithoutSuffix(s[|KANPACHI|..], '/')
    else if HasScheme(s, HTTPS) then s[|HTTPS|..]
    else if HasScheme(s, HTTP) then s[|HTTP|..]
    else s
  }

  lemma FirstSchemeWins(s: string, i: nat)
    requires i < 3 && HasScheme(s, [KANPACHI, HTTPS, HTTP][i])
    requires forall j | 0 <= j < i :: !HasScheme(s, [KANPACHI, HTTPS, HTTP][j])
    ensures var rest := s[|[KANPACHI, HTTPS, HTTP][i]|..];
            WithoutScheme(s) == if [KANPACHI, HTTPS, HTTP][i] == KANPACHI then WithoutSuffix(rest, '/') else rest
  {
    var schemes := [KANPACHI, HTTPS, HTTP];
    assert HTTPS[0] != KANPACHI[0] && HTTP[0] != KANPACHI[0];
    if i > 0 { assert !HasScheme(s, schemes[0]); }
    if i > 1 { assert !HasScheme(s, schemes[1]); }
  }

  /** The id half and the host half of `id@host` or `host/id`; a lone id has no host. */
  function Halves(s: string): Parsed<(string, string)> {
    var at, slash := IndexOf(s, '@'), IndexOf(s, '/');
    if at < |s| && slash < |s| then Err(InputShape)
    else if at < |s| then
      if '@' in s[at + 1..] then Err(InputShape)
      else if s[at + 1..] == "" then Err(SeedHostBad)
      else Ok((s[..at], s[at + 1..]))
    else if slash < |s| then
      var id := s[slash + 1..];
      if '/' in id || '?' in id || '&' in id then Err(InputShape) else Ok((id, s[..slash]))
    else Ok((s, ""))
  }

  function RoomOf(id: string, host: string): Parsed<Room> {
    match ParsedId(id)
    case BadLength => Err(IdLength)
    case BadSymbol => Err(IdSymbol)
    case Id(raw) =>
      if host == "" then Err(SeedMissing)
      else if SeedHost(host).Ok? then Ok(Room(raw, SeedHost(host).value))
      else Err(SeedHostBad)
  }

  function ParsedCore(s: string): Parsed<Room> {
    match Halves(WithoutScheme(s[..IndexOf(s, '#')]))
    case Err(e) => Err(e)
    case Ok(h) => RoomOf(h.0, h.1)
  }

  function ParsedRoom(input: string): Parsed<Room> {
    if |input| > MAX_INPUT_LEN then Err(InputTooLong)
    else if TrimSpace(input) == "" then Err(InputShape)
    else ParsedCore(TrimSpace(input))
  }

  method StripScheme(whole: string) returns (s: string)
    ensures s == WithoutScheme(whole)
  {
    s := whole;
    var schemes := [KANPACHI, HTTPS, HTTP];
    for i := 0 to 3
      invariant s == whole
      invariant forall j | 0 <= j < i :: !HasScheme(s, schemes[j])
    {
      if HasScheme(s, schemes[i]) {
        FirstSchemeWins(s, i);
        s := s[|schemes[i]|..];
        if schemes[i] == KANPACHI && s != "" && s[|s| - 1] == '/' {
          s := s[..|s| - 1];
        }
        return;
      }
    }
    assert !HasScheme(s, schemes[0]) && !HasScheme(s, schemes[1]) && !HasScheme(s, schemes[2]);
  }

  method SplitHalves(s: string) returns (r: Parsed<(string, string)>)
    ensures r == Halves(s)
  {
    var hasAt := '@' in s;
    var hasSlash := '/' in s;
    if hasAt && hasSlash {
      return Err(InputShape);
    }
    if hasAt {
      var at := IndexOf(s, '@');
      var idPart, hostPart := s[..at], s[at + 1..];
      if '@' in hostPart {
        return Err(InputShape);
      }
      if hostPart == "" {
        return Err(SeedHostBad);
      }
      return Ok((idPart, hostPart));
    } else if hasSlash {
      var slash := IndexOf(s, '/');
      var hostPart, idPart := s[..slash], s[slash + 1..];
      if '/' in idPart || '?' in idPart || '&' in idPart {
        return Err(InputShape);
      }
      return Ok((idPart, hostPart));
    }
    return Ok((s, ""));
  }

  method ParseParts(idPart: string, hostPart: string) returns (r: Parsed<Room>)
    ensures r == RoomOf(idPart, hostPart)
  {
    var id := ParseInviteId(idPart);
    match id
    case BadLength => return Err(IdLength);
    case BadSymbol => return Err(IdSymbol);
    case Id(raw) =>
      if hostPart == "" {
        return Err(SeedMissing);
      }
      var seed := ParseSeedHost(hostPart);
      if seed.Err? {
        return Err(SeedHostBad);
      }
      return Ok(Room(raw, seed.value));
  }

  method ParseRoom(input: string) returns (r: Parsed<Room>)
    ensures r == ParsedRoom(input)
  {
    if |input| > MAX_INPUT_LEN {
      return Err(InputTooLong);
    }
    var s := TrimSpace(input);
    if s == "" {
      return Err(InputShape);
    }
    var hash := IndexOf(s, '#');
    if hash < |s| {
      s := s[..hash];
    }
    assert s == TrimSpace(input)[..hash];
    s := StripScheme(s);
    var halves := SplitHalves(s);
    if halves.Err? {
      return Err(halves.error);
    }
    r := ParseParts(halves.value.0, halves.value.1);
  }

  // --- the printers ---

  function InviteUrl(r: Room): string { r.seed + "/" + Printed(r.id) }

  function AtForm(r: Room): string { Printed(r.id) + "@" + r.seed }

  /** The characters of base64url (section 5 of RFC 4648). */
  function Sextet(n: nat): char {
    var k := n % 64;
    if k < 26 then ('A' as nat + k) as char
    else if k < 52 then ('a' as nat + k - 26) as char
    else if k < 62 then ('0' as nat + k - 52) as char
    else if k == 62 then '-' else '_'
  }

  /** Unpadded base64url: four characters for each three bytes, two or three for the rest. */
  function CardKeyFragment(key: Bytes): string {
    if key == [] then ""
    else if |key| == 1 then
      var n := key[0] as nat;
      [Sextet(n / 4), Sextet(n * 16)]
    else if |key| == 2 then
      var n := key[0] as nat * 0x100 + key[1] as nat;
      [Sextet(n / 0x400), Sextet(n / 16), Sextet(n * 4)]
    else
      var n := key[0] as nat * 0x10000 + key[1] as nat * 0x100 + key[2] as nat;
      [Sextet(n / 0x40000), Sextet(n / 0x1000), Sextet(n / 64), Sextet(n)] + CardKeyFragment(key[3..])
  }

  predicate IsZeroKey(key: Bytes) { forall i | 0 <= i < |key| :: key[i] == 0 }

  function InviteLink(r: Room, key: Bytes): string {
    if IsZeroKey(key) then HTTPS + InviteUrl(r) else HTTPS + InviteUrl(r) + "#" + CardKeyFragment(key)
  }

  // --- what parsing promises ---

  predicate ValidRoom(r: Room) { IsRaw(r.id) && GoodHost(r.seed) }

  predicate PlainChar(c: char) { HostChar(c) || c == '.' }

  lemma HostChars(h: string)
    requires GoodHost(h)
    ensures forall c | c in h :: PlainChar(c)
    ensures h[|h| - 1] != '.' && !IsSpace(h[0]) && !IsSpace(h[|h| - 1])
  {
    forall k | 0 <= k < |h|
      ensures PlainChar(h[k])
    {
      LabelsCover(h, k);
    }
    var ls := Labels(h);
    assert ls[|ls| - 1] in ls;
    LastLabelEnds(h);
  }

  lemma LowerOfPlain(h: string)
    requires forall c | c in h :: PlainChar(c)
    ensures Lower(h) == h
  {
    forall i | 0 <= i < |h|
      ensures LowerChar(h[i]) == h[i]
    {
      assert h[i] in h;
    }
  }

  /** Every accepted seed is a fixed point of the seed parser, and so is any good host. */
  lemma SeedIsFixedPoint(h: string)
    ensures GoodHost(h) ==> SeedHost(h) == Ok(h)
    ensures SeedHost(h).Ok? ==> SeedHost(SeedHost(h).value) == SeedHost(h)
  {
    var l := Lower(WithoutSuffix(h, '.'));
    if GoodHost(l) {
      HostChars(l);
      LowerOfPlain(l);
    }
    if GoodHost(h) {
      HostChars(h);
      LowerOfPlain(h);
    }
  }

  /** Whatever parses is a room whose id and seed are canonical. */
  lemma ParsedRoomIsValid(input: string)
    requires ParsedRoom(input).Ok?
    ensures ValidRoom(ParsedRoom(input).value)
  {
  }

  /** A printed core: no fragment, no scheme, no space at either end. */
  predicate Core(c: string) {
    c != "" && '#' !in c && ':' !in c && !IsSpace(c[0]) && !IsSpace(c[|c| - 1])
  }

  lemma UrlHalves(id: string, seed: string)
    requires forall c | c in id :: IdChar(c)
    requires forall c | c in seed :: PlainChar(c)
    ensures Halves(seed + "/" + id) == Ok((id, seed))
    ensures forall c | c in seed + "/" + id :: CodeChar(c)
  {
    var url := seed + "/" + id;
    IndexAfter(seed, '/', id);
    assert url[|seed| + 1..] == id && url[..|seed|] == seed;
    assert '@' !in url;
  }

  lemma AtHalves(id: string, seed: string)
    requires forall c | c in id :: IdChar(c)
    requires seed != "" && forall c | c in seed :: PlainChar(c)
    ensures Halves(id + "@" + seed) == Ok((id, seed))
    ensures forall c | c in id + "@" + seed :: CodeChar(c)
  {
    var code := id + "@" + seed;
    IndexAfter(id, '@', seed);
    assert code[|id| + 1..] == seed && code[..|id|] == id;
    assert '/' !in code;
  }

  predicate CodeChar(c: char) { PlainChar(c) || IdChar(c) || c == '/' || c == '@' }

  lemma CodeCharsMakeCore(s: string)
    requires s != "" && forall c | c in s :: CodeChar(c)
    ensures Core(s)
  {
    assert s[0] in s && s[|s| - 1] in s;
  }

  lemma UrlIsCore(r: Room)
    requires ValidRoom(r)
    ensures Core(InviteUrl(r)) && Halves(InviteUrl(r)) == Ok((Printed(r.id), r.seed))
    ensures |InviteUrl(r)| == |r.seed| + 10
  {
    HostChars(r.seed);
    PrintedChars(r.id);
    var id, url := Printed(r.id), InviteUrl(r);
    UrlHalves(id, r.seed);
    CodeCharsMakeCore(url);
  }

  predicate IdChar(c: char) { PlainSymbol(c) || c == '-' }

  lemma PrintedChars(raw: string)
    requires IsRaw(raw)
    ensures |Printed(raw)| == 9
    ensures forall c | c in Printed(raw) :: IdChar(c)
  {
    PrintedIdParses(raw);
    RawIsPlain(raw);
  }

  lemma AtFormIsCore(r: Room)
    requires ValidRoom(r)
    ensures Core(AtForm(r)) && Halves(AtForm(r)) == Ok((Printed(r.id), r.seed))
    ensures |AtForm(r)| == |r.seed| + 10
  {
    HostChars(r.seed);
    PrintedChars(r.id);
    var id, code := Printed(r.id), AtForm(r);
    AtHalves(id, r.seed);
    CodeCharsMakeCore(code);
  }

  /** A fragment is nothing, or a hash and anything after it. */
  predicate Fragment(f: string) { f == "" || f[0] == '#' }

  lemma SchemeShows(s: string, scheme: string)
    requires HasScheme(s, scheme) && scheme != "" && ':' in scheme
    ensures ':' in s && LowerChar(s[0]) == scheme[0]
  {
    var k :| 0 <= k < |scheme| && scheme[k] == ':';
    assert Lower(s[..|scheme|])[k] == LowerChar(s[k]) && Lower(s[..|scheme|])[0] == LowerChar(s[0]);
    assert s[k] in s;
  }

  /** Trimming and cutting leave the scheme and the core. */
  lemma CutLeavesBody(body: string, f: string)
    requires body != "" && !IsSpace(body[0]) && !IsSpace(body[|body| - 1]) && '#' !in body && Fragment(f)
    ensures TrimSpace(body + f) != "" && TrimSpace(body + f)[..IndexOf(TrimSpace(body + f), '#')] == body
  {
    TrimKeeps(body + f);
    TrimRightStops(body, f);
    var rest := TrimRight(f);
    if f == "" {
      assert body + rest == body;
    } else {
      assert body + rest == body + ['#'] + rest[1..];
      IndexAfter(body, '#', rest[1..]);
    }
  }

  datatype Wrapping = Bare | Https | Custom

  function Wrap(w: Wrapping, core: string): string {
    match w
    case Bare => core
    case Https => HTTPS + core
    case Custom => KANPACHI + core + "/"
  }

  lemma UnwrapsToCore(w: Wrapping, core: string)
    requires Core(core)
    ensures WithoutScheme(Wrap(w, core)) == core
  {
    match w
    case Bare =>
      if HasScheme(core, KANPACHI) { SchemeShows(core, KANPACHI); }
      if HasScheme(core, HTTPS) { SchemeShows(core, HTTPS); }
      if HasScheme(core, HTTP) { SchemeShows(core, HTTP); }
    case Https =>
      if HasScheme(Wrap(w, core), KANPACHI) { SchemeShows(Wrap(w, core), KANPACHI); }
      assert Wrap(w, core)[..|HTTPS|] == HTTPS;
      assert Lower(HTTPS) == HTTPS;
    case Custom =>
      assert Wrap(w, core)[..|KANPACHI|] == KANPACHI;
      assert Lower(KANPACHI) == KANPACHI;
      assert Wrap(w, core)[|KANPACHI|..] == core + "/";
  }

  /** Every printed form reads back as the room it came from, exactly as long as it fits. */
  lemma PrintedFormsParse(r: Room, w: Wrapping, f: string)
    requires ValidRoom(r) && Fragment(f)
    ensures ParsedRoom(Wrap(w, AtForm(r)) + f)
         == if |Wrap(w, AtForm(r)) + f| <= MAX_INPUT_LEN then Ok(r) else Err(InputTooLong)
    ensures ParsedRoom(Wrap(w, InviteUrl(r)) + f)
         == if |Wrap(w, InviteUrl(r)) + f| <= MAX_INPUT_LEN then Ok(r) else Err(InputTooLong)
  {
    PrintedIdParses(r.id);
    SeedIsFixedPoint(r.seed);
    AtFormIsCore(r);
    UrlIsCore(r);
    CoreParses(r, w, AtForm(r), f);
    CoreParses(r, w, InviteUrl(r), f);
  }

  lemma CoreParses(r: Room, w: Wrapping, core: string, f: string)
    requires Core(core) && Fragment(f) && Halves(core).Ok?
    requires RoomOf(Halves(core).value.0, Halves(core).value.1) == Ok(r)
    ensures ParsedRoom(Wrap(w, core) + f) == if |Wrap(w, core) + f| <= MAX_INPUT_LEN then Ok(r) else Err(InputTooLong)
  {
    var body := Wrap(w, core);
    WrappedIsPlain(w, core);
    CutLeavesBody(body, f);
    UnwrapsToCore(w, core);
  }

  lemma WrappedIsPlain(w: Wrapping, core: string)
    requires Core(core)
    ensures var body := Wrap(w, core);
      body != "" && '#' !in body && !IsSpace(body[0]) && !IsSpace(body[|body| - 1])
  {
  }

  lemma BareFormsParse(r: Room)
    requires ValidRoom(r)
    ensures ParsedRoom(InviteUrl(r)) == ParsedRoom(AtForm(r)) == Ok(r)
  {
    UrlIsCore(r);
    AtFormIsCore(r);
    PrintedFormsParse(r, Bare, "");
    assert Wrap(Bare, InviteUrl(r)) + "" == InviteUrl(r) && Wrap(Bare, AtForm(r)) + "" == AtForm(r);
  }

  lemma SchemeFormsParse(r: Room)
    requires ValidRoom(r)
    ensures ParsedRoom("https://" + InviteUrl(r)) == Ok(r)
    ensures ParsedRoom("kanpachi://" + AtForm(r) + "/#x") == Ok(r)
  {
    HttpsFormParses(r);
    CustomFormParses(r);
  }

  lemma HttpsFormParses(r: Room)
    requires ValidRoom(r)
    ensures ParsedRoom("https://" + InviteUrl(r)) == Ok(r)
  {
    UrlIsCore(r);
    PrintedFormsParse(r, Https, "");
    assert Wrap(Https, InviteUrl(r)) + "" == "https://" + InviteUrl(r);
  }

  lemma CustomFormParses(r: Room)
    requires ValidRoom(r)
    ensures ParsedRoom("kanpachi://" + AtForm(r) + "/#x") == Ok(r)
  {
    AtFormIsCore(r);
    PrintedFormsParse(r, Custom, "#x");
    assert Wrap(Custom, AtForm(r)) + "#x" == "kanpachi://" + AtForm(r) + "/#x";
  }

  /** Parsing what was printed from anything that parsed gives the same room again. */
  lemma UrlRoundTrip(input: string)
    requires ParsedRoom(input).Ok?
    ensures var r := ParsedRoom(input).value;
      && ParsedRoom(InviteUrl(r)) == ParsedRoom(AtForm(r)) == Ok(r)
      && ParsedRoom("https://" + InviteUrl(r)) == ParsedRoom("kanpachi://" + AtForm(r) + "/#x") == Ok(r)
  {
    ParsedRoomIsValid(input);
    BareFormsParse(ParsedRoom(input).value);
    SchemeFormsParse(ParsedRoom(input).value);
  }

  lemma {:induction false} FragmentLength(key: Bytes)
    ensures |CardKeyFragment(key)| == (4 * |key| + 2) / 3
  {
    if |key| >= 3 {
      FragmentLength(key[3..]);
    }
  }

  /** A shared link carries its key unless that key is all zeros; it reads back as its room
      exactly when the seed leaves it room enough. */
  lemma LinkParsesExactlyWhenShort(r: Room, key: Bytes)
    requires ValidRoom(r) && |key| == CARD_KEY_LEN
    ensures ParsedRoom(InviteLink(r, key))
         == if IsZeroKey(key) || |r.seed| <= 238 then Ok(r) else Err(InputTooLong)
  {
    var f := if IsZeroKey(key) then "" else "#" + CardKeyFragment(key);
    LinkIsWrapped(r, key, f);
    PrintedFormsParse(r, Https, f);
  }

  lemma LinkIsWrapped(r: Room, key: Bytes, f: string)
    requires ValidRoom(r) && |key| == CARD_KEY_LEN
    requires f == if IsZeroKey(key) then "" else "#" + CardKeyFragment(key)
    ensures InviteLink(r, key) == Wrap(Https, InviteUrl(r)) + f && Fragment(f)
    ensures |InviteLink(r, key)| == if IsZeroKey(key) then |r.seed| + 18 else |r.seed| + 62
    ensures |r.seed| <= MAX_HOST_LEN
  {
    FragmentLength(key);
    UrlIsCore(r);
    assert |HTTPS| == 8;
  }
}
