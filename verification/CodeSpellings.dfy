/** The ways a person may write a code: case, separators, schemes and fragments do not change the room. */
module CodeSpellings {
  import opened Common
  import opened Text
  import opened InviteIds
  import opened RoomCode

  // --- the id ---

  predicate IsSeparator(c: char) { c in ['-', ' ', '_', '\t'] }

  /** `c` is `d`, or the small letter of which `d` is the capital. */
  predicate WritesCapital(c: char, d: char) {
    c == d || ('a' <= c <= 'z' && d as int == c as int - 'a' as int + 'A' as int)
  }

  /** `s` is `raw` with separators put in and letters in either case. */
  predicate SpellsId(s: string, raw: string) {
    if s == "" then raw == ""
    else
      || (IsSeparator(s[0]) && SpellsId(s[1..], raw))
      || (raw != "" && WritesCapital(s[0], raw[0]) && SpellsId(s[1..], raw[1..]))
  }

  lemma NormalizedFromTheFront(s: string)
    requires s != ""
    ensures Normalized(s) == (if IsSeparator(s[0]) then "" else [Upper(s[0])]) + Normalized(s[1..])
  {
    assert s == [s[0]] + s[1..];
    NormalizedConcat([s[0]], s[1..]);
    assert [s[0]][..0] == "";
  }

  lemma {:induction false} SpellingNormalizes(s: string, raw: string)
    requires forall i | 0 <= i < |raw| :: PlainSymbol(raw[i])
    ensures SpellsId(s, raw) <==> Normalized(s) == raw
  {
    if s != "" {
      NormalizedFromTheFront(s);
      if IsSeparator(s[0]) {
        SpellingNormalizes(s[1..], raw);
        assert "" + Normalized(s[1..]) == Normalized(s[1..]);
      } else if raw != "" {
        SpellingNormalizes(s[1..], raw[1..]);
        ConsEquals(Upper(s[0]), Normalized(s[1..]), raw);
      }
    }
  }

  lemma ConsEquals(c: char, tail: string, raw: string)
    requires raw != ""
    ensures [c] + tail == raw <==> c == raw[0] && tail == raw[1..]
  {
    assert raw == [raw[0]] + raw[1..];
    assert ([c] + tail)[0] == c && ([c] + tail)[1..] == tail;
  }

  /** An id is read from exactly its own spellings. */
  lemma IdIsReadFromItsSpellings(s: string, raw: string)
    ensures ParsedId(s) == Id(raw) <==> IsRaw(raw) && SpellsId(s, raw)
  {
    if IsRaw(raw) {
      RawIsPlain(raw);
      assert forall i | 0 <= i < |raw| :: raw[i] in raw;
      SpellingNormalizes(s, raw);
    }
  }

  lemma {:induction false} SpellingChars(s: string, raw: string)
    requires SpellsId(s, raw) && forall c | c in raw :: PlainSymbol(c)
    ensures forall c | c in s :: IsSeparator(c) || PlainSymbol(c) || 'a' <= c <= 'z'
  {
    if s != "" {
      assert s == [s[0]] + s[1..];
      if IsSeparator(s[0]) && SpellsId(s[1..], raw) {
        SpellingChars(s[1..], raw);
      } else {
        assert raw[0] in raw;
        SpellingChars(s[1..], raw[1..]);
      }
    }
  }

  // --- the seed ---

  /** `c` is `d`, or the capital of which `d` is the small letter. */
  predicate WritesSmall(c: char, d: char) {
    c == d || ('A' <= c <= 'Z' && d as int == c as int - 'A' as int + 'a' as int)
  }

  predicate WritesAll(s: string, d: string) { |s| == |d| && forall i | 0 <= i < |s| :: WritesSmall(s[i], d[i]) }

  /** `s` is `host` with letters in either case, and perhaps with a final dot. */
  predicate SpellsHost(s: string, host: string) {
    WritesAll(if s != "" && s[|s| - 1] == '.' then s[..|s| - 1] else s, host)
  }

  lemma LowerIsWritten(t: string, d: string)
    requires forall c | c in d :: !('A' <= c <= 'Z')
    ensures WritesAll(t, d) <==> Lower(t) == d
  {
    if Lower(t) == d {
      forall i | 0 <= i < |t|
        ensures WritesSmall(t[i], d[i])
      {
        assert Lower(t)[i] == LowerChar(t[i]);
      }
    }
    if WritesAll(t, d) {
      forall i | 0 <= i < |t|
        ensures Lower(t)[i] == d[i]
      {
        assert WritesSmall(t[i], d[i]) && d[i] in d;
      }
    }
  }

  /** A seed is read from exactly its own spellings. */
  lemma SeedIsReadFromItsSpellings(s: string, host: string)
    ensures SeedHost(s) == Ok(host) <==> GoodHost(host) && SpellsHost(s, host)
  {
    if GoodHost(host) {
      HostChars(host);
      LowerIsWritten(WithoutSuffix(s, '.'), host);
    }
  }

  predicate Undotted(h: string, a: nat, b: nat)
    requires b <= |h|
  {
    forall k | a <= k < b :: h[k] != '.'
  }

  /** A stretch of `h` without dots that reaches up to dots, or to the ends, on both sides. */
  predicate Stretch(h: string, a: nat, b: nat) {
    a <= b <= |h| && Undotted(h, a, b) && (a == 0 || h[a - 1] == '.') && (b == |h| || h[b] == '.')
  }

  lemma FirstDot(h: string)
    ensures Undotted(h, 0, IndexOf(h, '.'))
  {
    var i := IndexOf(h, '.');
    forall k | 0 <= k < i
      ensures h[k] != '.'
    {
      assert h[k] in h[..i];
    }
  }

  lemma StretchAtTheHead(h: string, i: nat, a: nat, b: nat, l: string)
    requires i < |h| && h[i] == '.' && Undotted(h, 0, i) && IsStretch(h, a, b, l) && a <= i
    ensures l == h[..i]
  {
  }

  lemma StretchInTheTail(h: string, i: nat, tail: string, a: nat, b: nat, l: string) returns (c: nat, d: nat)
    requires i < |h| && h[i] == '.' && tail == h[i + 1..] && i < a && IsStretch(h, a, b, l)
    ensures IsStretch(tail, c, d, l)
  {
    c, d := a - i - 1, b - i - 1;
    assert forall k | 0 <= k < |tail| :: tail[k] == h[k + i + 1];
  }

  lemma StretchOfTheTail(h: string, i: nat, tail: string, c: nat, d: nat, l: string) returns (a: nat, b: nat)
    requires i < |h| && h[i] == '.' && tail == h[i + 1..] && IsStretch(tail, c, d, l)
    ensures IsStretch(h, a, b, l)
  {
    a, b := c + i + 1, d + i + 1;
    assert forall k | i < k < |h| :: h[k] == tail[k - i - 1];
  }

  lemma LabelsSplit(h: string, tail: string, l: string) returns (i: nat)
    requires IndexOf(h, '.') < |h| ==> tail == h[IndexOf(h, '.') + 1..]
    ensures i <= |h| && Undotted(h, 0, i) && (i < |h| ==> h[i] == '.' && tail == h[i + 1..])
    ensures l in Labels(h) <==> l == h[..i] || (i < |h| && l in Labels(tail))
  {
    i := IndexOf(h, '.');
    FirstDot(h);
    assert i == |h| ==> h[..i] == h;
  }

  predicate IsStretch(h: string, a: nat, b: nat, l: string) {
    Stretch(h, a, b) && |l| == b - a && forall k | 0 <= k < |l| :: l[k] == h[a + k]
  }

  lemma UndottedStretch(h: string, a: nat, b: nat, l: string)
    requires Undotted(h, 0, |h|) && IsStretch(h, a, b, l)
    ensures l == h
  {
  }

  lemma {:induction false} LabelsAreStretches(h: string, a: nat, b: nat, l: string)
    requires IsStretch(h, a, b, l)
    ensures l in Labels(h)
    decreases |h|
  {
    var tail := if '.' in h then h[IndexOf(h, '.') + 1..] else "";
    var i := LabelsSplit(h, tail, l);
    if i == |h| {
      UndottedStretch(h, a, b, l);
    } else if a > i {
      var c, d := StretchInTheTail(h, i, tail, a, b, l);
      LabelsAreStretches(tail, c, d, l);
    } else {
      StretchAtTheHead(h, i, a, b, l);
    }
  }

  lemma {:induction false} StretchOfLabel(h: string, l: string) returns (a: nat, b: nat)
    requires l in Labels(h)
    ensures IsStretch(h, a, b, l)
    decreases |h|
  {
    var tail := if '.' in h then h[IndexOf(h, '.') + 1..] else "";
    var i := LabelsSplit(h, tail, l);
    if i == |h| {
      a, b := 0, |h|;
    } else if l == h[..i] {
      a, b := 0, i;
    } else {
      var c, d := StretchOfLabel(tail, l);
      a, b := StretchOfTheTail(h, i, tail, c, d, l);
    }
  }

  /** A label of a good host name. */
  predicate GoodStretch(h: string, a: nat, b: nat)
    requires a <= b <= |h|
  {
    0 < b - a <= 63 && h[a] != '-' && h[b - 1] != '-' && forall k | a <= k < b :: HostChar(h[k])
  }

  lemma StretchIsGood(h: string, a: nat, b: nat)
    requires Stretch(h, a, b)
    ensures GoodLabel(h[a..b]) <==> GoodStretch(h, a, b)
  {
    var l := h[a..b];
    if GoodStretch(h, a, b) {
      forall c | c in l
        ensures HostChar(c)
      {
        var k :| 0 <= k < |l| && l[k] == c;
        assert h[a + k] == c;
      }
    }
    if GoodLabel(l) {
      forall k | a <= k < b
        ensures HostChar(h[k])
      {
        assert l[k - a] in l;
      }
    }
  }

  /** A letter, and no dot from there on. */
  predicate LetterAtTheEnd(h: string, k: nat) { k < |h| && 'a' <= h[k] <= 'z' && Undotted(h, k, |h|) }

  /** The last label has a letter. */
  ghost predicate EndsInLetters(h: string) { exists k: nat :: LetterAtTheEnd(h, k) }

  function LastLabel(h: string): string { Labels(h)[|Labels(h)| - 1] }

  lemma LastLabelSplits(h: string) returns (i: nat, tail: string)
    ensures i <= |h| && Undotted(h, 0, i)
    ensures i == |h| ==> LastLabel(h) == h
    ensures i < |h| ==> h[i] == '.' && tail == h[i + 1..] && LastLabel(h) == LastLabel(tail)
  {
    i := IndexOf(h, '.');
    tail := if i < |h| then h[i + 1..] else "";
    FirstDot(h);
    if i < |h| {
      var rest := Labels(tail);
      assert ([h[..i]] + rest)[|rest|] == rest[|rest| - 1];
    }
  }

  lemma {:induction false} LastLabelIsTheEnd(h: string)
    ensures HasLetter(LastLabel(h)) <==> EndsInLetters(h)
    decreases |h|
  {
    var i, tail := LastLabelSplits(h);
    if i == |h| {
      LettersOfUndotted(h);
    } else {
      LastLabelIsTheEnd(tail);
      LettersBehindADot(h, i, tail);
    }
  }

  lemma LettersOfUndotted(h: string)
    requires Undotted(h, 0, |h|)
    ensures HasLetter(h) <==> EndsInLetters(h)
  {
    if HasLetter(h) {
      var c :| c in h && 'a' <= c <= 'z';
      var k :| 0 <= k < |h| && h[k] == c;
      assert LetterAtTheEnd(h, k);
    }
    if EndsInLetters(h) {
      var k: nat :| LetterAtTheEnd(h, k);
      assert h[k] in h;
    }
  }

  lemma LettersBehindADot(h: string, i: nat, tail: string)
    requires i < |h| && h[i] == '.' && tail == h[i + 1..]
    ensures EndsInLetters(h) <==> EndsInLetters(tail)
  {
    if EndsInLetters(tail) {
      var k: nat :| LetterAtTheEnd(tail, k);
      assert forall j | k + i + 1 <= j < |h| :: h[j] == tail[j - i - 1];
      assert LetterAtTheEnd(h, k + i + 1);
    }
    if EndsInLetters(h) {
      var k: nat :| LetterAtTheEnd(h, k);
      assert k > i;
      assert LetterAtTheEnd(tail, k - i - 1);
    }
  }

  ghost predicate AllStretchesGood(h: string) {
    forall a: nat, b: nat | Stretch(h, a, b) :: GoodStretch(h, a, b)
  }

  predicate AllLabelsGood(h: string) { forall l | l in Labels(h) :: GoodLabel(l) }

  lemma GoodLabelsMakeGoodStretches(h: string)
    ensures AllLabelsGood(h) <==> AllStretchesGood(h)
  {
    forall l | l in Labels(h) && AllStretchesGood(h)
      ensures GoodLabel(l)
    {
      var a, b := StretchOfLabel(h, l);
      StretchIsGood(h, a, b);
      assert h[a..b] == l;
    }
    forall a: nat, b: nat | Stretch(h, a, b) && AllLabelsGood(h)
      ensures GoodStretch(h, a, b)
    {
      LabelsAreStretches(h, a, b, h[a..b]);
      StretchIsGood(h, a, b);
    }
  }

  /** A seed is a name of at most 253 characters and of at least two labels, each of up to 63 small letters,
      digits and inner dashes, the last one with a letter. */
  lemma GoodHostsExactly(h: string)
    ensures GoodHost(h) <==> |h| <= 253 && '.' in h && EndsInLetters(h) && AllStretchesGood(h)
  {
    LastLabelIsTheEnd(h);
    GoodLabelsMakeGoodStretches(h);
    assert HasLetter(Labels(h)[|Labels(h)| - 1]) <==> HasLetter(LastLabel(h));
  }

  /** No way of writing an IPv4 address is a seed: what has no letter after its last dot is refused. */
  lemma AddressesAreNoSeeds(s: string)
    requires forall k | 0 <= k < |s| && (('a' <= s[k] <= 'z') || ('A' <= s[k] <= 'Z')) ::
               exists j :: k < j < |s| - 1 && s[j] == '.'
    ensures SeedHost(s) == Err(SeedHostBad)
  {
    var t := WithoutSuffix(s, '.');
    var l := Lower(t);
    if GoodHost(l) {
      GoodHostsExactly(l);
      var k: nat :| LetterAtTheEnd(l, k);
      assert l[k] == LowerChar(s[k]);
      var j :| k < j < |s| - 1 && s[j] == '.';
      LowerAt(t, j);
    }
  }

  lemma LowerAt(t: string, j: nat)
    requires j < |t|
    ensures Lower(t)[j] == LowerChar(t[j])
  {
  }

  // --- the whole code ---

  /** `p` writes one of the three schemes in letters of either case, or none. */
  predicate SpellsScheme(p: string, scheme: string) {
    scheme in ["kanpachi://", "https://", "http://", ""] && WritesAll(p, scheme)
  }

  /** `id@host` or `host/id`. */
  function Code(at: bool, id: string, host: string): string { if at then id + "@" + host else host + "/" + id }

  /** With the empty path that some systems put at the end of the custom scheme. */
  function Tail(at: bool, id: string, host: string, slash: bool): string {
    if slash then Code(at, id, host) + "/" else Code(at, id, host)
  }

  predicate Plain(s: string) { forall c | c in s :: c !in ['#', ':', '/', '@', '?', '&'] }

  lemma CodeHalves(at: bool, id: string, host: string)
    requires Plain(id) && Plain(host) && host != ""
    ensures Halves(Code(at, id, host)) == Ok((id, host))
  {
    var code := Code(at, id, host);
    if at {
      IndexAfter(id, '@', host);
      assert code[|id| + 1..] == host && code[..|id|] == id && '/' !in code;
    } else {
      IndexAfter(host, '/', id);
      assert code[|host| + 1..] == id && code[..|host|] == host && '@' !in code;
    }
  }

  /** A text that has one of the schemes has its characters, in either case. */
  lemma SchemeAt(s: string, scheme: string, k: nat)
    requires HasScheme(s, scheme) && k < |scheme|
    ensures LowerChar(s[k]) == scheme[k]
  {
    assert Lower(s[..|scheme|])[k] == LowerChar(s[k]);
  }

  lemma WrittenAt(p: string, scheme: string, rest: string, k: nat)
    requires SpellsScheme(p, scheme) && k < |scheme|
    ensures LowerChar((p + rest)[k]) == scheme[k]
  {
    assert WritesSmall(p[k], scheme[k]) && (p + rest)[k] == p[k];
  }

  lemma NoOtherScheme(p: string, scheme: string, rest: string, other: string)
    requires SpellsScheme(p, scheme) && scheme != "" && other in [KANPACHI, HTTPS, HTTP] && other != scheme
    ensures !HasScheme(p + rest, other)
  {
    if HasScheme(p + rest, other) {
      WrittenAt(p, scheme, rest, 0);
      WrittenAt(p, scheme, rest, 4);
      SchemeAt(p + rest, other, 0);
      SchemeAt(p + rest, other, 4);
    }
  }

  lemma SchemeComesOff(p: string, scheme: string, rest: string)
    requires SpellsScheme(p, scheme) && ':' !in rest
    ensures WithoutScheme(p + rest) == if scheme == "kanpachi://" then WithoutSuffix(rest, '/') else rest
  {
    var s := p + rest;
    forall other | other in [KANPACHI, HTTPS, HTTP] && other != scheme
      ensures !HasScheme(s, other)
    {
      if scheme != "" {
        NoOtherScheme(p, scheme, rest, other);
      } else if HasScheme(s, other) {
        SchemeShows(s, other);
      }
    }
    if scheme != "" {
      assert s[..|p|] == p && s[|p|..] == rest;
      LowerIsWritten(p, scheme);
      assert HasScheme(s, scheme);
    } else {
      assert s == rest;
    }
  }

  /** However a code is written, with or without a scheme, in any case, with separators in its id, with a
      final dot in its seed, the empty path of the custom scheme, and a fragment, it is read as its room. */
  lemma EverySpellingParses(
    r: Room, p: string, scheme: string, at: bool, id: string, host: string, slash: bool, f: string)
    requires ValidRoom(r) && SpellsId(id, r.id) && SpellsHost(host, r.seed) && SpellsScheme(p, scheme)
    requires !IsSpace(if at then id[0] else id[|id| - 1]) && Fragment(f)
    requires slash ==> scheme == "kanpachi://"
    ensures
      var input := p + Tail(at, id, host, slash) + f;
      ParsedRoom(input) == if |input| <= 300 then Ok(r) else Err(InputTooLong)
  {
    SpelledPlainly(r, id, host);
    CodeHalves(at, id, host);
    BodyIsPlain(p, scheme, at, id, host, slash);
    SlashComesOff(at, id, host, slash);
    WrittenParses(r, p, scheme, Tail(at, id, host, slash), f, Code(at, id, host), id, host);
  }

  lemma WrittenParses(
    r: Room, p: string, scheme: string, tail: string, f: string, code: string, id: string, host: string)
    requires SpellsScheme(p, scheme) && ':' !in tail && Fragment(f) && host != ""
    requires code == if scheme == "kanpachi://" then WithoutSuffix(tail, '/') else tail
    requires p + tail != "" && !IsSpace((p + tail)[0]) && !IsSpace((p + tail)[|p + tail| - 1]) && '#' !in p + tail
    requires Halves(code) == Ok((id, host)) && ValidRoom(r) && SpellsId(id, r.id) && SpellsHost(host, r.seed)
    ensures ParsedRoom(p + tail + f) == if |p + tail + f| <= 300 then Ok(r) else Err(InputTooLong)
  {
    SchemeComesOff(p, scheme, tail);
    BodyParses(r, p + tail, f, code, id, host);
  }

  lemma SlashComesOff(at: bool, id: string, host: string, slash: bool)
    requires var code := Code(at, id, host); code[|code| - 1] != '/'
    ensures WithoutSuffix(Tail(at, id, host, slash), '/') == Code(at, id, host)
  {
    var code := Code(at, id, host);
    assert (code + "/")[..|code|] == code;
  }

  lemma BodyParses(r: Room, body: string, f: string, core: string, id: string, host: string)
    requires body != "" && !IsSpace(body[0]) && !IsSpace(body[|body| - 1]) && '#' !in body && Fragment(f)
    requires WithoutScheme(body) == core && Halves(core) == Ok((id, host)) && host != ""
    requires ValidRoom(r) && SpellsId(id, r.id) && SpellsHost(host, r.seed)
    ensures ParsedRoom(body + f) == if |body + f| <= 300 then Ok(r) else Err(InputTooLong)
  {
    CutLeavesBody(body, f);
    IdIsReadFromItsSpellings(id, r.id);
    SeedIsReadFromItsSpellings(host, r.seed);
  }

  lemma BodyIsPlain(p: string, scheme: string, at: bool, id: string, host: string, slash: bool)
    requires SpellsScheme(p, scheme) && Plain(id) && Plain(host) && host != "" && id != ""
    requires !IsSpace(if at then id[0] else id[|id| - 1]) && !IsSpace(host[0]) && !IsSpace(host[|host| - 1])
    ensures
      var body := p + Tail(at, id, host, slash);
      body != "" && !IsSpace(body[0]) && !IsSpace(body[|body| - 1]) && '#' !in body
    ensures ':' !in Tail(at, id, host, slash)
    ensures var code := Code(at, id, host); code[|code| - 1] != '/'
  {
    assert p != "" ==> WritesSmall(p[0], scheme[0]);
    forall i | 0 <= i < |p|
      ensures p[i] != '#'
    {
      assert WritesSmall(p[i], scheme[i]);
    }
    assert id[|id| - 1] in id && host[|host| - 1] in host;
  }

  lemma SpelledPlainly(r: Room, id: string, host: string)
    requires ValidRoom(r) && SpellsId(id, r.id) && SpellsHost(host, r.seed)
    ensures Plain(id) && id != ""
    ensures Plain(host) && host != "" && !IsSpace(host[0]) && !IsSpace(host[|host| - 1])
  {
    IdIsPlain(id, r.id);
    HostChars(r.seed);
    HostIsPlain(host, r.seed);
  }

  lemma IdIsPlain(id: string, raw: string)
    requires IsRaw(raw) && SpellsId(id, raw)
    ensures Plain(id) && id != ""
  {
    RawIsPlain(raw);
    SpellingChars(id, raw);
  }

  lemma HostIsPlain(s: string, host: string)
    requires SpellsHost(s, host) && host != "" && forall c | c in host :: PlainChar(c)
    ensures Plain(s) && s != "" && !IsSpace(s[0]) && !IsSpace(s[|s| - 1])
  {
    var t := if s != "" && s[|s| - 1] == '.' then s[..|s| - 1] else s;
    forall i | 0 <= i < |t|
      ensures t[i] !in ['#', ':', '/', '@', '?', '&'] && !IsSpace(t[i])
    {
      assert WritesSmall(t[i], host[i]) && host[i] in host;
    }
    forall i | 0 <= i < |s|
      ensures s[i] !in ['#', ':', '/', '@', '?', '&'] && !IsSpace(s[i])
    {
      assert i < |t| ==> s[i] == t[i];
    }
  }

  predicate Blank(s: string) { forall i | 0 <= i < |s| :: s[i] == ' ' || 9 <= s[i] as int <= 13 }

  lemma {:induction false} BlanksComeOffLeft(a: string, s: string)
    requires Blank(a)
    ensures TrimLeft(a + s) == TrimLeft(s)
  {
    if a == "" {
      assert a + s == s;
    } else {
      assert (a + s)[1..] == a[1..] + s;
      BlanksComeOffLeft(a[1..], s);
    }
  }

  lemma {:induction false} BlanksComeOffRight(s: string, b: string)
    requires Blank(b)
    ensures TrimRight(s + b) == TrimRight(s)
  {
    if b == "" {
      assert s + b == s;
    } else {
      var n := |b| - 1;
      assert (s + b)[..|s + b| - 1] == s + b[..n];
      BlanksComeOffRight(s, b[..n]);
    }
  }

  lemma {:induction false} TrimLeftOfMore(s: string, b: string)
    requires exists i :: 0 <= i < |s| && !IsSpace(s[i])
    ensures TrimLeft(s + b) == TrimLeft(s) + b
  {
    assert (s + b)[1..] == s[1..] + b;
    if IsSpace(s[0]) {
      var i :| 0 <= i < |s| && !IsSpace(s[i]);
      assert s[1..][i - 1] == s[i];
      TrimLeftOfMore(s[1..], b);
    }
  }

  /** Blanks around a code do not change what it is read as, as long as it is not too long. */
  lemma BlanksDoNotMatter(input: string, a: string, b: string)
    requires Blank(a) && Blank(b) && |a + (input + b)| <= 300
    requires exists i :: 0 <= i < |input| && !IsSpace(input[i])
    ensures ParsedRoom(a + (input + b)) == ParsedRoom(input)
  {
    BlanksComeOffLeft(a, input + b);
    TrimLeftOfMore(input, b);
    BlanksComeOffRight(TrimLeft(input), b);
    assert TrimSpace(a + (input + b)) == TrimSpace(input);
  }

  // --- what is refused, and why ---

  /** How many characters of `s` are not separators. */
  function Symbols(s: string): nat {
    if s == "" then 0 else (if IsSeparator(s[0]) then 0 else 1) + Symbols(s[1..])
  }

  lemma {:induction false} SymbolsCounted(s: string)
    ensures |Normalized(s)| == Symbols(s)
  {
    if s != "" {
      NormalizedFromTheFront(s);
      SymbolsCounted(s[1..]);
    }
  }

  /** An id with another number of symbols than eight has the wrong length; with eight that spell no id it has a
      wrong symbol. */
  lemma IdErrorsExactly(s: string)
    ensures ParsedId(s) == BadLength <==> Symbols(s) != 8
    ensures ParsedId(s) == BadSymbol <==> Symbols(s) == 8 && forall raw | IsRaw(raw) :: !SpellsId(s, raw)
  {
    SymbolsCounted(s);
    forall raw | IsRaw(raw)
      ensures SpellsId(s, raw) <==> ParsedId(s) == Id(raw)
    {
      IdIsReadFromItsSpellings(s, raw);
    }
    if ParsedId(s).Id? {
      assert IsRaw(ParsedId(s).raw);
    }
  }

  /** Text with an `@`: one of them, nothing of a path, and something behind it. */
  lemma AtSplits(a: string, b: string)
    requires '@' !in a
    ensures Halves(a + "@" + b) ==
            if '/' in a + b || '@' in b then Err(InputShape) else if b == "" then Err(SeedHostBad) else Ok((a, b))
  {
    var s := a + "@" + b;
    IndexAfter(a, '@', b);
    assert s[..|a|] == a && s[|a| + 1..] == b;
    assert '/' in s <==> '/' in a + b;
  }

  /** Text without one is split at its first slash, and nothing of a path or a query may follow. */
  lemma SlashSplits(a: string, b: string)
    requires '@' !in a + b && '/' !in a
    ensures Halves(a + "/" + b) == if '/' in b || '?' in b || '&' in b then Err(InputShape) else Ok((b, a))
    ensures Halves(a) == Ok((a, ""))
  {
    var s := a + "/" + b;
    IndexAfter(a, '/', b);
    assert s[..|a|] == a && s[|a| + 1..] == b;
    assert '@' !in s && '@' !in a;
  }

  /** The id is looked at first, then whether there is a seed, then the seed. */
  lemma RoomIsReadExactly(id: string, host: string, raw: string, seed: string)
    ensures IsRaw(raw) && SpellsId(id, raw) && host == "" ==> RoomOf(id, host) == Err(SeedMissing)
    ensures IsRaw(raw) && SpellsId(id, raw) && host != "" && GoodHost(seed) && SpellsHost(host, seed) ==>
              RoomOf(id, host) == Ok(Room(raw, seed))
    ensures IsRaw(raw) && SpellsId(id, raw) && host != "" && (forall h | GoodHost(h) :: !SpellsHost(host, h)) ==>
              RoomOf(id, host) == Err(SeedHostBad)
    ensures Symbols(id) != 8 ==> RoomOf(id, host) == Err(IdLength)
    ensures Symbols(id) == 8 && (forall r | IsRaw(r) :: !SpellsId(id, r)) ==> RoomOf(id, host) == Err(IdSymbol)
  {
    IdErrorsExactly(id);
    IdIsReadFromItsSpellings(id, raw);
    SeedIsReadFromItsSpellings(host, seed);
    if SeedHost(host).Ok? {
      SeedIsReadFromItsSpellings(host, SeedHost(host).value);
    }
  }

  // --- the printed link ---

  /** A link is the seed and the printed id, with the key behind them unless it is all zeros. */
  lemma LinkReads(r: Room, key: Bytes)
    requires |r.id| == 8
    ensures InviteUrl(r) == r.seed + "/" + (r.id[..4] + "-" + r.id[4..])
    ensures InviteLink(r, key) == if forall i | 0 <= i < |key| :: key[i] == 0 then "https://" + InviteUrl(r)
                                  else "https://" + InviteUrl(r) + "#" + CardKeyFragment(key)
  {
    TwoGroups(r.id);
  }
}

/** The fragment of a link, core/domain/roomcard.go, read back. */
module CardKeys {
  import opened Common
  import opened RoomCode

  /** The six bits of a character of base64url (section 5 of RFC 4648). */
  function Bits(c: char): nat {
    if 'A' <= c <= 'Z' then c as nat - 'A' as nat
    else if 'a' <= c <= 'z' then c as nat - 'a' as nat + 26
    else if '0' <= c <= '9' then c as nat - '0' as nat + 52
    else if c == '-' then 62 else 63
  }

  /** The bytes of an unpadded text: each four characters make three, and two or three at the end one or two. */
  function Decoded(s: string): seq<nat> {
    if |s| <= 1 then []
    else if |s| == 2 then [Bits(s[0]) * 4 + Bits(s[1]) / 16]
    else if |s| == 3 then [Bits(s[0]) * 4 + Bits(s[1]) / 16, Bits(s[1]) % 16 * 16 + Bits(s[2]) / 4]
    else [Bits(s[0]) * 4 + Bits(s[1]) / 16, Bits(s[1]) % 16 * 16 + Bits(s[2]) / 4, Bits(s[2]) % 4 * 64 + Bits(s[3])]
         + Decoded(s[4..])
  }

  lemma SextetCarriesBits(n: nat)
    ensures Bits(Sextet(n)) == n % 64
  {
  }

  function Values(key: Bytes): seq<nat> { seq(|key|, i requires 0 <= i < |key| => key[i] as nat) }

  lemma OneByteDecodes(x: nat)
    requires x < 0x100
    ensures Decoded([Sextet(x / 4), Sextet(x * 16)]) == [x]
  {
    SextetCarriesBits(x / 4);
    SextetCarriesBits(x * 16);
    Digits(x / 4, x % 4, 0, 0);
  }

  lemma TwoBytesDecode(a: nat, b: nat, c: nat, d: nat, n: nat, p: char, q: char, r: char)
    requires a < 64 && b < 4 && c < 16 && d < 16 && n == (4 * a + b) * 0x100 + 16 * c + d
    requires Bits(p) == n / 0x400 % 64 && Bits(q) == n / 16 % 64 && Bits(r) == n * 4 % 64
    ensures Decoded([p, q, r]) == [4 * a + b, 16 * c + d]
  {
    Digits(a, b, c, d);
    Cut(b, c, 16);
    Cut(d, 0, 4);
    ThreeSymbols(p, q, r, a, 16 * b + c, 4 * d);
  }

  lemma Cut(b: nat, c: nat, m: nat)
    requires (m == 16 || m == 4) && c < m
    ensures (m * b + c) / m == b && (m * b + c) % m == c
  {
  }

  lemma ThreeSymbols(p: char, q: char, r: char, i: nat, j: nat, k: nat)
    requires Bits(p) == i && Bits(q) == j && Bits(r) == k
    ensures Decoded([p, q, r]) == [i * 4 + j / 16, j % 16 * 16 + k / 4]
  {
    var s := [p, q, r];
    assert |s| == 3 && s[0] == p && s[1] == q && s[2] == r;
  }

  /** Two bytes as 6, 2, 4 and 4 bits. */
  lemma Digits(a: nat, b: nat, c: nat, d: nat)
    requires a < 64 && b < 4 && c < 16 && d < 16
    ensures var x := 4 * a + b; x / 4 == a && x * 16 % 64 == 16 * b
    ensures var n := (4 * a + b) * 0x100 + 16 * c + d;
            n / 0x400 == a && n / 16 % 64 == 16 * b + c && n * 4 % 64 == 4 * d
  {
    var n := (4 * a + b) * 0x100 + 16 * c + d;
    assert n / 0x400 == a;
    assert n / 16 == 64 * a + 16 * b + c;
    assert n * 4 == 64 * (64 * a + 16 * b + c) + 4 * d;
  }

  lemma ThreeBytesDecode(
    a: nat, b: nat, c: nat, d: nat, e: nat, f: nat, n: nat, four: string, rest: string)
    requires a < 64 && b < 4 && c < 16 && d < 16 && e < 4 && f < 64
    requires n == (4 * a + b) * 0x10000 + (16 * c + d) * 0x100 + 64 * e + f
    requires |four| == 4 && Bits(four[0]) == n / 0x40000 % 64 && Bits(four[1]) == n / 0x1000 % 64
    requires Bits(four[2]) == n / 64 % 64 && Bits(four[3]) == n % 64
    ensures Decoded(four + rest) == [4 * a + b, 16 * c + d, 64 * e + f] + Decoded(rest)
  {
    MoreDigits(a, b, c, d, e, f, n);
    Cut(b, c, 16);
    Cut(d, e, 4);
    FourSymbols(four, rest, a, 16 * b + c, 4 * d + e, f);
  }

  lemma FourSymbols(four: string, rest: string, h: nat, i: nat, j: nat, k: nat)
    requires |four| == 4 && Bits(four[0]) == h && Bits(four[1]) == i && Bits(four[2]) == j && Bits(four[3]) == k
    ensures Decoded(four + rest) == [h * 4 + i / 16, i % 16 * 16 + j / 4, j % 4 * 64 + k] + Decoded(rest)
  {
    assert (four + rest)[4..] == rest;
  }

  /** Three bytes as 6, 2, 4, 4, 2 and 6 bits. */
  lemma MoreDigits(a: nat, b: nat, c: nat, d: nat, e: nat, f: nat, n: nat)
    requires a < 64 && b < 4 && c < 16 && d < 16 && e < 4 && f < 64
    requires n == (4 * a + b) * 0x10000 + (16 * c + d) * 0x100 + 64 * e + f
    ensures n / 0x40000 == a && n / 0x1000 % 64 == 16 * b + c && n / 64 % 64 == 4 * d + e && n % 64 == f
  {
    assert n / 0x40000 == a;
    assert n / 0x1000 == 64 * a + 16 * b + c;
    assert n / 64 == 64 * (64 * a + 16 * b + c) + 4 * d + e;
    assert n == 64 * (64 * (64 * a + 16 * b + c) + 4 * d + e) + f;
  }

  lemma FragmentOfTwo(key: Bytes, n: nat) returns (p: char, q: char, r: char)
    requires |key| == 2 && n == key[0] as nat * 0x100 + key[1] as nat
    ensures Bits(p) == n / 0x400 % 64 && Bits(q) == n / 16 % 64 && Bits(r) == n * 4 % 64
    ensures CardKeyFragment(key) == [p, q, r]
  {
    p, q, r := Sextet(n / 0x400), Sextet(n / 16), Sextet(n * 4);
    SextetCarriesBits(n / 0x400);
    SextetCarriesBits(n / 16);
    SextetCarriesBits(n * 4);
  }

  lemma FragmentOfThree(key: Bytes, n: nat) returns (four: string)
    requires |key| >= 3 && n == key[0] as nat * 0x10000 + key[1] as nat * 0x100 + key[2] as nat
    ensures |four| == 4 && Bits(four[0]) == n / 0x40000 % 64 && Bits(four[1]) == n / 0x1000 % 64
    ensures Bits(four[2]) == n / 64 % 64 && Bits(four[3]) == n % 64
    ensures CardKeyFragment(key) == four + CardKeyFragment(key[3..])
  {
    four := [Sextet(n / 0x40000), Sextet(n / 0x1000), Sextet(n / 64), Sextet(n)];
    SextetCarriesBits(n / 0x40000);
    SextetCarriesBits(n / 0x1000);
    SextetCarriesBits(n / 64);
    SextetCarriesBits(n);
  }

  lemma ValuesSplit(key: Bytes)
    requires |key| >= 3
    ensures Values(key) == [key[0] as nat, key[1] as nat, key[2] as nat] + Values(key[3..])
  {
  }

  lemma TwoBytesKeyDecodes(key: Bytes, a: nat, b: nat, c: nat, d: nat)
    requires |key| == 2 && a < 64 && b < 4 && c < 16 && d < 16
    requires key[0] as nat == 4 * a + b && key[1] as nat == 16 * c + d
    ensures Decoded(CardKeyFragment(key)) == [4 * a + b, 16 * c + d]
  {
    var n := (4 * a + b) * 0x100 + 16 * c + d;
    var p, q, r := FragmentOfTwo(key, n);
    TwoBytesDecode(a, b, c, d, n, p, q, r);
  }

  lemma FirstThreeDecode(key: Bytes, a: nat, b: nat, c: nat, d: nat, e: nat, f: nat)
    requires |key| >= 3 && a < 64 && b < 4 && c < 16 && d < 16 && e < 4 && f < 64
    requires key[0] as nat == 4 * a + b && key[1] as nat == 16 * c + d && key[2] as nat == 64 * e + f
    ensures Decoded(CardKeyFragment(key))
         == [4 * a + b, 16 * c + d, 64 * e + f] + Decoded(CardKeyFragment(key[3..]))
  {
    var n := (4 * a + b) * 0x10000 + (16 * c + d) * 0x100 + 64 * e + f;
    var four := FragmentOfThree(key, n);
    ThreeBytesDecode(a, b, c, d, e, f, n, four, CardKeyFragment(key[3..]));
  }

  /** A byte as two digits, the lower one below `m`. */
  lemma Halve(x: byte, m: nat) returns (hi: nat, lo: nat)
    requires m == 4 || m == 16 || m == 64
    ensures x as nat == m * hi + lo && lo < m && hi < 0x100 / m
  {
    hi, lo := x as nat / m, x as nat % m;
  }

  /** The fragment of a link decodes to the key. */
  lemma {:induction false} FragmentDecodes(key: Bytes)
    ensures Decoded(CardKeyFragment(key)) == Values(key)
  {
    if |key| == 1 {
      OneByteDecodes(key[0] as nat);
    } else if |key| == 2 {
      var a, b := Halve(key[0], 4);
      var c, d := Halve(key[1], 16);
      TwoBytesKeyDecodes(key, a, b, c, d);
    } else if |key| >= 3 {
      FragmentDecodes(key[3..]);
      var a, b := Halve(key[0], 4);
      var c, d := Halve(key[1], 16);
      var e, f := Halve(key[2], 64);
      FirstThreeDecode(key, a, b, c, d, e, f);
      ValuesSplit(key);
    }
  }
}
