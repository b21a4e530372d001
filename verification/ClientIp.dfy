/**
 Finding the client address in the trusted headers.  Parsing one address is a function
 of its text; headers are strings, the empty string for an absent one.
 */
module ClientIp {
  import opened Wrappers
  import opened Bits
  import opened Netip
  import opened Octets

  type Parser = string -> Option<Addr>

  /** Unicode white space, as `strings.TrimSpace` understands it. */
  predicate IsSpace(c: char) {
    c == ' ' || '\t' <= c <= '\r' || c == '\U{85}' || c == '\U{A0}' || c == '\U{1680}'
    || '\U{2000}' <= c <= '\U{200A}' || c == '\U{2028}' || c == '\U{2029}' || c == '\U{202F}'
    || c == '\U{205F}' || c == '\U{3000}'
  }

  function TrimLeft(s: string): string {
    if s != "" && IsSpace(s[0]) then TrimLeft(s[1..]) else s
  }

  function TrimRight(s: string): string {
    if s != "" && IsSpace(s[|s| - 1]) then TrimRight(s[..|s| - 1]) else s
  }

  function TrimSpace(s: string): string {
    TrimRight(TrimLeft(s))
  }

  /** `t` is `s` without the white space around it. */
  ghost predicate Trimmed(s: string, t: string) {
    exists i, j :: 0 <= i <= j <= |s| && TrimmedAt(s, t, i, j)
  }

  predicate TrimmedAt(s: string, t: string, i: nat, j: nat)
    requires i <= j <= |s|
  {
    && t == s[i..j]
    && (forall k | 0 <= k < i :: IsSpace(s[k])) && (forall k | j <= k < |s| :: IsSpace(s[k]))
    && (t != "" ==> !IsSpace(t[0]) && !IsSpace(t[|t| - 1]))
  }

  lemma {:induction false} TrimLeftFrom(s: string) returns (i: nat)
    ensures i <= |s| && TrimLeft(s) == s[i..]
    ensures forall k | 0 <= k < i :: IsSpace(s[k])
    ensures TrimLeft(s) != "" ==> !IsSpace(TrimLeft(s)[0])
  {
    i := 0;
    if s != "" && IsSpace(s[0]) {
      i := TrimLeftFrom(s[1..]);
      assert s[1..][i..] == s[i + 1..];
      forall k | 0 <= k < i + 1 ensures IsSpace(s[k]) {
        assert k > 0 ==> s[k] == s[1..][k - 1];
      }
      i := i + 1;
    }
  }

  lemma {:induction false} TrimRightTo(s: string) returns (j: nat)
    ensures j <= |s| && TrimRight(s) == s[..j]
    ensures forall k | j <= k < |s| :: IsSpace(s[k])
    ensures TrimRight(s) != "" ==> !IsSpace(TrimRight(s)[|TrimRight(s)| - 1])
  {
    j := |s|;
    if s != "" && IsSpace(s[|s| - 1]) {
      j := TrimRightTo(s[..|s| - 1]);
      assert s[..|s| - 1][..j] == s[..j];
      forall k | j <= k < |s| ensures IsSpace(s[k]) {
        assert k < |s| - 1 ==> s[k] == s[..|s| - 1][k];
      }
    }
  }

  /** `TrimSpace` gives that text, and there is only one. */
  lemma TrimSpaceTrims(s: string, t: string)
    ensures Trimmed(s, t) <==> t == TrimSpace(s)
  {
    var i := TrimLeftFrom(s);
    var j := TrimRightTo(TrimLeft(s));
    assert s[i..][..j] == s[i..i + j];
    forall k | i + j <= k < |s| ensures IsSpace(s[k]) {
      assert s[k] == s[i..][k - i];
    }
    assert TrimmedAt(s, TrimSpace(s), i, i + j);
    if Trimmed(s, t) {
      var i', j' :| 0 <= i' <= j' <= |s| && TrimmedAt(s, t, i', j');
      OneTrim(s, t, i', j', TrimSpace(s), i, i + j);
    }
  }

  lemma OneTrim(s: string, t: string, i: nat, j: nat, t': string, i': nat, j': nat)
    requires i <= j <= |s| && i' <= j' <= |s| && TrimmedAt(s, t, i, j) && TrimmedAt(s, t', i', j')
    ensures t == t'
  {
    if t != "" {
      assert s[i] == t[0] && s[j - 1] == t[|t| - 1];
    }
    if t' != "" {
      assert s[i'] == t'[0] && s[j' - 1] == t'[|t'| - 1];
    }
  }

  /** The text before each comma, and the text after the last one. */
  function Split(s: string): (parts: seq<string>)
    ensures parts != []
  {
    if s == "" then [""]
    else
      var front := Split(s[..|s| - 1]);
      var c := s[|s| - 1];
      if c == ',' then front + [""]
      else ExtendLast(front, c)
  }

  function ExtendLast(parts: seq<string>, c: char): (r: seq<string>)
    requires parts != []
    ensures r != []
  {
    parts[..|parts| - 1] + [parts[|parts| - 1] + [c]]
  }

  lemma SplitSnoc(s: string, c: char)
    ensures Split(s + [c]) == if c == ',' then Split(s) + [""] else ExtendLast(Split(s), c)
  {}

  function Join(parts: seq<string>): string
    requires parts != []
  {
    if |parts| == 1 then parts[0] else Join(parts[..|parts| - 1]) + "," + parts[|parts| - 1]
  }

  /** Splitting loses nothing and leaves no comma inside an entry. */
  lemma {:induction false} JoinOfSplit(s: string)
    ensures Join(Split(s)) == s
    ensures forall k | 0 <= k < |Split(s)| :: ',' !in Split(s)[k]
  {
    if s != "" {
      var front, c := s[..|s| - 1], s[|s| - 1];
      JoinOfSplit(front);
      assert s == front + [c];
      SplitSnoc(front, c);
      if c == ',' {
        JoinSnoc(Split(front), "");
        assert front + "," + "" == s;
      } else {
        JoinExtend(Split(front), c);
      }
    }
  }

  lemma JoinSnoc(parts: seq<string>, e: string)
    requires parts != []
    ensures Join(parts + [e]) == Join(parts) + "," + e
  {}

  lemma JoinExtend(parts: seq<string>, c: char)
    requires parts != []
    ensures Join(ExtendLast(parts, c)) == Join(parts) + [c]
  {}

  /** Splitting a comma-joined text is concatenating the splits. */
  lemma {:induction false} SplitOfConcat(s: string, v: string)
    ensures Split(s + "," + v) == Split(s) + Split(v)
  {
    if v == "" {
      SplitSnoc(s, ',');
      assert s + "," + v == s + [','];
    } else {
      var v0, c := v[..|v| - 1], v[|v| - 1];
      SplitOfConcat(s, v0);
      assert v == v0 + [c];
      SplitSnoc(v0, c);
      assert s + "," + v == (s + "," + v0) + [c];
      SplitSnoc(s + "," + v0, c);
      ExtendConcat(Split(s), Split(v0), c);
    }
  }

  lemma ExtendConcat(a: seq<string>, b: seq<string>, c: char)
    requires b != []
    ensures ExtendLast(a + b, c) == a + ExtendLast(b, c)
    ensures (a + b) + [""] == a + (b + [""])
  {}

  /** The parse of an entry, when it is not blank and parses. */
  function ParseEntry(parse: Parser, entry: string): Option<Addr> {
    var p := TrimSpace(entry);
    if p == "" then None
    else match parse(p)
         case None => None
         case Some(a) => Some(Unmap(a))
  }

  /** The client an address stands for: the IPv4 address a mapped one carries in its last four bytes, or itself. */
  predicate StandsFor(parsed: Addr, a: Addr) {
    if MappedForm(AddrBytes(parsed)) then a.IPv4? && AddrBytes(a) == AddrBytes(parsed)[12..] else a == parsed
  }

  lemma UnmapStandsFor(parsed: Addr, a: Addr)
    ensures StandsFor(parsed, a) <==> a == Unmap(parsed)
  {
    UnmapBytes(parsed);
    if StandsFor(parsed, a) && MappedForm(AddrBytes(parsed)) {
      SameBytesSameAddr(a, Unmap(parsed));
    }
  }

  /** Without the white space around it the entry is not empty and parses to an address that stands for `a`. */
  ghost predicate Reads(parse: Parser, entry: string, a: Addr) {
    exists t :: Trimmed(entry, t) && t != "" && parse(t).Some? && StandsFor(parse(t).value, a)
  }

  ghost predicate Unreadable(parse: Parser, entry: string) {
    forall a :: !Reads(parse, entry, a)
  }

  lemma ParseEntryReads(parse: Parser, entry: string)
    ensures forall a :: Reads(parse, entry, a) <==> ParseEntry(parse, entry) == Some(a)
    ensures Unreadable(parse, entry) <==> ParseEntry(parse, entry) == None
  {
    var t := TrimSpace(entry);
    TrimSpaceTrims(entry, t);
    forall a ensures Reads(parse, entry, a) <==> ParseEntry(parse, entry) == Some(a) {
      if Reads(parse, entry, a) {
        var t' :| Trimmed(entry, t') && t' != "" && parse(t').Some? && StandsFor(parse(t').value, a);
        TrimSpaceTrims(entry, t');
        UnmapStandsFor(parse(t').value, a);
      }
      if ParseEntry(parse, entry) == Some(a) {
        UnmapStandsFor(parse(t).value, a);
      }
    }
    if ParseEntry(parse, entry).Some? {
      assert Reads(parse, entry, ParseEntry(parse, entry).value);
    }
  }

  /** The last entry that parses. */
  function LastParseable(parse: Parser, parts: seq<string>): Option<Addr> {
    if parts == [] then None
    else
      var last := ParseEntry(parse, parts[|parts| - 1]);
      if last.Some? then last else LastParseable(parse, parts[..|parts| - 1])
  }

  /** `r` is what an entry reads after which none is readable; without one no entry is. */
  ghost predicate Rightmost(parse: Parser, parts: seq<string>, r: Option<Addr>) {
    match r
    case None => forall k | 0 <= k < |parts| :: Unreadable(parse, parts[k])
    case Some(a) => exists k :: 0 <= k < |parts| && Reads(parse, parts[k], a)
                      && forall j | k < j < |parts| :: Unreadable(parse, parts[j])
  }

  /** The scan finds the rightmost readable entry, and only that. */
  lemma {:induction false} LastIsLast(parse: Parser, parts: seq<string>)
    ensures Rightmost(parse, parts, LastParseable(parse, parts))
  {
    if parts != [] {
      var n := |parts| - 1;
      var front, r := parts[..n], LastParseable(parse, parts[..n]);
      LastIsLast(parse, front);
      ParseEntryReads(parse, parts[n]);
      assert front + [parts[n]] == parts;
      if ParseEntry(parse, parts[n]) == None {
        UnreadableAfter(parse, front, parts[n], r);
      } else {
        assert Reads(parse, parts[n], ParseEntry(parse, parts[n]).value);
      }
    }
  }

  lemma UnreadableAfter(parse: Parser, front: seq<string>, e: string, r: Option<Addr>)
    requires Rightmost(parse, front, r) && Unreadable(parse, e)
    ensures Rightmost(parse, front + [e], r)
  {
    var parts := front + [e];
    assert parts[|front|] == e;
    forall j | 0 <= j < |front| ensures parts[j] == front[j] {}
    if r.Some? {
      var k :| 0 <= k < |front| && Reads(parse, front[k], r.value) && forall j | k < j < |front| :: Unreadable(parse, front[j]);
      assert Reads(parse, parts[k], r.value);
      forall j | k < j < |parts| ensures Unreadable(parse, parts[j]) {
        assert j < |front| ==> Unreadable(parse, front[j]);
      }
    } else {
      forall j | 0 <= j < |parts| ensures Unreadable(parse, parts[j]) {
        assert j < |front| ==> Unreadable(parse, front[j]);
      }
    }
  }

  /** The scan from the right. */
  method RightmostXFF(parse: Parser, v: string) returns (r: Option<Addr>)
    ensures r == LastParseable(parse, Split(v))
    ensures Rightmost(parse, Split(v), r)
  {
    r := Scan(parse, Split(v));
    LastIsLast(parse, Split(v));
  }

  /** Its loop. */
  method Scan(parse: Parser, parts: seq<string>) returns (r: Option<Addr>)
    ensures r == LastParseable(parse, parts)
  {
    var i := |parts| - 1;
    assert parts[..|parts|] == parts;
    while i >= 0
      invariant -1 <= i < |parts|
      invariant LastParseable(parse, parts) == LastParseable(parse, parts[..i + 1])
    {
      assert parts[..i + 1][..i] == parts[..i];
      var p := TrimSpace(parts[i]);
      if p != "" {
        var addr := parse(p);
        if addr.Some? {
          return Some(Unmap(addr.value));
        }
      }
      i := i - 1;
    }
    return None;
  }

  lemma {:induction false} LastOfConcat(parse: Parser, a: seq<string>, b: seq<string>)
    ensures LastParseable(parse, a + b) ==
            if LastParseable(parse, b).Some? then LastParseable(parse, b) else LastParseable(parse, a)
  {
    if b == [] {
      assert a + b == a;
    } else {
      assert (a + b)[..|a + b| - 1] == a + b[..|b| - 1];
      LastOfConcat(parse, a, b[..|b| - 1]);
    }
  }

  /** What a client writes before the trusted proxy's part never changes an address found in that part. */
  lemma ForgedPrefixIsIgnored(parse: Parser, s: string, v: string)
    ensures LastParseable(parse, Split(s + "," + v)) ==
            if LastParseable(parse, Split(v)).Some? then LastParseable(parse, Split(v))
            else LastParseable(parse, Split(s))
  {
    SplitOfConcat(s, v);
    LastOfConcat(parse, Split(s), Split(v));
  }

  datatype Headers = Headers(xRealIP: string, xForwardedFor: string)

  /** X-Real-IP when it parses, else the last parseable X-Forwarded-For entry. */
  function ClientOf(parse: Parser, h: Headers): Option<Addr> {
    var direct := ParseEntry(parse, h.xRealIP);
    if direct.Some? then direct
    else if h.xForwardedFor == "" then None
    else LastParseable(parse, Split(h.xForwardedFor))
  }

  /** X-Real-IP decides when it is readable, and otherwise the rightmost readable entry of X-Forwarded-For. */
  ghost predicate ClientIs(parse: Parser, h: Headers, r: Option<Addr>) {
    if Unreadable(parse, h.xRealIP) then Rightmost(parse, Split(h.xForwardedFor), r)
    else r.Some? && Reads(parse, h.xRealIP, r.value)
  }

  method ExtractClientIP(parse: Parser, h: Headers) returns (r: Option<Addr>)
    ensures r == ClientOf(parse, h)
    ensures ClientIs(parse, h, r)
  {
    ClientFacts(parse, h, "");
    var v := TrimSpace(h.xRealIP);
    if v != "" {
      var addr := parse(v);
      if addr.Some? {
        return Some(Unmap(addr.value));
      }
    }
    if h.xForwardedFor != "" {
      r := RightmostXFF(parse, h.xForwardedFor);
      return;
    }
    return None;
  }

  /**
   The client is found as `ClientIs` says, the shortcut for an empty header changing
   nothing; it is never an IPv4-mapped address; and text prepended to a header part that
   holds an address is ignored.
   */
  lemma ClientFacts(parse: Parser, h: Headers, s: string)
    ensures ClientIs(parse, h, ClientOf(parse, h))
    ensures ClientOf(parse, h).Some? ==>
              ClientOf(parse, h.(xForwardedFor := s + "," + h.xForwardedFor)) == ClientOf(parse, h)
    ensures ClientOf(parse, h).Some? ==> !MappedForm(AddrBytes(ClientOf(parse, h).value))
  {
    ForgedPrefixIsIgnored(parse, s, h.xForwardedFor);
    assert Split("")[..0] == [];
    assert TrimSpace("") == "";
    ParseEntryReads(parse, h.xRealIP);
    LastIsLast(parse, Split(h.xForwardedFor));
    LastIsUnmapped(parse, Split(h.xForwardedFor));
    if ClientOf(parse, h).Some? {
      UnmapBytes(ClientOf(parse, h).value);
    }
  }

  lemma {:induction false} LastIsUnmapped(parse: Parser, parts: seq<string>)
    ensures LastParseable(parse, parts).Some? ==> !Is4In6(LastParseable(parse, parts).value)
  {
    if parts != [] {
      LastIsUnmapped(parse, parts[..|parts| - 1]);
    }
  }
}
