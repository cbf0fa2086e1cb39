/** Caveats, locations and the one flat string a macaroon signs. */
module Caveats {
  import opened Text

  datatype CaveatType =
    TimeBefore | TimeAfter | ResourcePrefix | ActionLimit | AgentId | IpAddress | RequestCount | DelegationDepth

  datatype Caveat = Caveat(kind: CaveatType, value: string)

  const KINDS: seq<CaveatType> :=
    [TimeBefore, TimeAfter, ResourcePrefix, ActionLimit, AgentId, IpAddress, RequestCount, DelegationDepth]

  const KIND_NAMES: seq<string> :=
    ["time_before", "time_after", "resource_prefix", "action_limit", "agent_id", "ip_address", "request_count",
     "delegation_depth"]

  function KindNumber(kind: CaveatType): (n: nat)
    ensures n < |KINDS| == |KIND_NAMES| && KINDS[n] == kind
  {
    match kind
    case TimeBefore => 0
    case TimeAfter => 1
    case ResourcePrefix => 2
    case ActionLimit => 3
    case AgentId => 4
    case IpAddress => 5
    case RequestCount => 6
    case DelegationDepth => 7
  }

  function KindName(kind: CaveatType): (name: string)
    ensures ':' !in name
  {
    NamesHaveNoColon();
    KIND_NAMES[KindNumber(kind)]
  }

  lemma NamesHaveNoColon()
    ensures forall k :: 0 <= k < |KIND_NAMES| ==> ':' !in KIND_NAMES[k]
  {
    forall k | 0 <= k < |KIND_NAMES| ensures ':' !in KIND_NAMES[k] {
      if k == 0 {} else if k == 1 {} else if k == 2 {} else if k == 3 {}
      else if k == 4 {} else if k == 5 {} else if k == 6 {} else {}
    }
  }

  lemma KindNamesDiffer(a: CaveatType, b: CaveatType)
    requires KindName(a) == KindName(b)
    ensures a == b
  {
  }

  function KindAmong(name: string, kinds: seq<CaveatType>): (kind: Option<CaveatType>)
    ensures kind.Some? ==> KindName(kind.value) == name
  {
    if kinds == [] then None
    else if KindName(kinds[0]) == name then Some(kinds[0])
    else KindAmong(name, kinds[1..])
  }

  /** `CaveatType(name)`; None where the enumeration raises. */
  function KindOf(name: string): (kind: Option<CaveatType>)
    ensures kind.Some? ==> KindName(kind.value) == name
  {
    KindAmong(name, KINDS)
  }

  lemma {:induction false} KindFound(kind: CaveatType, kinds: seq<CaveatType>)
    requires kind in kinds
    ensures KindAmong(KindName(kind), kinds) == Some(kind)
    decreases |kinds|
  {
    if KindName(kinds[0]) == KindName(kind) {
      KindNamesDiffer(kinds[0], kind);
    } else {
      KindFound(kind, kinds[1..]);
    }
  }

  lemma KindRoundTrip(kind: CaveatType)
    ensures KindOf(KindName(kind)) == Some(kind)
  {
    assert KINDS[KindNumber(kind)] == kind;
    KindFound(kind, KINDS);
  }

  function CaveatText(c: Caveat): string {
    KindName(c.kind) + ":" + c.value
  }

  /** `Caveat.from_string`: the kind ends at the first colon, the value keeps the others. */
  function ParseCaveat(s: string): Option<Caveat> {
    var i := IndexOf(s, ':');
    if i == |s| then None
    else
      match KindOf(s[..i])
      case None => None
      case Some(kind) => Some(Caveat(kind, s[i + 1..]))
  }

  /** Parsing inverts printing, colons in the value included; and whatever parses prints back. */
  lemma CaveatRoundTrip(c: Caveat)
    ensures ParseCaveat(CaveatText(c)) == Some(c)
  {
    hide KindName, KindOf;
    var s := CaveatText(c);
    IndexOfAppend(KindName(c.kind), ':', c.value);
    assert s == KindName(c.kind) + [':'] + c.value;
    assert s[..|KindName(c.kind)|] == KindName(c.kind);
    KindRoundTrip(c.kind);
  }

  lemma ParsedCaveatPrints(s: string)
    ensures ParseCaveat(s).Some? ==> CaveatText(ParseCaveat(s).value) == s
  {
    hide KindName, KindOf;
    var i := IndexOf(s, ':');
    assert i < |s| ==> s == s[..i] + ":" + s[i + 1..];
  }

  function CaveatTexts(cs: seq<Caveat>): (texts: seq<string>)
    ensures |texts| == |cs|
    ensures forall k :: 0 <= k < |cs| ==> texts[k] == CaveatText(cs[k])
  {
    seq(|cs|, k requires 0 <= k < |cs| => CaveatText(cs[k]))
  }

  /** The list comprehension over `Caveat.from_string`: None as soon as one entry is malformed. */
  function ParseCaveats(texts: seq<string>): Option<seq<Caveat>> {
    if texts == [] then Some([])
    else
      match ParseCaveat(texts[0])
      case None => None
      case Some(c) =>
        match ParseCaveats(texts[1..])
        case None => None
        case Some(rest) => Some([c] + rest)
  }

  lemma {:induction false} CaveatsRoundTrip(cs: seq<Caveat>)
    ensures ParseCaveats(CaveatTexts(cs)) == Some(cs)
    decreases |cs|
  {
    hide KindName, KindOf;
    if cs != [] {
      CaveatRoundTrip(cs[0]);
      assert CaveatTexts(cs)[1..] == CaveatTexts(cs[1..]);
      CaveatsRoundTrip(cs[1..]);
      assert cs == [cs[0]] + cs[1..];
    }
  }

  lemma {:induction false} ParsedCaveatsPrint(texts: seq<string>)
    ensures ParseCaveats(texts).Some? ==> CaveatTexts(ParseCaveats(texts).value) == texts
    decreases |texts|
  {
    hide ParseCaveat, CaveatText;
    if texts != [] && ParseCaveats(texts).Some? {
      ParsedCaveatPrints(texts[0]);
      ParsedCaveatsPrint(texts[1..]);
      var c, rest := ParseCaveat(texts[0]).value, ParseCaveats(texts[1..]).value;
      assert ParseCaveats(texts).value == [c] + rest;
      assert CaveatTexts([c] + rest) == [texts[0]] + CaveatTexts(rest);
    }
  }

  datatype Location = Location(service: string, endpoint: Option<string>)

  /** An empty endpoint prints like a missing one. */
  function LocationText(l: Location): string {
    if l.endpoint.Some? && l.endpoint.value != "" then l.service + ":" + l.endpoint.value else l.service
  }

  function ParseLocation(s: string): Location {
    var i := IndexOf(s, ':');
    if i < |s| then Location(s[..i], Some(s[i + 1..])) else Location(s, None)
  }

  /** A location string whose first colon is its last character loses that colon in transport. */
  predicate LocationSurvives(s: string) {
    IndexOf(s, ':') + 1 != |s|
  }

  lemma LocationRoundTrip(s: string)
    ensures LocationText(ParseLocation(s)) == s <==> LocationSurvives(s)
    ensures !LocationSurvives(s) ==> LocationText(ParseLocation(s)) + ":" == s
  {
  }

  // ----- the signed string -----

  function CaveatTail(cs: seq<Caveat>): string {
    if cs == [] then "" else ":" + CaveatText(cs[0]) + CaveatTail(cs[1..])
  }

  /** What is signed before the caveats. */
  function HeadText(location: string, identifier: string): string {
    location + ":" + identifier
  }

  function SignedText(location: string, identifier: string, cs: seq<Caveat>): string {
    HeadText(location, identifier) + CaveatTail(cs)
  }

  lemma {:induction false} CaveatTailAppend(a: seq<Caveat>, b: seq<Caveat>)
    ensures CaveatTail(a + b) == CaveatTail(a) + CaveatTail(b)
    decreases |a|
  {
    hide KindName, KindOf;
    if a == [] {
      assert a + b == b;
    } else {
      assert (a + b)[1..] == a[1..] + b;
      CaveatTailAppend(a[1..], b);
      assert ":" + CaveatText(a[0]) + CaveatTail(a[1..]) + CaveatTail(b)
          == ":" + CaveatText(a[0]) + (CaveatTail(a[1..]) + CaveatTail(b));
    }
  }

  lemma CaveatTailSnoc(cs: seq<Caveat>, c: Caveat)
    ensures CaveatTail(cs + [c]) == CaveatTail(cs) + ":" + CaveatText(c)
  {
    hide KindName, KindOf;
    CaveatTailAppend(cs, [c]);
    assert CaveatTail([c][1..]) == "";
    assert CaveatTail([c]) == ":" + CaveatText(c);
  }

  // ----- unique decoding of the signed string -----

  /** The caveat kind of a header `:kind:` at the start of `s`. */
  function HeaderAt(s: string): Option<CaveatType> {
    if s == "" || s[0] != ':' then None
    else
      var i := IndexOf(s[1..], ':');
      if i + 1 == |s| then None else KindOf(s[1..i + 1])
  }

  /** Where the first header in `s` starts, or the length of `s`. */
  function NextHeader(s: string): (i: nat)
    ensures i <= |s|
  {
    if s == "" then 0
    else if HeaderAt(s).Some? then 0
    else 1 + NextHeader(s[1..])
  }

  lemma {:induction false} NextHeaderIsFirst(s: string)
    ensures var i := NextHeader(s);
            && (i < |s| ==> HeaderAt(s[i..]).Some?)
            && forall k :: 0 <= k < i ==> HeaderAt(s[k..]).None?
    decreases |s|
  {
    hide HeaderAt;
    if s != "" {
      assert s[0..] == s;
      if HeaderAt(s).None? {
        NextHeaderIsFirst(s[1..]);
        assert forall k :: 1 <= k <= |s| ==> s[k..] == s[1..][k - 1..];
      }
    }
  }

  predicate HasHeader(s: string) {
    NextHeader(s) < |s|
  }

  /** No value, taken with the colon that follows it in the signed string, shows a header. */
  predicate Clean(cs: seq<Caveat>) {
    cs == [] ||
    (!HasHeader(cs[0].value + (if |cs| > 1 then ":" else "")) && Clean(cs[1..]))
  }

  function Header(kind: CaveatType): (h: string)
    ensures h != ""
  {
    ":" + KindName(kind) + ":"
  }

  /** The reader that ends a value at the earliest following header. */
  function Decode(s: string): Option<seq<Caveat>>
    decreases |s|
  {
    if s == "" then Some([])
    else
      match HeaderAt(s)
      case None => None
      case Some(kind) =>
        HeaderShape(s);
        var body := s[|Header(kind)|..];
        var k := NextHeader(body);
        match Decode(body[k..])
        case None => None
        case Some(rest) => Some([Caveat(kind, body[..k])] + rest)
  }

  lemma HeaderOf(kind: CaveatType, rest: string)
    ensures HeaderAt(Header(kind) + rest) == Some(kind)
    ensures (Header(kind) + rest)[|Header(kind)|..] == rest
  {
    hide KindName, KindOf;
    var name := KindName(kind);
    var s := Header(kind) + rest;
    assert s == ":" + (name + [':'] + rest);
    assert s[1..] == name + [':'] + rest;
    IndexOfAppend(name, ':', rest);
    assert s[1..|name| + 1] == name;
    KindRoundTrip(kind);
  }

  lemma HeaderShape(s: string)
    requires HeaderAt(s).Some?
    ensures var h := Header(HeaderAt(s).value);
            |s| >= |h| && s == h + s[|h|..]
  {
    hide KindName, KindOf;
    var i := IndexOf(s[1..], ':');
    assert s[1..][i] == ':';
    assert s == [s[0]] + s[1..i + 1] + [s[i + 1]] + s[i + 2..];
  }

  lemma TailShape(cs: seq<Caveat>)
    requires cs != []
    ensures CaveatTail(cs) == Header(cs[0].kind) + (cs[0].value + CaveatTail(cs[1..]))
  {
    hide KindName;
  }

  lemma {:induction false} TailStartsWithHeader(cs: seq<Caveat>)
    requires cs != []
    ensures CaveatTail(cs) != ""
    ensures HeaderAt(CaveatTail(cs)) == Some(cs[0].kind)
    ensures CaveatTail(cs)[|Header(cs[0].kind)|..] == cs[0].value + CaveatTail(cs[1..])
  {
    hide Header, HeaderAt, CaveatTail;
    TailShape(cs);
    HeaderOf(cs[0].kind, cs[0].value + CaveatTail(cs[1..]));
  }

  lemma {:induction false} TailOfOne(kind: CaveatType, v: string)
    ensures CaveatTail([Caveat(kind, v)]) == Header(kind) + v
  {
    hide Header, CaveatTail;
    TailShape([Caveat(kind, v)]);
    EmptyTail();
    assert [Caveat(kind, v)][1..] == [];
    assert v + "" == v;
  }

  lemma NameTexts()
    ensures KindName(TimeBefore) == "time_before" && KindName(TimeAfter) == "time_after"
    ensures KindName(ResourcePrefix) == "resource_prefix" && KindName(ActionLimit) == "action_limit"
    ensures KindName(AgentId) == "agent_id" && KindName(IpAddress) == "ip_address"
    ensures KindName(RequestCount) == "request_count" && KindName(DelegationDepth) == "delegation_depth"
  {
    hide KindOf;
  }

  lemma HeaderText(kind: CaveatType, name: string, header: string)
    requires KindName(kind) == name && header == ":" + name + ":"
    ensures Header(kind) == header
  {
    hide KindName;
  }

  /** The headers, letter by letter. */
  lemma HeaderTexts()
    ensures Header(TimeBefore) == ":time_before:" && Header(TimeAfter) == ":time_after:"
    ensures Header(ResourcePrefix) == ":resource_prefix:" && Header(ActionLimit) == ":action_limit:"
    ensures Header(AgentId) == ":agent_id:" && Header(IpAddress) == ":ip_address:"
    ensures Header(RequestCount) == ":request_count:" && Header(DelegationDepth) == ":delegation_depth:"
  {
    hide KindName, Header;
    NameTexts();
    HeaderText(TimeBefore, "time_before", ":time_before:");
    HeaderText(TimeAfter, "time_after", ":time_after:");
    HeaderText(ResourcePrefix, "resource_prefix", ":resource_prefix:");
    HeaderText(ActionLimit, "action_limit", ":action_limit:");
    HeaderText(AgentId, "agent_id", ":agent_id:");
    HeaderText(IpAddress, "ip_address", ":ip_address:");
    HeaderText(RequestCount, "request_count", ":request_count:");
    HeaderText(DelegationDepth, "delegation_depth", ":delegation_depth:");
  }

  /** Whether a header starts inside `v` depends only on `v` and the colon after it. */
  lemma HeaderIsLocal(v: string, tail: string)
    requires v != "" && tail != "" && tail[0] == ':'
    ensures HeaderAt(v + tail) == HeaderAt(v + ":")
  {
    hide KindName, KindOf;
    if v[0] == ':' {
      var w := v[1..];
      assert (v + tail)[1..] == w + tail && (v + ":")[1..] == w + ":";
      FirstColon(w, tail);
      var i := IndexOf(w + ":", ':');
      assert (v + tail)[1..i + 1] == (w + tail)[..i] && (v + ":")[1..i + 1] == (w + ":")[..i];
    }
  }

  lemma {:induction false} FirstColon(w: string, tail: string)
    requires tail != "" && tail[0] == ':'
    ensures IndexOf(w + tail, ':') == IndexOf(w + ":", ':') <= |w|
    ensures (w + tail)[..IndexOf(w + ":", ':')] == (w + ":")[..IndexOf(w + ":", ':')]
    decreases |w|
  {
    if w == "" {
      assert w + tail == tail && w + ":" == ":";
    } else {
      assert (w + tail)[1..] == w[1..] + tail && (w + ":")[1..] == w[1..] + ":";
      FirstColon(w[1..], tail);
    }
  }

  lemma {:induction false} NextHeaderEndsValue(v: string, tail: string)
    requires tail == "" || HeaderAt(tail).Some?
    requires !HasHeader(v + (if tail != "" then ":" else ""))
    ensures NextHeader(v + tail) == |v|
    decreases |v|
  {
    hide KindName, KindOf;
    var colon := if tail != "" then ":" else "";
    if v == "" {
      assert v + tail == tail;
    } else {
      assert (v + colon)[1..] == v[1..] + colon && (v + tail)[1..] == v[1..] + tail;
      NextHeaderEndsValue(v[1..], tail);
      if tail != "" {
        HeaderIsLocal(v, tail);
      }
    }
  }

  lemma {:induction false} DecodeFirst(kind: CaveatType, v: string, tail: string)
    ensures NextHeader(v + tail) == |v| && Decode(tail).Some? ==>
              Decode(Header(kind) + (v + tail)) == Some([Caveat(kind, v)] + Decode(tail).value)
  {
    hide HeaderAt, NextHeader, Header;
    HeaderOf(kind, v + tail);
    assert (v + tail)[|v|..] == tail && (v + tail)[..|v|] == v;
  }

  lemma {:induction false} DecodeClean(cs: seq<Caveat>)
    requires Clean(cs)
    ensures Decode(CaveatTail(cs)) == Some(cs)
    decreases |cs|
  {
    hide Header, HeaderAt, Decode, NextHeader;
    if cs == [] {
      EmptyTail();
    } else {
      var v, tail := cs[0].value, CaveatTail(cs[1..]);
      if cs[1..] != [] {
        TailStartsWithHeader(cs[1..]);
      }
      NextHeaderEndsValue(v, tail);
      DecodeClean(cs[1..]);
      DecodeFirst(cs[0].kind, v, tail);
      TailShape(cs);
      assert cs == [Caveat(cs[0].kind, v)] + cs[1..];
    }
  }

  lemma {:induction false} DecodedIsClean(s: string)
    ensures Decode(s).Some? ==> Clean(Decode(s).value) && CaveatTail(Decode(s).value) == s
    decreases |s|
  {
    hide Header, HeaderAt, CaveatTail;
    EmptyTail();
    if s != "" && Decode(s).Some? {
      HeaderShape(s);
      var kind := HeaderAt(s).value;
      var body := s[|Header(kind)|..];
      var k := NextHeader(body);
      var cs := Decode(s).value;
      var rest := Decode(body[k..]).value;
      assert cs == [Caveat(kind, body[..k])] + rest;
      assert cs[1..] == rest;
      DecodedIsClean(body[k..]);
      TailShape(cs);
      assert body == body[..k] + body[k..];
      ValueShowsNoHeader(body);
      if rest != [] {
        TailStartsWithHeader(rest);
      }
    }
  }

  lemma EmptyTail()
    ensures CaveatTail([]) == "" && Decode("") == Some([])
  {
  }

  lemma HeaderColons(s: string)
    ensures HeaderAt(s).Some? ==> s != "" && s[0] == ':'
    ensures HeaderAt(":").None?
  {
  }

  lemma NoHeaderBefore(body: string, k: nat, j: nat)
    requires j <= k < |body| && body[k] == ':'
    requires j < k ==> HeaderAt(body[j..]).None?
    ensures HeaderAt((body[..k] + ":")[j..]).None?
  {
    hide HeaderAt;
    HeaderColons("");
    var u, tail := body[j..k], body[k..];
    assert (body[..k] + ":")[j..] == u + ":";
    if j < k {
      assert body[j..] == u + tail;
      HeaderIsLocal(u, tail);
    } else {
      assert u + ":" == ":";
    }
  }

  lemma {:induction false} ValueShowsNoHeader(body: string)
    ensures var k := NextHeader(body); !HasHeader(body[..k] + (if k < |body| then ":" else ""))
  {
    hide HeaderAt;
    var k := NextHeader(body);
    NextHeaderIsFirst(body);
    NextHeaderIsFirst(body[..k] + (if k < |body| then ":" else ""));
    if k < |body| {
      HeaderColons(body[k..]);
      forall j | 0 <= j <= k ensures HeaderAt((body[..k] + ":")[j..]).None? {
        NoHeaderBefore(body, k, j);
      }
    } else {
      assert body[..k] + "" == body;
    }
  }

  /** The earliest-header reader gives a list back exactly when the list is clean. */
  lemma {:induction false} DecodesIffClean(cs: seq<Caveat>)
    ensures Decode(CaveatTail(cs)) == Some(cs) <==> Clean(cs)
  {
    hide KindName, KindOf;
    if Clean(cs) {
      DecodeClean(cs);
    } else if Decode(CaveatTail(cs)) == Some(cs) {
      DecodedIsClean(CaveatTail(cs));
    }
  }

  /** The reader succeeds on the signed string of every list, and what it reads is the one clean
      list with that string. */
  lemma {:induction false} EveryListHasOneCleanReading(cs: seq<Caveat>)
    ensures Decode(CaveatTail(cs)).Some?
    ensures var c := Decode(CaveatTail(cs)).value; Clean(c) && CaveatTail(c) == CaveatTail(cs)
    ensures forall c, d :: Clean(c) && Clean(d) && CaveatTail(c) == CaveatTail(cs) == CaveatTail(d) ==> c == d
  {
    hide HeaderAt, Decode, Clean, CaveatTail;
    if cs == [] {
      EmptyTail();
    } else {
      TailStartsWithHeader(cs);
    }
    SuffixOfTailDecodes(CaveatTail(cs));
    DecodedIsClean(CaveatTail(cs));
    forall c, d | Clean(c) && Clean(d) && CaveatTail(c) == CaveatTail(cs) == CaveatTail(d) ensures c == d {
      DecodeClean(c);
      DecodeClean(d);
    }
  }

  lemma {:induction false} SuffixOfTailDecodes(s: string)
    requires s == "" || HeaderAt(s).Some?
    ensures Decode(s).Some?
    decreases |s|
  {
    hide KindName, KindOf;
    if s != "" {
      HeaderShape(s);
      var body := s[|Header(HeaderAt(s).value)|..];
      var k := NextHeader(body);
      NextHeaderIsFirst(body);
      SuffixOfTailDecodes(body[k..]);
    }
  }

  lemma SignedTextIsInjective(location: string, identifier: string, a: seq<Caveat>, b: seq<Caveat>)
    requires Clean(a) && Clean(b)
    requires SignedText(location, identifier, a) == SignedText(location, identifier, b)
    ensures a == b
  {
    hide KindName, KindOf;
    var head := HeadText(location, identifier);
    assert SignedText(location, identifier, a)[|head|..] == CaveatTail(a);
    assert SignedText(location, identifier, b)[|head|..] == CaveatTail(b);
    DecodeClean(a);
    DecodeClean(b);
  }

  // ----- where the name ends -----

  /** No header shows in the head, taken with the colon that follows it, and the list is clean. */
  predicate ReadsOneWay(head: string, cs: seq<Caveat>) {
    !HasHeader(head + (if cs != [] then ":" else "")) && Clean(cs)
  }

  lemma {:induction false} HeadEndsAtFirstHeader(head: string, cs: seq<Caveat>)
    requires ReadsOneWay(head, cs)
    ensures NextHeader(head + CaveatTail(cs)) == |head|
  {
    hide HeaderAt, NextHeader, CaveatTail, Clean;
    EmptyTail();
    if cs != [] {
      TailStartsWithHeader(cs);
    }
    NextHeaderEndsValue(head, CaveatTail(cs));
  }

  /** One signed string has at most one head and caveat list that read one way. */
  lemma {:induction false} OneWayIsUnique(h: string, a: seq<Caveat>, g: string, b: seq<Caveat>)
    requires ReadsOneWay(h, a) && ReadsOneWay(g, b) && h + CaveatTail(a) == g + CaveatTail(b)
    ensures h == g && a == b
  {
    hide NextHeader, CaveatTail, Clean, Decode;
    HeadEndsAtFirstHeader(h, a);
    HeadEndsAtFirstHeader(g, b);
    var s := h + CaveatTail(a);
    assert h == s[..|h|] && g == s[..|g|];
    assert CaveatTail(a) == s[|h|..] && CaveatTail(b) == s[|g|..];
    DecodeClean(a);
    DecodeClean(b);
  }

  /** A signed string that reads one way is read with its own caveats exactly when that reading, too,
      reads one way. */
  lemma {:induction false} ReadingIsFaithfulIff(h: string, a: seq<Caveat>, g: string, b: seq<Caveat>)
    requires ReadsOneWay(h, a) && h + CaveatTail(a) == g + CaveatTail(b)
    ensures ReadsOneWay(g, b) <==> b == a
    ensures b == a ==> g == h
  {
    hide ReadsOneWay, CaveatTail;
    if b == a {
      assert g == (g + CaveatTail(b))[..|g|] && h == (h + CaveatTail(a))[..|h|];
    } else if ReadsOneWay(g, b) {
      OneWayIsUnique(h, a, g, b);
    }
  }

  /** And every signed string has one: its head ends at its first header. */
  lemma {:induction false} EveryStringHasOneWay(s: string)
    ensures exists h, cs :: ReadsOneWay(h, cs) && h + CaveatTail(cs) == s
  {
    hide HeaderAt, CaveatTail, Decode, Clean;
    var k := NextHeader(s);
    NextHeaderIsFirst(s);
    ValueShowsNoHeader(s);
    SuffixOfTailDecodes(s[k..]);
    DecodedIsClean(s[k..]);
    EmptyTail();
    var cs := Decode(s[k..]).value;
    assert s == s[..k] + s[k..];
    assert ReadsOneWay(s[..k], cs) && s[..k] + CaveatTail(cs) == s;
  }

  lemma {:induction false} ColonHidesNoHeader(s: string)
    requires HasHeader(s)
    ensures HasHeader(s + ":")
    decreases |s|
  {
    hide HeaderAt;
    assert (s + ":")[1..] == s[1..] + ":";
    if HeaderAt(s).Some? {
      HeaderShape(s);
      var kind := HeaderAt(s).value;
      var rest := s[|Header(kind)|..];
      assert s + ":" == Header(kind) + (rest + ":");
      HeaderOf(kind, rest + ":");
    } else {
      ColonHidesNoHeader(s[1..]);
    }
  }

  lemma {:induction false} FrontIsClean(cs: seq<Caveat>)
    requires Clean(cs) && cs != []
    ensures Clean(cs[..|cs| - 1])
    decreases |cs|
  {
    hide HasHeader;
    var front := cs[..|cs| - 1];
    if front != [] {
      assert front[1..] == cs[1..][..|cs[1..]| - 1];
      FrontIsClean(cs[1..]);
      if |front| == 1 {
        assert cs[0].value + "" == cs[0].value;
        if HasHeader(cs[0].value) { ColonHidesNoHeader(cs[0].value); }
      }
    }
  }

  /** Dropping the last caveat leaves a string that reads one way. */
  lemma {:induction false} FrontReadsOneWay(head: string, cs: seq<Caveat>)
    requires ReadsOneWay(head, cs)
    ensures ReadsOneWay(head, if cs == [] then [] else cs[..|cs| - 1])
  {
    hide HasHeader, Clean;
    if cs != [] {
      FrontIsClean(cs);
      assert head + "" == head;
      if |cs| == 1 && HasHeader(head) { ColonHidesNoHeader(head); }
    }
  }

  /** A header shows in `s:` exactly when a colon-separated piece of `s`, other than the first, is a
      caveat kind. */
  lemma {:induction false} HeaderIffKindPiece(s: string)
    ensures HasHeader(s + ":") <==> exists k :: 1 <= k < |Split(s, ':')| && KindOf(Split(s, ':')[k]).Some?
    decreases |s|
  {
    hide KindOf, KindName, HeaderAt;
    HeaderColons(s + ":");
    if s == "" {
      assert s + ":" == ":" && ":"[1..] == "";
    } else {
      var rest := Split(s[1..], ':');
      assert (s + ":")[1..] == s[1..] + ":";
      HeaderIffKindPiece(s[1..]);
      if s[0] == ':' {
        assert Split(s, ':') == [""] + rest;
        HeaderOfFirstPiece(s);
        assert Split(s, ':')[1] == rest[0];
        assert forall k :: 1 <= k < |rest| ==> Split(s, ':')[k + 1] == rest[k];
        assert forall k :: 2 <= k < |Split(s, ':')| ==> Split(s, ':')[k] == rest[k - 1];
      } else {
        assert HeaderAt(s + ":").None?;
        assert forall k :: 1 <= k < |rest| ==> Split(s, ':')[k] == rest[k];
      }
    }
  }

  lemma HeaderOfFirstPiece(s: string)
    requires s != "" && s[0] == ':'
    ensures HeaderAt(s + ":") == KindOf(Split(s[1..], ':')[0])
  {
    hide KindOf;
    FirstPiece(s[1..]);
    var t := s[1..] + ":";
    var i := IndexOf(t, ':');
    assert (s + ":")[1..] == t && (s + ":")[1..i + 1] == t[..i];
  }

  lemma {:induction false} FirstPiece(s: string)
    ensures var i := IndexOf(s + ":", ':');
            i <= |s| && (s + ":")[..i] == Split(s, ':')[0]
    decreases |s|
  {
    if s == "" {
      assert s + ":" == ":";
    } else if s[0] != ':' {
      assert (s + ":")[1..] == s[1..] + ":";
      FirstPiece(s[1..]);
      assert (s + ":")[..IndexOf(s + ":", ':')] == [s[0]] + (s[1..] + ":")[..IndexOf(s[1..] + ":", ':')];
    }
  }

  /** Two lists, one of them not clean, with one signed string. */
  lemma CleanIsNeeded()
    ensures var a := [Caveat(IpAddress, "x"), Caveat(AgentId, "y")];
            var b := [Caveat(IpAddress, "x:agent_id:y")];
            Clean(a) && !Clean(b) && CaveatTail(a) == CaveatTail(b)
  {
    hide Header, KindName, KindOf, CaveatTail, Decode;
    var a := [Caveat(IpAddress, "x"), Caveat(AgentId, "y")];
    var b := [Caveat(IpAddress, "x:agent_id:y")];
    assert a[1..] == [Caveat(AgentId, "y")] && a[1..][1..] == [] && b[1..] == [];
    assert !HasHeader("x:") && !HasHeader("y") by {
      HeaderColons("");
      assert "x:"[1..] == ":" && ":"[1..] == "" && "y"[1..] == "";
    }
    assert "x" + ":" == "x:" && "y" + "" == "y";
    TailShape(a);
    TailOfOne(AgentId, "y");
    TailOfOne(IpAddress, "x:agent_id:y");
    HeaderTexts();
    assert "x" + (":agent_id:" + "y") == "x:agent_id:y";
    if Clean(b) {
      DecodeClean(a);
      DecodeClean(b);
      assert false;
    }
  }
}
