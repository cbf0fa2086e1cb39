/** Choosing prompts by a substring test on the JSON text of the permission list. */
module PromptFilter {
  import opened Text

  // ----- json.dumps of a list of strings (string form of section 7 of RFC 8259, ASCII only) -----

  const HEX_DIGITS := "0123456789abcdef"

  function Hex4(n: nat): string
    requires n < 0x10000
  {
    [HEX_DIGITS[n / 0x1000], HEX_DIGITS[n / 0x100 % 16], HEX_DIGITS[n / 16 % 16], HEX_DIGITS[n % 16]]
  }

  function EscapeChar(c: char): string {
    var n := c as int;
    if c == '"' then "\\\""
    else if c == '\\' then "\\\\"
    else if 32 <= n <= 126 then [c]
    else if n == 8 then "\\b"
    else if n == 9 then "\\t"
    else if n == 10 then "\\n"
    else if n == 12 then "\\f"
    else if n == 13 then "\\r"
    else if n < 0x10000 then "\\u" + Hex4(n)
    else
      var m := n - 0x10000;
      "\\u" + Hex4(0xd800 + m / 0x400 % 0x400) + "\\u" + Hex4(0xdc00 + m % 0x400)
  }

  function Escape(s: string): string {
    if s == "" then "" else EscapeChar(s[0]) + Escape(s[1..])
  }

  function Quoted(s: string): string {
    ['"'] + (Escape(s) + ['"'])
  }

  /** The items and the closing bracket. */
  function Items(ps: seq<string>): string {
    if ps == [] then "]"
    else if |ps| == 1 then Quoted(ps[0]) + "]"
    else Quoted(ps[0]) + (", " + Items(ps[1..]))
  }

  function Dumps(ps: seq<string>): string {
    "[" + Items(ps)
  }

  /** The text of a list: items in quotes, separated by a comma and a space, in brackets. */
  lemma DumpsText(p: string, q: string, ps: seq<string>)
    ensures Dumps([]) == "[" + "]"
    ensures Dumps([p]) == "[" + ("\"" + (Escape(p) + "\"") + "]")
    ensures Dumps([p] + ([q] + ps)) == "[" + ("\"" + (Escape(p) + "\"") + (", " + Dumps([q] + ps)[1..]))
  {
    hide Escape;
    var rest := [q] + ps;
    assert ([p] + rest)[1..] == rest;
    assert Dumps(rest)[1..] == Items(rest);
    assert Items([p] + rest) == Quoted(p) + (", " + Items(rest));
  }

  lemma {:induction false} EscapeAppends(p: string, q: string)
    ensures Escape(p + q) == Escape(p) + Escape(q)
    decreases |p|
  {
    hide EscapeChar;
    if p == "" {
      assert p + q == q;
    } else {
      assert (p + q)[1..] == p[1..] + q;
      EscapeAppends(p[1..], q);
      assert EscapeChar(p[0]) + Escape(p[1..]) + Escape(q) == EscapeChar(p[0]) + (Escape(p[1..]) + Escape(q));
    }
  }

  function HexValue(c: char): nat {
    if '0' <= c <= '9' then (c - '0') as nat else if 'a' <= c <= 'f' then (c - 'a') as nat + 10 else 0
  }

  lemma HexDigitReads(n: nat)
    requires n < 16
    ensures HexValue(HEX_DIGITS[n]) == n
  {
  }

  lemma HexDigits(n: nat)
    requires n < 0x10000
    ensures ((n / 0x1000 * 16 + n / 0x100 % 16) * 16 + n / 16 % 16) * 16 + n % 16 == n
  {
    var a, b := n / 16, n / 0x100;
    assert n == 16 * a + n % 16;
    assert a == 16 * b + a % 16;
    assert b == 16 * (n / 0x1000) + b % 16;
  }

  /** The four digits are those of the number. */
  lemma Hex4Reads(n: nat)
    requires n < 0x10000
    ensures var h := Hex4(n);
            |h| == 4 && ((HexValue(h[0]) * 16 + HexValue(h[1])) * 16 + HexValue(h[2])) * 16 + HexValue(h[3]) == n
  {
    HexDigits(n);
    var a, b, c, d := n / 0x1000, n / 0x100 % 16, n / 16 % 16, n % 16;
    HexDigitReads(a);
    HexDigitReads(b);
    HexDigitReads(c);
    HexDigitReads(d);
    hide HexValue;
    assert Hex4(n) == [HEX_DIGITS[a], HEX_DIGITS[b], HEX_DIGITS[c], HEX_DIGITS[d]];
  }

  lemma EscapeTexts(c: char)
    ensures EscapeChar('"') == "\\\"" && EscapeChar('\\') == "\\\\" && EscapeChar('\n') == "\\n" && EscapeChar('\t') == "\\t"
    ensures EscapeChar('\r') == "\\r" && EscapeChar(8 as char) == "\\b" && EscapeChar(12 as char) == "\\f"
    ensures ' ' <= c <= '~' && c != '"' && c != '\\' ==> EscapeChar(c) == [c]
    ensures 0x7f <= c as int < 0x10000 || c as int < 8 || 14 <= c as int < 32 || c as int == 11 ==> EscapeChar(c) == "\\u" + Hex4(c as nat)
    ensures c as int >= 0x10000 ==>
              exists high: nat, low: nat :: 0xd800 <= high < 0xdc00 && 0xdc00 <= low < 0xe000
                && EscapeChar(c) == "\\u" + Hex4(high) + "\\u" + Hex4(low)
                && 0x10000 + (high - 0xd800) * 0x400 + (low - 0xdc00) == c as int
  {
    hide Hex4;
    if c as int >= 0x10000 {
      var m := c as int - 0x10000;
      var high, low := 0xd800 + m / 0x400 % 0x400, 0xdc00 + m % 0x400;
      assert EscapeChar(c) == "\\u" + Hex4(high) + "\\u" + Hex4(low);
      assert m < 0x100000 && m / 0x400 < 0x400;
    }
  }

  // ----- what the substring test finds -----

  function Needle(body: string): string {
    ['"'] + body
  }

  /** What the loop searches for, from the quote on: no comma, since services come from a split at
      commas, and a colon at the end. It may hold quotes and backslashes. */
  predicate Body(body: string) {
    ',' !in body && body != "" && body[|body| - 1] == ':'
  }

  lemma ContainsStep(c: char, s: string, part: string)
    ensures Contains([c] + s, part) <==> StartsWith([c] + s, part) || Contains(s, part)
  {
  }

  lemma StartsWithCons(c: char, s: string, part: string)
    ensures StartsWith([c] + s, [c] + part) <==> StartsWith(s, part)
  {
    assert ([c] + s)[1..] == s && ([c] + part)[1..] == part;
    if StartsWith(s, part) {
      assert ([c] + s)[..|part| + 1] == [c] + s[..|part|];
    }
    if StartsWith([c] + s, [c] + part) {
      assert forall k :: 0 <= k < |part| ==> part[k] == ([c] + part)[k + 1] && s[k] == ([c] + s)[k + 1];
    }
  }

  lemma OtherFirst(c: char, s: string, body: string)
    requires c != '"'
    ensures Contains([c] + s, Needle(body)) <==> Contains(s, Needle(body))
  {
    ContainsStep(c, s, Needle(body));
    assert ([c] + s)[0] != Needle(body)[0];
  }

  lemma StopsBefore(a: string, c: char, b: string, part: string)
    requires c !in part
    ensures StartsWith(a + ([c] + b), part) <==> StartsWith(a, part)
  {
    var s := a + ([c] + b);
    assert s[|a|] == c;
    assert forall k :: 0 <= k < |part| ==> part[k] in part;
    assert |part| <= |a| ==> s[..|part|] == a[..|part|];
  }

  /** A part without the character `c` is found on one side of `c` only. */
  lemma {:induction false} FoundOnOneSide(a: string, c: char, b: string, part: string)
    requires c !in part && part != ""
    ensures Contains(a + ([c] + b), part) <==> Contains(a, part) || Contains(b, part)
    decreases |a|
  {
    if a == "" {
      assert a + ([c] + b) == [c] + b && part[0] in part;
      ContainsStep(c, b, part);
    } else {
      assert a == [a[0]] + a[1..] && a + ([c] + b) == [a[0]] + (a[1..] + ([c] + b));
      ContainsStep(a[0], a[1..], part);
      ContainsStep(a[0], a[1..] + ([c] + b), part);
      StopsBefore(a, c, b, part);
      FoundOnOneSide(a[1..], c, b, part);
    }
  }

  /** A part ending in another character is not found at the end. */
  lemma {:induction false} NotAtTheEnd(a: string, c: char, part: string)
    requires part != "" && part[|part| - 1] != c
    ensures Contains(a + [c], part) <==> Contains(a, part)
    decreases |a|
  {
    if a == "" {
      assert a + [c] == [c] && [c] == [c] + "";
      ContainsStep(c, "", part);
    } else {
      assert a == [a[0]] + a[1..] && a + [c] == [a[0]] + (a[1..] + [c]);
      ContainsStep(a[0], a[1..], part);
      ContainsStep(a[0], a[1..] + [c], part);
      assert |part| <= |a| ==> (a + [c])[..|part|] == a[..|part|];
      NotAtTheEnd(a[1..], c, part);
    }
  }

  /** The escaped permission starts with the body, or has it after a quote. */
  predicate Shows(p: string, body: string) {
    StartsWith(Escape(p), body) || Contains(Escape(p), Needle(body))
  }

  lemma QuotedShows(p: string, body: string)
    requires Body(body)
    ensures Contains(Quoted(p), Needle(body)) <==> Shows(p, body)
  {
    var e := Escape(p);
    assert Quoted(p) == (['"'] + e) + ['"'];
    NotAtTheEnd(['"'] + e, '"', Needle(body));
    ContainsStep('"', e, Needle(body));
    StartsWithCons('"', e, body);
  }

  lemma {:induction false} ItemsShow(ps: seq<string>, body: string)
    requires Body(body)
    ensures Contains(Items(ps), Needle(body)) <==> exists p :: p in ps && Shows(p, body)
    decreases |ps|
  {
    hide Shows, Quoted, Contains;
    if ps == [] {
      assert [']'] + "" == "]";
      OtherFirst(']', "", body);
      EmptyHasNoNeedle(body);
    } else {
      QuotedShows(ps[0], body);
      if |ps| == 1 {
        NotAtTheEnd(Quoted(ps[0]), ']', Needle(body));
      } else {
        var rest := Items(ps[1..]);
        assert Items(ps) == Quoted(ps[0]) + ([','] + ([' '] + rest));
        FoundOnOneSide(Quoted(ps[0]), ',', [' '] + rest, Needle(body));
        OtherFirst(' ', rest, body);
        ItemsShow(ps[1..], body);
      }
      assert forall p :: p in ps <==> p == ps[0] || p in ps[1..];
    }
  }

  lemma EmptyHasNoNeedle(body: string)
    ensures !Contains("", Needle(body))
  {
    assert !StartsWith("", Needle(body));
  }

  /** For every permission list: the quoted service with its colon is found in the JSON text exactly
      when the escaped form of some permission starts with it, or shows it after an escaped quote. */
  lemma SubstringTestExactly(ps: seq<string>, service: string)
    requires ',' !in service
    ensures Contains(Dumps(ps), Needle(service + ":")) <==> exists p :: p in ps && Shows(p, service + ":")
  {
    OtherFirst('[', Items(ps), service + ":");
    ItemsShow(ps, service + ":");
  }

  /** Printable ASCII without quote and backslash. */
  predicate PlainChar(c: char) {
    32 <= c as int <= 126 && c != '"' && c != '\\'
  }

  predicate Printable(p: string) {
    forall c :: c in p ==> PlainChar(c)
  }

  lemma {:induction false} PrintableEscape(p: string)
    requires Printable(p)
    ensures Escape(p) == p
    decreases |p|
  {
    if p != "" {
      assert p[0] in p;
      assert forall c :: c in p[1..] ==> c in p;
      PrintableEscape(p[1..]);
      assert p == [p[0]] + p[1..];
    }
  }

  lemma {:induction false} NoQuoteNoNeedle(s: string, body: string)
    requires '"' !in s
    ensures !Contains(s, Needle(body))
    decreases |s|
  {
    if s == "" {
      assert !StartsWith(s, Needle(body));
    } else {
      assert s == [s[0]] + s[1..] && s[0] in s;
      OtherFirst(s[0], s[1..], body);
      NoQuoteNoNeedle(s[1..], body);
    }
  }

  lemma EscapeCharKeepsPlain(c: char)
    ensures EscapeChar(c) != "" && (PlainChar(c) ==> EscapeChar(c) == [c])
    ensures !PlainChar(c) ==> !PlainChar(EscapeChar(c)[0])
  {
  }

  lemma {:induction false} EscapeStarts(p: string, body: string)
    requires Printable(body)
    ensures StartsWith(Escape(p), body) <==> StartsWith(p, body)
    decreases |body|
  {
    hide EscapeChar;
    if p != "" && body != "" {
      var c := body[0];
      assert c in body && PlainChar(c);
      EscapeCharKeepsPlain(p[0]);
      if p[0] == c {
        assert body == [c] + body[1..] && p == [c] + p[1..];
        assert forall d :: d in body[1..] ==> d in body;
        StartsWithCons(c, Escape(p[1..]), body[1..]);
        StartsWithCons(c, p[1..], body[1..]);
        EscapeStarts(p[1..], body[1..]);
      } else {
        assert Escape(p)[0] == EscapeChar(p[0])[0];
      }
    }
  }

  lemma {:induction false} QuotesOnlyFirst(pre: string, s: string, body: string)
    requires '"' !in pre
    ensures Contains(pre + s, Needle(body)) <==> Contains(s, Needle(body))
    decreases |pre|
  {
    if pre == "" {
      assert pre + s == s;
    } else {
      assert pre[0] in pre && pre + s == [pre[0]] + (pre[1..] + s);
      OtherFirst(pre[0], pre[1..] + s, body);
      QuotesOnlyFirst(pre[1..], s, body);
    }
  }

  lemma Hex4HasNoQuote(n: nat)
    requires n < 0x10000
    ensures '"' !in Hex4(n)
  {
    assert forall k :: 0 <= k < 16 ==> HEX_DIGITS[k] != '"';
  }

  lemma OnlyQuoteGivesQuote(c: char)
    requires c != '"'
    ensures '"' !in EscapeChar(c)
  {
    hide Hex4;
    var n := c as int;
    if n < 0x10000 {
      Hex4HasNoQuote(n);
    } else {
      var m := n - 0x10000;
      Hex4HasNoQuote(0xd800 + m / 0x400 % 0x400);
      Hex4HasNoQuote(0xdc00 + m % 0x400);
    }
  }

  /** Escaping neither adds nor hides a quoted printable text. */
  lemma {:induction false} EscapeContains(p: string, body: string)
    requires Printable(body)
    ensures Contains(Escape(p), Needle(body)) <==> Contains(p, Needle(body))
    decreases |p|
  {
    hide Contains, EscapeChar, StartsWith, Printable;
    if p == "" {
    } else if p[0] == '"' {
      assert p == ['"'] + p[1..];
      EscapeOfQuote();
      assert Escape(p) == ['\\'] + (['"'] + Escape(p[1..]));
      OtherFirst('\\', ['"'] + Escape(p[1..]), body);
      ContainsStep('"', Escape(p[1..]), Needle(body));
      ContainsStep('"', p[1..], Needle(body));
      StartsWithCons('"', Escape(p[1..]), body);
      StartsWithCons('"', p[1..], body);
      EscapeStarts(p[1..], body);
      EscapeContains(p[1..], body);
    } else {
      assert p == [p[0]] + p[1..];
      OnlyQuoteGivesQuote(p[0]);
      QuotesOnlyFirst(EscapeChar(p[0]), Escape(p[1..]), body);
      OtherFirst(p[0], p[1..], body);
      EscapeContains(p[1..], body);
    }
  }

  lemma EscapeOfQuote()
    ensures EscapeChar('"') == ['\\', '"']
  {
  }

  /** For a printable service and every permission list, whatever characters it holds: the service is
      found exactly when some permission starts with it and a colon, or has them after a quote. */
  lemma PrintableServiceTest(ps: seq<string>, service: string)
    requires ',' !in service && Printable(service)
    ensures Contains(Dumps(ps), Needle(service + ":"))
       <==> exists p :: p in ps && (StartsWith(p, service + ":") || Contains(p, Needle(service + ":")))
  {
    var body := service + ":";
    assert Printable(body);
    hide Printable, Contains, Dumps, StartsWith, Escape;
    SubstringTestExactly(ps, service);
    forall p ensures Shows(p, body) <==> StartsWith(p, body) || Contains(p, Needle(body)) {
      EscapeStarts(p, body);
      EscapeContains(p, body);
    }
  }

  /** A service with a character that JSON text never shows is never found. */
  lemma {:induction false} UnprintableServiceIsNeverFound(ps: seq<string>, service: string, c: char)
    requires ',' !in service && c in service && !(' ' <= c <= '~')
    ensures !Contains(Dumps(ps), Needle(service + ":"))
  {
    hide Contains, Dumps, Escape;
    SubstringTestExactly(ps, service);
    var body := service + ":";
    forall p ensures !Shows(p, body) {
      assert c in body && c in Needle(body);
      if StartsWith(Escape(p), body) { PrefixMembers(Escape(p), body, c); }
      if Contains(Escape(p), Needle(body)) { PartMembers(Escape(p), Needle(body), c); }
      EscapeIsPrintable(p);
    }
  }

  lemma PrefixMembers(s: string, part: string, c: char)
    requires StartsWith(s, part) && c in part
    ensures c in s
  {
    var k :| 0 <= k < |part| && part[k] == c;
    assert s[k] == c;
  }

  lemma PartMembers(s: string, part: string, c: char)
    requires Contains(s, part) && c in part
    ensures c in s
  {
    var k := ContainsWhere(s, part);
    PrefixMembers(s[k..], part, c);
  }

  predicate AsciiText(s: string) {
    forall c :: c in s ==> ' ' <= c <= '~'
  }

  lemma Hex4IsAscii(n: nat)
    requires n < 0x10000
    ensures AsciiText(Hex4(n))
  {
    assert forall k :: 0 <= k < 16 ==> ' ' <= HEX_DIGITS[k] <= '~';
  }

  lemma EscapeCharIsAscii(c: char)
    ensures AsciiText(EscapeChar(c))
  {
    hide Hex4;
    var n := c as int;
    if n < 0x10000 {
      Hex4IsAscii(n);
    } else {
      var m := n - 0x10000;
      Hex4IsAscii(0xd800 + m / 0x400 % 0x400);
      Hex4IsAscii(0xdc00 + m % 0x400);
    }
  }

  lemma {:induction false} EscapeIsPrintable(p: string)
    ensures AsciiText(Escape(p))
    decreases |p|
  {
    hide EscapeChar;
    if p != "" {
      EscapeCharIsAscii(p[0]);
      EscapeIsPrintable(p[1..]);
    }
  }

  /** For printable permissions and any service the test is: some permission starts with the service
      and a colon. */
  lemma SubstringTestSimply(ps: seq<string>, service: string)
    requires ',' !in service && forall p :: p in ps ==> Printable(p)
    ensures Contains(Dumps(ps), Needle(service + ":")) <==> exists p :: p in ps && StartsWith(p, service + ":")
  {
    hide Printable, Contains, Dumps;
    SubstringTestExactly(ps, service);
    forall p | p in ps ensures Shows(p, service + ":") <==> StartsWith(p, service + ":") {
      PrintableEscape(p);
      PrintableHasNoQuote(p);
      NoQuoteNoNeedle(p, service + ":");
    }
  }

  lemma PrintableHasNoQuote(p: string)
    requires Printable(p)
    ensures '"' !in p
  {
  }

  /** A permission that is a quote before the service and its colon is found without starting with them. */
  lemma QuoteFoolsTest(service: string)
    requires ',' !in service && Printable(service)
    ensures var p := ['"'] + (service + ":");
            Contains(Dumps([p]), Needle(service + ":")) && !StartsWith(p, service + ":")
  {
    var body := service + ":";
    var p := ['"'] + body;
    assert p[0] == '"' && body[0] != '"' by { if service != "" { assert service[0] in service; } }
    assert p in [p] && Contains(p, Needle(body));
    hide Contains, Dumps;
    PrintableServiceTest([p], service);
  }

  // ----- select_prompts -----

  datatype TaggedPrompt = TaggedPrompt(services: string, prompt: string)

  function StripAll(parts: seq<string>): (r: seq<string>)
    ensures |r| == |parts|
    ensures forall k :: 0 <= k < |parts| ==> r[k] == Strip(parts[k])
  {
    seq(|parts|, k requires 0 <= k < |parts| => Strip(parts[k]))
  }

  function Services(tp: TaggedPrompt): seq<string> {
    StripAll(Split(tp.services, ','))
  }

  /** Every service the prompt names has a permission. */
  predicate Covered(tp: TaggedPrompt, permissions: seq<string>) {
    forall s :: s in Services(tp) ==> exists p :: p in permissions && StartsWith(p, s + ":")
  }

  function Selected(tps: seq<TaggedPrompt>, permissions: seq<string>): seq<string> {
    if tps == [] then []
    else (if Covered(tps[0], permissions) then [tps[0].prompt] else []) + Selected(tps[1..], permissions)
  }

  /** The services are the names between the commas, without the white space around them. */
  lemma {:induction false} ServicesAreNames(names: seq<string>, before: seq<string>, after: seq<string>, prompt: string)
    requires names != [] && |before| == |after| == |names|
    requires forall k :: 0 <= k < |names| ==> ',' !in names[k] && Trimmed(names[k]) && AllSpace(before[k]) && AllSpace(after[k])
    ensures var padded := seq(|names|, k requires 0 <= k < |names| => before[k] + (names[k] + after[k]));
            Services(TaggedPrompt(Join(padded, ','), prompt)) == names
  {
    hide Trimmed, Strip, Split, Join;
    var padded := seq(|names|, k requires 0 <= k < |names| => before[k] + (names[k] + after[k]));
    forall p | p in padded ensures ',' !in p {
      var k :| 0 <= k < |names| && p == before[k] + (names[k] + after[k]);
      assert !IsSpace(',');
    }
    SplitJoin(padded, ',');
    PiecesPlain(padded, ',');
    forall k | 0 <= k < |names| ensures Strip(padded[k]) == names[k] {
      StripPadded(before[k], names[k], after[k]);
    }
  }

  lemma ServicesHaveNoComma(tp: TaggedPrompt)
    ensures forall s :: s in Services(tp) ==> ',' !in s
  {
    var parts := Split(tp.services, ',');
    forall k | 0 <= k < |parts| ensures ',' !in Strip(parts[k]) {
      assert parts[k] in parts;
      StripKeeps(parts[k], ',');
    }
  }

  /** The test of the loop: every quoted service with its colon is in the JSON text. */
  predicate Found(tp: TaggedPrompt, permString: string) {
    forall s :: s in Services(tp) ==> Contains(permString, Needle(s + ":"))
  }

  lemma FoundIffCovered(tp: TaggedPrompt, permissions: seq<string>)
    requires forall p :: p in permissions ==> Printable(p)
    ensures Found(tp, Dumps(permissions)) <==> Covered(tp, permissions)
  {
    hide Contains, Dumps, Services, Printable;
    ServicesHaveNoComma(tp);
    forall s | s in Services(tp)
      ensures Contains(Dumps(permissions), Needle(s + ":")) <==> exists p :: p in permissions && StartsWith(p, s + ":")
    {
      SubstringTestSimply(permissions, s);
    }
  }

  function SelectedByText(tps: seq<TaggedPrompt>, permString: string): seq<string> {
    if tps == [] then []
    else (if Found(tps[0], permString) then [tps[0].prompt] else []) + SelectedByText(tps[1..], permString)
  }

  /** One prompt is taken when every quoted service with its colon is in the text, and a list is taken
      prompt by prompt. */
  lemma SelectionByParts(tp: TaggedPrompt, a: seq<TaggedPrompt>, b: seq<TaggedPrompt>, text: string)
    ensures SelectedByText([tp], text)
         == if forall s :: s in Services(tp) ==> Contains(text, "\"" + s + ":") then [tp.prompt] else []
    ensures SelectedByText(a + b, text) == SelectedByText(a, text) + SelectedByText(b, text)
  {
    hide Contains, Services;
    assert [tp][1..] == [] && SelectedByText([], text) == [];
    forall s: string ensures "\"" + s + ":" == Needle(s + ":") {
      assert ['"'] + (s + ":") == "\"" + s + ":";
    }
    SelectionAppends(a, b, text);
  }

  lemma {:induction false} SelectionAppends(a: seq<TaggedPrompt>, b: seq<TaggedPrompt>, text: string)
    ensures SelectedByText(a + b, text) == SelectedByText(a, text) + SelectedByText(b, text)
    decreases |a|
  {
    hide Found;
    if a == [] {
      assert a + b == b;
    } else {
      assert (a + b)[1..] == a[1..] + b;
      SelectionAppends(a[1..], b, text);
    }
  }

  /** For printable permissions the substring test refines the simple one: the prompts, in order, all of whose services have a
      permission. */
  lemma {:induction false} TextSelectsCovered(tps: seq<TaggedPrompt>, permissions: seq<string>)
    requires forall p :: p in permissions ==> Printable(p)
    ensures SelectedByText(tps, Dumps(permissions)) == Selected(tps, permissions)
    decreases |tps|
  {
    hide Dumps, Found, Covered, Printable;
    if tps != [] {
      FoundIffCovered(tps[0], permissions);
      TextSelectsCovered(tps[1..], permissions);
    }
  }

  /** The loop of `select_prompts`. */
  method SelectPrompts(tps: seq<TaggedPrompt>, permissions: seq<string>) returns (matched: seq<string>)
    ensures matched == SelectedByText(tps, Dumps(permissions))
    ensures (forall p :: p in permissions ==> Printable(p)) ==> matched == Selected(tps, permissions)
  {
    hide Dumps, Found, Covered, Printable, Selected;
    var permString := Dumps(permissions);
    matched := [];
    for i := 0 to |tps|
      invariant matched + SelectedByText(tps[i..], permString) == SelectedByText(tps, permString)
    {
      assert tps[i..][1..] == tps[i + 1..];
      if Found(tps[i], permString) {
        matched := matched + [tps[i].prompt];
      }
    }
    if forall p :: p in permissions ==> Printable(p) {
      TextSelectsCovered(tps, permissions);
    }
  }

  predicate Subsequence(a: seq<string>, b: seq<string>)
    decreases |b|
  {
    a == [] || (b != [] && ((a[0] == b[0] && Subsequence(a[1..], b[1..])) || Subsequence(a, b[1..])))
  }

  lemma SubsequenceCons(x: string, a: seq<string>, b: seq<string>)
    requires Subsequence(a, b)
    ensures Subsequence(a, [x] + b)
  {
    assert ([x] + b)[1..] == b;
  }

  lemma SubsequenceBoth(x: string, a: seq<string>, b: seq<string>)
    requires Subsequence(a, b)
    ensures Subsequence([x] + a, [x] + b)
  {
    assert ([x] + a)[1..] == a && ([x] + b)[1..] == b;
  }

  lemma FoundByMore(tp: TaggedPrompt, few: seq<string>, many: seq<string>)
    requires Found(tp, Dumps(few)) && forall p :: p in few ==> p in many
    ensures Found(tp, Dumps(many))
  {
    hide Dumps, Services, Contains, Shows;
    ServicesHaveNoComma(tp);
    forall s | s in Services(tp) ensures Contains(Dumps(many), Needle(s + ":")) {
      SubstringTestExactly(few, s);
      SubstringTestExactly(many, s);
    }
  }

  /** More permissions, of any content and in any order, never unselect a prompt. */
  lemma {:induction false} SelectionIsMonotone(tps: seq<TaggedPrompt>, few: seq<string>, many: seq<string>)
    requires forall p :: p in few ==> p in many
    ensures Subsequence(SelectedByText(tps, Dumps(few)), SelectedByText(tps, Dumps(many)))
    decreases |tps|
  {
    hide Found, Subsequence, Dumps;
    if tps == [] {
      NothingIsSubsequence([]);
    } else {
      var a, b := SelectedByText(tps[1..], Dumps(few)), SelectedByText(tps[1..], Dumps(many));
      SelectionIsMonotone(tps[1..], few, many);
      SubsequenceCons(tps[0].prompt, a, b);
      SubsequenceBoth(tps[0].prompt, a, b);
      assert [] + a == a && [] + b == b;
      if Found(tps[0], Dumps(few)) {
        FoundByMore(tps[0], few, many);
      }
    }
  }

  lemma NothingIsSubsequence(b: seq<string>)
    ensures Subsequence([], b)
  {
  }

  function Prompts(tps: seq<TaggedPrompt>): seq<string> {
    if tps == [] then [] else [tps[0].prompt] + Prompts(tps[1..])
  }

  /** The selection keeps the order of the prompts, whatever text is searched. */
  lemma {:induction false} SelectionIsOrdered(tps: seq<TaggedPrompt>, permString: string)
    ensures Subsequence(SelectedByText(tps, permString), Prompts(tps))
    decreases |tps|
  {
    hide Found, Subsequence;
    if tps == [] {
      NothingIsSubsequence([]);
    } else {
      var a := SelectedByText(tps[1..], permString);
      SelectionIsOrdered(tps[1..], permString);
      SubsequenceCons(tps[0].prompt, a, Prompts(tps[1..]));
      SubsequenceBoth(tps[0].prompt, a, Prompts(tps[1..]));
      assert [] + a == a;
    }
  }
}
