/** Strings as the Python code handles them: `str.split`, `str.join`,
    `str.startswith`, `str.strip` and substring search. */
module Text {

  datatype Option<+T> = None | Some(value: T) {
    function GetOr(default: T): T {
      match this
      case Some(v) => v
      case None => default
    }
  }

  datatype Result<+T, +E> = Ok(value: T) | Err(error: E)

  predicate StartsWith(s: string, prefix: string) {
    prefix <= s
  }

  /** `part in s` */
  predicate Contains(s: string, part: string)
    decreases |s|
  {
    StartsWith(s, part) || (|s| > 0 && Contains(s[1..], part))
  }

  lemma {:induction false} ContainsAt(s: string, part: string, k: nat)
    requires k <= |s| && StartsWith(s[k..], part)
    ensures Contains(s, part)
    decreases k
  {
    if k > 0 {
      assert s[1..][k - 1..] == s[k..];
      ContainsAt(s[1..], part, k - 1);
    }
  }

  lemma {:induction false} ContainsWhere(s: string, part: string) returns (k: nat)
    requires Contains(s, part)
    ensures k <= |s| && StartsWith(s[k..], part)
    decreases |s|
  {
    if StartsWith(s, part) {
      k := 0;
      assert s[0..] == s;
    } else {
      var j := ContainsWhere(s[1..], part);
      k := j + 1;
      assert s[1..][j..] == s[k..];
    }
  }

  /** Position of the first `c`, or the length of `s` when there is none. */
  function IndexOf(s: string, c: char): (i: nat)
    ensures i <= |s|
    ensures i < |s| ==> s[i] == c
  {
    if s == "" then 0
    else if s[0] == c then 0
    else 1 + IndexOf(s[1..], c)
  }

  lemma {:induction false} IndexOfIsFirst(s: string, c: char)
    ensures forall k :: 0 <= k < IndexOf(s, c) ==> s[k] != c
    ensures IndexOf(s, c) == |s| <==> c !in s
    decreases |s|
  {
    if s != "" && s[0] != c {
      IndexOfIsFirst(s[1..], c);
      assert forall k :: 1 <= k < |s| ==> s[k] == s[1..][k - 1];
    }
  }

  lemma IndexOfAppend(a: string, c: char, b: string)
    requires c !in a
    ensures IndexOf(a + [c] + b, c) == |a|
  {
    var s := a + [c] + b;
    var i := IndexOf(s, c);
    IndexOfIsFirst(s, c);
    assert s[|a|] == c;
    assert i <= |a|;
    assert forall k :: 0 <= k < |a| ==> s[k] in a;
  }

  /** `s.split(sep)` for a one-character separator: never empty. */
  function Split(s: string, sep: char): (parts: seq<string>)
    ensures |parts| > 0
    ensures forall p :: p in parts ==> sep !in p
  {
    if s == "" then [""]
    else
      var rest := Split(s[1..], sep);
      if s[0] == sep then [""] + rest else [[s[0]] + rest[0]] + rest[1..]
  }

  /** `sep.join(parts)` */
  function Join(parts: seq<string>, sep: char): string {
    if |parts| == 0 then ""
    else if |parts| == 1 then parts[0]
    else parts[0] + [sep] + Join(parts[1..], sep)
  }

  function Pieces(parts: seq<string>, sep: char): seq<string> {
    if |parts| == 0 then [] else Split(parts[0], sep) + Pieces(parts[1..], sep)
  }

  lemma {:induction false} SplitAppend(a: string, sep: char, b: string)
    ensures Split(a + [sep] + b, sep) == Split(a, sep) + Split(b, sep)
    decreases |a|
  {
    if a == "" {
      assert ("" + [sep] + b)[1..] == b;
    } else {
      assert (a + [sep] + b)[1..] == a[1..] + [sep] + b;
      SplitAppend(a[1..], sep, b);
    }
  }

  lemma {:induction false} SplitPlain(s: string, sep: char)
    requires sep !in s
    ensures Split(s, sep) == [s]
    decreases |s|
  {
    if s != "" {
      SplitPlain(s[1..], sep);
      assert s == [s[0]] + s[1..];
    }
  }

  /** Splitting a joined list yields the pieces of its members, in order. */
  lemma {:induction false} SplitJoin(parts: seq<string>, sep: char)
    requires parts != []
    ensures Split(Join(parts, sep), sep) == Pieces(parts, sep)
    decreases |parts|
  {
    if |parts| == 1 {
      assert Pieces(parts[1..], sep) == [];
    } else {
      SplitAppend(parts[0], sep, Join(parts[1..], sep));
      SplitJoin(parts[1..], sep);
    }
  }

  /** Joining the pieces gives the string back: together with the pieces being free of the separator
      this leaves one way to split. */
  lemma {:induction false} JoinSplit(s: string, sep: char)
    ensures Join(Split(s, sep), sep) == s
    decreases |s|
  {
    if s != "" {
      JoinSplit(s[1..], sep);
      var rest := Split(s[1..], sep);
      assert s == [s[0]] + s[1..];
      if s[0] == sep {
        assert ([""] + rest)[1..] == rest;
      } else {
        assert ([[s[0]] + rest[0]] + rest[1..])[1..] == rest[1..];
      }
    }
  }

  lemma {:induction false} PiecesPlain(parts: seq<string>, sep: char)
    requires forall p :: p in parts ==> sep !in p
    ensures Pieces(parts, sep) == parts
    decreases |parts|
  {
    if parts != [] {
      SplitPlain(parts[0], sep);
      PiecesPlain(parts[1..], sep);
    }
  }

  lemma {:induction false} PiecesArePlain(parts: seq<string>, sep: char, x: string)
    requires x in Pieces(parts, sep)
    ensures sep !in x
    decreases |parts|
  {
    if x !in Split(parts[0], sep) {
      PiecesArePlain(parts[1..], sep, x);
    }
  }

  /** The round trip recovers membership exactly when no member contains the separator. */
  lemma JoinSplitMembers(parts: seq<string>, sep: char)
    requires parts != []
    ensures (forall x: string :: x in Split(Join(parts, sep), sep) <==> x in parts)
       <==> (forall p :: p in parts ==> sep !in p)
  {
    SplitJoin(parts, sep);
    if forall p :: p in parts ==> sep !in p {
      PiecesPlain(parts, sep);
    } else {
      var p :| p in parts && sep in p;
      if p in Pieces(parts, sep) {
        PiecesArePlain(parts, sep, p);
      }
    }
  }

  /** The characters `str.strip` and `str.split` treat as white space. */
  predicate IsSpace(c: char) {
    var n := c as int;
    9 <= n <= 13 || 28 <= n <= 32 || n == 0x85 || n == 0xa0 || n == 0x1680 || 0x2000 <= n <= 0x200a
    || n == 0x2028 || n == 0x2029 || n == 0x202f || n == 0x205f || n == 0x3000
  }

  /** All of them. */
  lemma SpacesListed(c: char)
    ensures IsSpace(c) <==> c in "\t\n\U{0b}\U{0c}\r\U{1c}\U{1d}\U{1e}\U{1f} \U{85}\U{a0}\U{1680}"
                              + "\U{2000}\U{2001}\U{2002}\U{2003}\U{2004}\U{2005}\U{2006}\U{2007}\U{2008}\U{2009}\U{200a}"
                              + "\U{2028}\U{2029}\U{202f}\U{205f}\U{3000}"
  {
  }

  /** `not s or not s.strip()` */
  predicate IsBlank(s: string) {
    Strip(s) == ""
  }

  function StripLeft(s: string): string {
    if s != "" && IsSpace(s[0]) then StripLeft(s[1..]) else s
  }

  function StripRight(s: string): string {
    if s != "" && IsSpace(s[|s| - 1]) then StripRight(s[..|s| - 1]) else s
  }

  function Strip(s: string): string {
    StripRight(StripLeft(s))
  }

  predicate AllSpace(s: string) {
    forall c :: c in s ==> IsSpace(c)
  }

  /** Neither starts nor ends with white space. */
  predicate Trimmed(s: string) {
    s != "" ==> !IsSpace(s[0]) && !IsSpace(s[|s| - 1])
  }

  /** Stripping takes white space off both ends, and nothing else. */
  lemma {:induction false} StripPadded(before: string, s: string, after: string)
    requires AllSpace(before) && AllSpace(after) && Trimmed(s)
    ensures Strip(before + (s + after)) == s
    decreases |before| + |after|
  {
    if before != "" {
      assert before[0] in before;
      assert (before + (s + after))[1..] == before[1..] + (s + after);
      StripPadded(before[1..], s, after);
    } else if after != "" {
      assert before + (s + after) == s + after;
      assert after[|after| - 1] in after && forall c :: c in after[..|after| - 1] ==> c in after;
      assert (s + after)[..|s + after| - 1] == s + after[..|after| - 1];
      assert before + (s + after[..|after| - 1]) == s + after[..|after| - 1];
      StripPadded("", s, after[..|after| - 1]);
      if s == "" {
        assert s + after == after;
        StripAllSpace(after);
      } else {
        assert (s + after)[0] == s[0] == (s + after[..|after| - 1])[0];
      }
    } else {
      assert before + (s + after) == s;
    }
  }

  lemma {:induction false} StripAllSpace(s: string)
    requires AllSpace(s)
    ensures Strip(s) == ""
    decreases |s|
  {
    if s != "" {
      assert s[0] in s && forall c :: c in s[1..] ==> c in s;
      StripAllSpace(s[1..]);
    }
  }

  /** Blank is nothing but white space. */
  lemma {:induction false} BlankIffAllSpace(s: string)
    ensures IsBlank(s) <==> AllSpace(s)
  {
    if AllSpace(s) {
      StripAllSpace(s);
    } else {
      var c :| c in s && !IsSpace(c);
      StripLeftHas(s, c);
      StripRightHas(StripLeft(s), c);
    }
  }

  lemma {:induction false} StripLeftHas(s: string, c: char)
    requires c in s && !IsSpace(c)
    ensures c in StripLeft(s)
    decreases |s|
  {
    if IsSpace(s[0]) {
      assert s == [s[0]] + s[1..];
      StripLeftHas(s[1..], c);
    }
  }

  lemma {:induction false} StripRightHas(s: string, c: char)
    requires c in s && !IsSpace(c)
    ensures c in StripRight(s)
    decreases |s|
  {
    var n := |s| - 1;
    if IsSpace(s[n]) {
      assert s == s[..n] + [s[n]];
      StripRightHas(s[..n], c);
    }
  }

  lemma {:induction false} StripKeeps(s: string, c: char)
    requires c !in s
    ensures c !in Strip(s)
  {
    StripLeftKeeps(s, c);
    StripRightKeeps(StripLeft(s), c);
  }

  lemma {:induction false} StripLeftKeeps(s: string, c: char)
    requires c !in s
    ensures c !in StripLeft(s)
    decreases |s|
  {
    if s != "" && IsSpace(s[0]) {
      StripLeftKeeps(s[1..], c);
    }
  }

  lemma {:induction false} StripRightKeeps(s: string, c: char)
    requires c !in s
    ensures c !in StripRight(s)
    decreases |s|
  {
    if s != "" && IsSpace(s[|s| - 1]) {
      StripRightKeeps(s[..|s| - 1], c);
    }
  }
}
