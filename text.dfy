/** The string operations of JavaScript that the tracker relies on: `trim`,
    `toLowerCase`, `split` on a character or on `/\s+/`, `join`, `startsWith`,
    `endsWith`, number rendering and `parseInt`. */
module Text {
  import opened Wrappers

  /** JavaScript white space and line terminators, restricted to those below U+0100. */
  predicate IsSpace(c: char) {
    c == ' ' || c == '\t' || c == '\n' || c == '\r' || c == '\U{000B}' || c == '\U{000C}' || c == '\U{00A0}'
  }

  predicate NoSpace(s: string) {
    forall i :: 0 <= i < |s| ==> !IsSpace(s[i])
  }

  /** Neither the first nor the last character is white space. */
  predicate Trimmed(s: string) {
    s == [] || (!IsSpace(s[0]) && !IsSpace(s[|s| - 1]))
  }

  /** `s.length`: the number of UTF-16 code units, one for a character of the
      Basic Multilingual Plane and two (a surrogate pair) for any other. */
  function JsLength(s: string): (n: nat)
    ensures |s| <= n <= 2 * |s|
    ensures n == |s| <==> forall i :: 0 <= i < |s| ==> s[i] as int < 0x1_0000
  {
    if s == [] then 0 else (if s[0] as int < 0x1_0000 then 1 else 2) + JsLength(s[1..])
  }

  /** The number of white-space characters at the start of `s`. */
  function LeadingSpaces(s: string): (k: nat)
    ensures k <= |s|
    ensures forall i :: 0 <= i < k ==> IsSpace(s[i])
    ensures k == |s| || !IsSpace(s[k])
  {
    if s != [] && IsSpace(s[0]) then 1 + LeadingSpaces(s[1..]) else 0
  }

  /** The length of `s` without its trailing white space. */
  function ContentEnd(s: string): (k: nat)
    ensures k <= |s|
    ensures forall i :: k <= i < |s| ==> IsSpace(s[i])
    ensures k == 0 || !IsSpace(s[k - 1])
  {
    if s != [] && IsSpace(s[|s| - 1]) then ContentEnd(s[..|s| - 1]) else |s|
  }

  /** `s.trimStart()`. */
  function TrimStart(s: string): string {
    s[LeadingSpaces(s)..]
  }

  /** `s.trim()`: no white space at either end, nothing removed that is not
      white space, and a string that is already trimmed is left as it is. */
  function Trim(s: string): (r: string)
    ensures Trimmed(r)
    ensures Trimmed(s) ==> r == s
    ensures r != [] <==> exists i :: 0 <= i < |s| && !IsSpace(s[i])
    ensures |r| <= |s|
    ensures exists a, b ::
      && 0 <= a <= b <= |s| && r == s[a..b]
      && (forall i :: 0 <= i < a ==> IsSpace(s[i]))
      && (forall i :: b <= i < |s| ==> IsSpace(s[i]))
  {
    var a := LeadingSpaces(s);
    var t := s[a..];
    var b := ContentEnd(t);
    assert t[..b] == s[a..a + b];
    assert forall i :: a + b <= i < |s| ==> IsSpace(s[i]) by {
      forall i | a + b <= i < |s|
        ensures IsSpace(s[i])
      {
        assert s[i] == t[i - a];
      }
    }
    assert Trimmed(s) && s != [] ==> a == 0 && b == |t| by {
      if Trimmed(s) && s != [] {
        assert !IsSpace(s[0]);
        assert !IsSpace(t[|t| - 1]);
      }
    }
    assert t[..b] != [] ==> !IsSpace(s[a]);
    assert (exists i :: 0 <= i < |s| && !IsSpace(s[i])) ==> t[..b] != [] by {
      if exists i :: 0 <= i < |s| && !IsSpace(s[i]) {
        var i :| 0 <= i < |s| && !IsSpace(s[i]);
        assert a <= i && !IsSpace(t[i - a]);
      }
    }
    t[..b]
  }

  function LowerChar(c: char): char {
    if 'A' <= c <= 'Z' then (c as int + 32) as char else c
  }

  /** `s.toLowerCase()` on the letters A to Z. */
  function Lower(s: string): (r: string)
    ensures |r| == |s|
    ensures forall i :: 0 <= i < |s| ==> r[i] == LowerChar(s[i])
  {
    seq(|s|, i requires 0 <= i < |s| => LowerChar(s[i]))
  }

  /** The index of the first `c` in `s`, or `|s|` when there is none. */
  function IndexOf(s: string, c: char): (k: nat)
    ensures k <= |s|
    ensures c !in s[..k]
    ensures k < |s| ==> s[k] == c
  {
    if s == [] || s[0] == c then 0 else 1 + IndexOf(s[1..], c)
  }

  /** `s.split(sep)` for a one-character separator. */
  function Split(s: string, sep: char): (parts: seq<string>)
    ensures |parts| >= 1
    ensures forall i :: 0 <= i < |parts| ==> sep !in parts[i]
    decreases |s|
  {
    var k := IndexOf(s, sep);
    if k == |s| then [s] else [s[..k]] + Split(s[k + 1..], sep)
  }

  /** `parts.join(sep)`. */
  function Join(parts: seq<string>, sep: string): string {
    if |parts| == 0 then ""
    else if |parts| == 1 then parts[0]
    else parts[0] + sep + Join(parts[1..], sep)
  }

  lemma JoinCons(p: string, ps: seq<string>, sep: string)
    requires |ps| >= 1
    ensures Join([p] + ps, sep) == p + sep + Join(ps, sep)
  {
    assert ([p] + ps)[1..] == ps;
  }

  /** Joining the pieces of a split with the same separator gives the string back. */
  lemma {:induction false} JoinSplit(s: string, sep: char)
    ensures Join(Split(s, sep), [sep]) == s
    decreases |s|
  {
    var k := IndexOf(s, sep);
    if k < |s| {
      var rest := Split(s[k + 1..], sep);
      assert Split(s, sep) == [s[..k]] + rest;
      JoinSplit(s[k + 1..], sep);
      JoinCons(s[..k], rest, [sep]);
      assert s == s[..k] + [sep] + s[k + 1..];
    } else {
      assert Split(s, sep) == [s];
    }
  }

  /** A split has more than one piece exactly when the separator occurs. */
  lemma {:induction false} SplitMany(s: string, c: char)
    ensures c in s <==> |Split(s, c)| > 1
  {
    var k := IndexOf(s, c);
    if k == |s| {
      assert s[..k] == s;
      assert Split(s, c) == [s];
    } else {
      assert s[k] == c;
      assert |Split(s, c)| == 1 + |Split(s[k + 1..], c)|;
    }
  }

  /** Joining splits off the last piece with the separator before it. */
  lemma {:induction false} JoinSnoc(parts: seq<string>, sep: string)
    requires |parts| >= 2
    ensures Join(parts, sep) == Join(parts[..|parts| - 1], sep) + sep + parts[|parts| - 1]
  {
    var n := |parts|;
    if n == 2 {
      assert parts[..1] == [parts[0]];
      assert parts[1..] == [parts[1]];
    } else {
      JoinSnoc(parts[1..], sep);
      assert parts[1..][..n - 2] == parts[1..n - 1];
      assert parts[..n - 1][1..] == parts[1..n - 1];
      assert parts[1..][n - 2] == parts[n - 1];
    }
  }

  /** The last piece of a split is a suffix of the string, and when the
      separator occurs it sits right before that suffix. */
  lemma LastPiece(s: string, c: char)
    ensures var parts := Split(s, c);
      var last := parts[|parts| - 1];
      && EndsWith(s, last)
      && (|parts| > 1 ==> |last| < |s| && s[|s| - |last| - 1] == c)
  {
    var parts := Split(s, c);
    var last := parts[|parts| - 1];
    JoinSplit(s, c);
    if |parts| > 1 {
      JoinSnoc(parts, [c]);
      var front := Join(parts[..|parts| - 1], [c]) + [c];
      assert s == front + last;
      assert s[|s| - |last|..] == last;
      assert s[|s| - |last| - 1] == front[|front| - 1];
    }
  }

  /** The piece after the last separator of `w + c + t`, when `t` has none, is `t`. */
  lemma LastPieceOf(w: string, c: char, t: string)
    requires c !in t
    ensures var parts := Split(w + [c] + t, c); parts[|parts| - 1] == t
  {
    var s := w + [c] + t;
    LastPiece(s, c);
    SplitMany(s, c);
    assert s[|w|] == c;
    forall i | |w| + 1 <= i < |s|
      ensures s[i] != c
    {
      assert s[i] == t[i - |w| - 1];
      assert t[i - |w| - 1] in t;
    }
    assert t == s[|w| + 1..];
  }

  /** A list of pieces without the separator, split after joining, comes back unchanged. */
  lemma {:induction false} SplitJoin(parts: seq<string>, sep: char)
    requires |parts| >= 1
    requires forall i :: 0 <= i < |parts| ==> sep !in parts[i]
    ensures Split(Join(parts, [sep]), sep) == parts
  {
    if |parts| == 1 {
      assert IndexOf(parts[0], sep) == |parts[0]|;
    } else {
      var s := Join(parts, [sep]);
      assert s == parts[0] + [sep] + Join(parts[1..], [sep]);
      IndexOfPrefix(parts[0], Join(parts[1..], [sep]), sep);
      assert s[..|parts[0]|] == parts[0];
      assert s[|parts[0]| + 1..] == Join(parts[1..], [sep]);
      SplitJoin(parts[1..], sep);
    }
  }

  lemma {:induction false} IndexOfPrefix(w: string, rest: string, c: char)
    requires c !in w
    ensures IndexOf(w + [c] + rest, c) == |w|
    decreases |w|
  {
    if w != [] {
      assert (w + [c] + rest)[1..] == w[1..] + [c] + rest;
      IndexOfPrefix(w[1..], rest, c);
    }
  }

  /** The index of the first white-space character of `s`, or `|s|`. */
  function FirstSpace(s: string): (k: nat)
    ensures k <= |s|
    ensures NoSpace(s[..k])
    ensures k < |s| ==> IsSpace(s[k])
  {
    if s == [] || IsSpace(s[0]) then 0 else 1 + FirstSpace(s[1..])
  }

  /** `s.split(/\s+/)`: the pieces between maximal runs of white space, with an
      empty first (last) piece when `s` starts (ends) with white space. */
  function SplitWs(s: string): (parts: seq<string>)
    ensures |parts| >= 1
    ensures forall i :: 0 <= i < |parts| ==> NoSpace(parts[i])
    decreases |s|
  {
    var k := FirstSpace(s);
    if k == |s| then [s]
    else
      var rest := s[k..];
      [s[..k]] + SplitWs(rest[LeadingSpaces(rest)..])
  }

  /** An independent description of whitespace collapsing: every maximal run of
      white space becomes one blank. */
  function CollapseSpaces(s: string): string
    decreases |s|
  {
    if s == [] then []
    else if IsSpace(s[0]) then [' '] + CollapseSpaces(s[LeadingSpaces(s)..])
    else [s[0]] + CollapseSpaces(s[1..])
  }

  lemma {:induction false} CollapseWord(w: string, x: string)
    requires NoSpace(w)
    ensures CollapseSpaces(w + x) == w + CollapseSpaces(x)
    decreases |w|
  {
    if w != [] {
      assert (w + x)[0] == w[0];
      assert (w + x)[1..] == w[1..] + x;
      CollapseWord(w[1..], x);
    } else {
      assert w + x == x;
    }
  }

  /** The pieces after the first maximal white-space run of `s`. */
  function AfterFirstRun(s: string): string
    requires FirstSpace(s) < |s|
  {
    var rest := s[FirstSpace(s)..];
    rest[LeadingSpaces(rest)..]
  }

  lemma SplitWsStep(s: string)
    requires FirstSpace(s) < |s|
    ensures SplitWs(s) == [s[..FirstSpace(s)]] + SplitWs(AfterFirstRun(s))
  {
  }

  lemma {:induction false} CollapseStep(s: string)
    requires FirstSpace(s) < |s|
    ensures CollapseSpaces(s) == s[..FirstSpace(s)] + " " + CollapseSpaces(AfterFirstRun(s))
  {
    var k := FirstSpace(s);
    var w, rest := s[..k], s[k..];
    assert CollapseSpaces(s) == w + CollapseSpaces(rest) by {
      assert s == w + rest;
      CollapseWord(w, rest);
    }
    var x := CollapseSpaces(AfterFirstRun(s));
    assert CollapseSpaces(rest) == " " + x by {
      assert rest != [] && IsSpace(rest[0]);
    }
    assert w + (" " + x) == w + " " + x;
  }

  /** Splitting on white-space runs and joining with single blanks collapses
      every white-space run to one blank. */
  lemma {:induction false} JoinSplitWs(s: string)
    ensures Join(SplitWs(s), " ") == CollapseSpaces(s)
    decreases |s|
  {
    if FirstSpace(s) == |s| {
      CollapseWord(s, []);
      assert s + [] == s;
    } else {
      SplitWsStep(s);
      CollapseStep(s);
      JoinSplitWs(AfterFirstRun(s));
      JoinCons(s[..FirstSpace(s)], SplitWs(AfterFirstRun(s)), " ");
    }
  }

  /** The first piece of a trimmed, non-empty string is non-empty, and so is its last. */
  lemma {:induction false} SplitWsEnds(s: string)
    requires Trimmed(s) && s != []
    ensures SplitWs(s)[0] != ""
    ensures SplitWs(s)[|SplitWs(s)| - 1] != ""
    decreases |s|
  {
    var k := FirstSpace(s);
    if k < |s| {
      var rest := s[k..];
      var tail := rest[LeadingSpaces(rest)..];
      assert tail != [] && tail[|tail| - 1] == s[|s| - 1];
      assert Trimmed(tail);
      SplitWsEnds(tail);
      assert SplitWs(s) == [s[..k]] + SplitWs(tail);
    }
  }

  predicate StartsWith(s: string, prefix: string) {
    prefix <= s
  }

  predicate EndsWith(s: string, suffix: string) {
    |suffix| <= |s| && s[|s| - |suffix|..] == suffix
  }

  /** `needle` occurs in `hay` as a contiguous piece. */
  predicate Contains(hay: string, needle: string)
    decreases |hay|
  {
    needle <= hay || (hay != [] && Contains(hay[1..], needle))
  }

  /** `needle` sits in `hay` starting at position `i`. */
  predicate OccursAt(hay: string, needle: string, i: int) {
    0 <= i <= |hay| - |needle| && hay[i..i + |needle|] == needle
  }

  lemma SliceOfTail(s: string, a: int, b: int)
    requires s != [] && 0 <= a <= b <= |s| - 1
    ensures s[1..][a..b] == s[a + 1..b + 1]
  {
    assert forall k :: 0 <= k < b - a ==> s[1..][a..b][k] == s[a + 1 + k];
  }

  /** `Contains` holds exactly when `needle` sits at some position of `hay`. */
  lemma {:induction false} ContainsAt(hay: string, needle: string)
    ensures Contains(hay, needle) <==> exists i :: OccursAt(hay, needle, i)
    decreases |hay|
  {
    if needle <= hay {
      assert OccursAt(hay, needle, 0);
    } else if hay == [] {
    } else {
      var tail := hay[1..];
      ContainsAt(tail, needle);
      if j :| OccursAt(tail, needle, j) {
        SliceOfTail(hay, j, j + |needle|);
        assert OccursAt(hay, needle, j + 1);
      }
      if i :| OccursAt(hay, needle, i) {
        if i != 0 {
          SliceOfTail(hay, i - 1, i - 1 + |needle|);
          assert OccursAt(tail, needle, i - 1);
        }
      }
    }
  }

  predicate IsDigit(c: char) {
    '0' <= c <= '9'
  }

  function DigitChar(d: nat): char
    requires d < 10
  {
    ('0' as int + d) as char
  }

  /** The decimal rendering of a natural number, as `String(n)` writes it. */
  function NatToString(n: nat): (s: string)
    ensures |s| >= 1
    ensures forall i :: 0 <= i < |s| ==> IsDigit(s[i])
    ensures s[0] == '0' ==> n == 0
  {
    if n < 10 then [DigitChar(n)] else NatToString(n / 10) + [DigitChar(n % 10)]
  }

  /** The length of the longest prefix of `s` made of decimal digits. */
  function DigitRun(s: string): (k: nat)
    ensures k <= |s|
    ensures forall i :: 0 <= i < k ==> IsDigit(s[i])
    ensures k == |s| || !IsDigit(s[k])
  {
    if s != [] && IsDigit(s[0]) then 1 + DigitRun(s[1..]) else 0
  }

  /** The value of a string of decimal digits. */
  function DecimalValue(ds: string): nat
    requires forall i :: 0 <= i < |ds| ==> IsDigit(ds[i])
  {
    if ds == [] then 0
    else
      var c := ds[|ds| - 1];
      assert IsDigit(c);
      DecimalValue(ds[..|ds| - 1]) * 10 + (c as int - '0' as int)
  }

  predicate IsHexDigit(c: char) {
    IsDigit(c) || 'a' <= c <= 'f' || 'A' <= c <= 'F'
  }

  function HexDigitValue(c: char): nat
    requires IsHexDigit(c)
  {
    if IsDigit(c) then c as int - '0' as int
    else if 'a' <= c <= 'f' then c as int - 'a' as int + 10
    else c as int - 'A' as int + 10
  }

  /** The length of the longest prefix of `s` made of hexadecimal digits. */
  function HexRun(s: string): (k: nat)
    ensures k <= |s|
    ensures forall i :: 0 <= i < k ==> IsHexDigit(s[i])
  {
    if s != [] && IsHexDigit(s[0]) then 1 + HexRun(s[1..]) else 0
  }

  function HexValue(ds: string): nat
    requires forall i :: 0 <= i < |ds| ==> IsHexDigit(ds[i])
  {
    if ds == [] then 0
    else HexValue(ds[..|ds| - 1]) * 16 + HexDigitValue(ds[|ds| - 1])
  }

  /** `parseInt(s)` without a radix: leading white space is skipped, then an
      optional sign, then a `0x`/`0X` prefix selects base 16; the longest run of
      digits that follows is the value, and `None` stands for NaN (no digits). */
  function ParseInt(s: string): (r: Option<int>)
    ensures var t := TrimStart(s);
      r.Some? ==> |t| > 0 && (IsDigit(t[0]) || (|t| > 1 && (t[0] == '-' || t[0] == '+') && IsDigit(t[1])))
    ensures var t := TrimStart(s); r.Some? && r.value < 0 ==> |t| > 1 && t[0] == '-'
  {
    var t := TrimStart(s);
    if |t| > 0 && t[0] == '-' then
      match ParseUnsigned(t[1..])
      case None => None
      case Some(v) => Some(0 - v as int)
    else if |t| > 0 && t[0] == '+' then ParseUnsigned(t[1..])
    else ParseUnsigned(t)
  }

  /** The digits after the sign: hexadecimal after `0x`/`0X`, else decimal. */
  function ParseUnsigned(u: string): (r: Option<nat>)
    ensures r.Some? ==> u != [] && IsDigit(u[0])
  {
    if |u| >= 2 && u[0] == '0' && (u[1] == 'x' || u[1] == 'X') then
      var h := HexRun(u[2..]);
      if h == 0 then None else Some(HexValue(u[2..][..h]))
    else
      var d := DigitRun(u);
      if d == 0 then None else Some(DecimalValue(u[..d]))
  }

  lemma {:induction false} DecimalValueOfNat(n: nat)
    ensures DecimalValue(NatToString(n)) == n
  {
    var s := NatToString(n);
    if n >= 10 {
      DecimalValueOfNat(n / 10);
      assert s[..|s| - 1] == NatToString(n / 10);
    }
  }

  /** A string of digits is a single digit run. */
  lemma {:induction false} DigitRunAll(s: string)
    requires forall i :: 0 <= i < |s| ==> IsDigit(s[i])
    ensures DigitRun(s) == |s|
  {
    if s != [] {
      DigitRunAll(s[1..]);
    }
  }

  /** `parseInt` reads a numeral back as its number. */
  lemma ParseIntOfNat(n: nat)
    ensures ParseInt(NatToString(n)) == Some(n)
  {
    ParseDigits(NatToString(n));
    DecimalValueOfNat(n);
  }

  /** A non-empty string of decimal digits parses as its decimal value. */
  lemma ParseDigits(s: string)
    requires s != [] && forall i :: 0 <= i < |s| ==> IsDigit(s[i])
    ensures ParseInt(s) == Some(DecimalValue(s))
  {
    assert LeadingSpaces(s) == 0 by {
      assert !IsSpace(s[0]);
    }
    assert TrimStart(s) == s;
    assert IsDigit(s[0]);
    UnsignedDigits(s);
  }

  lemma UnsignedDigits(s: string)
    requires s != [] && forall i :: 0 <= i < |s| ==> IsDigit(s[i])
    ensures ParseUnsigned(s) == Some(DecimalValue(s))
  {
    assert |s| >= 2 ==> IsDigit(s[1]);
    DigitRunAll(s);
    assert s[..|s|] == s;
  }

}
