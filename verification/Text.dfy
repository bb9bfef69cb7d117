/** The string handling the parsers share: trimming, cutting, splitting and
    decimal numbers. A string is the sequence of its characters; where the code
    works on bytes, each byte is one character below 256. */
module Text {
  import opened Prelude

  // ---------------------------------------------------------------------
  // Trimming
  // ---------------------------------------------------------------------

  /** Unicode white space. */
  predicate IsSpace(c: char) {
    || '\t' <= c <= '\r' || c == ' ' || c == '\U{85}' || c == '\U{A0}' || c == '\U{1680}'
    || '\U{2000}' <= c <= '\U{200A}' || c == '\U{2028}' || c == '\U{2029}' || c == '\U{202F}'
    || c == '\U{205F}' || c == '\U{3000}'
  }

  function TrimLeft(s: string): (r: string)
    ensures r != "" ==> !IsSpace(r[0])
    ensures |r| <= |s|
  {
    if s != "" && IsSpace(s[0]) then TrimLeft(s[1..]) else s
  }

  function TrimRight(s: string): (r: string)
    ensures r != "" ==> !IsSpace(r[|r| - 1])
    ensures r <= s
  {
    if s != "" && IsSpace(s[|s| - 1]) then TrimRight(s[..|s| - 1]) else s
  }

  function Trim(s: string): string { TrimRight(TrimLeft(s)) }

  /** Character by character. */
  function Lowered(s: string, lower: char -> char): (r: string)
    ensures |r| == |s| && forall i :: 0 <= i < |s| ==> r[i] == lower(s[i])
  {
    seq(|s|, i requires 0 <= i < |s| => lower(s[i]))
  }

  /** Nothing to trim at either end. */
  predicate Trimmed(s: string) {
    s != "" ==> !IsSpace(s[0]) && !IsSpace(s[|s| - 1])
  }

  lemma {:induction false} TrimLeftTakes(s: string)
    ensures forall c :: c in TrimLeft(s) ==> c in s
    ensures s == "" || !IsSpace(s[0]) ==> TrimLeft(s) == s
  {
    hide IsSpace;
    if s != "" && IsSpace(s[0]) {
      TrimLeftTakes(s[1..]);
      assert s == [s[0]] + s[1..];
    }
  }

  lemma TrimRightTakes(s: string)
    ensures forall c :: c in TrimRight(s) ==> c in s
    ensures s == "" || !IsSpace(s[|s| - 1]) ==> TrimRight(s) == s
    ensures TrimRight(s) != "" ==> s != "" && TrimRight(s)[0] == s[0]
  {
    hide IsSpace;
    assert TrimRight(s) <= s;
  }

  lemma TrimTrims(s: string)
    ensures Trimmed(Trim(s))
    ensures forall c :: c in Trim(s) ==> c in s
    ensures Trimmed(s) ==> Trim(s) == s
  {
    hide IsSpace, TrimLeft, TrimRight;
    TrimLeftTakes(s);
    TrimRightTakes(TrimLeft(s));
  }

  predicate AllSpace(s: string) { forall c :: c in s ==> IsSpace(c) }

  lemma {:induction false} TrimLeftCuts(s: string)
    ensures exists a :: AllSpace(a) && s == a + TrimLeft(s)
  {
    hide IsSpace;
    if s != "" && IsSpace(s[0]) {
      TrimLeftCuts(s[1..]);
      var a :| AllSpace(a) && s[1..] == a + TrimLeft(s[1..]);
      assert s == ([s[0]] + a) + TrimLeft(s) && AllSpace([s[0]] + a);
    } else {
      assert s == "" + TrimLeft(s) && AllSpace("");
    }
  }

  lemma {:induction false} TrimRightCuts(s: string)
    ensures exists b :: AllSpace(b) && s == TrimRight(s) + b
  {
    hide IsSpace;
    if s != "" && IsSpace(s[|s| - 1]) {
      var front := s[..|s| - 1];
      TrimRightCuts(front);
      var b :| AllSpace(b) && front == TrimRight(front) + b;
      assert s == TrimRight(s) + (b + [s[|s| - 1]]) && AllSpace(b + [s[|s| - 1]]);
    } else {
      assert s == TrimRight(s) + "" && AllSpace("");
    }
  }

  /** Trimming takes white space off both ends, nothing else, and leaves none there. */
  lemma TrimIsExact(s: string)
    ensures Trimmed(Trim(s))
    ensures exists a, b :: AllSpace(a) && AllSpace(b) && s == a + Trim(s) + b
  {
    hide IsSpace, TrimLeft, TrimRight, AllSpace;
    TrimTrims(s);
    TrimLeftCuts(s);
    TrimRightCuts(TrimLeft(s));
    var a :| AllSpace(a) && s == a + TrimLeft(s);
    var b :| AllSpace(b) && TrimLeft(s) == TrimRight(TrimLeft(s)) + b;
    assert s == a + Trim(s) + b;
  }

  /** White space among the ASCII characters, as unicode.IsSpace lists it. */
  lemma AsciiSpace(c: char)
    requires c as int < 128
    ensures IsSpace(c) <==> c == ' ' || 9 <= c as int <= 13
  {
  }

  // ---------------------------------------------------------------------
  // Cutting and splitting
  // ---------------------------------------------------------------------

  /** The text before and after the first separator, if there is one. */
  function Cut(s: string, sep: char): (r: (string, string, bool))
    ensures r.2 <==> sep in s
    ensures r.2 ==> s == r.0 + [sep] + r.1 && sep !in r.0
    ensures !r.2 ==> r == (s, "", false)
  {
    if s == "" then ("", "", false)
    else if s[0] == sep then ("", s[1..], true)
    else
      var (a, b, found) := Cut(s[1..], sep);
      assert s == [s[0]] + s[1..];
      if found then ([s[0]] + a, b, true) else (s, "", false)
  }

  lemma {:induction false} CutFirst(a: string, b: string, sep: char)
    requires sep !in a
    ensures Cut(a + [sep] + b, sep) == (a, b, true)
  {
    var s := a + [sep] + b;
    if a == "" {
      assert s[1..] == b;
    } else {
      CutFirst(a[1..], b, sep);
      assert s[1..] == a[1..] + [sep] + b;
      assert a == [a[0]] + a[1..];
    }
  }

  /** The pieces between separators; always at least one. */
  function Split(s: string, sep: char): (r: seq<string>)
    ensures |r| > 0
    decreases |s|
  {
    var (a, b, found) := Cut(s, sep);
    if found then [a] + Split(b, sep) else [s]
  }

  function Join(parts: seq<string>, sep: char): string {
    if parts == [] then ""
    else if |parts| == 1 then parts[0]
    else parts[0] + [sep] + Join(parts[1..], sep)
  }

  lemma {:induction false} SplitOfJoin(parts: seq<string>, sep: char)
    requires parts != [] && forall p :: p in parts ==> sep !in p
    ensures Split(Join(parts, sep), sep) == parts
  {
    assert parts[0] in parts;
    if |parts| == 1 {
      assert parts == [parts[0]];
    } else {
      var rest := Join(parts[1..], sep);
      assert Join(parts, sep) == parts[0] + [sep] + rest;
      SplitOfJoin(parts[1..], sep);
      CutFirst(parts[0], rest, sep);
      hide Cut, Join;
      assert parts == [parts[0]] + parts[1..];
    }
  }

  // ---------------------------------------------------------------------
  // Base64 text
  // ---------------------------------------------------------------------

  /** The two alphabets of section 4 and section 5 of RFC 4648. */
  predicate IsBase64(c: char, url: bool) {
    || 'A' <= c <= 'Z' || 'a' <= c <= 'z' || '0' <= c <= '9'
    || (if url then c == '-' || c == '_' else c == '+' || c == '/')
  }

  predicate AllBase64(s: string, url: bool) { forall c :: c in s ==> IsBase64(c, url) }

  /** Line breaks are skipped wherever they stand. */
  function DropBreaks(s: string): (r: string)
    ensures forall c :: c in r ==> c in s
    ensures forall c :: c in s && c != '\r' && c != '\n' ==> c in r
  {
    if s == "" then ""
    else
      assert s == [s[0]] + s[1..];
      if s[0] == '\r' || s[0] == '\n' then DropBreaks(s[1..]) else [s[0]] + DropBreaks(s[1..])
  }

  /** The alphabets differ in two characters. */
  lemma TwoAlphabets(c: char)
    ensures IsBase64(c, false) <==> c == '+' || c == '/' || (IsBase64(c, true) && c != '-' && c != '_')
  {
  }

  // ---------------------------------------------------------------------
  // Decimal numbers
  // ---------------------------------------------------------------------

  const MIN_INT64 := -0x8000_0000_0000_0000
  const MAX_INT64 := 0x7FFF_FFFF_FFFF_FFFF

  function DigitChar(d: int): char
    requires 0 <= d < 10
  {
    ('0' as int + d) as char
  }

  predicate IsDigit(c: char) { '0' <= c <= '9' }

  function FormatNat(n: nat): string {
    if n < 10 then [DigitChar(n)] else FormatNat(n / 10) + [DigitChar(n % 10)]
  }

  function FormatInt(n: int): string {
    if n < 0 then "-" + FormatNat(-n) else FormatNat(n)
  }

  function ParseDigits(s: string): Option<nat> {
    if s == "" then Some(0)
    else if !IsDigit(s[|s| - 1]) then None
    else match ParseDigits(s[..|s| - 1])
      case None => None
      case Some(n) => Some(10 * n + (s[|s| - 1] as int - '0' as int))
  }

  /** A base-10 64-bit integer: an optional sign, at least one digit, nothing
      else, and in range. */
  function ParseInt(s: string): (r: Option<int>)
    ensures r.Some? ==> MIN_INT64 <= r.value <= MAX_INT64
  {
    if s == "" then None
    else
      var digits := if s[0] == '-' || s[0] == '+' then s[1..] else s;
      if digits == "" then None
      else match ParseDigits(digits)
        case None => None
        case Some(n) =>
          var v := if s[0] == '-' then 0 - n as int else n as int;
          if MIN_INT64 <= v <= MAX_INT64 then Some(v) else None
  }

  lemma OneDigitMore(s: string, d: int)
    requires 0 <= d < 10
    ensures ParseDigits(s + [DigitChar(d)]) ==
            match ParseDigits(s) { case None => None case Some(n) => Some(10 * n + d) }
  {
    assert (s + [DigitChar(d)])[..|s|] == s;
  }

  lemma {:induction false} DigitsRoundTrip(n: nat)
    ensures ParseDigits(FormatNat(n)) == Some(n)
    ensures FormatNat(n) != "" && forall c :: c in FormatNat(n) ==> IsDigit(c)
  {
    if n < 10 {
      OneDigitMore("", n);
      assert "" + [DigitChar(n)] == FormatNat(n);
    } else {
      DigitsRoundTrip(n / 10);
      OneDigitMore(FormatNat(n / 10), n % 10);
      hide ParseDigits;
      assert FormatNat(n) == FormatNat(n / 10) + [DigitChar(n % 10)];
      assert IsDigit(DigitChar(n % 10));
    }
  }

  /** Printing an integer of the machine's width and parsing it gives it back. */
  lemma ParseOfFormat(n: int)
    ensures MIN_INT64 <= n <= MAX_INT64 <==> ParseInt(FormatInt(n)) == Some(n)
    ensures forall c :: c in FormatInt(n) ==> IsDigit(c) || c == '-'
    ensures FormatInt(n) != ""
  {
    hide FormatNat, ParseDigits;
    DigitsRoundTrip(if n < 0 then -n else n);
    var s := FormatInt(n);
    if n < 0 {
      assert s[0] == '-' && s[1..] == FormatNat(-n);
    } else {
      assert s[0] in s && s[0] != '-' && s[0] != '+';
    }
  }

  function Zeros(k: nat): string { if k == 0 then "" else Zeros(k - 1) + "0" }

  lemma {:induction false} ZerosAreNothing(k: nat)
    ensures ParseDigits(Zeros(k)) == Some(0)
  {
    if k > 0 {
      ZerosAreNothing(k - 1);
      assert Zeros(k)[..|Zeros(k)| - 1] == Zeros(k - 1);
    }
  }

  lemma {:induction false} PaddedDigits(k: nat, n: nat)
    ensures ParseDigits(Zeros(k) + FormatNat(n)) == Some(n)
  {
    if n < 10 {
      ZerosAreNothing(k);
      OneDigitMore(Zeros(k), n);
    } else {
      PaddedDigits(k, n / 10);
      OneDigitMore(Zeros(k) + FormatNat(n / 10), n % 10);
      assert Zeros(k) + FormatNat(n) == Zeros(k) + FormatNat(n / 10) + [DigitChar(n % 10)];
    }
  }

  lemma DigitOf(c: char)
    requires IsDigit(c)
    ensures 0 <= c as int - '0' as int < 10 && DigitChar(c as int - '0' as int) == c
  {
  }

  lemma FormatMore(n: nat, d: int)
    requires 0 <= d < 10 && n > 0
    ensures FormatNat(10 * n + d) == FormatNat(n) + [DigitChar(d)]
  {
    assert (10 * n + d) / 10 == n && (10 * n + d) % 10 == d;
  }

  lemma FirstNumerals(d: nat)
    requires d < 10
    ensures FormatNat(d) == [DigitChar(d)] && FormatNat(0) == "0" && ParseDigits("") == Some(0)
  {
  }

  lemma ZerosMore(k: nat)
    ensures Zeros(k + 1) == Zeros(k) + "0" && Zeros(0) == ""
  {
  }

  lemma LastDigit(s: string)
    requires s != "" && ParseDigits(s).Some?
    ensures var front, c := s[..|s| - 1], s[|s| - 1];
            && IsDigit(c) && ParseDigits(front).Some?
            && ParseDigits(s).value == 10 * ParseDigits(front).value + (c as int - '0' as int)
  {
  }

  /** Digits spell a number exactly when they are zeros and the number as printed. */
  lemma {:induction false} DigitsSpell(s: string)
    requires s != "" && ParseDigits(s).Some?
    ensures exists k: nat :: s == Zeros(k) + FormatNat(ParseDigits(s).value)
  {
    hide FormatNat, ParseDigits, Zeros, DigitChar;
    LastDigit(s);
    var front, c := s[..|s| - 1], s[|s| - 1];
    DigitOf(c);
    var d: nat := c as int - '0' as int;
    FirstNumerals(d);
    assert s == front + [c];
    if front == "" {
      ZerosMore(0);
      assert s == Zeros(0) + FormatNat(d);
    } else {
      DigitsSpell(front);
      var n := ParseDigits(front).value;
      var k: nat :| front == Zeros(k) + FormatNat(n);
      if n == 0 {
        ZerosMore(k);
        assert s == Zeros(k + 1) + FormatNat(d);
      } else {
        FormatMore(n, d);
        assert s == Zeros(k) + FormatNat(10 * n + d);
      }
    }
  }

  /** The ways to write a number: a sign if wanted, or needed, then zeros if wanted, then
      the number as printed. */
  ghost predicate Writes(s: string, n: int) {
    exists k: nat, sign: string ::
      && s == sign + (Zeros(k) + FormatNat(if n < 0 then -n else n))
      && (sign == "" ==> n >= 0) && (sign == "-" ==> n <= 0) && (sign == "+" ==> n >= 0) && sign in ["", "-", "+"]
  }

  lemma {:induction false} ZerosAreDigits(k: nat)
    ensures forall c :: c in Zeros(k) ==> IsDigit(c)
  {
    if k > 0 { ZerosAreDigits(k - 1); }
  }

  lemma WrittenParses(k: nat, sign: string, n: int)
    requires sign in ["", "-", "+"] && (sign != "-" ==> n >= 0) && (sign == "-" ==> n <= 0)
    ensures ParseInt(sign + (Zeros(k) + FormatNat(if n < 0 then -n else n))) ==
            if MIN_INT64 <= n <= MAX_INT64 then Some(n) else None
  {
    hide FormatNat, ParseDigits, Zeros;
    var m := if n < 0 then -n else n;
    var digits := Zeros(k) + FormatNat(m);
    PaddedDigits(k, m);
    DigitsRoundTrip(m);
    ZerosAreDigits(k);
    var s := sign + digits;
    assert digits[0] in digits && digits != "";
    if sign == "" {
      assert s == digits && s[0] != '-' && s[0] != '+';
    } else {
      assert s[0] == sign[0] && s[1..] == digits;
    }
  }

  lemma SignAndDigits(s: string) returns (sign: string, digits: string)
    requires ParseInt(s).Some?
    ensures s == sign + digits && digits != "" && ParseDigits(digits).Some?
    ensures sign in ["", "-", "+"]
    ensures ParseInt(s).value == if sign == "-" then 0 - ParseDigits(digits).value else ParseDigits(digits).value
  {
    hide ParseDigits;
    var signed := s[0] == '-' || s[0] == '+';
    digits := if signed then s[1..] else s;
    sign := if signed then [s[0]] else "";
  }

  lemma ParsedIsWritten(s: string)
    requires ParseInt(s).Some?
    ensures Writes(s, ParseInt(s).value)
  {
    hide FormatNat, ParseDigits, Zeros, ParseInt;
    var n := ParseInt(s).value;
    var sign, digits := SignAndDigits(s);
    DigitsSpell(digits);
    var k: nat :| digits == Zeros(k) + FormatNat(ParseDigits(digits).value);
    assert s == sign + (Zeros(k) + FormatNat(if n < 0 then -n else n));
  }

  /** Parsing reads exactly the ways to write a number that fits in 64 bits. */
  lemma ParseIntIff(s: string, n: int)
    ensures ParseInt(s) == Some(n) <==> MIN_INT64 <= n <= MAX_INT64 && Writes(s, n)
  {
    hide FormatNat, ParseDigits, Zeros, ParseInt;
    if Writes(s, n) {
      var k: nat, sign: string :|
        && s == sign + (Zeros(k) + FormatNat(if n < 0 then -n else n))
        && (sign == "" ==> n >= 0) && (sign == "-" ==> n <= 0) && (sign == "+" ==> n >= 0) && sign in ["", "-", "+"];
      WrittenParses(k, sign, n);
    }
    if ParseInt(s) == Some(n) { ParsedIsWritten(s); }
  }
}
