/**
  The JavaScript string operations the bot relies on, with their ECMAScript
  meaning: `trim`, the `\d` regular-expression class, `parseInt` without a
  radix, `toUpperCase`/`toLowerCase` (for Basic Latin and the letters U+0400 to U+045F),
  `startsWith`, `includes`, `join` and `replace` of a single character.
*/
module JsString {
  import opened Wrappers

  // ---------------------------------------------------------------------------
  // White space, as String.prototype.trim and parseInt skip it
  // (WhiteSpace and LineTerminator of ECMAScript).

  predicate IsSpace(c: char) {
    || ('\t' <= c <= '\r')          // tab, line feed, vertical tab, form feed, carriage return
    || c == ' ' || c == '\U{00A0}' || c == '\U{1680}'
    || ('\U{2000}' <= c <= '\U{200A}')
    || c == '\U{2028}' || c == '\U{2029}' || c == '\U{202F}' || c == '\U{205F}'
    || c == '\U{3000}' || c == '\U{FEFF}'
  }

  /** `s.trimStart()`: drops exactly the leading white space. */
  function TrimStart(s: string): (r: string)
    ensures |r| <= |s| && r == s[|s| - |r|..]
    ensures forall i :: 0 <= i < |s| - |r| ==> IsSpace(s[i])
    ensures r != [] ==> !IsSpace(r[0])
  {
    if s != [] && IsSpace(s[0]) then TrimStart(s[1..]) else s
  }

  /** `s.trimEnd()`: drops exactly the trailing white space. */
  function TrimEnd(s: string): (r: string)
    ensures |r| <= |s| && r == s[..|r|]
    ensures forall i :: |r| <= i < |s| ==> IsSpace(s[i])
    ensures r != [] ==> !IsSpace(r[|r| - 1])
  {
    if s != [] && IsSpace(s[|s| - 1]) then TrimEnd(s[..|s| - 1]) else s
  }

  /** `s.trim()` */
  function Trim(s: string): (r: string)
    ensures |r| <= |s|
    ensures r != [] ==> !IsSpace(r[0]) && !IsSpace(r[|r| - 1])
  {
    TrimEnd(TrimStart(s))
  }

  /**
    `s.trim()` is the input with exactly its leading and trailing white space
    removed: it is the part of `s` that starts after the leading white space,
    and everything after it is white space.
  */
  lemma {:induction false} TrimIsSlice(s: string)
    ensures |s| - |TrimStart(s)| + |Trim(s)| <= |s|
    ensures forall i :: 0 <= i < |Trim(s)| ==> Trim(s)[i] == s[|s| - |TrimStart(s)| + i]
    ensures forall i :: 0 <= i < |s| - |TrimStart(s)| ==> IsSpace(s[i])
    ensures forall i :: |s| - |TrimStart(s)| + |Trim(s)| <= i < |s| ==> IsSpace(s[i])
  {
    TrimKeepsMiddle(s);
    TrimDropsTail(s);
  }

  /** Trimming leaves nothing exactly when the text is all white space. */
  lemma TrimEmptyIffBlank(s: string)
    ensures Trim(s) == [] <==> forall i :: 0 <= i < |s| ==> IsSpace(s[i])
  {
    TrimIsSlice(s);
    if Trim(s) != [] {
      var k := |s| - |TrimStart(s)|;
      assert Trim(s)[0] == s[k];
    }
  }

  lemma {:induction false} TrimKeepsMiddle(s: string)
    ensures |s| - |TrimStart(s)| + |Trim(s)| <= |s|
    ensures forall i :: 0 <= i < |Trim(s)| ==> Trim(s)[i] == s[|s| - |TrimStart(s)| + i]
  {
    var t := TrimStart(s);
    assert Trim(s) == TrimEnd(t);
    PrefixOfSuffix(s, t, TrimEnd(t));
  }

  lemma {:induction false} TrimDropsTail(s: string)
    ensures forall i :: |s| - |TrimStart(s)| + |Trim(s)| <= i < |s| ==> IsSpace(s[i])
  {
    var t := TrimStart(s);
    assert Trim(s) == TrimEnd(t);
    SpaceAfterPrefix(s, t, |Trim(s)|);
  }

  lemma PrefixOfSuffix(s: string, t: string, r: string)
    requires |t| <= |s| && t == s[|s| - |t|..]
    requires |r| <= |t| && r == t[..|r|]
    ensures |s| - |t| + |r| <= |s|
    ensures forall i :: 0 <= i < |r| ==> r[i] == s[|s| - |t| + i]
  {
  }

  lemma SpaceAfterPrefix(s: string, t: string, n: nat)
    requires |t| <= |s| && t == s[|s| - |t|..] && n <= |t|
    requires forall i :: n <= i < |t| ==> IsSpace(t[i])
    ensures forall i :: |s| - |t| + n <= i < |s| ==> IsSpace(s[i])
  {
    forall i | |s| - |t| + n <= i < |s| ensures IsSpace(s[i]) {
      assert s[i] == t[i - (|s| - |t|)];
    }
  }

  // ---------------------------------------------------------------------------
  // Digits and parseInt

  predicate IsDigit(c: char) { '0' <= c <= '9' }

  /** The regular expression /^\d+$/ (without the multiline flag). */
  predicate AllDigits(s: string) {
    |s| > 0 && forall i :: 0 <= i < |s| ==> IsDigit(s[i])
  }

  predicate IsRadixDigit(c: char, hex: bool) {
    IsDigit(c) || (hex && ('a' <= c <= 'f' || 'A' <= c <= 'F'))
  }

  function DigitValue(c: char): nat {
    if IsDigit(c) then c as int - '0' as int
    else if 'a' <= c <= 'f' then c as int - 'a' as int + 10
    else if 'A' <= c <= 'F' then c as int - 'A' as int + 10
    else 0
  }

  /** The number written by the digits `s` in base 10 or 16. */
  function Value(s: string, hex: bool): nat
  {
    if s == [] then 0
    else Value(s[..|s| - 1], hex) * (if hex then 16 else 10) + DigitValue(s[|s| - 1])
  }

  /** Length of the longest prefix of `s` made of digits of the radix. */
  function DigitRun(s: string, hex: bool): (r: nat)
    ensures r <= |s|
    ensures forall i :: 0 <= i < r ==> IsRadixDigit(s[i], hex)
    ensures r < |s| ==> !IsRadixDigit(s[r], hex)
  {
    if s != [] && IsRadixDigit(s[0], hex) then 1 + DigitRun(s[1..], hex) else 0
  }

  /** The digits after an optional sign: a "0x"/"0X" prefix selects base 16. `None` is NaN. */
  function ParseUnsigned(u: string): Option<nat>
  {
    var hex := |u| >= 2 && u[0] == '0' && (u[1] == 'x' || u[1] == 'X');
    var body := if hex then u[2..] else u;
    var n := DigitRun(body, hex);
    if n == 0 then None else Some(Value(body[..n], hex))
  }

  /**
    `parseInt(s)` with no radix: leading white space is skipped, one sign is
    accepted, a "0x"/"0X" prefix switches to base 16, and the longest run of
    digits that follows is read. `None` stands for NaN (no digit at all).
  */
  function ParseInt(s: string): Option<int>
  {
    var t := TrimStart(s);
    if t != [] && (t[0] == '-' || t[0] == '+') then
      match ParseUnsigned(t[1..])
      case None => None
      case Some(v) => Some(if t[0] == '-' then -(v as int) else v)
    else
      match ParseUnsigned(t)
      case None => None
      case Some(v) => Some(v)
  }

  /**
    What the first character after the white space decides: blank text and
    text starting with anything but a digit or a sign are NaN; a decimal
    digit not followed by 'x' gives a number that is not negative; only a
    '-' gives a negative number.
  */
  lemma ParseIntLeadingChar(s: string)
    ensures TrimStart(s) == [] ==> ParseInt(s) == None
    ensures var t := TrimStart(s);
      t != [] && !IsDigit(t[0]) && t[0] != '-' && t[0] != '+' ==> ParseInt(s) == None
    ensures var t := TrimStart(s);
      t != [] && IsDigit(t[0]) && (|t| == 1 || (t[1] != 'x' && t[1] != 'X')) ==>
        ParseInt(s).Some? && ParseInt(s).value >= 0
    ensures ParseInt(s).Some? && ParseInt(s).value < 0 ==> TrimStart(s)[0] == '-'
  {
    var t := TrimStart(s);
    if t != [] && !IsDigit(t[0]) && t[0] != '-' && t[0] != '+' {
      ParseIntOfNonNumber(s);
    }
    if t != [] && IsDigit(t[0]) && (|t| == 1 || (t[1] != 'x' && t[1] != 'X')) {
      ParseIntOfLeadingDigit(s);
    }
  }

  lemma ParseIntOfNonNumber(s: string)
    requires var t := TrimStart(s); t != [] && !IsDigit(t[0]) && t[0] != '-' && t[0] != '+'
    ensures ParseInt(s) == None
  {
    var t := TrimStart(s);
    assert DigitRun(t, false) == 0;
  }

  lemma ParseIntOfLeadingDigit(s: string)
    requires var t := TrimStart(s); t != [] && IsDigit(t[0]) && (|t| == 1 || (t[1] != 'x' && t[1] != 'X'))
    ensures ParseInt(s).Some? && ParseInt(s).value >= 0
  {
    UnsignedWithoutSign(s);
    assert DigitRun(TrimStart(s), false) >= 1;
  }

  /** The digit run of `s` is exactly `k` long when `k` digits are followed by a non-digit or the end. */
  lemma DigitRunIs(s: string, hex: bool, k: nat)
    requires k <= |s|
    requires forall i :: 0 <= i < k ==> IsRadixDigit(s[i], hex)
    requires k < |s| ==> !IsRadixDigit(s[k], hex)
    ensures DigitRun(s, hex) == k
  {
  }

  /** A string starting with `k` decimal digits followed by white space or the end reads as those digits. */
  lemma ParseUnsignedOfDecimalPrefix(t: string, k: nat)
    requires 0 < k <= |t|
    requires forall i :: 0 <= i < k ==> IsDigit(t[i])
    requires k < |t| ==> IsSpace(t[k])
    ensures ParseUnsigned(t) == Some(Value(t[..k], false))
  {
    assert !(|t| >= 2 && t[0] == '0' && (t[1] == 'x' || t[1] == 'X')) by {
      if |t| >= 2 {
        if k >= 2 { assert IsDigit(t[1]); } else { assert IsSpace(t[1]); }
      }
    }
    DigitRunIs(t, false, k);
  }

  /** A string that is digits once trimmed is read by parseInt as exactly those digits. */
  lemma ParseIntOfTrimmedDigits(s: string)
    requires AllDigits(Trim(s))
    ensures ParseInt(s) == Some(Value(Trim(s), false))
  {
    var t := TrimStart(s);
    var d := TrimEnd(t);
    var k := |d|;
    assert t[..k] == d;
    assert forall i :: 0 <= i < k ==> IsDigit(t[i]) by {
      forall i | 0 <= i < k ensures IsDigit(t[i]) {
        assert t[i] == d[i];
      }
    }
    ParseUnsignedOfDecimalPrefix(t, k);
    UnsignedWithoutSign(s);
  }

  /** A string whose first non-space character is a digit is read without a sign. */
  lemma UnsignedWithoutSign(s: string)
    requires TrimStart(s) != [] && IsDigit(TrimStart(s)[0])
    ensures ParseInt(s) == ParseUnsigned(TrimStart(s))
  {
  }

  /** parseInt of an all-digit string is its decimal value. */
  lemma ParseIntOfDigits(s: string)
    requires AllDigits(s)
    ensures ParseInt(s) == Some(Value(s, false))
  {
    assert !IsSpace(s[0]);
    assert TrimStart(s) == s;
    ParseUnsignedOfDecimalPrefix(s, |s|);
    assert s[..|s|] == s;
    UnsignedWithoutSign(s);
  }

  // ---------------------------------------------------------------------------
  // Case mapping (Basic Latin and the Cyrillic letters U+0400 to U+045F)

  predicate IsLowerLetter(c: char) {
    'a' <= c <= 'z' || '\U{0430}' <= c <= '\U{045F}'
  }

  predicate IsUpperLetter(c: char) {
    'A' <= c <= 'Z' || '\U{0400}' <= c <= '\U{042F}'
  }

  function ToUpperChar(c: char): char {
    if 'a' <= c <= 'z' then (c as int - 32) as char
    else if '\U{0430}' <= c <= '\U{044F}' then (c as int - 0x20) as char   // а..я
    else if '\U{0450}' <= c <= '\U{045F}' then (c as int - 0x50) as char   // ѐ..џ
    else c
  }

  function ToLowerChar(c: char): char {
    if 'A' <= c <= 'Z' then (c as int + 32) as char
    else if '\U{0410}' <= c <= '\U{042F}' then (c as int + 0x20) as char   // А..Я
    else if '\U{0400}' <= c <= '\U{040F}' then (c as int + 0x50) as char   // Ѐ..Џ
    else c
  }

  /** `s.toUpperCase()` */
  function ToUpper(s: string): (r: string)
    ensures |r| == |s|
  {
    seq(|s|, i requires 0 <= i < |s| => ToUpperChar(s[i]))
  }

  /** `s.toLowerCase()` */
  function ToLower(s: string): (r: string)
    ensures |r| == |s|
  {
    seq(|s|, i requires 0 <= i < |s| => ToLowerChar(s[i]))
  }

  /**
    Upper-casing leaves no lower-case letter, keeps every other character,
    and lower-casing a changed letter gives it back.
  */
  lemma UpperCaseOf(s: string)
    ensures forall i :: 0 <= i < |s| ==> !IsLowerLetter(ToUpper(s)[i])
    ensures forall i :: 0 <= i < |s| && !IsLowerLetter(s[i]) ==> ToUpper(s)[i] == s[i]
    ensures forall i :: 0 <= i < |s| && IsLowerLetter(s[i]) ==>
      IsUpperLetter(ToUpper(s)[i]) && ToLowerChar(ToUpper(s)[i]) == s[i]
  {
  }

  /**
    Lower-casing leaves no upper-case letter, keeps every other character,
    and upper-casing a changed letter gives it back.
  */
  lemma LowerCaseOf(s: string)
    ensures forall i :: 0 <= i < |s| ==> !IsUpperLetter(ToLower(s)[i])
    ensures forall i :: 0 <= i < |s| && !IsUpperLetter(s[i]) ==> ToLower(s)[i] == s[i]
    ensures forall i :: 0 <= i < |s| && IsUpperLetter(s[i]) ==>
      IsLowerLetter(ToLower(s)[i]) && ToUpperChar(ToLower(s)[i]) == s[i]
  {
  }

  // ---------------------------------------------------------------------------
  // Searching, joining, replacing

  /** `s.startsWith(p)` */
  predicate StartsWith(s: string, p: string) {
    |p| <= |s| && s[..|p|] == p
  }

  /** `s.includes(sub)` */
  predicate Contains(s: string, sub: string) {
    StartsWith(s, sub) || (s != [] && Contains(s[1..], sub))
  }

  /** `parts.join(sep)` */
  function Join(parts: seq<string>, sep: string): string {
    if |parts| == 0 then ""
    else if |parts| == 1 then parts[0]
    else parts[0] + sep + Join(parts[1..], sep)
  }

  /** `s.replace(c, '')` for a one-character pattern: only the first occurrence goes. */
  function RemoveFirst(s: string, c: char): (r: string)
    ensures c in s ==> |r| == |s| - 1
    ensures c !in s ==> r == s
  {
    if s == [] then []
    else if s[0] == c then s[1..]
    else [s[0]] + RemoveFirst(s[1..], c)
  }

  /** Removing the first `c` splices out exactly its first occurrence. */
  lemma {:induction false} RemoveFirstSplices(s: string, c: char)
    ensures c in s ==> exists k :: 0 <= k < |s| && s[k] == c && c !in s[..k] && RemoveFirst(s, c) == s[..k] + s[k + 1..]
  {
    if c in s {
      var k := FirstIndex(s, c);
      RemoveFirstAt(s, c, k);
    }
  }

  /** The position of the first `c` in `s`. */
  function FirstIndex(s: string, c: char): (k: nat)
    requires c in s
    ensures k < |s| && s[k] == c && c !in s[..k]
  {
    if s[0] == c then 0
    else
      assert c in s[1..] by { assert s == [s[0]] + s[1..]; }
      var k := FirstIndex(s[1..], c);
      assert s[..k + 1] == [s[0]] + s[1..][..k];
      k + 1
  }

  lemma {:induction false} RemoveFirstAt(s: string, c: char, k: nat)
    requires k < |s| && s[k] == c && c !in s[..k]
    ensures RemoveFirst(s, c) == s[..k] + s[k + 1..]
  {
    if k > 0 {
      assert s[0] == s[..k][0];
      assert s[1..][..k - 1] == s[1..k];
      RemoveFirstAt(s[1..], c, k - 1);
      assert s[..k] == [s[0]] + s[1..][..k - 1];
    }
  }

}
