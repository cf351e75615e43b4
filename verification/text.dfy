/** Strings, decimal numbers and the few .NET string primitives the bot
    relies on: `ulong.TryParse`, `int.TryParse`, `ToString` of integers,
    `Trim`, `Split(char, count)` and `ToLowerInvariant` (ASCII only). */
module Text {
  import opened Wrappers

  const U64_MODULUS: int := 0x1_0000_0000_0000_0000
  const INT32_MIN: int := -0x8000_0000
  const INT32_MAX: int := 0x7FFF_FFFF

  /** A 64-bit unsigned platform identifier (user, guild or message). */
  type Id = n: nat | n < U64_MODULUS

  // ---------------------------------------------------------------------
  // Prefixes, suffixes, searching

  predicate StartsWith(s: string, p: string) {
    |p| <= |s| && s[..|p|] == p
  }

  predicate EndsWith(s: string, p: string) {
    |p| <= |s| && s[|s| - |p|..] == p
  }

  /** The outer parts of a concatenation are its prefix and suffix. */
  lemma Affixes(a: string, b: string, c: string)
    ensures StartsWith(a + b + c, a) && EndsWith(a + b + c, c)
    ensures (a + b + c)[|a|..] == b + c
  {
    assert (a + b + c)[..|a|] == a;
    assert (a + b + c)[|a + b + c| - |c|..] == c;
  }

  /** A string does not end with a suffix whose last character differs. */
  lemma LastCharDiffers(s: string, p: string)
    requires |s| > 0 && |p| > 0 && s[|s| - 1] != p[|p| - 1]
    ensures !EndsWith(s, p)
  {
    assert |p| <= |s| ==> s[|s| - |p|..][|p| - 1] == s[|s| - 1];
  }

  // ---------------------------------------------------------------------
  // UTF-16 length

  /** Code units a character takes in UTF-16: a surrogate pair for one
      outside the Basic Multilingual Plane, otherwise one unit. */
  function Utf16Units(c: char): nat {
    if c as int >= 0x1_0000 then 2 else 1
  }

  /** `String.Length`: .NET strings are UTF-16, so a character outside
      the Basic Multilingual Plane counts twice. */
  function Utf16Length(s: string): (n: nat)
    ensures |s| <= n <= 2 * |s|
    ensures n == |s| <==> forall i :: 0 <= i < |s| ==> s[i] as int < 0x1_0000
  {
    if |s| == 0 then 0 else Utf16Units(s[0]) + Utf16Length(s[1..])
  }

  /** The UTF-16 length of a concatenation is the sum of the lengths. */
  lemma {:induction false} Utf16LengthConcat(a: string, b: string)
    ensures Utf16Length(a + b) == Utf16Length(a) + Utf16Length(b)
    decreases |a|
  {
    if |a| > 0 {
      assert (a + b)[1..] == a[1..] + b;
      Utf16LengthConcat(a[1..], b);
    } else {
      assert a + b == b;
    }
  }

  /** Index of the first occurrence of `c` in `s`. */
  function IndexOf(s: string, c: char): (r: Option<nat>)
    ensures r.None? <==> c !in s
    ensures r.Some? ==> r.value < |s| && s[r.value] == c && c !in s[..r.value]
  {
    if |s| == 0 then None
    else if s[0] == c then Some(0)
    else
      match IndexOf(s[1..], c)
      case None => None
      case Some(k) =>
        assert s[..k + 1] == [s[0]] + s[1..][..k];
        Some(k + 1)
  }

  // ---------------------------------------------------------------------
  // Decimal digits

  predicate IsDigit(c: char) {
    '0' <= c <= '9'
  }

  predicate IsDigits(s: string) {
    forall i :: 0 <= i < |s| ==> IsDigit(s[i])
  }

  function DigitValue(c: char): nat
    requires IsDigit(c)
  {
    (c as int) - ('0' as int)
  }

  function DigitChar(d: nat): (c: char)
    requires d < 10
    ensures IsDigit(c) && DigitValue(c) == d
  {
    ('0' as int + d) as char
  }

  /** The value of a string of decimal digits, most significant first. */
  function DecimalValue(s: string): nat
    requires IsDigits(s)
  {
    if |s| == 0 then 0 else DecimalValue(s[..|s| - 1]) * 10 + DigitValue(s[|s| - 1])
  }

  /** True when `s` is the canonical decimal rendering: no leading zero
      unless the number is zero itself. */
  predicate Canonical(s: string) {
    |s| > 0 && IsDigits(s) && (s[0] != '0' || |s| == 1)
  }

  /** `ToString()` of a non-negative integer. */
  function NatToString(n: nat): (s: string)
    ensures Canonical(s)
    ensures DecimalValue(s) == n
  {
    if n < 10 then [DigitChar(n)]
    else
      var init := NatToString(n / 10);
      var s := init + [DigitChar(n % 10)];
      assert s[..|s| - 1] == init;
      s
  }

  /** Reading back a canonical rendering gives the same text: printing
      and parsing are inverse on canonical digit strings. */
  lemma {:induction false} PrintOfParse(s: string)
    requires Canonical(s)
    ensures NatToString(DecimalValue(s)) == s
    decreases |s|
  {
    if |s| == 1 {
    } else {
      var init := s[..|s| - 1];
      assert Canonical(init);
      PrintOfParse(init);
      var n := DecimalValue(s);
      assert init[0] != '0';
      NonZeroLeadingDigit(init);
      assert n / 10 == DecimalValue(init);
      assert n % 10 == DigitValue(s[|s| - 1]);
      assert n >= 10;
      assert [DigitChar(n % 10)] == [s[|s| - 1]];
      assert s == init + [s[|s| - 1]];
    }
  }

  /** A digit string that does not start with `0` has a positive value. */
  lemma {:induction false} NonZeroLeadingDigit(s: string)
    requires |s| > 0 && IsDigits(s) && s[0] != '0'
    ensures DecimalValue(s) > 0
    decreases |s|
  {
    if |s| > 1 {
      var init := s[..|s| - 1];
      assert init[0] == s[0];
      NonZeroLeadingDigit(init);
    }
  }

  /** `ToString()` of a (signed) integer. */
  function IntToString(i: int): (s: string)
    ensures |s| > 0
  {
    if i < 0 then "-" + NatToString(-i) else NatToString(i)
  }

  /** `ulong.TryParse`, restricted to its plain form: a non-empty string of
      ASCII digits whose value fits in 64 bits. */
  function ParseULong(s: string): (r: Option<Id>)
    ensures r.Some? <==> |s| > 0 && IsDigits(s) && DecimalValue(s) < U64_MODULUS
    ensures r.Some? ==> r.value == DecimalValue(s)
  {
    if |s| > 0 && IsDigits(s) && DecimalValue(s) < U64_MODULUS then Some(DecimalValue(s)) else None
  }

  /** `int.TryParse`, restricted to an optional sign followed by a non-empty
      string of ASCII digits whose value fits in 32 bits. */
  function ParseInt32(s: string): (r: Option<int>)
    ensures r.Some? ==> INT32_MIN <= r.value <= INT32_MAX
    ensures |s| > 0 && s[0] == '-' ==>
              r == if |s| > 1 && IsDigits(s[1..]) && DecimalValue(s[1..]) <= -INT32_MIN
                   then Some(-(DecimalValue(s[1..]) as int)) else None
    ensures |s| > 0 && s[0] == '+' ==>
              r == if |s| > 1 && IsDigits(s[1..]) && DecimalValue(s[1..]) <= INT32_MAX
                   then Some(DecimalValue(s[1..])) else None
    ensures |s| == 0 || IsDigit(s[0]) ==>
              r == if |s| > 0 && IsDigits(s) && DecimalValue(s) <= INT32_MAX then Some(DecimalValue(s)) else None
    ensures |s| > 0 && s[0] != '-' && s[0] != '+' && !IsDigit(s[0]) ==> r.None?
  {
    var negative := |s| > 0 && s[0] == '-';
    var body := if |s| > 0 && (s[0] == '-' || s[0] == '+') then s[1..] else s;
    if |body| == 0 || !IsDigits(body) then None
    else
      var d: int := DecimalValue(body);
      var v := if negative then -d else d;
      if INT32_MIN <= v <= INT32_MAX then Some(v) else None
  }

  /** Parsing what `ToString()` printed returns the original number. */
  lemma ParseULongOfPrint(n: Id)
    ensures ParseULong(NatToString(n)) == Some(n)
  {
  }

  /** `int.TryParse` reads back every 32-bit integer `ToString()` prints. */
  lemma ParseInt32OfPrint(i: int)
    requires INT32_MIN <= i <= INT32_MAX
    ensures ParseInt32(IntToString(i)) == Some(i)
  {
    var s := IntToString(i);
    if i < 0 {
      assert s[0] == '-' && s[1..] == NatToString(-i);
    } else {
      assert s == NatToString(i);
      assert IsDigit(s[0]);
    }
  }

  // ---------------------------------------------------------------------
  // Case mapping (ASCII subset of ToLowerInvariant / ToUpperInvariant)

  function LowerChar(c: char): char {
    if 'A' <= c <= 'Z' then (c as int + 32) as char else c
  }

  function UpperChar(c: char): char {
    if 'a' <= c <= 'z' then (c as int - 32) as char else c
  }

  function Lower(s: string): (r: string)
    ensures |r| == |s|
    ensures forall i :: 0 <= i < |s| ==> r[i] == LowerChar(s[i])
  {
    seq(|s|, i requires 0 <= i < |s| => LowerChar(s[i]))
  }

  function Upper(s: string): (r: string)
    ensures |r| == |s|
    ensures forall i :: 0 <= i < |s| ==> r[i] == UpperChar(s[i])
  {
    seq(|s|, i requires 0 <= i < |s| => UpperChar(s[i]))
  }

  predicate HasNoUpper(s: string) {
    forall i :: 0 <= i < |s| ==> !('A' <= s[i] <= 'Z')
  }

  /** Lower-casing leaves no upper-case letter and is idempotent. */
  lemma LowerIsLower(s: string)
    ensures HasNoUpper(Lower(s))
    ensures Lower(Lower(s)) == Lower(s)
  {
  }

  /** Lower-casing forgets exactly the case of the letters: an upper-cased
      string lower-cases to the same text as the original. */
  lemma LowerOfUpper(s: string)
    ensures Lower(Upper(s)) == Lower(s)
  {
  }

  // ---------------------------------------------------------------------
  // Whitespace and Trim

  /** `char.IsWhiteSpace`: the Unicode space separators, line and
      paragraph separators, and the control characters U+0009..U+000D
      and U+0085. */
  predicate IsWhiteSpace(c: char) {
    var n := c as int;
    n == 0x20 || 0x09 <= n <= 0x0D || n == 0x85 || n == 0xA0 || n == 0x1680
    || 0x2000 <= n <= 0x200A || n == 0x2028 || n == 0x2029 || n == 0x202F
    || n == 0x205F || n == 0x3000
  }

  function TrimStart(s: string): (r: string)
    ensures |r| <= |s| && r == s[|s| - |r|..]
    ensures forall i :: 0 <= i < |s| - |r| ==> IsWhiteSpace(s[i])
    ensures |r| > 0 ==> !IsWhiteSpace(r[0])
  {
    if |s| > 0 && IsWhiteSpace(s[0]) then TrimStart(s[1..]) else s
  }

  function TrimEnd(s: string): (r: string)
    ensures |r| <= |s| && r == s[..|r|]
    ensures forall i :: |r| <= i < |s| ==> IsWhiteSpace(s[i])
    ensures |r| > 0 ==> !IsWhiteSpace(r[|r| - 1])
  {
    if |s| > 0 && IsWhiteSpace(s[|s| - 1]) then TrimEnd(s[..|s| - 1]) else s
  }

  /** `r` is `s[i..j]`, and everything of `s` outside that slice is white
      space. */
  predicate CutsOuter(s: string, r: string, i: int, j: int) {
    && 0 <= i <= j <= |s| && r == s[i..j]
    && (forall k :: 0 <= k < i ==> IsWhiteSpace(s[k]))
    && (forall k :: j <= k < |s| ==> IsWhiteSpace(s[k]))
  }

  /** `string.Trim()`: removes leading and trailing white space, and only
      that. */
  function Trim(s: string): (r: string)
    ensures |r| > 0 ==> !IsWhiteSpace(r[0]) && !IsWhiteSpace(r[|r| - 1])
    ensures exists i, j :: CutsOuter(s, r, i, j)
  {
    var t := TrimStart(s);
    var r := TrimEnd(t);
    TrimCutsOuter(s, t, r);
    r
  }

  /** Trimming the end of what `TrimStart` left cuts only outer white
      space. */
  lemma TrimCutsOuter(s: string, t: string, r: string)
    requires |t| <= |s| && t == s[|s| - |t|..] && forall k :: 0 <= k < |s| - |t| ==> IsWhiteSpace(s[k])
    requires |r| <= |t| && r == t[..|r|] && forall k :: |r| <= k < |t| ==> IsWhiteSpace(t[k])
    ensures CutsOuter(s, r, |s| - |t|, |s| - |t| + |r|)
  {
    var i := |s| - |t|;
    var j := i + |r|;
    assert r == s[i..j];
    forall k | j <= k < |s|
      ensures IsWhiteSpace(s[k])
    {
      assert s[k] == t[k - i];
    }
  }

  // ---------------------------------------------------------------------
  // Split(char, count) and its inverse

  /** The parts joined back together with `sep` between neighbours. */
  function Join(parts: seq<string>, sep: char): string {
    if |parts| == 0 then ""
    else if |parts| == 1 then parts[0]
    else parts[0] + [sep] + Join(parts[1..], sep)
  }

  /** `parts` is what `s.Split(sep, count)` returns: between one and
      `count` parts that join back to `s`, no separator inside a part
      except in the last, and none there either when fewer than `count`
      parts came out. */
  predicate SplitsInto(s: string, sep: char, count: nat, parts: seq<string>) {
    && 1 <= |parts| <= count
    && Join(parts, sep) == s
    && (forall i :: 0 <= i < |parts| - 1 ==> sep !in parts[i])
    && (|parts| < count ==> sep !in parts[|parts| - 1])
  }

  /** `s.Split(sep, count)`: at most `count` parts; the last part keeps the
      rest of the string, separators included. */
  function SplitN(s: string, sep: char, count: nat): (parts: seq<string>)
    requires count >= 1
    ensures SplitsInto(s, sep, count, parts)
    decreases count
  {
    if count == 1 then [s]
    else
      match IndexOf(s, sep)
      case None => [s]
      case Some(k) =>
        var rest := SplitN(s[k + 1..], sep, count - 1);
        ConsPart(s, k, rest, sep, count);
        [s[..k]] + rest
  }

  /** The field before the first separator, in front of a split of what
      follows it into `count - 1`, is a split into `count`. */
  lemma ConsPart(s: string, k: nat, rest: seq<string>, sep: char, count: nat)
    requires k < |s| && s[k] == sep && sep !in s[..k] && count >= 2
    requires SplitsInto(s[k + 1..], sep, count - 1, rest)
    ensures SplitsInto(s, sep, count, [s[..k]] + rest)
  {
    var parts := [s[..k]] + rest;
    JoinCons(s[..k], rest, sep);
    assert s == s[..k] + [sep] + s[k + 1..];
    forall i | 0 <= i < |parts| - 1
      ensures sep !in parts[i]
    {
      if i > 0 {
        assert parts[i] == rest[i - 1];
      }
    }
    assert parts[|parts| - 1] == rest[|rest| - 1];
  }

  lemma JoinCons(head: string, rest: seq<string>, sep: char)
    requires |rest| >= 1
    ensures Join([head] + rest, sep) == head + [sep] + Join(rest, sep)
  {
    assert ([head] + rest)[1..] == rest;
  }

  /** `s` up to its first `c`, or all of `s` when it has none. */
  function Before(s: string, c: char): (r: string)
    ensures c !in r
    ensures |r| <= |s| && r == s[..|r|]
    ensures |r| < |s| ==> s[|r|] == c
    ensures c !in s ==> r == s
  {
    match IndexOf(s, c)
    case None => s
    case Some(k) => s[..k]
  }

  /** What follows the first `c` of `s`, when there is one. */
  function After(s: string, c: char): (r: Option<string>)
    ensures r.None? <==> c !in s
    ensures r.Some? ==> s == Before(s, c) + [c] + r.value
  {
    match IndexOf(s, c)
    case None => None
    case Some(k) =>
      assert s == s[..k] + [c] + s[k + 1..];
      Some(s[k + 1..])
  }

  /** A separator-free head followed by a separator is the text before
      the first separator. */
  lemma FirstSeparator(s: string, head: string, rest: string, c: char)
    requires c !in head && s == head + [c] + rest
    ensures Before(s, c) == head && After(s, c) == Some(rest)
  {
    var k := |head|;
    assert s[k] == c;
    match IndexOf(s, c)
    case Some(j) =>
      assert j == k;
      assert s[..k] == head && s[k + 1..] == rest;
  }

  /** `s.Split(c, 2)` is the text before the first `c` and, when there is
      a `c`, everything after it. */
  lemma {:induction false} SplitTwo(s: string, c: char)
    ensures var parts := SplitN(s, c, 2);
            parts[0] == Before(s, c)
            && (|parts| > 1 <==> c in s)
            && (|parts| > 1 ==> |parts| == 2 && After(s, c) == Some(parts[1]))
  {
    var parts := SplitN(s, c, 2);
    if |parts| == 1 {
      assert s == parts[0];
    } else {
      assert parts == [parts[0]] + parts[1..];
      JoinCons(parts[0], parts[1..], c);
      assert Join(parts[1..], c) == parts[1];
      FirstSeparator(s, parts[0], parts[1], c);
    }
  }

  /** `s.Split(c, 3)`: the first two fields are the text before the first
      and between the first and second `c`, the third is the rest. */
  lemma {:induction false} SplitThree(s: string, c: char)
    ensures var parts := SplitN(s, c, 3);
            parts[0] == Before(s, c)
            && (|parts| > 1 <==> c in s)
            && (|parts| > 1 ==> parts[1] == Before(After(s, c).value, c))
            && (|parts| > 2 <==> |parts| > 1 && c in After(s, c).value)
            && (|parts| > 2 ==> |parts| == 3 && After(After(s, c).value, c) == Some(parts[2]))
  {
    var parts := SplitN(s, c, 3);
    if |parts| == 1 {
      assert s == parts[0];
    } else {
      var tail := parts[1..];
      assert parts == [parts[0]] + tail;
      JoinCons(parts[0], tail, c);
      FirstSeparator(s, parts[0], Join(tail, c), c);
      var rest := After(s, c).value;
      assert rest == Join(tail, c);
      if |tail| == 1 {
        assert rest == tail[0];
      } else {
        assert tail == [tail[0]] + tail[1..];
        JoinCons(tail[0], tail[1..], c);
        assert Join(tail[1..], c) == tail[1];
        FirstSeparator(rest, tail[0], tail[1], c);
      }
    }
  }

  // ---------------------------------------------------------------------
  // Upper-casing commutes with trimming and with splitting at a space

  /** Case mapping never turns white space into a letter or back. */
  lemma UpperKeepsWhiteSpace(c: char)
    ensures IsWhiteSpace(UpperChar(c)) <==> IsWhiteSpace(c)
    ensures UpperChar(c) == ' ' <==> c == ' '
  {
  }

  lemma UpperConcat(a: string, b: string)
    ensures Upper(a + b) == Upper(a) + Upper(b)
  {
  }

  lemma {:induction false} TrimStartUpper(s: string)
    ensures TrimStart(Upper(s)) == Upper(TrimStart(s))
    decreases |s|
  {
    if |s| > 0 {
      UpperKeepsWhiteSpace(s[0]);
      if IsWhiteSpace(s[0]) {
        assert Upper(s)[1..] == Upper(s[1..]);
        TrimStartUpper(s[1..]);
      }
    }
  }

  lemma {:induction false} TrimEndUpper(s: string)
    ensures TrimEnd(Upper(s)) == Upper(TrimEnd(s))
    decreases |s|
  {
    if |s| > 0 {
      UpperKeepsWhiteSpace(s[|s| - 1]);
      if IsWhiteSpace(s[|s| - 1]) {
        assert Upper(s)[..|s| - 1] == Upper(s[..|s| - 1]);
        TrimEndUpper(s[..|s| - 1]);
      }
    }
  }

  /** Trimming an upper-cased string is upper-casing the trimmed one. */
  lemma TrimUpper(s: string)
    ensures Trim(Upper(s)) == Upper(Trim(s))
  {
    TrimStartUpper(s);
    TrimEndUpper(TrimStart(s));
  }

  /** Upper-casing never introduces a space. */
  lemma LowerNoSpace(t: string)
    requires ' ' !in t
    ensures ' ' !in Lower(t)
  {
    forall i | 0 <= i < |t|
      ensures Lower(t)[i] != ' '
    {
      assert t[i] != ' ';
    }
  }

  lemma UpperNoSpace(t: string)
    requires ' ' !in t
    ensures ' ' !in Upper(t)
  {
    forall i | 0 <= i < |t|
      ensures Upper(t)[i] != ' '
    {
      UpperKeepsWhiteSpace(t[i]);
    }
  }

  /** The text before the first space of an upper-cased string is the
      upper-cased text before the first space. */
  lemma BeforeSpaceUpper(s: string)
    ensures Before(Upper(s), ' ') == Upper(Before(s, ' '))
  {
    var head := Before(s, ' ');
    match After(s, ' ')
    case Some(rest) =>
      UpperNoSpace(head);
      UpperAroundSpace(s, head, rest);
      FirstSeparator(Upper(s), Upper(head), Upper(rest), ' ');
    case None =>
      UpperNoSpace(s);
  }

  /** Upper-casing around a space upper-cases both sides and keeps the space. */
  lemma UpperAroundSpace(s: string, head: string, rest: string)
    requires s == head + [' '] + rest
    ensures Upper(s) == Upper(head) + [' '] + Upper(rest)
  {
    var u := Upper(head) + [' '] + Upper(rest);
    assert |Upper(s)| == |u|;
    forall i | 0 <= i < |s|
      ensures Upper(s)[i] == u[i]
    {
      if i < |head| {
        assert s[i] == head[i];
      } else if i > |head| {
        assert s[i] == rest[i - |head| - 1];
      }
    }
  }
}
