/** Text operations shared by the other modules: case, replacement, splitting, decimal notation. */
module Strings {

  datatype Option<+T> = None | Some(value: T)

  predicate IsAsciiUpper(c: char) { 'A' <= c <= 'Z' }

  predicate IsAsciiLower(c: char) { 'a' <= c <= 'z' }

  predicate IsAsciiLetter(c: char) { IsAsciiUpper(c) || IsAsciiLower(c) }

  /** Capitals of ASCII and Latin-1, and the two ligature and diaeresis pairs that Latin-1 lacks. */
  predicate IsUpper(c: char) {
    IsAsciiUpper(c) || ('\U{C0}' <= c <= '\U{DE}' && c != '\U{D7}') || c == '\U{152}' || c == '\U{178}'
  }

  predicate IsLower(c: char) {
    IsAsciiLower(c) || ('\U{E0}' <= c <= '\U{FE}' && c != '\U{F7}') || c == '\U{153}' || c == '\U{FF}'
  }

  predicate IsLetter(c: char) { IsUpper(c) || IsLower(c) }

  /**
   * The characters whose case, and whether they are letters, Python sees as this module does: ASCII,
   * Latin-1 but for U+AA, U+B5, U+BA and U+DF, the pairs above, and the signs and spaces named in the
   * clean-up, none of which has case.
   */
  predicate IsModelled(c: char) {
    || (c <= '\U{FF}' && c != '\U{AA}' && c != '\U{B5}' && c != '\U{BA}' && c != '\U{DF}')
    || c == '\U{152}' || c == '\U{153}' || c == '\U{178}' || c == '\U{2DC}' || c == '\U{1680}'
    || '\U{2000}' <= c <= '\U{206F}' || c == '\U{20AC}' || c == '\U{2122}' || c == '\U{3000}'
  }

  predicate AllModelled(s: string) { forall i | 0 <= i < |s| :: IsModelled(s[i]) }

  predicate IsDigit(c: char) { '0' <= c <= '9' }

  /** The whitespace that `\s` and `str.strip()` recognise. */
  predicate IsSpace(c: char) {
    || c == ' ' || '\t' <= c <= '\r' || '\U{1C}' <= c <= '\U{1F}'
    || c == '\U{85}' || c == '\U{A0}' || c == '\U{1680}' || '\U{2000}' <= c <= '\U{200A}'
    || c == '\U{2028}' || c == '\U{2029}' || c == '\U{202F}' || c == '\U{205F}' || c == '\U{3000}'
  }

  function LowerChar(c: char): char {
    if c == '\U{152}' then '\U{153}'
    else if c == '\U{178}' then '\U{FF}'
    else if IsUpper(c) then (c as int + 32) as char
    else c
  }

  function UpperChar(c: char): char {
    if c == '\U{153}' then '\U{152}'
    else if c == '\U{FF}' then '\U{178}'
    else if IsLower(c) then (c as int - 32) as char
    else c
  }

  function Lower(s: string): string {
    seq(|s|, i requires 0 <= i < |s| => LowerChar(s[i]))
  }

  function Upper(s: string): string {
    seq(|s|, i requires 0 <= i < |s| => UpperChar(s[i]))
  }

  lemma LowerConcat(a: string, b: string)
    ensures Lower(a + b) == Lower(a) + Lower(b)
  {}

  lemma LowerUpper(s: string)
    ensures Lower(Upper(s)) == Lower(s) && Lower(Lower(s)) == Lower(s)
  {}

  /** `s.replace(find, with)`: left to right, occurrences do not overlap. */
  function ReplaceAll(s: string, find: string, with: string): string
    requires find != ""
    decreases |s|
  {
    if |s| < |find| then s
    else if s[..|find|] == find then with + ReplaceAll(s[|find|..], find, with)
    else [s[0]] + ReplaceAll(s[1..], find, with)
  }

  lemma {:induction false} ReplaceAllLower(s: string, find: string, with: string)
    requires find != "" && Lower(find) == Lower(with)
    ensures Lower(ReplaceAll(s, find, with)) == Lower(s)
    decreases |s|
  {
    if |s| < |find| {
    } else if s[..|find|] == find {
      var rest := s[|find|..];
      ReplaceAllLower(rest, find, with);
      assert s == find + rest;
      LowerConcat(with, ReplaceAll(rest, find, with));
      LowerConcat(find, rest);
    } else {
      ReplaceAllLower(s[1..], find, with);
      assert s == [s[0]] + s[1..];
      LowerConcat([s[0]], s[1..]);
      LowerConcat([s[0]], ReplaceAll(s[1..], find, with));
    }
  }

  lemma {:induction false} ReplaceAllAbsent(s: string, find: string, with: string)
    requires find != "" && find[0] !in s
    ensures ReplaceAll(s, find, with) == s
    decreases |s|
  {
    if |s| < |find| {
    } else {
      assert s[..|find|][0] == s[0];
      ReplaceAllAbsent(s[1..], find, with);
      assert s == [s[0]] + s[1..];
    }
  }

  /** `s.split(sep)` for a one-character separator; always at least one part. */
  function Split(s: string, sep: char): (parts: seq<string>)
    ensures |parts| > 0
    ensures forall p | p in parts :: sep !in p
  {
    if s == "" then [""]
    else if s[0] == sep then [""] + Split(s[1..], sep)
    else
      var rest := Split(s[1..], sep);
      [[s[0]] + rest[0]] + rest[1..]
  }

  lemma {:induction false} SplitChars(s: string, sep: char)
    ensures forall p, c | p in Split(s, sep) && c in p :: c in s
  {
    if s == "" {
    } else {
      SplitChars(s[1..], sep);
      var rest := Split(s[1..], sep);
      assert s == [s[0]] + s[1..];
      if s[0] != sep {
        forall p, c | p in Split(s, sep) && c in p
          ensures c in s
        {
          if p == [s[0]] + rest[0] {
            assert rest[0] in rest;
          } else {
            assert p in rest;
          }
        }
      }
    }
  }

  lemma {:induction false} SplitNothing(s: string, sep: char)
    requires sep !in s
    ensures Split(s, sep) == [s]
  {
    if s == "" {
    } else {
      SplitNothing(s[1..], sep);
      assert s == [s[0]] + s[1..];
    }
  }

  function Join(parts: seq<string>, sep: string): string {
    if |parts| == 0 then ""
    else if |parts| == 1 then parts[0]
    else parts[0] + sep + Join(parts[1..], sep)
  }

  lemma {:induction false} JoinSplit(s: string, sep: char)
    ensures Join(Split(s, sep), [sep]) == s
  {
    if s == "" {
    } else {
      var rest := Split(s[1..], sep);
      JoinSplit(s[1..], sep);
      assert s == [s[0]] + s[1..];
      if s[0] == sep {
        assert ([""] + rest)[1..] == rest;
      } else {
        var parts := [[s[0]] + rest[0]] + rest[1..];
        if |rest| > 1 {
          assert parts[1..] == rest[1..];
          assert Join(parts, [sep]) == [s[0]] + rest[0] + [sep] + Join(rest[1..], [sep]);
        }
      }
    }
  }

  lemma {:induction false} JoinLower(a: seq<string>, b: seq<string>, sep: string)
    requires |a| == |b| && forall i | 0 <= i < |a| :: Lower(a[i]) == Lower(b[i])
    ensures Lower(Join(a, sep)) == Lower(Join(b, sep))
  {
    if |a| <= 1 {
    } else {
      JoinLower(a[1..], b[1..], sep);
      LowerConcat(a[0] + sep, Join(a[1..], sep));
      LowerConcat(b[0] + sep, Join(b[1..], sep));
      LowerConcat(a[0], sep);
      LowerConcat(b[0], sep);
    }
  }

  /** `s.strip(chars)` as two one-sided trims. */
  function TrimLeft(s: string, drop: char -> bool): (r: string)
    ensures |r| <= |s| && r == s[|s| - |r|..]
    ensures forall i | 0 <= i < |s| - |r| :: drop(s[i])
    ensures r != "" ==> !drop(r[0])
  {
    if s != "" && drop(s[0]) then
      var r := TrimLeft(s[1..], drop);
      assert forall i | 0 <= i < |s| - 1 :: s[1..][i] == s[i + 1];
      assert s[1..][|s| - 1 - |r|..] == s[|s| - |r|..];
      r
    else s
  }

  function TrimRight(s: string, drop: char -> bool): (r: string)
    ensures |r| <= |s| && r == s[..|r|]
    ensures forall i | |r| <= i < |s| :: drop(s[i])
    ensures r != "" ==> !drop(r[|r| - 1])
  {
    if s != "" && drop(s[|s| - 1]) then TrimRight(s[..|s| - 1], drop) else s
  }

  function Trim(s: string, drop: char -> bool): string {
    TrimRight(TrimLeft(s, drop), drop)
  }

  lemma TrimNothing(t: string)
    requires t != "" ==> !IsSpace(t[0]) && !IsSpace(t[|t| - 1])
    ensures Trim(t, IsSpace) == t
  {}

  function Prefix(s: string, n: nat): string {
    if |s| <= n then s else s[..n]
  }

  /** Decimal notation of a natural number, as `str(n)` writes it. */
  function Digits(n: nat): (s: string)
    ensures |s| > 0 && AllDigits(s)
    ensures n < 10 <==> |s| == 1
    ensures n > 0 ==> s[0] != '0'
  {
    if n < 10 then [Digit(n)] else Digits(n / 10) + [Digit(n % 10)]
  }

  function Digit(d: nat): (c: char)
    requires d < 10
    ensures IsDigit(c) && DigitValue(c) == d && (d > 0 ==> c != '0')
  {
    ('0' as int + d) as char
  }

  function DigitValue(c: char): nat
    requires IsDigit(c)
  {
    c as int - '0' as int
  }

  predicate AllDigits(s: string) {
    forall c | c in s :: IsDigit(c)
  }

  /** The number a run of digits denotes, as `int(s)` reads it; leading zeros allowed. */
  function Number(s: string): nat
    requires AllDigits(s)
  {
    if s == "" then 0 else 10 * Number(s[..|s| - 1]) + DigitValue(s[|s| - 1])
  }

  lemma {:induction false} NumberDigits(n: nat)
    ensures Number(Digits(n)) == n
  {
    if n < 10 {
    } else {
      NumberDigits(n / 10);
      assert Digits(n)[..|Digits(n)| - 1] == Digits(n / 10);
    }
  }

  function IntString(n: int): string {
    if n < 0 then "-" + Digits(-n) else Digits(n)
  }

  lemma DigitsInjective(m: nat, n: nat)
    requires Digits(m) == Digits(n)
    ensures m == n
  {
    NumberDigits(m);
    NumberDigits(n);
  }
}
