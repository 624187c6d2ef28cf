/** The pieces of JavaScript's string and number behaviour that the board
    and the game rely on: integer template formatting (`${n}`), `Number(s)`,
    `String.prototype.split` with a one-character separator and
    `Array.prototype.join`. */
module Text {

  /** A JavaScript number as far as this model needs one: an integer, or NaN. */
  datatype Num = Int(n: int) | NaN

  /** `v + 1` (NaN stays NaN). */
  function Inc(v: Num): Num
  {
    match v
    case Int(n) => Int(n + 1)
    case NaN => NaN
  }

  predicate IsDigit(c: char) { '0' <= c <= '9' }

  predicate AllDigits(s: string) { forall k :: 0 <= k < |s| ==> IsDigit(s[k]) }

  /** Characters that can occur in `${n}` for an integer n. */
  predicate IsNumeral(c: char) { c == '-' || IsDigit(c) }

  function Digit(d: nat): (c: char)
    requires d < 10
    ensures IsDigit(c) && c as int - '0' as int == d
  {
    ('0' as int + d) as char
  }

  /** Decimal digits of n, no leading zeros ("0" for zero). */
  function NatToString(n: nat): (s: string)
    ensures |s| > 0 && AllDigits(s)
    decreases n
  {
    if n < 10 then [Digit(n)] else NatToString(n / 10) + [Digit(n % 10)]
  }

  /** `${n}` for an integer n. */
  function IntToString(n: int): (s: string)
    ensures |s| > 0
    ensures forall k :: 0 <= k < |s| ==> IsNumeral(s[k])
  {
    if n < 0 then "-" + NatToString(-n) else NatToString(n)
  }

  /** `${v}` for a number that is an integer or NaN. */
  function ShowNum(v: Num): string
  {
    match v
    case Int(n) => IntToString(n)
    case NaN => "NaN"
  }

  /** The value of a string of decimal digits. */
  function DigitsValue(s: string): nat
    requires AllDigits(s)
    decreases |s|
  {
    if s == [] then 0
    else DigitsValue(s[..|s| - 1]) * 10 + (s[|s| - 1] as int - '0' as int)
  }

  /** `Number(s)`: the empty string is 0, an optionally signed run of decimal
      digits is that integer, anything else is NaN. */
  function ParseNumber(s: string): Num
  {
    if s == [] then Int(0)
    else if (s[0] == '-' || s[0] == '+') && |s| > 1 && AllDigits(s[1..]) then
      var d: int := DigitsValue(s[1..]);
      Int(if s[0] == '-' then -d else d)
    else if AllDigits(s) then Int(DigitsValue(s))
    else NaN
  }

  /** `s.split(sep)`: the pieces between separators, in order; the empty
      string splits into one empty piece. */
  function Split(s: string, sep: char): (r: seq<string>)
    ensures |r| > 0
    ensures forall k :: 0 <= k < |r| ==> sep !in r[k]
    decreases |s|
  {
    if s == [] then [""]
    else
      var rest := Split(s[1..], sep);
      if s[0] == sep then [""] + rest
      else [[s[0]] + rest[0]] + rest[1..]
  }

  /** `parts.join(sep)`. */
  function Join(parts: seq<string>, sep: char): string
    decreases |parts|
  {
    if |parts| == 0 then ""
    else if |parts| == 1 then parts[0]
    else parts[0] + [sep] + Join(parts[1..], sep)
  }

  lemma {:induction false} NatToStringValue(n: nat)
    ensures DigitsValue(NatToString(n)) == n
    decreases n
  {
    if n >= 10 {
      NatToStringValue(n / 10);
      var s := NatToString(n / 10);
      assert (s + [Digit(n % 10)])[..|s|] == s;
    }
  }

  /** `Number(`${v}`)` gives v back. */
  lemma ParseShow(v: Num)
    ensures ParseNumber(ShowNum(v)) == v
  {
    match v
    case NaN =>
      assert !IsDigit("NaN"[0]);
    case Int(n) =>
      if n < 0 {
        NatToStringValue(-n);
        assert ("-" + NatToString(-n))[1..] == NatToString(-n);
      } else {
        NatToStringValue(n);
      }
  }

  /** Formatting integers is injective. */
  lemma IntToStringInjective(a: int, b: int)
    requires IntToString(a) == IntToString(b)
    ensures a == b
  {
    ParseShow(Int(a));
    ParseShow(Int(b));
  }

  lemma ShowNumInjective(a: Num, b: Num)
    requires ShowNum(a) == ShowNum(b)
    ensures a == b
  {
    ParseShow(a);
    ParseShow(b);
  }

  /** A string without the separator splits into itself. */
  lemma {:induction false} SplitNoSep(t: string, sep: char)
    requires sep !in t
    ensures Split(t, sep) == [t]
    decreases |t|
  {
    if t != [] {
      assert t[0] != sep && sep !in t[1..];
      SplitNoSep(t[1..], sep);
      assert [t[0]] + t[1..] == t;
    }
  }

  /** A separator-free prefix is glued onto the first piece. */
  lemma {:induction false} SplitAfterPrefix(t: string, s: string, sep: char)
    requires sep !in t
    ensures Split(t + s, sep) == [t + Split(s, sep)[0]] + Split(s, sep)[1..]
    decreases |t|
  {
    if t == [] {
      assert t + s == s;
      assert t + Split(s, sep)[0] == Split(s, sep)[0];
      assert Split(s, sep) == [Split(s, sep)[0]] + Split(s, sep)[1..];
    } else {
      assert t[0] != sep && sep !in t[1..];
      assert (t + s)[1..] == t[1..] + s;
      SplitAfterPrefix(t[1..], s, sep);
      assert [t[0]] + (t[1..] + Split(s, sep)[0]) == t + Split(s, sep)[0];
    }
  }

  /** Splitting a join of separator-free pieces gives the pieces back. */
  lemma {:induction false} SplitJoin(parts: seq<string>, sep: char)
    requires |parts| > 0
    requires forall k :: 0 <= k < |parts| ==> sep !in parts[k]
    ensures Split(Join(parts, sep), sep) == parts
    decreases |parts|
  {
    if |parts| == 1 {
      SplitNoSep(parts[0], sep);
    } else {
      var rest := Join(parts[1..], sep);
      SplitJoin(parts[1..], sep);
      assert parts[0] + [sep] + rest == parts[0] + ([sep] + rest);
      SplitAfterPrefix(parts[0], [sep] + rest, sep);
      assert ([sep] + rest)[1..] == rest;
      assert parts[0] + "" == parts[0];
      assert [parts[0]] + parts[1..] == parts;
    }
  }

  /** Joining the pieces of a split gives the original string back. */
  lemma {:induction false} JoinSplit(s: string, sep: char)
    ensures Join(Split(s, sep), sep) == s
    decreases |s|
  {
    if s != [] {
      var rest := Split(s[1..], sep);
      JoinSplit(s[1..], sep);
      if s[0] == sep {
        assert ([""] + rest)[1..] == rest;
        assert "" + [sep] + Join(rest, sep) == s;
      } else {
        var r := [[s[0]] + rest[0]] + rest[1..];
        assert r[1..] == rest[1..];
        if |rest| == 1 {
          assert [s[0]] + rest[0] == s;
        } else {
          assert Join(rest, sep) == rest[0] + [sep] + Join(rest[1..], sep);
          assert [s[0]] + rest[0] + [sep] + Join(rest[1..], sep) == [s[0]] + Join(rest, sep);
        }
      }
    }
  }

  /** A separator that is not a numeral character never occurs in `${n}`. */
  lemma NotInIntToString(n: int, c: char)
    requires !IsNumeral(c)
    ensures c !in IntToString(n)
  {
  }

  lemma NotInShowNum(v: Num, c: char)
    requires !IsNumeral(c) && c != 'N' && c != 'a'
    ensures c !in ShowNum(v)
  {
    if v.Int? {
      NotInIntToString(v.n, c);
    }
  }

  lemma Split2(a: string, b: string, sep: char)
    requires sep !in a && sep !in b
    ensures Split(a + [sep] + b, sep) == [a, b]
  {
    var parts := [a, b];
    assert parts[1..] == [b];
    SplitJoin(parts, sep);
  }

  lemma Split3(a: string, b: string, c: string, sep: char)
    requires sep !in a && sep !in b && sep !in c
    ensures Split(a + [sep] + b + [sep] + c, sep) == [a, b, c]
  {
    var parts := [a, b, c];
    assert parts[1..] == [b, c] && parts[1..][1..] == [c];
    assert Join(parts[1..][1..], sep) == c;
    assert Join(parts[1..], sep) == b + [sep] + c;
    assert Join(parts, sep) == a + [sep] + (b + [sep] + c);
    assert a + [sep] + b + [sep] + c == a + [sep] + (b + [sep] + c);
    SplitJoin(parts, sep);
  }
}
