/** The string functions the wire formats are made of: decimal numbers, splitting and joining. */
module Text {
  import opened Prelude

  // ---------------------------------------------------------------- decimal numbers

  function DigitChar(d: nat): char
    requires d < 10
  {
    ('0' as int + d) as char
  }

  predicate IsDigit(c: char) {
    '0' <= c <= '9'
  }

  /** `%d` of a non-negative number. */
  function Digits(n: nat): string {
    if n < 10 then [DigitChar(n)] else Digits(n / 10) + [DigitChar(n % 10)]
  }

  /** `%d` of any integer. */
  function Decimal(n: int): string {
    if n < 0 then "-" + Digits(-n) else Digits(n)
  }

  /** The number spelled by a string of digits. */
  function DigitsValue(s: string): nat
    requires forall i :: 0 <= i < |s| ==> IsDigit(s[i])
  {
    if s == [] then 0
    else
      assert IsDigit(s[|s| - 1]);
      10 * DigitsValue(s[..|s| - 1]) + (s[|s| - 1] as int - '0' as int)
  }

  lemma {:induction false} DigitsRead(n: nat)
    ensures Digits(n) != [] && forall i :: 0 <= i < |Digits(n)| ==> IsDigit(Digits(n)[i])
    ensures DigitsValue(Digits(n)) == n
  {
    if n >= 10 {
      DigitsRead(n / 10);
      var front := Digits(n / 10);
      assert Digits(n)[..|Digits(n)| - 1] == front;
    } else {
      assert Digits(n)[..0] == [];
    }
  }

  lemma DecimalSign(n: int)
    ensures Decimal(n) != [] && (Decimal(n)[0] == '-' <==> n < 0)
  {
    DigitsRead(if n < 0 then -n else n);
    assert n >= 0 ==> IsDigit(Digits(n)[0]);
  }

  /** Different integers print differently. */
  lemma DecimalInjective(a: int, b: int)
    ensures Decimal(a) == Decimal(b) ==> a == b
  {
    DecimalSign(a);
    DecimalSign(b);
    DigitsRead(if a < 0 then -a else a);
    DigitsRead(if b < 0 then -b else b);
    assert a < 0 ==> Decimal(a)[1..] == Digits(-a);
    assert b < 0 ==> Decimal(b)[1..] == Digits(-b);
  }

  /** No separator occurs in a printed integer. */
  lemma DecimalHasNo(n: int, c: char)
    requires !IsDigit(c) && c != '-'
    ensures c !in Decimal(n)
  {
    DigitsRead(if n < 0 then -n else n);
  }

  /**
   `strconv.ParseUint(s, 10, 32)` with the error dropped: zero for an empty or malformed string, the
   largest value as soon as the digits read so far exceed it.
   */
  function ParseUint32(s: string): u32 {
    ParseUint32From(s, 0)
  }

  function ParseUint32From(s: string, n: u32): u32 {
    if s == [] then n
    else if !IsDigit(s[0]) then 0
    else
      var next := 10 * n + (s[0] as int - '0' as int);
      if next > U32_MAX then U32_MAX else ParseUint32From(s[1..], next)
  }

  predicate AllDigits(s: string) {
    forall i :: 0 <= i < |s| ==> IsDigit(s[i])
  }

  /** The value of the digits in front of the first character that is none. */
  function DigitsFrom(s: string, n: nat): nat {
    if s == [] || !IsDigit(s[0]) then n else DigitsFrom(s[1..], 10 * n + (s[0] as int - '0' as int))
  }

  lemma {:induction false} DigitsFromGrows(s: string, n: nat)
    ensures DigitsFrom(s, n) >= n
  {
    if s != [] && IsDigit(s[0]) {
      DigitsFromGrows(s[1..], 10 * n + (s[0] as int - '0' as int));
    }
  }

  /**
   Every string, well-formed or not: digits that exceed the range give its largest value, whatever follows
   them; otherwise a character that is no digit gives zero; otherwise it is the number.
   */
  lemma {:induction false} ParseExactly(s: string, n: u32)
    ensures ParseUint32From(s, n) == if DigitsFrom(s, n) > U32_MAX then U32_MAX
                                     else if AllDigits(s) then DigitsFrom(s, n) else 0
  {
    if s != [] && IsDigit(s[0]) {
      var next := 10 * n + (s[0] as int - '0' as int);
      assert AllDigits(s) <==> AllDigits(s[1..]) by {
        assert s == [s[0]] + s[1..];
      }
      if next > U32_MAX {
        DigitsFromGrows(s[1..], next);
      } else {
        ParseExactly(s[1..], next);
      }
    }
  }

  /** Reading from the front or from the back gives one number. */
  lemma {:induction false} DigitsFromValue(s: string, n: nat, d: nat)
    requires AllDigits(s) && d < 10
    ensures DigitsFrom(s + [DigitChar(d)], n) == 10 * DigitsFrom(s, n) + d
    decreases |s|
  {
    var t := s + [DigitChar(d)];
    if s == [] {
      assert t[1..] == [];
    } else {
      assert t[1..] == s[1..] + [DigitChar(d)];
      DigitsFromValue(s[1..], 10 * n + (s[0] as int - '0' as int), d);
    }
  }

  /** So the digits of any number, within the range or not, parse to the number or the largest value. */
  lemma {:induction false} ParseDigits(n: nat)
    ensures DigitsFrom(Digits(n), 0) == n
    ensures ParseUint32(Digits(n)) == if n > U32_MAX then U32_MAX else n
  {
    DigitsRead(n);
    ParseExactly(Digits(n), 0);
    if n >= 10 {
      ParseDigits(n / 10);
      DigitsRead(n / 10);
      DigitsFromValue(Digits(n / 10), 0, n % 10);
    } else {
      assert Digits(n)[1..] == [];
    }
  }

  lemma {:induction false} ParseLastDigit(s: string, n: u32, m: u32, d: nat)
    requires d < 10 && 10 * m + d <= U32_MAX
    requires forall i :: 0 <= i < |s| ==> IsDigit(s[i])
    requires ParseUint32From(s, n) == m && m < U32_MAX
    ensures ParseUint32From(s + [DigitChar(d)], n) == 10 * m + d
    decreases |s|
  {
    var t := s + [DigitChar(d)];
    if s == [] {
      assert t[1..] == [];
    } else {
      assert t[1..] == s[1..] + [DigitChar(d)];
      ParseLastDigit(s[1..], 10 * n + (s[0] as int - '0' as int), m, d);
    }
  }

  /** Reading back a printed counter. */
  lemma {:induction false} ParseDecimal(n: u32)
    ensures ParseUint32(Decimal(n)) == n
  {
    if n < 10 {
      var s := Decimal(n);
      assert s == [DigitChar(n)] && s[1..] == [];
      assert s[0] as int - '0' as int == n;
      assert ParseUint32From(s[1..], n) == n;
    } else {
      ParseDecimal(n / 10);
      DigitsRead(n / 10);
      ParseLastDigit(Digits(n / 10), 0, n / 10, n % 10);
      assert Decimal(n) == Digits(n / 10) + [DigitChar(n % 10)];
    }
  }

  // ---------------------------------------------------------------- splitting and joining

  /** The place of the first `c` in `s`, or the length of `s`. */
  function IndexOf(s: string, c: char): (i: nat)
    ensures i <= |s| && c !in s[..i] && (i < |s| ==> s[i] == c)
  {
    if s == [] || s[0] == c then 0 else 1 + IndexOf(s[1..], c)
  }

  /** `strings.SplitN`: at most `n` parts, the last one unsplit. */
  function SplitN(s: string, sep: char, n: nat): seq<string>
    requires n >= 1
    decreases n
  {
    var i := IndexOf(s, sep);
    if n == 1 || i == |s| then [s] else [s[..i]] + SplitN(s[i + 1..], sep, n - 1)
  }

  /** `strings.Split`. */
  function Split(s: string, sep: char): seq<string>
    decreases |s|
  {
    var i := IndexOf(s, sep);
    if i == |s| then [s] else [s[..i]] + Split(s[i + 1..], sep)
  }

  /** How often `c` occurs in `s`. */
  function Count(s: string, c: char): nat {
    if s == "" then 0 else (if s[0] == c then 1 else 0) + Count(s[1..], c)
  }

  /** `strings.Join`. */
  function Join(parts: seq<string>, sep: char): string {
    if parts == [] then ""
    else if |parts| == 1 then parts[0]
    else parts[0] + [sep] + Join(parts[1..], sep)
  }

  lemma IndexAfter(a: string, sep: char, rest: string)
    requires sep !in a
    ensures IndexOf(a + [sep] + rest, sep) == |a|
  {
    var s := a + [sep] + rest;
    var i := IndexOf(s, sep);
    assert forall j :: 0 <= j < |a| ==> s[j] == a[j];
    assert forall j :: 0 <= j < i ==> s[j] == s[..i][j];
    assert s[|a|] == sep;
  }

  lemma IndexAbsent(s: string, sep: char)
    requires sep !in s
    ensures IndexOf(s, sep) == |s|
  {
  }

  /** `fields`, each followed by the separator, then `rest`. */
  function WithFields(fields: seq<string>, sep: char, rest: string): string {
    if fields == [] then rest else fields[0] + [sep] + WithFields(fields[1..], sep, rest)
  }

  lemma OneField(a: string, sep: char, rest: string)
    ensures WithFields([a], sep, rest) == a + [sep] + rest
  {
    assert [a][1..] == [];
  }

  lemma ThreeFields(a: string, b: string, c: string, sep: char, rest: string)
    ensures WithFields([a, b, c], sep, rest) == a + [sep] + (b + [sep] + (c + [sep] + rest))
  {
    assert [a, b, c][1..] == [b, c] && [b, c][1..] == [c];
    OneField(c, sep, rest);
    assert WithFields([b, c], sep, rest) == b + [sep] + (c + [sep] + rest);
  }

  lemma FourFields(a: string, b: string, c: string, d: string, sep: char, rest: string)
    ensures WithFields([a, b, c, d], sep, rest) == a + [sep] + (b + [sep] + (c + [sep] + (d + [sep] + rest)))
  {
    assert [a, b, c, d][1..] == [b, c, d];
    ThreeFields(b, c, d, sep, rest);
  }

  /** A separator-free field is split off whole, whatever follows. */
  lemma SplitNField(a: string, sep: char, rest: string, n: nat)
    requires sep !in a && n >= 2
    ensures SplitN(a + [sep] + rest, sep, n) == [a] + SplitN(rest, sep, n - 1)
  {
    IndexAfter(a, sep, rest);
    var s := a + [sep] + rest;
    assert s[..|a|] == a && s[|a| + 1..] == rest;
  }

  lemma {:induction false} CountAfter(s: string, c: char)
    ensures var i := IndexOf(s, c);
            Count(s, c) == if i == |s| then 0 else 1 + Count(s[i + 1..], c)
  {
    if s != "" && s[0] != c {
      CountAfter(s[1..], c);
      var i := IndexOf(s[1..], c);
      assert IndexOf(s, c) == i + 1 && s[1..][i..] == s[i + 1..];
      assert i < |s| - 1 ==> s[1..][i + 1..] == s[i + 2..];
    }
  }

  /** Splitting yields one part more than there are separators, and no more than were asked for. */
  lemma {:induction false} SplitCount(s: string, sep: char)
    ensures |Split(s, sep)| == Count(s, sep) + 1
    decreases |s|
  {
    var i := IndexOf(s, sep);
    CountAfter(s, sep);
    if i < |s| {
      SplitCount(s[i + 1..], sep);
    }
  }

  lemma {:induction false} SplitNCount(s: string, sep: char, n: nat)
    requires n >= 1
    ensures |SplitN(s, sep, n)| == if Count(s, sep) < n then Count(s, sep) + 1 else n
    decreases n
  {
    var i := IndexOf(s, sep);
    CountAfter(s, sep);
    if n > 1 && i < |s| {
      SplitNCount(s[i + 1..], sep, n - 1);
    }
  }

  lemma FrontAndBack<T>(s: seq<T>, x: T)
    requires s != []
    ensures [s[0]] + (s[1..] + [x]) == s + [x]
  {
  }

  lemma {:induction false} SplitFields(fields: seq<string>, sep: char, rest: string)
    requires forall i :: 0 <= i < |fields| ==> sep !in fields[i]
    ensures SplitN(WithFields(fields, sep, rest), sep, |fields| + 1) == fields + [rest]
  {
    if fields != [] {
      SplitFields(fields[1..], sep, rest);
      SplitNField(fields[0], sep, WithFields(fields[1..], sep, rest), |fields| + 1);
      FrontAndBack(fields, rest);
    }
  }

  /** With a last field that has no separator, asking for more parts makes no difference. */
  lemma {:induction false} SplitFieldsFully(fields: seq<string>, sep: char, rest: string, n: nat)
    requires n > |fields| && sep !in rest && forall i :: 0 <= i < |fields| ==> sep !in fields[i]
    ensures SplitN(WithFields(fields, sep, rest), sep, n) == fields + [rest]
    decreases |fields|
  {
    if fields == [] {
      IndexAbsent(rest, sep);
    } else {
      SplitFieldsFully(fields[1..], sep, rest, n - 1);
      SplitNField(fields[0], sep, WithFields(fields[1..], sep, rest), n);
      FrontAndBack(fields, rest);
    }
  }

  lemma SplitField(a: string, sep: char, rest: string)
    requires sep !in a
    ensures Split(a + [sep] + rest, sep) == [a] + Split(rest, sep)
  {
    IndexAfter(a, sep, rest);
    var s := a + [sep] + rest;
    assert s[..|a|] == a && s[|a| + 1..] == rest;
  }

  /** Splitting undoes joining when no part holds the separator. */
  lemma {:induction false} SplitJoin(parts: seq<string>, sep: char)
    requires parts != [] && forall i :: 0 <= i < |parts| ==> sep !in parts[i]
    ensures Split(Join(parts, sep), sep) == parts
  {
    if |parts| == 1 {
      IndexAbsent(parts[0], sep);
    } else {
      SplitJoin(parts[1..], sep);
      SplitField(parts[0], sep, Join(parts[1..], sep));
    }
  }

  /** Ends of one length are told apart from what is in front of them. */
  lemma TailsApart<T>(a: seq<T>, s: seq<T>, b: seq<T>, t: seq<T>)
    requires a + s == b + t && |s| == |t|
    ensures a == b && s == t
  {
    assert |a| == |b|;
    assert a == (a + s)[..|a|] && s == (a + s)[|a|..];
    assert b == (b + t)[..|b|] && t == (b + t)[|b|..];
  }

  /** So are ends without a separator, behind one. */
  lemma LastFieldApart(a: string, s: string, b: string, t: string, sep: char)
    requires a + [sep] + s == b + [sep] + t && sep !in s && sep !in t
    ensures a == b && s == t
  {
    var x := a + [sep] + s;
    assert forall i :: |a| < i < |x| ==> x[i] == s[i - |a| - 1];
    assert forall i :: |b| < i < |x| ==> x[i] == t[i - |b| - 1];
    assert x[|a|] == sep && x[|b|] == sep;
    TailsApart(a + [sep], s, b + [sep], t);
    TailsApart(a, [sep], b, [sep]);
  }

  predicate HasPrefix(s: string, prefix: string) {
    prefix <= s
  }
}
