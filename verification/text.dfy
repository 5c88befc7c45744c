/** String helpers shared by the model: Go's decimal rendering of integers
    (`%d`, `%02d`, `%v`), `strings.LastIndex` on one character, byte-wise
    string ordering, `strings.Trim` with a cut set and `strings.ReplaceAll`
    of one character. Strings are sequences of characters. */
module Text {

  predicate IsDigit(c: char) {
    '0' <= c <= '9'
  }

  predicate AllDigits(s: string) {
    forall i :: 0 <= i < |s| ==> IsDigit(s[i])
  }

  /** The character of decimal digit `d`. */
  function DigitChar(d: nat): (c: char)
    requires d < 10
    ensures IsDigit(c) && c as int - '0' as int == d
  {
    ('0' as int + d) as char
  }

  /** The decimal digits of `n`, most significant first, with no leading zero. */
  function Digits(n: nat): (s: string)
    ensures |s| >= 1 && AllDigits(s)
    ensures s[0] == '0' <==> n == 0
  {
    if n < 10 then [DigitChar(n)] else Digits(n / 10) + [DigitChar(n % 10)]
  }

  /** The number a string of decimal digits denotes; the inverse of `Digits`. */
  function ValueOf(s: string): nat
    requires AllDigits(s)
  {
    if s == [] then 0 else 10 * ValueOf(s[..|s| - 1]) + (s[|s| - 1] as int - '0' as int)
  }

  lemma {:induction false} DigitsRoundTrip(n: nat)
    ensures ValueOf(Digits(n)) == n
  {
    if n >= 10 {
      var s := Digits(n);
      assert s[..|s| - 1] == Digits(n / 10);
      DigitsRoundTrip(n / 10);
    }
  }

  /** Go's `%d` (and `%v`) rendering of an integer: a minus sign for a negative
      value, then the digits of its magnitude. */
  function Decimal(n: int): (s: string)
    ensures |s| >= 1
  {
    if n < 0 then "-" + Digits(-n) else Digits(n)
  }

  /** A decimal rendering holds only digits and the minus sign. */
  lemma DecimalChars(n: int)
    ensures forall i :: 0 <= i < |Decimal(n)| ==> Decimal(n)[i] == '-' || IsDigit(Decimal(n)[i])
  {
    if n < 0 {
      assert forall i :: 1 <= i < |Decimal(n)| ==> Decimal(n)[i] == Digits(-n)[i - 1];
    }
  }

  /** Reads back a rendering made by `Decimal` or `Pad2`. */
  function DecimalValue(s: string): int
    requires s != [] && (if s[0] == '-' then AllDigits(s[1..]) else AllDigits(s))
  {
    if s[0] == '-' then 0 - ValueOf(s[1..]) else ValueOf(s)
  }

  predicate IsDecimalText(s: string) {
    s != [] && (if s[0] == '-' then AllDigits(s[1..]) else AllDigits(s))
  }

  lemma DecimalRoundTrip(n: int)
    ensures IsDecimalText(Decimal(n)) && DecimalValue(Decimal(n)) == n
  {
    var s := Decimal(n);
    if n < 0 {
      assert s[1..] == Digits(-n);
      DigitsRoundTrip(-n);
    } else {
      DigitsRoundTrip(n);
    }
  }

  /** Go's `%02d`: at least two characters, a zero in front of a single digit. */
  function Pad2(n: int): (s: string)
    ensures |s| >= 2
    ensures IsDecimalText(s) && DecimalValue(s) == n
    ensures 0 <= n < 100 ==> |s| == 2
    ensures n >= 0 ==> AllDigits(s)
  {
    DecimalRoundTrip(n);
    if 0 <= n < 10 then
      var s := ['0', DigitChar(n)];
      assert s[..1] == ['0'] && s[..1][..0] == [];
      assert ValueOf(s) == 10 * ValueOf(s[..1]) + n;
      s
    else
      assert n >= 10 ==> |Digits(n)| >= 2 by {
        if n >= 10 { assert Digits(n) == Digits(n / 10) + [DigitChar(n % 10)]; }
      }
      Decimal(n)
  }

  /** `strings.LastIndex(s, string(c))`: the position of the last `c`, or -1. */
  function LastIndex(s: string, c: char): (i: int)
    ensures -1 <= i < |s|
    ensures i == -1 <==> c !in s
    ensures i >= 0 ==> s[i] == c && c !in s[i + 1..]
  {
    if s == [] then -1
    else if s[|s| - 1] == c then |s| - 1
    else
      var i := LastIndex(s[..|s| - 1], c);
      assert s == s[..|s| - 1] + [s[|s| - 1]];
      assert i >= 0 ==> s[i + 1..] == s[..|s| - 1][i + 1..] + [s[|s| - 1]];
      i
  }

  /** The part of `s` after its last `c`; all of `s` when it has none. */
  function AfterLast(s: string, c: char): (r: string)
    ensures c !in r
    ensures |r| <= |s| && r == s[|s| - |r|..]
    ensures |r| < |s| ==> s[|s| - |r| - 1] == c
  {
    var i := LastIndex(s, c);
    if i < 0 then s else s[i + 1..]
  }

  /** When `s` has no `c` at all, `AfterLast` returns it unchanged. */
  lemma AfterLastWithout(s: string, c: char)
    requires c !in s
    ensures AfterLast(s, c) == s
  {
  }

  /** The last `c` of `p + [c] + q`, when `q` has none, is the one between them. */
  lemma {:induction false} LastIndexOfJoin(p: string, c: char, q: string)
    requires c !in q
    ensures LastIndex(p + [c] + q, c) == |p|
  {
    if q != [] {
      var q' := q[..|q| - 1];
      assert (p + [c] + q)[..|p + [c] + q| - 1] == p + [c] + q';
      assert q[|q| - 1] in q;
      LastIndexOfJoin(p, c, q');
    }
  }

  /** After appending `c` and a suffix without `c`, that suffix is what remains. */
  lemma AfterLastOfJoin(p: string, c: char, q: string)
    requires c !in q
    ensures AfterLast(p + [c] + q, c) == q
  {
    LastIndexOfJoin(p, c, q);
    assert (p + [c] + q)[|p| + 1..] == q;
  }

  /** Go's `<` on strings: lexicographic on characters, a proper prefix first. */
  predicate Less(a: string, b: string) {
    if a == [] then b != []
    else if b == [] then false
    else a[0] < b[0] || (a[0] == b[0] && Less(a[1..], b[1..]))
  }

  lemma {:induction false} LessIrreflexive(a: string)
    ensures !Less(a, a)
  {
    if a != [] { LessIrreflexive(a[1..]); }
  }

  lemma {:induction false} LessTransitive(a: string, b: string, c: string)
    requires Less(a, b) && Less(b, c)
    ensures Less(a, c)
  {
    if a != [] && a[0] == b[0] && b[0] == c[0] {
      LessTransitive(a[1..], b[1..], c[1..]);
    }
  }

  lemma {:induction false} LessTotal(a: string, b: string)
    requires a != b
    ensures Less(a, b) || Less(b, a)
  {
    if a != [] && b != [] && a[0] == b[0] {
      assert a == [a[0]] + a[1..] && b == [b[0]] + b[1..];
      LessTotal(a[1..], b[1..]);
    }
  }

  /** "Not after" is transitive: the order the sorts below rely on. */
  lemma NotLessTransitive(a: string, b: string, c: string)
    requires !Less(b, a) && !Less(c, b)
    ensures !Less(c, a)
  {
    if Less(c, a) {
      if a == b {
      } else {
        LessTotal(a, b);
        LessTransitive(c, a, b);
      }
    }
  }

  /** `strings.TrimLeft(s, cut)`: drops the leading characters that are in `cut`. */
  function TrimLeft(s: string, cut: set<char>): (r: string)
    ensures |r| <= |s|
  {
    if s != [] && s[0] in cut then TrimLeft(s[1..], cut) else s
  }

  /** What `TrimLeft` leaves is a suffix that does not start with a character
      of `cut`, and everything it dropped is in `cut`. */
  lemma {:induction false} TrimLeftShape(s: string, cut: set<char>)
    ensures var r := TrimLeft(s, cut);
      && r == s[|s| - |r|..]
      && (r != [] ==> r[0] !in cut)
      && forall i :: 0 <= i < |s| - |r| ==> s[i] in cut
  {
    if s != [] && s[0] in cut {
      TrimLeftShape(s[1..], cut);
    }
  }

  /** `strings.TrimRight(s, cut)`: drops the trailing characters that are in `cut`. */
  function TrimRight(s: string, cut: set<char>): (r: string)
    ensures |r| <= |s|
  {
    if s != [] && s[|s| - 1] in cut then TrimRight(s[..|s| - 1], cut) else s
  }

  /** What `TrimRight` leaves is a prefix that does not end with a character
      of `cut`, and everything it dropped is in `cut`. */
  lemma {:induction false} TrimRightShape(s: string, cut: set<char>)
    ensures var r := TrimRight(s, cut);
      && r == s[..|r|]
      && (r != [] ==> r[|r| - 1] !in cut)
      && forall i :: |r| <= i < |s| ==> s[i] in cut
  {
    if s != [] && s[|s| - 1] in cut {
      TrimRightShape(s[..|s| - 1], cut);
    }
  }

  /** `strings.Trim(s, cut)` (and `strings.TrimSpace` when `cut` is the set of
      white-space characters). */
  function Trim(s: string, cut: set<char>): (r: string)
    ensures r != [] ==> r[0] !in cut && r[|r| - 1] !in cut
  {
    TrimLeftShape(s, cut);
    TrimRightShape(TrimLeft(s, cut), cut);
    TrimRight(TrimLeft(s, cut), cut)
  }

  /** A string with no character of `cut` is its own trimming. */
  lemma TrimNone(s: string, cut: set<char>)
    requires forall i :: 0 <= i < |s| ==> s[i] !in cut
    ensures Trim(s, cut) == s
  {
    TrimLeftShape(s, cut);
    TrimRightShape(s, cut);
    assert TrimLeft(s, cut) == s;
  }

  /** Trimming removes only characters of `cut`: every other character of `s`
      survives, and nothing is added. */
  lemma TrimKeeps(s: string, cut: set<char>, c: char)
    requires c !in cut
    ensures c in Trim(s, cut) <==> c in s
  {
    var l := TrimLeft(s, cut);
    var r := TrimRight(l, cut);
    TrimLeftShape(s, cut);
    TrimRightShape(l, cut);
    if c in s {
      var i :| 0 <= i < |s| && s[i] == c;
      assert s[i] == l[i - (|s| - |l|)];
      assert r[i - (|s| - |l|)] == c;
    }
    if c in r {
      var j :| 0 <= j < |r| && r[j] == c;
      assert l[j] == c;
      assert s[j + (|s| - |l|)] == c;
    }
  }

  /** `strings.ReplaceAll(s, string(c), rep)`: every `c` becomes `rep`. */
  function ReplaceChar(s: string, c: char, rep: string): (r: string)
    ensures c !in rep ==> c !in r
    ensures s == [] ==> r == []
  {
    if s == [] then []
    else (if s[0] == c then rep else [s[0]]) + ReplaceChar(s[1..], c, rep)
  }

  /** With a one-character replacement the length is kept and each position is
      either kept or, where it held `c`, replaced. */
  lemma {:induction false} ReplaceCharPointwise(s: string, c: char, d: char)
    ensures |ReplaceChar(s, c, [d])| == |s|
    ensures forall i :: 0 <= i < |s| ==> ReplaceChar(s, c, [d])[i] == if s[i] == c then d else s[i]
  {
    if s != [] {
      ReplaceCharPointwise(s[1..], c, d);
    }
  }

  /** A string without `c` is left unchanged. */
  lemma {:induction false} ReplaceCharAbsent(s: string, c: char, rep: string)
    requires c !in s
    ensures ReplaceChar(s, c, rep) == s
  {
    if s != [] {
      ReplaceCharAbsent(s[1..], c, rep);
      assert s == [s[0]] + s[1..];
    }
  }

  /** Replacement works piece by piece over a concatenation. */
  lemma {:induction false} ReplaceCharAppend(a: string, b: string, c: char, rep: string)
    ensures ReplaceChar(a + b, c, rep) == ReplaceChar(a, c, rep) + ReplaceChar(b, c, rep)
  {
    if a == [] {
      assert a + b == b;
    } else {
      assert (a + b)[0] == a[0] && (a + b)[1..] == a[1..] + b;
      ReplaceCharAppend(a[1..], b, c, rep);
    }
  }
}
