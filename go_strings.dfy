/**
 * The parts of Go's strconv and strings packages that the Go handlers rely on:
 * strconv.Atoi for every numeric form field and path segment, the decimal
 * rendering of strconv.FormatInt / %d, and strings.Split on "/".
 */
module GoStrings {
  import opened Wrappers

  /** The range of Go's `int` on a 64-bit platform. */
  const MinInt: int := -0x8000_0000_0000_0000
  const MaxInt: int := 0x7fff_ffff_ffff_ffff

  predicate InIntRange(n: int)
  {
    MinInt <= n <= MaxInt
  }

  predicate IsDigit(c: char)
  {
    '0' <= c <= '9'
  }

  predicate AllDigits(s: string)
  {
    forall i :: 0 <= i < |s| ==> IsDigit(s[i])
  }

  /** The value of a run of decimal digits; leading zeros are allowed. */
  function DigitsValue(s: string): nat
    requires AllDigits(s)
  {
    if s == [] then 0 else DigitsValue(s[..|s| - 1]) * 10 + (s[|s| - 1] - '0') as int
  }

  /** The optional leading sign of a decimal literal: (negative, digits). */
  function SplitSign(s: string): (string, bool)
  {
    if |s| > 0 && (s[0] == '+' || s[0] == '-') then (s[1..], s[0] == '-') else (s, false)
  }

  /**
   * strconv.Atoi in base 10: one optional '+' or '-', then at least one ASCII
   * digit and nothing else (no spaces, no underscores, no prefix), with the
   * value inside the range of `int`; anything else is an error (None).
   */
  function Atoi(s: string): (r: Option<int>)
    ensures r.Some? ==> InIntRange(r.value)
    ensures r.Some? ==> var (body, neg) := SplitSign(s);
                        |body| > 0 && AllDigits(body)
                        && r.value == (if neg then -(DigitsValue(body) as int) else DigitsValue(body) as int)
    ensures var (body, neg) := SplitSign(s);
            (|body| > 0 && AllDigits(body)
             && InIntRange(if neg then -(DigitsValue(body) as int) else DigitsValue(body) as int)) ==> r.Some?
    ensures s == [] ==> r.None?
  {
    var (body, neg) := SplitSign(s);
    if |body| == 0 || !AllDigits(body) then None
    else
      var n: int := if neg then -(DigitsValue(body) as int) else DigitsValue(body);
      if InIntRange(n) then Some(n) else None
  }

  function DigitChar(d: nat): (c: char)
    requires d < 10
    ensures IsDigit(c) && (c - '0') as int == d
  {
    '0' + d as char
  }

  /** Decimal digits of a natural number, most significant first, no leading zero. */
  function NatDigits(n: nat): (s: string)
    ensures |s| > 0 && AllDigits(s)
    decreases n
  {
    if n < 10 then [DigitChar(n)] else NatDigits(n / 10) + [DigitChar(n % 10)]
  }

  /** strconv.Itoa / FormatInt(n, 10) / fmt's %d: a '-' for negatives, then the digits. */
  function Itoa(n: int): (s: string)
    ensures |s| > 0
  {
    if n < 0 then "-" + NatDigits(-n) else NatDigits(n)
  }

  lemma {:induction false} NatDigitsValue(n: nat)
    ensures DigitsValue(NatDigits(n)) == n
    decreases n
  {
    var s := NatDigits(n);
    if n >= 10 {
      NatDigitsValue(n / 10);
      assert s[..|s| - 1] == NatDigits(n / 10);
    }
  }

  /** Rendering then parsing gives the number back, for every `int`. */
  lemma ItoaRoundTrip(n: int)
    requires InIntRange(n)
    ensures Atoi(Itoa(n)) == Some(n)
  {
    var m: nat := if n < 0 then -n else n;
    NatDigitsValue(m);
    var s := Itoa(n);
    if n < 0 {
      assert SplitSign(s) == (NatDigits(m), true);
    } else {
      assert IsDigit(s[0]);
      assert SplitSign(s) == (NatDigits(m), false);
    }
  }

  /** Itoa writes only digits and a leading '-': no other character occurs in it. */
  lemma ItoaHasNo(n: int, c: char)
    requires !IsDigit(c) && c != '-'
    ensures c !in Itoa(n)
  {
    var m: nat := if n < 0 then -n else n;
    var digits := NatDigits(m);
    assert forall i :: 0 <= i < |digits| ==> digits[i] != c;
    if n < 0 {
      assert Itoa(n) == "-" + digits;
    }
  }

  // ---------------------------------------------------------------------
  // strings.Split with a one-character separator
  // ---------------------------------------------------------------------

  /** strings.Split(s, sep) for a one-character sep: the pieces between occurrences of sep. */
  function Split(s: string, sep: char): (parts: seq<string>)
    ensures |parts| >= 1
  {
    if s == [] then [""]
    else
      var rest := Split(s[1..], sep);
      if s[0] == sep then [""] + rest else [[s[0]] + rest[0]] + rest[1..]
  }

  /** strings.Join(parts, sep): the inverse of Split. */
  function Join(parts: seq<string>, sep: char): string
    requires |parts| >= 1
  {
    if |parts| == 1 then parts[0] else parts[0] + [sep] + Join(parts[1..], sep)
  }

  function Occurrences(s: string, c: char): nat
  {
    if s == [] then 0 else (if s[0] == c then 1 else 0) + Occurrences(s[1..], c)
  }

  /** Split yields one more piece than there are separators, none holding a separator, and Join undoes it. */
  lemma {:induction false} SplitPieces(s: string, sep: char)
    ensures |Split(s, sep)| == Occurrences(s, sep) + 1
    ensures forall i :: 0 <= i < |Split(s, sep)| ==> sep !in Split(s, sep)[i]
    ensures Join(Split(s, sep), sep) == s
  {
    if s != [] {
      SplitPieces(s[1..], sep);
      var rest := Split(s[1..], sep);
      var parts := Split(s, sep);
      if s[0] == sep {
        assert parts[1..] == rest;
        assert s == [sep] + s[1..];
      } else {
        assert parts[0] == [s[0]] + rest[0];
        assert forall i :: 1 <= i < |parts| ==> parts[i] == rest[i];
        if |rest| > 1 {
          assert parts[1..] == rest[1..];
          assert Join(rest, sep) == rest[0] + [sep] + Join(rest[1..], sep);
        }
        assert s == [s[0]] + s[1..];
      }
    }
  }

  /** A piece without the separator splits to itself. */
  lemma {:induction false} SplitWithoutSep(a: string, sep: char)
    requires sep !in a
    ensures Split(a, sep) == [a]
  {
    if a != [] {
      SplitWithoutSep(a[1..], sep);
      assert [a[0]] + a[1..] == a;
    }
  }

  /** A leading piece without the separator comes off whole. */
  lemma {:induction false} SplitLeadingPiece(a: string, rest: string, sep: char)
    requires sep !in a
    ensures Split(a + [sep] + rest, sep) == [a] + Split(rest, sep)
  {
    var s := a + [sep] + rest;
    if a == [] {
      assert s[1..] == rest;
    } else {
      assert s[1..] == a[1..] + [sep] + rest;
      SplitLeadingPiece(a[1..], rest, sep);
      assert [a[0]] + a[1..] == a;
    }
  }

  /** Joining pieces that hold no separator and splitting again gives the pieces back. */
  lemma {:induction false} SplitJoin(parts: seq<string>, sep: char)
    requires |parts| >= 1
    requires forall i :: 0 <= i < |parts| ==> sep !in parts[i]
    ensures Split(Join(parts, sep), sep) == parts
  {
    if |parts| == 1 {
      SplitWithoutSep(parts[0], sep);
    } else {
      SplitJoin(parts[1..], sep);
      SplitLeadingPiece(parts[0], Join(parts[1..], sep), sep);
      assert [parts[0]] + parts[1..] == parts;
    }
  }
}
