/**
  Spreadsheet cell names, as `coord` builds them: a column number written in
  bijective base 26 over A-Z, followed by the row number in decimal.
*/
module ColumnNames {

  // ----- The column part -----

  /** The letter for one bijective digit, 0 standing for A. */
  function Letter(d: nat): char
    requires d < 26
  {
    ('A' as int + d) as char
  }

  predicate IsLetter(c: char) {
    'A' <= c <= 'Z'
  }

  predicate IsColumnName(s: string) {
    forall i :: 0 <= i < |s| ==> IsLetter(s[i])
  }

  /** Column `n` as letters; the columns below 1 have no letters at all. */
  function ColumnName(n: int): (s: string)
    ensures IsColumnName(s)
  {
    if n <= 0 then "" else ColumnName((n - 1) / 26) + [Letter((n - 1) % 26)]
  }

  /** The usual reading of a column name: each letter shifts by 26 and adds 1 to 26. */
  function ColumnNumber(s: string): (n: nat)
    requires IsColumnName(s)
  {
    if s == "" then 0
    else 26 * ColumnNumber(s[..|s| - 1]) + (s[|s| - 1] as int - 'A' as int) + 1
  }

  lemma {:induction false} NumberOfName(n: nat)
    ensures ColumnNumber(ColumnName(n)) == n
  {
    if n > 0 {
      var rest := ColumnName((n - 1) / 26);
      NumberOfName((n - 1) / 26);
      assert ColumnName(n)[..|rest|] == rest;
    }
  }

  lemma {:induction false} NameOfNumber(s: string)
    requires IsColumnName(s)
    ensures ColumnName(ColumnNumber(s)) == s
  {
    if s != "" {
      var rest, last := s[..|s| - 1], s[|s| - 1];
      NameOfNumber(rest);
      var d := last as int - 'A' as int;
      assert (26 * ColumnNumber(rest) + d) / 26 == ColumnNumber(rest);
      assert Letter(d) == last;
      assert s == rest + [last];
    }
  }

  /** `ColumnName` and `ColumnNumber` are inverse bijections between the columns
      n >= 1 and the non-empty A-Z strings. */
  lemma {:induction false} ColumnNamesAreABijection(n: nat, s: string)
    requires IsColumnName(s)
    ensures ColumnName(n) == s <==> ColumnNumber(s) == n
    ensures n >= 1 <==> ColumnName(n) != ""
  {
    NumberOfName(n);
    NameOfNumber(s);
  }

  // ----- Order -----

  /** Alphabetical order of two strings of one length. */
  predicate AlphaLess(a: string, b: string)
    requires |a| == |b|
  {
    a != "" && (a[0] < b[0] || (a[0] == b[0] && AlphaLess(a[1..], b[1..])))
  }

  /** Shorter first, then alphabetical: the left-to-right order of the columns. */
  predicate ShortlexLess(a: string, b: string) {
    |a| < |b| || (|a| == |b| && AlphaLess(a, b))
  }

  lemma {:induction false} AlphaLessSnoc(a: string, b: string, x: char, y: char)
    requires |a| == |b|
    ensures AlphaLess(a + [x], b + [y]) <==> AlphaLess(a, b) || (a == b && x < y)
  {
    if a == "" {
    } else {
      AlphaLessSnoc(a[1..], b[1..], x, y);
      assert (a + [x])[1..] == a[1..] + [x];
      assert (b + [y])[1..] == b[1..] + [y];
      assert a == [a[0]] + a[1..] && b == [b[0]] + b[1..];
    }
  }

  lemma {:induction false} LaterColumnIsShortlexGreater(m: nat, n: nat)
    requires m < n
    ensures ShortlexLess(ColumnName(m), ColumnName(n))
  {
    if m > 0 {
      var m', n' := (m - 1) / 26, (n - 1) / 26;
      if m' < n' {
        LaterColumnIsShortlexGreater(m', n');
      }
      if |ColumnName(m')| == |ColumnName(n')| {
        AlphaLessSnoc(ColumnName(m'), ColumnName(n'), Letter((m - 1) % 26), Letter((n - 1) % 26));
      }
    }
  }

  lemma {:induction false} AlphaLessAsymmetric(a: string, b: string)
    requires |a| == |b| && AlphaLess(a, b)
    ensures !AlphaLess(b, a)
  {
    if a[0] == b[0] {
      AlphaLessAsymmetric(a[1..], b[1..]);
    }
  }

  /** Column order is exactly shortlex order of the names. */
  lemma {:induction false} ColumnOrderIsShortlex(m: nat, n: nat)
    ensures m < n <==> ShortlexLess(ColumnName(m), ColumnName(n))
  {
    if m < n {
      LaterColumnIsShortlexGreater(m, n);
    } else {
      if n < m {
        LaterColumnIsShortlexGreater(n, m);
      }
      if |ColumnName(m)| == |ColumnName(n)| && AlphaLess(ColumnName(m), ColumnName(n)) {
        AlphaLessAsymmetric(ColumnName(m), ColumnName(n));
      }
    }
  }

  // ----- The row part and whole cells -----

  function Digits(n: nat): (s: string)
    ensures s != "" && forall i :: 0 <= i < |s| ==> '0' <= s[i] <= '9'
  {
    var last := [('0' as int + n % 10) as char];
    if n < 10 then last else Digits(n / 10) + last
  }

  /** A row number as a template literal prints it. */
  function RowText(row: int): (s: string)
    ensures s != "" && !IsLetter(s[0])
  {
    if row < 0 then "-" + Digits(-row) else Digits(row)
  }

  function CellName(row: int, col: int): string {
    ColumnName(col) + RowText(row)
  }

  predicate IsDecimal(s: string) {
    s != "" && (forall i :: 0 <= i < |s| ==> '0' <= s[i] <= '9') && (|s| > 1 ==> s[0] != '0')
  }

  /** The usual reading of a decimal number. */
  function DecimalValue(s: string): nat
    requires forall i :: 0 <= i < |s| ==> '0' <= s[i] <= '9'
  {
    if s == "" then 0 else 10 * DecimalValue(s[..|s| - 1]) + (s[|s| - 1] as int - '0' as int)
  }

  /** The digits of a number are its decimal text: they read as the number, with no zero in front. */
  lemma {:induction false} DigitsAreDecimal(n: nat)
    ensures IsDecimal(Digits(n)) && DecimalValue(Digits(n)) == n
    ensures n > 0 ==> Digits(n)[0] != '0'
  {
    var s := Digits(n);
    if n < 10 {
      assert s[..0] == "";
    } else {
      DigitsAreDecimal(n / 10);
      assert s[..|s| - 1] == Digits(n / 10) && s[0] == Digits(n / 10)[0];
    }
  }

  lemma {:induction false} ValueOfLonger(s: string)
    requires s != "" && (forall i :: 0 <= i < |s| ==> '0' <= s[i] <= '9') && s[0] != '0'
    ensures DecimalValue(s) > 0
  {
    if |s| > 1 {
      ValueOfLonger(s[..|s| - 1]);
    }
  }

  lemma DigitsOfNext(v: nat, d: nat)
    requires d < 10
    ensures Digits(10 * v + d) == (if v == 0 then "" else Digits(v)) + [('0' as int + d) as char]
  {
    assert (10 * v + d) / 10 == v && (10 * v + d) % 10 == d;
  }

  lemma LastDigit(s: string) returns (v: nat, d: nat)
    requires IsDecimal(s)
    ensures d < 10 && s == s[..|s| - 1] + [('0' as int + d) as char] && v == DecimalValue(s[..|s| - 1])
    ensures DecimalValue(s) == 10 * v + d
  {
    v, d := DecimalValue(s[..|s| - 1]), s[|s| - 1] as int - '0' as int;
  }

  /** And every decimal text is the digits of the number it reads as. */
  lemma {:induction false} DecimalIsDigits(s: string)
    requires IsDecimal(s)
    ensures Digits(DecimalValue(s)) == s
  {
    var front := s[..|s| - 1];
    var v, d := LastDigit(s);
    DigitsOfNext(v, d);
    if |s| > 1 {
      assert IsDecimal(front);
      ValueOfLonger(front);
      DecimalIsDigits(front);
    }
  }

  /** A row below zero has a sign in front. */
  lemma {:induction false} RowTextMeaning(row: int)
    ensures row >= 0 ==> IsDecimal(RowText(row)) && DecimalValue(RowText(row)) == row
    ensures row < 0 ==> RowText(row)[0] == '-' && IsDecimal(RowText(row)[1..]) && DecimalValue(RowText(row)[1..]) == -row
  {
    DigitsAreDecimal(if row < 0 then -row else row);
    assert row < 0 ==> RowText(row)[1..] == Digits(-row);
  }

  lemma {:induction false} DigitsInjective(m: nat, n: nat)
    requires Digits(m) == Digits(n)
    ensures m == n
  {
    var a, b := Digits(m), Digits(n);
    assert a[|a| - 1] == b[|b| - 1];
    assert (m < 10 <==> |a| == 1) && (n < 10 <==> |b| == 1);
    if m >= 10 {
      assert a[..|a| - 1] == Digits(m / 10) && b[..|b| - 1] == Digits(n / 10);
      DigitsInjective(m / 10, n / 10);
    }
  }

  lemma RowTextInjective(r: int, r': int)
    requires RowText(r) == RowText(r')
    ensures r == r'
  {
    if r < 0 && r' < 0 {
      assert RowText(r)[1..] == Digits(-r) && RowText(r')[1..] == Digits(-r');
      DigitsInjective(-r, -r');
    } else if r >= 0 && r' >= 0 {
      DigitsInjective(r, r');
    }
  }

  /** The letters of a cell name end where its row starts. */
  lemma LettersEndAtRow(p: string, q: string, r: string, s: string)
    requires IsColumnName(p) && IsColumnName(r)
    requires q != "" && !IsLetter(q[0]) && s != "" && !IsLetter(s[0])
    requires p + q == r + s
    ensures p == r && q == s
  {
    assert !IsLetter((p + q)[|p|]) && !IsLetter((r + s)[|r|]);
    assert forall i :: 0 <= i < |p| ==> IsLetter((p + q)[i]);
    assert forall i :: 0 <= i < |r| ==> IsLetter((r + s)[i]);
    assert p == (p + q)[..|p|] && r == (r + s)[..|r|];
    assert q == (p + q)[|p|..] && s == (r + s)[|r|..];
  }

  /** Two cells share a name exactly when they are in one row and in one column,
      all the columns below 1 counting as one. */
  lemma {:induction false} CellNamesClash(r: int, c: int, r': int, c': int)
    ensures CellName(r, c) == CellName(r', c') <==> r == r' && (c == c' || (c <= 0 && c' <= 0))
  {
    if CellName(r, c) == CellName(r', c') {
      LettersEndAtRow(ColumnName(c), RowText(r), ColumnName(c'), RowText(r'));
      RowTextInjective(r, r');
      if c > 0 { NumberOfName(c); }
      if c' > 0 { NumberOfName(c'); }
    }
  }

  lemma OneMoreLetter(n: int, s: string)
    requires n > 0
    ensures ColumnName(n) + s == ColumnName((n - 1) / 26) + ([Letter((n - 1) % 26)] + s)
  {
    assert ColumnName(n) == ColumnName((n - 1) / 26) + [Letter((n - 1) % 26)];
  }

  /** The loop of `coord`. */
  method Letters(col: int) returns (s: string)
    ensures s == ColumnName(col)
  {
    ghost var name := ColumnName(col);
    var n := col;
    s := "";
    while n > 0
      invariant ColumnName(n) + s == name
    {
      OneMoreLetter(n, s);
      n := n - 1;
      s := [('A' as int + n % 26) as char] + s;
      n := n / 26;
    }
    assert ColumnName(n) == "";
  }

  /** `coord`. */
  method Coord(row: int, col: int) returns (name: string)
    ensures name == CellName(row, col)
  {
    var letters := Letters(col);
    name := letters + RowText(row);
  }
}
