// Brazilian-real formatting of an amount (`formatar_brl`, cofrinho.py:7-8).
// The source renders the amount in the US style with thousands separated by
// `,` and two decimals after `.`, prefixed by "R$ ", and then swaps the two
// separators with three `str.replace` passes through the placeholder `X`.
// Amounts are whole numbers of cents here.
module BrlFormat {

  predicate IsDigit(ch: char) {
    '0' <= ch <= '9'
  }

  predicate AllDigits(s: seq<char>) {
    forall i :: 0 <= i < |s| ==> IsDigit(s[i])
  }

  /** The character of the decimal digit `d`. */
  function DigitChar(d: nat): (ch: char)
    requires d < 10
    ensures IsDigit(ch)
    ensures ch as int - '0' as int == d
  {
    ('0' as int + d) as char
  }

  function Pow10(w: nat): nat {
    if w == 0 then 1 else 10 * Pow10(w - 1)
  }

  /** The number a string of digits denotes. */
  function Value(s: seq<char>): nat
    requires AllDigits(s)
  {
    if s == [] then 0 else Value(s[..|s| - 1]) * 10 + (s[|s| - 1] as int - '0' as int)
  }

  // ---------------------------------------------------------------------------
  // The US-style rendering "{:,.2f}".

  /** The decimal numeral of `n` without leading zeros, as `str(n)` writes it. */
  function Digits(n: nat): (s: seq<char>)
    ensures |s| > 0 && AllDigits(s)
  {
    if n < 10 then [DigitChar(n)] else Digits(n / 10) + [DigitChar(n % 10)]
  }

  /** The last `width` decimal digits of `n`, padded on the left with zeros. */
  function PadDigits(n: nat, width: nat): (s: seq<char>)
    ensures |s| == width && AllDigits(s)
  {
    if width == 0 then [] else PadDigits(n / 10, width - 1) + [DigitChar(n % 10)]
  }

  /** The numeral of `n` with `sep` between every group of three digits counted from the right. */
  function Grouped(n: nat, sep: char): (s: seq<char>)
    ensures |s| > 0
    ensures forall i :: 0 <= i < |s| ==> IsDigit(s[i]) || s[i] == sep
    ensures IsDigit(s[0])
  {
    if n < 1000 then Digits(n)
    else Grouped(n / 1000, sep) + [sep] + PadDigits(n % 1000, 3)
  }

  /**
   * `f"{valor:,.2f}"` for an amount of `cents` cents: the only `.` is the
   * decimal point, followed by exactly two digits.
   */
  function UsFixed2(cents: nat): (r: seq<char>)
    ensures |r| >= 4 && r[|r| - 3] == '.' && IsDigit(r[|r| - 2]) && IsDigit(r[|r| - 1])
    ensures forall i :: 0 <= i < |r| - 3 ==> IsDigit(r[i]) || r[i] == ','
  {
    Grouped(cents / 100, ',') + ['.'] + PadDigits(cents % 100, 2)
  }

  // ---------------------------------------------------------------------------
  // The three replace passes.

  /** `s.replace(from, to)` for one-character `from` and `to`. */
  function Replace(s: seq<char>, from: char, to: char): (r: seq<char>)
    ensures |r| == |s|
    ensures forall i :: 0 <= i < |s| ==> r[i] == (if s[i] == from then to else s[i])
  {
    if s == [] then []
    else Replace(s[..|s| - 1], from, to) + [if s[|s| - 1] == from then to else s[|s| - 1]]
  }

  /**
   * `.replace(",", "X").replace(".", ",").replace("X", ".")`: every `,` and
   * every `X` becomes `.`, every `.` becomes `,`, and nothing else changes.
   */
  function ReplaceChain(s: seq<char>): (r: seq<char>)
    ensures |r| == |s|
    ensures forall i :: 0 <= i < |s| ==>
              r[i] == (if s[i] == ',' || s[i] == 'X' then '.' else if s[i] == '.' then ',' else s[i])
  {
    Replace(Replace(Replace(s, ',', 'X'), '.', ','), 'X', '.')
  }

  /** `formatar_brl(valor)` for an amount of `cents` cents: it starts with "R$ ". */
  function FormatarBrl(cents: nat): (r: seq<char>)
    ensures |r| == 3 + |UsFixed2(cents)|
    ensures r[0] == 'R' && r[1] == '$' && r[2] == ' '
  {
    var s := "R$ " + UsFixed2(cents);
    assert s[0] == 'R' && s[1] == '$' && s[2] == ' ';
    ReplaceChain(s)
  }

  // ---------------------------------------------------------------------------
  // Reference definitions: the separator swap and the Brazilian rendering.

  function SwapChar(ch: char): char {
    if ch == ',' then '.' else if ch == '.' then ',' else ch
  }

  /** Every `,` becomes `.`, every `.` becomes `,`, and nothing else changes. */
  function SwapSeparators(s: seq<char>): seq<char> {
    seq(|s|, i requires 0 <= i < |s| => SwapChar(s[i]))
  }

  /** The Brazilian rendering: thousands separated by `.`, two decimals after `,`. */
  function BrlReference(cents: nat): seq<char> {
    "R$ " + Grouped(cents / 100, '.') + [','] + PadDigits(cents % 100, 2)
  }

  /**
   * The three replace passes swap the two separators exactly when the string
   * holds no placeholder `X`; an `X` already in the string would come out as `.`.
   */
  lemma ReplaceChainSwapsIff(s: seq<char>)
    ensures ReplaceChain(s) == SwapSeparators(s) <==> 'X' !in s
  {
    var r := ReplaceChain(s);
    if 'X' !in s {
      forall i | 0 <= i < |s|
        ensures r[i] == SwapSeparators(s)[i]
      {
        assert s[i] != 'X';
      }
    } else {
      var i :| 0 <= i < |s| && s[i] == 'X';
      assert r[i] == '.' != SwapSeparators(s)[i];
    }
  }

  /** Swapping separators turns the `,`-grouped numeral into the `.`-grouped one. */
  lemma {:induction false} SwapGrouped(n: nat)
    ensures SwapSeparators(Grouped(n, ',')) == Grouped(n, '.')
  {
    if n < 1000 {
      assert SwapSeparators(Digits(n)) == Digits(n);
    } else {
      SwapGrouped(n / 1000);
      var a, b := Grouped(n / 1000, ','), PadDigits(n % 1000, 3);
      assert SwapSeparators(a + [','] + b) == SwapSeparators(a) + ['.'] + SwapSeparators(b);
      assert SwapSeparators(b) == b;
    }
  }

  /** A numeral of a number below 1000 has at most three digits. */
  lemma DigitsBelow1000(n: nat)
    requires n < 1000
    ensures |Digits(n)| <= 3
  {
    if n >= 10 {
      assert |Digits(n / 10)| <= 2 by {
        if n / 10 >= 10 { assert |Digits(n / 100)| == 1; }
      }
    }
  }

  /**
   * `{:,}` puts the separator exactly at every fourth position counted from
   * the right end: three digits, a separator, three digits, and so on.
   */
  lemma {:induction false} GroupedSeparators(n: nat, sep: char)
    requires !IsDigit(sep)
    ensures forall i :: 0 <= i < |Grouped(n, sep)| ==>
              (Grouped(n, sep)[i] == sep <==> (|Grouped(n, sep)| - i) % 4 == 0)
  {
    var s := Grouped(n, sep);
    if n < 1000 {
      DigitsBelow1000(n);
      forall i | 0 <= i < |s|
        ensures s[i] == sep <==> (|s| - i) % 4 == 0
      {
        assert IsDigit(s[i]);
        assert 1 <= |s| - i <= 3;
      }
    } else {
      var a, b := Grouped(n / 1000, sep), PadDigits(n % 1000, 3);
      GroupedSeparators(n / 1000, sep);
      assert s == a + [sep] + b;
      forall i | 0 <= i < |s|
        ensures s[i] == sep <==> (|s| - i) % 4 == 0
      {
        if i < |a| {
          assert s[i] == a[i];
          assert (|s| - i) % 4 == (|a| - i) % 4;
        } else if i == |a| {
          assert |s| - i == 4;
        } else {
          assert s[i] == b[i - |a| - 1];
          assert 1 <= |s| - i <= 3;
        }
      }
    }
  }

  /** The numeral of a positive number has no leading zero. */
  lemma {:induction false} DigitsNoLeadingZero(n: nat)
    requires n > 0
    ensures Digits(n)[0] != '0'
  {
    if n >= 10 {
      DigitsNoLeadingZero(n / 10);
      assert Digits(n)[0] == Digits(n / 10)[0];
    }
  }

  /** The grouped numeral of a positive number has no leading zero. */
  lemma {:induction false} GroupedNoLeadingZero(n: nat, sep: char)
    requires n > 0
    ensures Grouped(n, sep)[0] != '0'
  {
    if n < 1000 {
      DigitsNoLeadingZero(n);
    } else {
      GroupedNoLeadingZero(n / 1000, sep);
      assert Grouped(n, sep)[0] == Grouped(n / 1000, sep)[0];
    }
  }

  /** The US-style rendering never contains the placeholder `X`. */
  lemma NoPlaceholder(cents: nat)
    ensures 'X' !in "R$ " + UsFixed2(cents)
  {
    var g := Grouped(cents / 100, ',');
    var s := "R$ " + UsFixed2(cents);
    forall i | 0 <= i < |s| ensures s[i] != 'X' {
      if 3 <= i < 3 + |g| { assert s[i] == g[i - 3]; }
    }
  }

  lemma SwapAppend(a: seq<char>, b: seq<char>)
    ensures SwapSeparators(a + b) == SwapSeparators(a) + SwapSeparators(b)
  {
  }

  lemma SwapKeepsDigits(s: seq<char>)
    requires AllDigits(s)
    ensures SwapSeparators(s) == s
  {
  }

  /** `formatar_brl` yields the Brazilian rendering of the amount. */
  lemma FormatarBrlIsBrazilian(cents: nat)
    ensures FormatarBrl(cents) == BrlReference(cents)
  {
    var g, d := Grouped(cents / 100, ','), PadDigits(cents % 100, 2);
    var s := "R$ " + UsFixed2(cents);
    NoPlaceholder(cents);
    ReplaceChainSwapsIff(s);
    assert s == ("R$ " + g) + ['.'] + d;
    SwapAppend(("R$ " + g) + ['.'], d);
    SwapAppend("R$ " + g, ['.']);
    SwapAppend("R$ ", g);
    SwapGrouped(cents / 100);
    SwapKeepsDigits(d);
    assert SwapSeparators("R$ ") == "R$ ";
    assert SwapSeparators(['.']) == [','];
  }

  /**
   * `formatar_brl` starts with "R$ " and ends with a decimal `,` followed by
   * exactly two digits of cents; the only `,` in the result is that decimal comma.
   */
  lemma FormatarBrlShape(cents: nat)
    ensures var r := FormatarBrl(cents);
            && |r| >= 7 && r[..3] == "R$ "
            && r[|r| - 3] == ',' && IsDigit(r[|r| - 2]) && IsDigit(r[|r| - 1])
            && (forall i :: 0 <= i < |r| && r[i] == ',' ==> i == |r| - 3)
  {
    FormatarBrlIsBrazilian(cents);
    var r := BrlReference(cents);
    var h := Grouped(cents / 100, '.');
    assert forall j :: 0 <= j < |h| ==> r[3 + j] == h[j];
  }

  // ---------------------------------------------------------------------------
  // Reading the amount back.

  /** The digits of `s`, in order, with everything else dropped. */
  function KeepDigits(s: seq<char>): (r: seq<char>)
    ensures AllDigits(r)
  {
    if s == [] then []
    else if IsDigit(s[|s| - 1]) then KeepDigits(s[..|s| - 1]) + [s[|s| - 1]]
    else KeepDigits(s[..|s| - 1])
  }

  lemma {:induction false} KeepDigitsAppend(a: seq<char>, b: seq<char>)
    ensures KeepDigits(a + b) == KeepDigits(a) + KeepDigits(b)
    decreases |b|
  {
    if b != [] {
      var b0 := b[..|b| - 1];
      assert (a + b)[..|a + b| - 1] == a + b0;
      KeepDigitsAppend(a, b0);
    } else {
      assert a + b == a;
    }
  }

  lemma {:induction false} KeepAllDigits(s: seq<char>)
    requires AllDigits(s)
    ensures KeepDigits(s) == s
  {
    if s != [] {
      KeepAllDigits(s[..|s| - 1]);
    }
  }

  lemma ValueSnoc(s: seq<char>, ch: char)
    requires AllDigits(s) && IsDigit(ch)
    ensures Value(s + [ch]) == Value(s) * 10 + (ch as int - '0' as int)
  {
    assert (s + [ch])[..|s|] == s;
  }

  lemma ShiftDigit(x: int, p: int, v: int, d: int)
    ensures (x * p + v) * 10 + d == x * (10 * p) + (v * 10 + d)
  {
  }

  lemma {:induction false} ValueAppend(a: seq<char>, b: seq<char>)
    requires AllDigits(a) && AllDigits(b)
    ensures Value(a + b) == Value(a) * Pow10(|b|) + Value(b)
    decreases |b|
  {
    if b == [] {
      assert a + b == a;
    } else {
      var b0, ch := b[..|b| - 1], b[|b| - 1];
      assert b == b0 + [ch];
      assert a + b == (a + b0) + [ch];
      ValueAppend(a, b0);
      ValueSnoc(a + b0, ch);
      ValueSnoc(b0, ch);
      ShiftDigit(Value(a), Pow10(|b0|), Value(b0), ch as int - '0' as int);
    }
  }

  /** `Digits` is a numeral for `n`. */
  lemma {:induction false} ValueDigits(n: nat)
    ensures Value(Digits(n)) == n
  {
    if n >= 10 {
      ValueDigits(n / 10);
      var s := Digits(n);
      assert s[..|s| - 1] == Digits(n / 10);
    }
  }

  /** `PadDigits` is a numeral for any `n` that fits in `width` digits. */
  lemma {:induction false} ValuePadDigits(n: nat, width: nat)
    requires n < Pow10(width)
    ensures Value(PadDigits(n, width)) == n
  {
    if width > 0 {
      ValuePadDigits(n / 10, width - 1);
      var s := PadDigits(n, width);
      assert s[..|s| - 1] == PadDigits(n / 10, width - 1);
    }
  }

  /** The grouped numeral, read without its separators, denotes `n`. */
  lemma {:induction false} ValueGrouped(n: nat, sep: char)
    requires !IsDigit(sep)
    ensures Value(KeepDigits(Grouped(n, sep))) == n
  {
    if n < 1000 {
      KeepAllDigits(Digits(n));
      ValueDigits(n);
    } else {
      var a, b := Grouped(n / 1000, sep), PadDigits(n % 1000, 3);
      ValueGrouped(n / 1000, sep);
      KeepDigitsAppend(a + [sep], b);
      KeepDigitsAppend(a, [sep]);
      assert KeepDigits([sep]) == [];
      KeepAllDigits(b);
      ValuePadDigits(n % 1000, 3);
      ValueAppend(KeepDigits(a), b);
      assert Pow10(3) == 1000;
      assert KeepDigits(Grouped(n, sep)) == KeepDigits(a) + b;
      assert Value(KeepDigits(a) + b) == (n / 1000) * 1000 + n % 1000;
    }
  }

  /**
   * Round trip: reading the digits of `formatar_brl(cents)` and ignoring the
   * currency symbol and both separators gives back exactly `cents`.
   */
  lemma FormatarBrlDenotesCents(cents: nat)
    ensures Value(KeepDigits(FormatarBrl(cents))) == cents
  {
    var g, d := Grouped(cents / 100, '.'), PadDigits(cents % 100, 2);
    var kg := KeepDigits(g);
    FormatarBrlIsBrazilian(cents);
    KeepDigitsBrl(cents);
    assert KeepDigits(FormatarBrl(cents)) == kg + d;
    ValueGrouped(cents / 100, '.');
    ValuePadDigits(cents % 100, 2);
    ValueAppend(kg, d);
    assert Pow10(2) == 100;
    assert Value(kg + d) == (cents / 100) * 100 + cents % 100;
  }

  /** Of the Brazilian rendering only the digits of the reais and the two cent digits are digits. */
  lemma KeepDigitsBrl(cents: nat)
    ensures KeepDigits(BrlReference(cents))
         == KeepDigits(Grouped(cents / 100, '.')) + PadDigits(cents % 100, 2)
  {
    var g, d := Grouped(cents / 100, '.'), PadDigits(cents % 100, 2);
    assert BrlReference(cents) == ("R$ " + g + [',']) + d;
    KeepDigitsAppend("R$ " + g + [','], d);
    KeepDigitsAppend("R$ " + g, [',']);
    KeepDigitsAppend("R$ ", g);
    assert KeepDigits([',']) == [];
    assert KeepDigits("R$ ") == [] by {
      assert "R$ "[..2] == "R$";
      assert "R$"[..1] == "R";
      assert "R"[..0] == [];
    }
    KeepAllDigits(d);
  }

  /** Different amounts are never formatted alike. */
  lemma FormatarBrlInjective(a: nat, b: nat)
    requires FormatarBrl(a) == FormatarBrl(b)
    ensures a == b
  {
    FormatarBrlDenotesCents(a);
    FormatarBrlDenotesCents(b);
  }
}
