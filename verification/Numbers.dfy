/** Decimal numbers as strconv.Atoi reads them and fmt.Sprintf("%03d") writes them. */
module Numbers {
  import opened Wrappers

  const MIN_INT: int := -0x8000_0000_0000_0000
  const MAX_INT: int := 0x7FFF_FFFF_FFFF_FFFF

  predicate IsDigit(c: char) {
    '0' <= c <= '9'
  }

  predicate AllDigits(s: string) {
    forall k :: 0 <= k < |s| ==> IsDigit(s[k])
  }

  function Digit(d: nat): (c: char)
    requires d < 10
    ensures IsDigit(c)
  {
    '0' + d as char
  }

  function Value(s: string): nat
    requires AllDigits(s)
  {
    if s == [] then 0 else 10 * Value(s[..|s| - 1]) + (s[|s| - 1] - '0') as nat
  }

  /** strconv.Atoi: an optional sign, then digits, within 64 bits. */
  function Atoi(s: string): Option<int> {
    var signed := s != [] && (s[0] == '-' || s[0] == '+');
    var body := if signed then s[1..] else s;
    if body == [] || !AllDigits(body) then None
    else
      var v: int := if s[0] == '-' then -(Value(body) as int) else Value(body);
      if MIN_INT <= v <= MAX_INT then Some(v) else None
  }

  function Decimal(n: nat): string {
    if n < 10 then [Digit(n)] else Decimal(n / 10) + [Digit(n % 10)]
  }

  function ZeroPad(s: string, width: nat): string
    decreases width - |s|
  {
    if |s| < width then ZeroPad("0" + s, width) else s
  }

  /** fmt.Sprintf("%03d", n). */
  function Padded(n: int): string {
    if n < 0 then "-" + ZeroPad(Decimal(-n), 2) else ZeroPad(Decimal(n), 3)
  }

  lemma {:induction false} DecimalValue(n: nat)
    ensures AllDigits(Decimal(n)) && Decimal(n) != [] && Value(Decimal(n)) == n
  {
    if n < 10 {
      assert [Digit(n)][..0] == [];
    } else {
      DecimalValue(n / 10);
      var s := Decimal(n / 10) + [Digit(n % 10)];
      assert s[..|s| - 1] == Decimal(n / 10);
    }
  }

  lemma {:induction false} LeadingZero(s: string)
    requires AllDigits(s)
    ensures AllDigits("0" + s) && Value("0" + s) == Value(s)
  {
    var t := "0" + s;
    if s == [] {
      assert t[..0] == [];
    } else {
      LeadingZero(s[..|s| - 1]);
      assert t[..|t| - 1] == "0" + s[..|s| - 1];
    }
  }

  lemma {:induction false} ZeroPadValue(s: string, width: nat)
    requires AllDigits(s) && s != []
    ensures var p := ZeroPad(s, width); AllDigits(p) && p != [] && Value(p) == Value(s)
    decreases width - |s|
  {
    if |s| < width {
      LeadingZero(s);
      ZeroPadValue("0" + s, width);
    }
  }

  lemma {:induction false} AtoiUnsigned(s: string)
    requires AllDigits(s) && s != [] && Value(s) <= MAX_INT
    ensures Atoi(s) == Some(Value(s))
  {
    assert IsDigit(s[0]);
  }

  lemma {:induction false} AtoiSigned(s: string)
    requires AllDigits(s) && s != [] && Value(s) <= MAX_INT + 1
    ensures Atoi("-" + s) == Some(-(Value(s) as int))
  {
    assert ("-" + s)[1..] == s;
  }

  /** Reading back what was written. */
  lemma {:induction false} AtoiPadded(n: int)
    requires MIN_INT <= n <= MAX_INT
    ensures Atoi(Padded(n)) == Some(n)
  {
    DecimalValue(if n < 0 then -n else n);
    if n < 0 {
      ZeroPadValue(Decimal(-n), 2);
      AtoiSigned(ZeroPad(Decimal(-n), 2));
    } else {
      ZeroPadValue(Decimal(n), 3);
      AtoiUnsigned(ZeroPad(Decimal(n), 3));
    }
  }

  /** Digits, with a sign or without, are read exactly if the number fits 64 bits. */
  lemma {:induction false} AtoiExactly(s: string)
    requires AllDigits(s) && s != []
    ensures Atoi(s) == Atoi("+" + s) == if Value(s) < 0x8000_0000_0000_0000 then Some(Value(s)) else None
    ensures Atoi("-" + s) == if Value(s) <= 0x8000_0000_0000_0000 then Some(-(Value(s) as int)) else None
  {
    assert IsDigit(s[0]);
    assert ("+" + s)[1..] == s && ("-" + s)[1..] == s;
  }

  lemma {:induction false} DecimalIsShort(n: nat)
    ensures n > 0 ==> Decimal(n)[0] != '0'
    ensures |Decimal(n)| > 1 <==> n >= 10
    ensures |Decimal(n)| > 2 <==> n >= 100
    ensures |Decimal(n)| > 3 <==> n >= 1000
  {
    if n >= 10 {
      DecimalIsShort(n / 10);
      DecimalLength(n / 10);
    }
  }

  lemma {:induction false} DecimalLength(n: nat)
    ensures |Decimal(n)| >= 1
    ensures |Decimal(n)| > 2 <==> n >= 100
  {
    if n >= 100 {
      DecimalLength(n / 10);
      assert |Decimal(n / 10)| >= 2;
    } else if n >= 10 {
      assert Decimal(n / 10) == [Digit(n / 10)];
    }
  }

  lemma {:induction false} ZeroPadLength(s: string, width: nat)
    ensures |s| < width ==> |ZeroPad(s, width)| == width
    ensures |s| >= width ==> ZeroPad(s, width) == s
    decreases width - |s|
  {
    if |s| < width {
      ZeroPadLength("0" + s, width);
    }
  }

  /** At least three characters, a minus sign included, and leading zeros only to get there. */
  lemma {:induction false} PaddedIsShort(n: int)
    ensures |Padded(n)| >= 3
    ensures |Padded(n)| == 3 <==> -100 < n < 1000
    ensures n >= 1000 ==> Padded(n)[0] != '0'
    ensures n <= -100 ==> Padded(n)[1] != '0'
    ensures n < 0 <==> Padded(n)[0] == '-'
  {
    var m: nat := if n < 0 then -n else n;
    DecimalValue(m);
    DecimalIsShort(m);
    ZeroPadLength(Decimal(m), if n < 0 then 2 else 3);
    ZeroPadValue(Decimal(m), if n < 0 then 2 else 3);
  }
}
