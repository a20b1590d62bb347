/** Frame aspect ratios, kept as exact fractions, and the two ways the
    source obtains one: the probe's "W:H" display-ratio string and the
    stream's coded width and height. */
module Ratio {
  import opened Errors

  type PosNat = n: nat | n > 0 witness 1

  /** The ratio w / h of a frame's width to its height. */
  datatype AspectRatio = AspectRatio(w: PosNat, h: PosNat)

  /** `int(ratio)`: the whole part of w / h. */
  function IntPart(r: AspectRatio): (q: nat)
    ensures q * r.h <= r.w < (q + 1) * r.h
  {
    r.w / r.h
  }

  /** `int(float(x) / ratio)`: the height of a frame of width x, rounded down. */
  function HeightFor(x: nat, r: AspectRatio): (y: nat)
    ensures y * r.w <= x * r.h < (y + 1) * r.w
  {
    x * r.h / r.w
  }

  /** Two fractions with the same value give the same frame heights, so the
      model does not depend on whether the ratio comes reduced ("16:9") or
      not (1920 by 1080). */
  lemma HeightForSameValue(x: nat, r1: AspectRatio, r2: AspectRatio)
    requires r1.w * r2.h == r2.w * r1.h
    ensures HeightFor(x, r1) == HeightFor(x, r2)
  {
    var y := HeightFor(x, r1);
    CrossMultiply(y, x, r1.w, r1.h, r2.w, r2.h);
    if (y + 1) * r2.w <= x * r2.h {
      CrossMultiply(y + 1, x, r2.w, r2.h, r1.w, r1.h);
      assert false;
    }
    FloorUnique(x * r2.h, r2.w, y, HeightFor(x, r2));
  }

  /** Equal fractions have the same whole part, so both also start the width
      scan at the same width. */
  lemma IntPartSameValue(r1: AspectRatio, r2: AspectRatio)
    requires r1.w * r2.h == r2.w * r1.h
    ensures IntPart(r1) == IntPart(r2)
  {
    var q := IntPart(r1);
    CrossMultiply(q, 1, r1.h, r1.w, r2.h, r2.w);
    if (q + 1) * r2.h <= r2.w {
      CrossMultiply(q + 1, 1, r2.h, r2.w, r1.h, r1.w);
      assert false;
    }
    FloorUnique(r2.w, r2.h, q, IntPart(r2));
  }

  /** a / b <= p / q carries over to any fraction equal to p / q. */
  lemma CrossMultiply(a: int, b: int, p: PosNat, q: PosNat, p2: PosNat, q2: PosNat)
    requires a * p <= b * q
    requires p * q2 == p2 * q
    ensures a * p2 <= b * q2
  {
    MulLeftMonotone(q2, a * p, b * q);
    assert q2 * (a * p) == q * (a * p2) by {
      calc {
        q2 * (a * p);
        a * (p * q2);
        a * (p2 * q);
        q * (a * p2);
      }
    }
    assert q2 * (b * q) == q * (b * q2);
    if b * q2 < a * p2 {
      MulLeftStrict(q, b * q2, a * p2);
      assert false;
    }
  }

  lemma MulLeftMonotone(c: nat, a: int, b: int)
    requires a <= b
    ensures c * a <= c * b
  {
  }

  lemma MulLeftStrict(c: PosNat, a: int, b: int)
    requires a < b
    ensures c * a < c * b
  {
  }

  /** At most one whole number q satisfies q * k <= v < (q + 1) * k. */
  lemma FloorUnique(v: int, k: PosNat, q1: int, q2: int)
    requires q1 * k <= v < (q1 + 1) * k
    requires q2 * k <= v < (q2 + 1) * k
    ensures q1 == q2
  {
    if q1 < q2 {
      MulLeftMonotone(k, q1 + 1, q2);
    } else if q2 < q1 {
      MulLeftMonotone(k, q2 + 1, q1);
    }
  }

  // ---------------------------------------------------------------------
  // str.split(sep)

  /** Python's `s.split(sep)` for a one-character separator. */
  function Split(s: string, sep: char): (parts: seq<string>)
    ensures |parts| >= 1
    ensures forall i :: 0 <= i < |parts| ==> sep !in parts[i]
    ensures |parts| >= 2 <==> sep in s
    decreases |s|
  {
    if |s| == 0 then [""]
    else if s[0] == sep then [""] + Split(s[1..], sep)
    else
      var rest := Split(s[1..], sep);
      [[s[0]] + rest[0]] + rest[1..]
  }

  /** `sep.join(parts)`, the inverse of Split. */
  function Join(parts: seq<string>, sep: char): string
    requires |parts| >= 1
  {
    if |parts| == 1 then parts[0] else parts[0] + [sep] + Join(parts[1..], sep)
  }

  /** Splitting loses nothing: joining the parts gives the string back. */
  lemma {:induction false} JoinSplit(s: string, sep: char)
    ensures Join(Split(s, sep), sep) == s
    decreases |s|
  {
    if |s| == 0 {
    } else if s[0] == sep {
      JoinSplit(s[1..], sep);
      assert Split(s, sep)[1..] == Split(s[1..], sep);
      assert s == [sep] + s[1..];
    } else {
      var rest := Split(s[1..], sep);
      JoinSplit(s[1..], sep);
      var parts := Split(s, sep);
      assert parts[0] == [s[0]] + rest[0];
      assert parts[1..] == rest[1..];
      if |rest| == 1 {
        assert s == [s[0]] + rest[0];
      } else {
        assert Join(rest, sep) == rest[0] + [sep] + Join(rest[1..], sep);
        assert s == [s[0]] + s[1..];
      }
    }
  }

  /** A separator-free prefix followed by the separator is split off as the first part. */
  lemma {:induction false} SplitAfterField(a: string, b: string, sep: char)
    requires sep !in a
    ensures Split(a + [sep] + b, sep) == [a] + Split(b, sep)
    decreases |a|
  {
    var s := a + [sep] + b;
    if |a| == 0 {
      assert s == [sep] + b;
      assert s[1..] == b;
    } else {
      assert s[0] == a[0];
      assert s[1..] == a[1..] + [sep] + b;
      SplitAfterField(a[1..], b, sep);
      assert [a[0]] + a[1..] == a;
    }
  }

  /** A separator-free string is a single part. */
  lemma {:induction false} SplitField(a: string, sep: char)
    requires sep !in a
    ensures Split(a, sep) == [a]
    decreases |a|
  {
    if |a| > 0 {
      SplitField(a[1..], sep);
      assert [a[0]] + a[1..] == a;
    }
  }

  // ---------------------------------------------------------------------
  // float() on a field of digits

  predicate IsDigit(c: char) { '0' <= c <= '9' }

  predicate IsNumeral(s: string) { |s| > 0 && forall i :: 0 <= i < |s| ==> IsDigit(s[i]) }

  /** The value of a string of decimal digits, most significant first. */
  function DigitsValue(s: string): nat
    requires forall i :: 0 <= i < |s| ==> IsDigit(s[i])
  {
    if |s| == 0 then 0 else DigitsValue(s[..|s| - 1]) * 10 + DigitValue(s[|s| - 1])
  }

  function DigitValue(c: char): (d: nat)
    requires IsDigit(c)
    ensures d < 10
  {
    c as int - '0' as int
  }

  /** `float(s)` for the unsigned decimal numerals the probe writes. */
  function ParseNat(s: string): (r: Result<nat>)
    ensures r.Ok? <==> IsNumeral(s)
    ensures r.Err? ==> r.error == NotANumber
  {
    if IsNumeral(s) then Ok(DigitsValue(s)) else Err(NotANumber)
  }

  /** The decimal numeral of n, without leading zeros. */
  function ShowNat(n: nat): (s: string)
    ensures IsNumeral(s)
  {
    if n < 10 then [('0' as int + n) as char] else ShowNat(n / 10) + [('0' as int + n % 10) as char]
  }

  lemma {:induction false} ParseShowNat(n: nat)
    ensures ParseNat(ShowNat(n)) == Ok(n)
  {
    var s := ShowNat(n);
    if n < 10 {
      assert |s| == 1 && s[..|s| - 1] == [];
      assert DigitsValue(s) == DigitValue(s[0]) == n;
    } else {
      ParseShowNat(n / 10);
      assert s[..|s| - 1] == ShowNat(n / 10);
      assert DigitValue(s[|s| - 1]) == n % 10;
    }
  }

  // ---------------------------------------------------------------------
  // Obtaining the ratio

  /** `float(text.split(':')[0]) / float(text.split(':')[1])`, with its
      exceptions in the order Python raises them. A zero ratio is refused
      here: the source accepts 0.0 but always divides by it later. */
  function ParseRatio(text: string): (r: Result<AspectRatio>)
    ensures var parts := Split(text, ':');
            r.Ok? <==> |parts| >= 2 && IsNumeral(parts[0]) && IsNumeral(parts[1]) &&
                       DigitsValue(parts[0]) > 0 && DigitsValue(parts[1]) > 0
    ensures var parts := Split(text, ':');
            !IsNumeral(parts[0]) ==> r == Err(NotANumber)
    ensures var parts := Split(text, ':');
            IsNumeral(parts[0]) && |parts| < 2 ==> r == Err(MissingSeparator)
    ensures var parts := Split(text, ':');
            IsNumeral(parts[0]) && |parts| >= 2 && !IsNumeral(parts[1]) ==> r == Err(NotANumber)
    ensures var parts := Split(text, ':');
            |parts| >= 2 && IsNumeral(parts[0]) && IsNumeral(parts[1]) && DigitsValue(parts[1]) == 0 ==>
              r == Err(ZeroHeight)
    ensures var parts := Split(text, ':');
            |parts| >= 2 && IsNumeral(parts[0]) && IsNumeral(parts[1]) &&
            DigitsValue(parts[1]) > 0 && DigitsValue(parts[0]) == 0 ==>
              r == Err(ZeroWidth)
    ensures ':' !in text ==> r.Err?
    ensures r.Ok? ==> ParseNat(Split(text, ':')[0]) == Ok(r.value.w as nat)
    ensures r.Ok? ==> ParseNat(Split(text, ':')[1]) == Ok(r.value.h as nat)
  {
    var parts := Split(text, ':');
    match ParseNat(parts[0])
    case Err(e) => Err(e)
    case Ok(w) =>
      if |parts| < 2 then Err(MissingSeparator)
      else
        match ParseNat(parts[1])
        case Err(e) => Err(e)
        case Ok(h) =>
          if h == 0 then Err(ZeroHeight)
          else if w == 0 then Err(ZeroWidth)
          else Ok(AspectRatio(w, h))
  }

  /** The probe's "W:H" text of a ratio is read back as that ratio. */
  lemma ParseShowRatio(r: AspectRatio)
    ensures ParseRatio(ShowNat(r.w) + ":" + ShowNat(r.h)) == Ok(r)
  {
    var a, b := ShowNat(r.w), ShowNat(r.h);
    assert ':' !in a by { assert IsNumeral(a); }
    assert ':' !in b by { assert IsNumeral(b); }
    SplitAfterField(a, b, ':');
    SplitField(b, ':');
    assert a + ":" + b == a + [':'] + b;
    ParseShowNat(r.w);
    ParseShowNat(r.h);
  }

  /** `coded_w / coded_h` from the probe's stream fields. */
  function RatioFromCoded(codedW: nat, codedH: nat): (r: Result<AspectRatio>)
    ensures r.Ok? <==> codedW > 0 && codedH > 0
    ensures r.Ok? ==> r.value.w as nat == codedW && r.value.h as nat == codedH
    ensures codedH == 0 ==> r == Err(ZeroHeight)
    ensures codedH > 0 && codedW == 0 ==> r == Err(ZeroWidth)
  {
    if codedH == 0 then Err(ZeroHeight)
    else if codedW == 0 then Err(ZeroWidth)
    else Ok(AspectRatio(codedW, codedH))
  }
}
