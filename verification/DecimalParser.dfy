/** The exact decimal parser: fixed-point text to 64-bit integers without rounding or wrap-around. */
module DecimalParser {
  import opened L2Types

  // ----- what a text denotes

  predicate Digit(c: char) { '0' <= c <= '9' }

  predicate Digits(s: string) { forall c | c in s :: Digit(c) }

  function Value(c: char): nat
    requires Digit(c)
  {
    c as int - '0' as int
  }

  /** The number a string of digits spells. */
  function Num(s: string): nat
    requires Digits(s)
  {
    if s == "" then 0 else 10 * Num(s[..|s| - 1]) + Value(s[|s| - 1])
  }

  function Pow10(k: nat): (r: nat)
    ensures r > 0
  {
    if k == 0 then 1 else 10 * Pow10(k - 1)
  }

  ghost predicate PowerOfTen(scale: nat) { exists k :: scale == Pow10(k) }

  function Unsigned(text: string): string {
    if text != "" && text[0] == '+' then text[1..] else text
  }

  /** An optional plus, digits, and optionally a point and further digits; at least one digit in all. */
  predicate Spells(text: string, whole: string, fraction: string) {
    && Digits(whole) && Digits(fraction) && whole + fraction != ""
    && (Unsigned(text) == whole + "." + fraction || (fraction == "" && Unsigned(text) == whole))
  }

  /** The decimal's value times the scale is the integer n. */
  ghost predicate Denotes(text: string, scale: nat, n: nat) {
    exists whole, fraction :: Spells(text, whole, fraction) && DenotedBy(whole, fraction, scale, n)
  }

  predicate DenotedBy(whole: string, fraction: string, scale: nat, n: nat)
    requires Digits(whole) && Digits(fraction)
  {
    n * Pow10(|fraction|) == Num(whole + fraction) * scale
  }

  /** The ten digits and what each is worth. */
  lemma DigitsAre(c: char)
    ensures Digit(c) <==> c in "0123456789"
    ensures forall i | 0 <= i < 10 :: Value("0123456789"[i]) == i
  {
    if Digit(c) {
      assert "0123456789"[Value(c)] == c;
    }
  }

  // ----- powers and digits

  lemma {:induction false} Pow10Adds(j: nat, k: nat)
    ensures Pow10(j + k) == Pow10(j) * Pow10(k)
    decreases j
  {
    if j > 0 {
      Pow10Adds(j - 1, k);
      assert Pow10(j + k) == 10 * (Pow10(j - 1) * Pow10(k));
    }
  }

  lemma DigitsAppend(a: string, b: string)
    requires Digits(a) && Digits(b)
    ensures Digits(a + b)
  {
  }

  lemma TenTimes(x: nat, y: nat, p: nat, q: nat, v: nat)
    requires q == 10 * p
    ensures 10 * (x * p + y) + v == x * q + (10 * y + v)
  {
  }

  lemma {:induction false} NumAppends(a: string, b: string)
    requires Digits(a) && Digits(b)
    ensures Num(a + b) == Num(a) * Pow10(|b|) + Num(b)
    decreases |b|
  {
    if b == "" {
      assert a + b == a && Pow10(|b|) == 1;
    } else {
      var init := b[..|b| - 1];
      NumAppends(a, init);
      var all := a + b;
      assert all[..|all| - 1] == a + init && all[|all| - 1] == b[|b| - 1];
      TenTimes(Num(a), Num(init), Pow10(|init|), Pow10(|b|), Value(b[|b| - 1]));
    }
  }

  lemma {:induction false} NumBelow(s: string)
    requires Digits(s)
    ensures Num(s) < Pow10(|s|)
    decreases |s|
  {
    if s != "" {
      NumBelow(s[..|s| - 1]);
      assert s[|s| - 1] in s && Value(s[|s| - 1]) <= 9;
    }
  }

  predicate AllZero(s: string) { forall c | c in s :: c == '0' }

  lemma {:induction false} NumIsZeroIff(s: string)
    requires Digits(s)
    ensures Num(s) == 0 <==> AllZero(s)
    decreases |s|
  {
    if s != "" {
      var init := s[..|s| - 1];
      NumIsZeroIff(init);
      var last := s[|s| - 1];
      assert s == init + [last] && last in s;
      assert forall c | c in init :: c in s;
    }
  }

  lemma CancelFactor(a: nat, b: nat, m: nat)
    requires m > 0
    ensures a * m == b * m <==> a == b
  {
    var d: int, am: int, bm: int := a - b, a * m, b * m;
    assert d * m == am - bm;
    assert d > 0 ==> d * m >= m;
    assert d < 0 ==> d * m + m <= 0;
  }

  lemma ShortArithmetic(w: nat, x: nat, f: nat, pad: nat, power: nat, total: nat, n: nat)
    requires f > 0 && power == f * pad && total == w * f + x
    ensures n * f == total * power <==> n == w * power + x * pad
  {
    assert total * power == (total * pad) * f;
    assert total * pad == w * power + x * pad by {
      assert total * pad == (w * f) * pad + x * pad;
      assert (w * f) * pad == w * (f * pad);
    }
    CancelFactor(n, total * pad, f);
  }

  /** With no more fractional digits than the scale has, the fraction is padded with zeros. */
  lemma ShortFraction(whole: string, fraction: string, decimals: nat, n: nat)
    requires Digits(whole) && Digits(fraction) && |fraction| <= decimals
    ensures DenotedBy(whole, fraction, Pow10(decimals), n)
       <==> n == Num(whole) * Pow10(decimals) + Num(fraction) * Pow10(decimals - |fraction|)
  {
    hide Num, Pow10;
    Pow10Adds(|fraction|, decimals - |fraction|);
    NumAppends(whole, fraction);
    ShortArithmetic(Num(whole), Num(fraction), Pow10(|fraction|), Pow10(decimals - |fraction|), Pow10(decimals),
                    Num(whole + fraction), n);
  }

  lemma MultipleBelow(q: int, r: nat, m: nat)
    requires r < m && q * m == r
    ensures q == 0 && r == 0
  {
    assert q > 0 ==> q * m >= m;
    assert q < 0 ==> q * m < 0;
  }

  lemma LongArithmetic(v: nat, x: nat, d: nat, e: nat, power: nat, total: nat, n: nat)
    requires d > 0 && x < e && power == d * e && total == v * e + x
    ensures n * power == total * d <==> x == 0 && n == v
  {
    assert n * power == (n * e) * d;
    CancelFactor(n * e, total, d);
    if n * e == total {
      var diff: int := n - v;
      assert diff * e == x;
      MultipleBelow(diff, x, e);
    }
  }

  /** Digits beyond the scale are accepted only when they are all zero, and then change nothing. */
  lemma LongFraction(whole: string, kept: string, extra: string, n: nat)
    requires Digits(whole) && Digits(kept) && Digits(extra)
    ensures Digits(kept + extra)
    ensures DenotedBy(whole, kept + extra, Pow10(|kept|), n)
       <==> AllZero(extra) && n == Num(whole) * Pow10(|kept|) + Num(kept)
  {
    hide Num, Pow10, AllZero, Digits;
    DigitsAppend(kept, extra);
    DigitsAppend(whole, kept);
    DigitsAppend(whole + kept, extra);
    Pow10Adds(|kept|, |extra|);
    assert whole + (kept + extra) == (whole + kept) + extra;
    NumAppends(whole + kept, extra);
    NumAppends(whole, kept);
    NumIsZeroIff(extra);
    NumBelow(extra);
    LongArithmetic(Num(whole + kept), Num(extra), Pow10(|kept|), Pow10(|extra|), Pow10(|kept + extra|),
                   Num(whole + (kept + extra)), n);
  }

  // ----- where the parser splits

  /** The index of the first point, or the length. */
  function Point(body: string): (i: nat)
    ensures i <= |body| && (i < |body| ==> body[i] == '.')
    ensures forall k | 0 <= k < i :: body[k] != '.'
  {
    if body == "" || body[0] == '.' then 0 else 1 + Point(body[1..])
  }

  function WholePart(body: string): string { body[..Point(body)] }

  function FractionPart(body: string): string {
    if Point(body) == |body| then "" else body[Point(body) + 1..]
  }

  /** A text is spelled in at most one way, the way the parser splits it. */
  lemma SpellsIffSplit(text: string, whole: string, fraction: string)
    ensures Spells(text, whole, fraction) <==>
      && whole == WholePart(Unsigned(text)) && fraction == FractionPart(Unsigned(text))
      && Digits(whole) && Digits(fraction) && whole + fraction != ""
  {
    var body := Unsigned(text);
    var i := Point(body);
    if Digits(whole) && body == whole + "." + fraction {
      assert body[|whole|] == '.';
      assert forall k | 0 <= k < |whole| :: body[k] in whole;
      assert i == |whole|;
    }
    if Digits(whole) && body == whole {
      assert forall k | 0 <= k < |body| :: body[k] in whole;
      assert i == |body|;
    }
    if i < |body| {
      assert body == body[..i] + "." + body[i + 1..];
    } else {
      assert body == body[..i];
    }
  }

  lemma DenotesUnique(text: string, scale: nat, m: nat, n: nat)
    requires Denotes(text, scale, m) && Denotes(text, scale, n)
    ensures m == n
  {
    var w, f :| Spells(text, w, f) && DenotedBy(w, f, scale, m);
    var v, g :| Spells(text, v, g) && DenotedBy(v, g, scale, n);
    SpellsIffSplit(text, w, f);
    SpellsIffSplit(text, v, g);
    CancelFactor(m, n, Pow10(|f|));
  }

  lemma DenotesIffSplit(text: string, scale: nat, n: nat)
    ensures var body := Unsigned(text);
      Denotes(text, scale, n) <==>
      && Digits(WholePart(body)) && Digits(FractionPart(body)) && WholePart(body) + FractionPart(body) != ""
      && DenotedBy(WholePart(body), FractionPart(body), scale, n)
  {
    var body := Unsigned(text);
    SpellsIffSplit(text, WholePart(body), FractionPart(body));
    if Denotes(text, scale, n) {
      var w, f :| Spells(text, w, f) && DenotedBy(w, f, scale, n);
      SpellsIffSplit(text, w, f);
    }
  }

  // ----- the parser; its 64-bit variables are typed so that a wrap-around would not verify

  /** The standard library's unsigned conversion, consuming the whole text. */
  method FromChars(text: string) returns (ok: bool, value: U64)
    ensures ok <==> text != "" && Digits(text) && Num(text) <= UINT64_MAX
    ensures ok ==> value == Num(text)
  {
    ok, value := text != "", 0;
    for i := 0 to |text|
      invariant Digits(text[..i])
      invariant ok <==> text != "" && Num(text[..i]) <= UINT64_MAX
      invariant ok ==> value == Num(text[..i])
    {
      assert text[..i + 1][..i] == text[..i];
      if !Digit(text[i]) {
        assert text[i] in text;
        return false, 0;
      }
      if ok && value <= (UINT64_MAX - Value(text[i])) / 10 {
        value := value * 10 + Value(text[i]);
      } else {
        ok := false;
      }
    }
    assert text[..|text|] == text;
  }

  method FindPoint(body: string) returns (i: nat)
    ensures i == Point(body)
  {
    i := 0;
    while i < |body| && body[i] != '.'
      invariant i <= |body| && Point(body) == i + Point(body[i..])
    {
      assert body[i..][1..] == body[i + 1..];
      i := i + 1;
    }
  }

  /** How many decimals the scale supports; other scales are refused. */
  method Decimals(scale: U64) returns (ok: bool, decimals: nat)
    requires scale > 0
    ensures ok <==> PowerOfTen(scale)
    ensures ok ==> scale == Pow10(decimals)
  {
    var rest: U64 := scale;
    decimals := 0;
    while rest > 1 && rest % 10 == 0
      invariant rest > 0 && scale == rest * Pow10(decimals)
    {
      assert rest == (rest / 10) * 10;
      assert (rest / 10) * (10 * Pow10(decimals)) == rest * Pow10(decimals);
      decimals := decimals + 1;
      rest := rest / 10;
    }
    ok := rest == 1;
    if rest != 1 && PowerOfTen(scale) {
      var k :| scale == Pow10(k);
      NoOtherRest(rest, decimals, k);
    }
  }

  lemma NoOtherRest(rest: nat, decimals: nat, k: nat)
    requires rest > 1 && rest % 10 != 0
    ensures rest * Pow10(decimals) != Pow10(k)
  {
    hide Pow10;
    var d := Pow10(decimals);
    if k <= decimals {
      Pow10Grows(k, decimals);
      ProductBelow(1, rest, d);
    } else {
      Pow10Adds(k - decimals, decimals);
      CancelFactor(rest, Pow10(k - decimals), d);
      TenDivides(k - decimals);
    }
  }

  lemma TenDivides(k: nat)
    requires k > 0
    ensures Pow10(k) % 10 == 0
  {
  }

  lemma {:induction false} Pow10Grows(j: nat, k: nat)
    requires j <= k
    ensures Pow10(j) <= Pow10(k)
    decreases k
  {
    if j < k {
      Pow10Grows(j, k - 1);
    }
  }

  /** The digits the scale keeps, padded with zeros, and whether the others are redundant. */
  function Scaled(fraction: string, decimals: nat): nat
    requires Digits(fraction)
  {
    if |fraction| <= decimals then Num(fraction) * Pow10(decimals - |fraction|) else Num(fraction[..decimals])
  }

  predicate Redundant(fraction: string, decimals: nat) {
    |fraction| > decimals ==> AllZero(fraction[decimals..])
  }

  lemma DenotedIffScaled(whole: string, fraction: string, decimals: nat, n: nat)
    requires Digits(whole) && Digits(fraction)
    ensures DenotedBy(whole, fraction, Pow10(decimals), n) <==>
            Redundant(fraction, decimals) && n == Num(whole) * Pow10(decimals) + Scaled(fraction, decimals)
  {
    hide Num, Pow10;
    if |fraction| <= decimals {
      ShortFraction(whole, fraction, decimals, n);
    } else {
      assert fraction == fraction[..decimals] + fraction[decimals..];
      LongFraction(whole, fraction[..decimals], fraction[decimals..], n);
    }
  }

  lemma ProductBelow(x: nat, f: nat, pad: nat)
    requires x < f && pad > 0
    ensures x * pad < f * pad
  {
    var more: nat := f - x - 1;
    assert f * pad == (x + 1 + more) * pad == x * pad + pad + more * pad;
  }

  lemma ScaledBelow(fraction: string, decimals: nat)
    requires Digits(fraction)
    ensures Scaled(fraction, decimals) < Pow10(decimals)
  {
    hide Num, Pow10;
    if |fraction| <= decimals {
      NumBelow(fraction);
      Pow10Adds(|fraction|, decimals - |fraction|);
      ProductBelow(Num(fraction), Pow10(|fraction|), Pow10(decimals - |fraction|));
    } else {
      NumBelow(fraction[..decimals]);
    }
  }

  /** A prefix of the kept digits stays below the scale, which bounds every intermediate value. */
  method ReadFraction(fraction: string, decimals: nat, scale: U64) returns (ok: bool, value: U64)
    requires scale == Pow10(decimals)
    ensures ok <==> Digits(fraction) && Redundant(fraction, decimals)
    ensures ok ==> value == Scaled(fraction, decimals)
  {
    hide Pow10;
    value := 0;
    var consumed: nat := 0;
    for i := 0 to |fraction|
      invariant Digits(fraction[..i]) && Redundant(fraction[..i], decimals)
      invariant consumed == if i < decimals then i else decimals
      invariant value == Num(fraction[..consumed])
    {
      var character := fraction[i];
      assert fraction[..i + 1] == fraction[..i] + [character];
      if !Digit(character) {
        assert character in fraction;
        return false, 0;
      }
      if consumed < decimals {
        NumBelow(fraction[..i + 1]);
        Pow10Grows(i + 1, decimals);
        assert fraction[..i + 1][..i] == fraction[..i];
        value := value * 10 + Value(character);
        consumed := consumed + 1;
      } else {
        if character != '0' {
          assert character in fraction[decimals..];
          return false, 0;
        }
        assert fraction[..i + 1][decimals..] == fraction[..i][decimals..] + [character];
      }
    }
    assert fraction[..|fraction|] == fraction;
    OnePower();
    value := PadZeros(value, fraction[..consumed], decimals, scale);
    ok := true;
  }

  lemma OnePower()
    ensures Pow10(0) == 1
  {
  }

  method PadZeros(start: U64, digits: string, decimals: nat, scale: U64) returns (value: U64)
    requires Digits(digits) && |digits| <= decimals && start == Num(digits) && scale == Pow10(decimals)
    ensures value == Num(digits) * Pow10(decimals - |digits|)
  {
    hide Num;
    value := start;
    var consumed := |digits|;
    while consumed < decimals
      invariant |digits| <= consumed <= decimals
      invariant value == Num(digits) * Pow10(consumed - |digits|)
    {
      var pad := consumed - |digits|;
      PaddedBelow(digits, pad + 1, decimals);
      assert Pow10(pad + 1) == 10 * Pow10(pad);
      assert Num(digits) * (10 * Pow10(pad)) == 10 * (Num(digits) * Pow10(pad));
      value := value * 10;
      consumed := consumed + 1;
    }
  }

  lemma PaddedBelow(digits: string, pad: nat, decimals: nat)
    requires Digits(digits) && |digits| + pad <= decimals
    ensures Num(digits) * Pow10(pad) < Pow10(decimals)
  {
    ScaledBelow(digits, |digits| + pad);
    Pow10Grows(|digits| + pad, decimals);
  }

  /** The overflow check before the multiplication is exact. */
  lemma CheckIsExact(integer: nat, fraction: nat, scale: nat)
    requires scale > 0 && fraction <= UINT64_MAX
    ensures integer > (UINT64_MAX - fraction) / scale <==> integer * scale + fraction > UINT64_MAX
  {
    QuotientIsExact(integer, UINT64_MAX - fraction, scale);
  }

  lemma QuotientIsExact(n: nat, room: nat, scale: nat)
    requires scale > 0
    ensures n > room / scale <==> n * scale > room
  {
    var q := room / scale;
    assert room == q * scale + room % scale;
    if n > q {
      ProductGrows(q + 1, n, scale);
      assert (q + 1) * scale == q * scale + scale;
    } else {
      ProductGrows(n, q, scale);
    }
  }

  lemma ProductGrows(a: nat, b: nat, scale: nat)
    requires a <= b
    ensures a * scale <= b * scale
  {
    assert b * scale == a * scale + (b - a) * scale;
  }

  /**
   Accepts a text exactly when the scale is a power of ten and the text is an unsigned decimal whose
   value times the scale is an integer below 2^64, which it returns.
   */
  method ParseFixedDecimal(text: string, scale: U64) returns (ok: bool, output: U64)
    ensures ok <==> PowerOfTen(scale) && exists n: U64 :: Denotes(text, scale, n)
    ensures ok ==> Denotes(text, scale, output)
  {
    ghost var body := Unsigned(text);
    ghost var whole, fraction := WholePart(body), FractionPart(body);
    forall n ensures Denotes(text, scale, n) <==>
      Digits(whole) && Digits(fraction) && whole + fraction != "" && DenotedBy(whole, fraction, scale, n)
    {
      DenotesIffSplit(text, scale, n);
    }
    output := 0;
    if text == "" || scale == 0 {
      ZeroIsNoPower();
      return false, 0;
    }
    var rest := if text[0] == '+' then text[1..] else text;
    if rest == "" {
      return false, 0;
    }
    if rest[0] == '-' {
      MinusIsNoDigit(rest);
      return false, 0;
    }
    var dot := FindPoint(rest);
    var integerPart := rest[..dot];
    var fractionalPart := if dot == |rest| then "" else rest[dot + 1..];
    if integerPart == "" && fractionalPart == "" {
      return false, 0;
    }
    ok, output := ParseParts(integerPart, fractionalPart, scale);
  }

  lemma ZeroIsNoPower()
    ensures !PowerOfTen(0)
  {
  }

  lemma MinusIsNoDigit(body: string)
    requires body != "" && body[0] == '-'
    ensures !Digits(WholePart(body))
  {
    assert Point(body) > 0;
    assert WholePart(body)[0] == '-' && WholePart(body)[0] in WholePart(body);
  }

  method ParseParts(whole: string, fraction: string, scale: U64) returns (ok: bool, output: U64)
    requires scale > 0 && whole + fraction != ""
    ensures ok <==> PowerOfTen(scale) && Digits(whole) && Digits(fraction)
                    && exists n: U64 :: DenotedBy(whole, fraction, scale, n)
    ensures ok ==> DenotedBy(whole, fraction, scale, output)
  {
    hide Num, Pow10, Redundant, Scaled, DenotedBy;
    output := 0;
    var integer: U64 := 0;
    var parsed := true;
    if whole != "" {
      parsed, integer := FromChars(whole);
    }
    NothingIsZero();
    assert parsed <==> Digits(whole) && Num(whole) <= UINT64_MAX;
    var power, decimals := Decimals(scale);
    if Digits(whole) && Digits(fraction) && power {
      forall n ensures DenotedBy(whole, fraction, scale, n) <==>
        Redundant(fraction, decimals) && n == Num(whole) * scale + Scaled(fraction, decimals)
      {
        DenotedIffScaled(whole, fraction, decimals, n);
      }
    }
    if !parsed {
      if Digits(whole) {
        ScalingGrows(Num(whole), scale);
      }
      return false, 0;
    }
    if !power {
      return false, 0;
    }
    var readable, scaled := ReadFraction(fraction, decimals, scale);
    if !readable {
      return false, 0;
    }
    assert integer == Num(whole);
    CheckIsExact(integer, scaled, scale);
    if integer > (UINT64_MAX - scaled) / scale {
      return false, 0;
    }
    ok, output := true, integer * scale + scaled;
    assert DenotedBy(whole, fraction, scale, output);
  }

  lemma ScalingGrows(x: nat, scale: nat)
    requires scale > 0
    ensures x * scale >= x
  {
  }

  lemma NothingIsZero()
    ensures Digits("") && Num("") == 0
  {
  }

  lemma PriceScaleIsPower()
    ensures PowerOfTen(PRICE_SCALE)
  {
    assert Pow10(4) == 10000;
    Pow10Adds(4, 4);
    assert PRICE_SCALE == Pow10(8);
  }

  /** A price is an exact decimal with eight places, positive and below 2^63. */
  method ParsePrice(text: string) returns (ok: bool, output: int)
    ensures ok <==> exists n: Price :: Denotes(text, PRICE_SCALE, n)
    ensures ok ==> 1 <= output <= INT64_MAX && Denotes(text, PRICE_SCALE, output)
  {
    hide Denotes;
    PriceScaleIsPower();
    var parsed, raw := ParseFixedDecimal(text, PRICE_SCALE);
    ok, output := parsed && 0 < raw <= INT64_MAX, raw;
    if parsed {
      forall n: Price | Denotes(text, PRICE_SCALE, n) ensures n == raw {
        DenotesUnique(text, PRICE_SCALE, n, raw);
      }
    }
  }
}
