/**
 * Rust's `FromStr` for the unsigned integer types `u32` and `u64`
 * (parsing a string as `u32` or `u64`): decimal digits with an
 * optional leading `+`, read left to right with a checked multiply-and-add,
 * failing with the `IntErrorKind` Rust reports.
 */
module RustInt {
  import opened Wrappers

  const U32_MAX: nat := 0xFFFF_FFFF
  const U64_MAX: nat := 0xFFFF_FFFF_FFFF_FFFF

  /** The kinds of `ParseIntError` an unsigned parse can produce. */
  datatype IntErrorKind = Empty | InvalidDigit | PosOverflow

  /** `ParseIntError`'s `Display` text, as `to_string()` gives it. */
  function Message(k: IntErrorKind): string {
    match k
    case Empty => "cannot parse integer from empty string"
    case InvalidDigit => "invalid digit found in string"
    case PosOverflow => "number too large to fit in target type"
  }

  /**
   * Each kind of error has its own message, and none of them is the interval
   * validator's own "must >= 1", so a caller can tell the failures apart by text.
   */
  lemma MessagesDistinct(k1: IntErrorKind, k2: IntErrorKind)
    ensures Message(k1) == Message(k2) <==> k1 == k2
    ensures Message(k1) != "must >= 1"
  {
    assert Message(Empty)[0] == 'c' && Message(InvalidDigit)[0] == 'i';
    assert Message(PosOverflow)[0] == 'n' && "must >= 1"[0] == 'm';
  }

  predicate IsAsciiDigit(c: char) {
    '0' <= c <= '9'
  }

  predicate AllDigits(s: string) {
    forall i :: 0 <= i < |s| ==> IsAsciiDigit(s[i])
  }

  function DigitValue(c: char): (d: nat)
    requires IsAsciiDigit(c)
    ensures d <= 9
  {
    c as int - '0' as int
  }

  /** `b` raised to the power `e`. */
  function Power(b: nat, e: nat): (r: nat)
    ensures b >= 1 ==> r >= 1
  {
    if e == 0 then 1 else b * Power(b, e - 1)
  }

  /** Positional decimal value: the first digit weighs 10^(length - 1). */
  function DecimalValue(ds: string): nat
    requires AllDigits(ds)
  {
    if ds == [] then 0 else DigitValue(ds[0]) * Power(10, |ds| - 1) + DecimalValue(ds[1..])
  }

  /** The longest prefix of `ds` made of ASCII digits. */
  function DigitPrefix(ds: string): (r: string)
    ensures AllDigits(r) && |r| <= |ds| && r == ds[..|r|]
    ensures |r| < |ds| ==> !IsAsciiDigit(ds[|r|])
  {
    if ds == [] || !IsAsciiDigit(ds[0]) then [] else [ds[0]] + DigitPrefix(ds[1..])
  }

  /** The digit part of a literal: one leading `+` is allowed and dropped. */
  function Digits(s: string): string {
    if |s| >= 1 && s[0] == '+' then s[1..] else s
  }

  /** The strings an unsigned `parse` accepts when the value is in range. */
  predicate IsUnsignedLiteral(s: string) {
    var ds := Digits(s);
    ds != [] && AllDigits(ds)
  }

  function LiteralValue(s: string): nat
    requires IsUnsignedLiteral(s)
  {
    DecimalValue(Digits(s))
  }

  /** The value of `acc` followed by the digits `p`. */
  function Shifted(acc: nat, p: string): nat
    requires AllDigits(p)
  {
    acc * Power(10, |p|) + DecimalValue(p)
  }

  lemma Regroup(a: nat, d: nat, t: nat, e: nat)
    requires t >= 1
    ensures a * (10 * t) + (d * t + e) == (a * 10 + d) * t + e
    ensures (a * 10 + d) * t + e >= a * 10 + d
  {
    assert a * (10 * t) == (a * 10) * t;
    assert (a * 10) * t + d * t == (a * 10 + d) * t;
    assert (a * 10 + d) * t >= (a * 10 + d) * 1;
  }

  /** Reading one more digit: `acc` then `c p` is `10 acc + c` then `p`. */
  lemma ShiftedStep(acc: nat, c: char, p: string)
    requires IsAsciiDigit(c) && AllDigits(p)
    ensures Shifted(acc, [c] + p) == Shifted(acc * 10 + DigitValue(c), p)
    ensures Shifted(acc * 10 + DigitValue(c), p) >= acc * 10 + DigitValue(c)
  {
    var q := [c] + p;
    assert q[0] == c && q[1..] == p;
    var d, t := DigitValue(c), Power(10, |p|);
    assert DecimalValue(q) == d * t + DecimalValue(p);
    assert Power(10, |q|) == 10 * t;
    Regroup(acc, d, t, DecimalValue(p));
  }

  /**
   * The digit loop of Rust's `from_str_radix` with radix 10: for each character,
   * reject a non-digit, otherwise multiply by ten and add, rejecting a value
   * above `max`. The result is the value of the digits read before the first
   * non-digit, judged against `max` before the non-digit is judged.
   */
  function Accumulate(ds: string, acc: nat, max: nat): (r: Result<nat, IntErrorKind>)
    requires acc <= max
    ensures var p := DigitPrefix(ds);
            var v := Shifted(acc, p);
            r == if v > max then Err(PosOverflow) else if p == ds then Ok(v) else Err(InvalidDigit)
  {
    if ds == [] then Ok(acc)
    else if !IsAsciiDigit(ds[0]) then Err(InvalidDigit)
    else
      var next := acc * 10 + DigitValue(ds[0]);
      ShiftedStep(acc, ds[0], DigitPrefix(ds[1..]));
      assert (DigitPrefix(ds) == ds) == (DigitPrefix(ds[1..]) == ds[1..]) by {
        assert ds == [ds[0]] + ds[1..];
      }
      if next > max then Err(PosOverflow) else Accumulate(ds[1..], next, max)
  }

  /**
   * Parsing `s` as an unsigned integer whose largest value is `max`: `Ok` exactly for a literal
   * in range, `Empty` exactly for the empty string, `InvalidDigit` exactly
   * when a non-digit (or a lone sign) comes before any overflow, and
   * `PosOverflow` otherwise.
   */
  function ParseUnsigned(s: string, max: nat): (r: Result<nat, IntErrorKind>)
    ensures r.Ok? <==> IsUnsignedLiteral(s) && LiteralValue(s) <= max
    ensures r.Ok? ==> r.value == LiteralValue(s)
    ensures r == Err(Empty) <==> s == []
    ensures r == Err(InvalidDigit) <==>
              s != [] && !IsUnsignedLiteral(s) && DecimalValue(DigitPrefix(Digits(s))) <= max
  {
    if s == [] then Err(Empty)
    else if |s| == 1 && (s[0] == '+' || s[0] == '-') then Err(InvalidDigit)
    else
      var ds := Digits(s);
      assert DigitPrefix(ds) == ds <==> AllDigits(ds);
      assert Power(10, |DigitPrefix(ds)|) * 0 == 0;
      Accumulate(ds, 0, max)
  }

  lemma TimesTen(d: nat, t: nat)
    ensures d * (10 * t) == 10 * (d * t)
  {
  }

  /** Reading digits left to right: one more digit multiplies by ten and adds it. */
  lemma {:induction false} DecimalValueAppend(ds: string, c: char)
    requires AllDigits(ds) && IsAsciiDigit(c)
    ensures AllDigits(ds + [c])
    ensures DecimalValue(ds + [c]) == 10 * DecimalValue(ds) + DigitValue(c)
  {
    if ds == [] {
      assert ds + [c] == [c];
      assert [c][1..] == [];
    } else {
      var rest := ds[1..];
      var e := ds + [c];
      assert e[0] == ds[0] && e[1..] == rest + [c] && |e| - 1 == |rest| + 1;
      DecimalValueAppend(rest, c);
      var d, t := DigitValue(ds[0]), Power(10, |rest|);
      assert Power(10, |rest| + 1) == 10 * t;
      TimesTen(d, t);
      assert DecimalValue(e) == d * (10 * t) + (10 * DecimalValue(rest) + DigitValue(c));
      assert DecimalValue(ds) == d * t + DecimalValue(rest);
    }
  }

  lemma LiteralTwo()
    ensures IsUnsignedLiteral("2") && LiteralValue("2") == 2
  {
    assert Digits("2") == "2";
  }

  lemma Literal300()
    ensures IsUnsignedLiteral("300") && LiteralValue("300") == 300
  {
    assert Digits("300") == "300";
    assert DecimalValue("30") == 30 by {
      DecimalValueAppend("3", '0');
      assert "3" + ['0'] == "30";
    }
    assert DecimalValue("300") == 300 by {
      DecimalValueAppend("30", '0');
      assert "30" + ['0'] == "300";
    }
  }

  lemma Literal43200()
    ensures IsUnsignedLiteral("43200") && LiteralValue("43200") == 43200
  {
    assert Digits("43200") == "43200";
    assert DecimalValue("43") == 43 by {
      DecimalValueAppend("4", '3');
      assert "4" + ['3'] == "43";
    }
    assert DecimalValue("432") == 432 by {
      DecimalValueAppend("43", '2');
      assert "43" + ['2'] == "432";
    }
    assert DecimalValue("4320") == 4320 by {
      DecimalValueAppend("432", '0');
      assert "432" + ['0'] == "4320";
    }
    assert DecimalValue("43200") == 43200 by {
      DecimalValueAppend("4320", '0');
      assert "4320" + ['0'] == "43200";
    }
  }

  lemma Literal2097()
    ensures AllDigits("2097") && DecimalValue("2097") == 2097
  {
    var s1 := ['2'];
    assert AllDigits(s1);
    DecimalValueAppend(s1, '0');
    DecimalValueAppend(s1 + ['0'], '9');
    DecimalValueAppend(s1 + ['0'] + ['9'], '7');
    assert s1 + ['0'] + ['9'] + ['7'] == "2097";
  }

  lemma Literal2097152()
    ensures IsUnsignedLiteral("2097152") && LiteralValue("2097152") == 2_097_152
  {
    Literal2097();
    var s4 := "2097";
    DecimalValueAppend(s4, '1');
    DecimalValueAppend(s4 + ['1'], '5');
    DecimalValueAppend(s4 + ['1'] + ['5'], '2');
    assert s4 + ['1'] + ['5'] + ['2'] == "2097152";
    assert Digits("2097152") == "2097152";
  }

  /** A literal above `max` is rejected as an overflow. */
  lemma LiteralTooLarge(s: string, max: nat)
    requires IsUnsignedLiteral(s) && LiteralValue(s) > max
    ensures ParseUnsigned(s, max) == Err(PosOverflow)
  {
  }
}
