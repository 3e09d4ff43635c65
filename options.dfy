/**
 * The two string validators of the bot's command line: the human-readable
 * size parser used for `--max-feed-size` and the interval validator used for
 * `--min-interval` and `--max-interval`.
 */
module Options {
  import opened Wrappers
  import opened RustStr
  import opened RustInt

  /** `BASE` of the size parser. */
  const SizeBase: nat := 1024

  /** Why a size is rejected: its number does not parse, its last character is not allowed, or nothing is left. */
  datatype SizeError = InvalidNumber(kind: IntErrorKind) | InvalidSizeChar(c: char) | EmptySize

  predicate IsB(c: char) {
    c == 'b' || c == 'B'
  }

  predicate AllB(s: string) {
    forall i :: 0 <= i < |s| ==> IsB(s[i])
  }

  /** Drops every `b` and `B` at the end of the text. */
  function TrimTrailingB(s: string): (r: string)
    ensures |r| <= |s|
    ensures r == [] || !IsB(r[|r| - 1])
  {
    if s != [] && IsB(s[|s| - 1]) then TrimTrailingB(s[..|s| - 1]) else s
  }

  /** What the strip removes is `b`/`B`, and what it keeps is a prefix of the input. */
  lemma {:induction false} TrimTrailingBShape(s: string)
    ensures var r := TrimTrailingB(s);
            r == s[..|r|] && AllB(s[|r|..])
  {
    if s != [] && IsB(s[|s| - 1]) {
      TrimTrailingBShape(s[..|s| - 1]);
      var r := TrimTrailingB(s[..|s| - 1]);
      assert s[|r|..] == s[..|s| - 1][|r|..] + [s[|s| - 1]];
    }
  }

  /** `b`/`B` characters after `x` are all removed. */
  lemma {:induction false} TrimTrailingBSkips(x: string, bs: string)
    requires AllB(bs)
    ensures TrimTrailingB(x + bs) == TrimTrailingB(x)
  {
    if bs == [] {
      assert x + bs == x;
    } else {
      var bs' := bs[..|bs| - 1];
      assert (x + bs)[..|x + bs| - 1] == x + bs';
      assert IsB((x + bs)[|x + bs| - 1]);
      TrimTrailingBSkips(x, bs');
    }
  }

  /**
   * ASCII lower-casing of one character. The dispatch on the last character
   * sees `b` exactly for `b`/`B`, one of `k`, `m`, `g`, `t` exactly for a
   * unit letter in either case, and a digit exactly for a digit.
   */
  function AsciiLowercase(c: char): (l: char)
    ensures l == 'b' <==> IsB(c)
    ensures (l == 'k' || l == 'm' || l == 'g' || l == 't') <==> IsUnitLetter(c)
    ensures IsAsciiDigit(l) <==> IsAsciiDigit(c)
  {
    if 'A' <= c <= 'Z' then (c as int + 32) as char else c
  }

  /**
   * The text the size parser dispatches on: the input with surrounding
   * whitespace removed, then every trailing `b`/`B` removed.
   */
  function NormalizeSize(s: string): (t: string)
    ensures |t| <= |s|
    ensures t == [] || (!IsWhitespace(t[0]) && !IsB(t[|t| - 1]))
  {
    TrimTrailingBShape(Trim(s));
    TrimTrailingB(Trim(s))
  }

  /**
   * One arm of the size parser: read `prefix` as a `u64` and multiply it by
   * `BASE` to the power `e` (the product is unbounded), or pass the parse
   * error on.
   */
  function Scaled(prefix: string, e: nat): (r: Result<nat, SizeError>)
    ensures r.Ok? <==> IsUnsignedLiteral(prefix) && LiteralValue(prefix) <= U64_MAX
    ensures r.Ok? ==> r.value == LiteralValue(prefix) * Power(SizeBase, e)
    ensures r.Err? ==> r == Err(InvalidNumber(ParseUnsigned(prefix, U64_MAX).error))
  {
    match ParseUnsigned(prefix, U64_MAX)
    case Ok(n) => var factor := Power(SizeBase, e); Ok(n * factor)
    case Err(k) => Err(InvalidNumber(k))
  }

  /**
   * The size parser: a byte count for every input that denotes one, and
   * otherwise the reason it does not.
   */
  function ParseHumanSize(s: string): (r: Result<nat, SizeError>)
    ensures r.Ok? ==> SizeDenotes(NormalizeSize(s), r.value)
    ensures r == Err(EmptySize) <==> NormalizeSize(s) == []
  {
    var t := NormalizeSize(s);
    var r := SizeOfNormalized(t);
    if r.Ok? then SizeOfNormalizedOk(t, r.value); r else r
  }

  /** The case split of the size parser on its trimmed, `b`-stripped input `t`. */
  function SizeOfNormalized(t: string): (r: Result<nat, SizeError>)
    ensures r == Err(EmptySize) <==> t == []
    ensures r.Ok? ==> var c := t[|t| - 1]; IsB(c) || IsUnitLetter(c) || IsAsciiDigit(c)
    ensures r.Err? && r.error.InvalidSizeChar? ==>
              var c := t[|t| - 1];
              r.error.c == AsciiLowercase(c) && !IsB(c) && !IsUnitLetter(c) && !IsAsciiDigit(c)
  {
    if t == [] then Err(EmptySize)
    else
      var x := AsciiLowercase(t[|t| - 1]);
      var prefix := t[..|t| - 1];
      if x == 'b' then Scaled(prefix, 0)
      else if x == 'k' then Scaled(prefix, 1)
      else if x == 'm' then Scaled(prefix, 2)
      else if x == 'g' then Scaled(prefix, 3)
      else if x == 't' then Scaled(prefix, 4)
      else if IsAsciiDigit(x) then Scaled(t, 0)
      else Err(InvalidSizeChar(x))
  }

  /** `check_interval`: the argument must parse as a `u32` of at least 1. */
  function CheckInterval(s: string): (r: Result<(), string>)
    ensures r.Ok? <==> IsUnsignedLiteral(s) && 1 <= LiteralValue(s) <= U32_MAX
    ensures r == Err("must >= 1") <==> IsUnsignedLiteral(s) && LiteralValue(s) == 0
    ensures ParseUnsigned(s, U32_MAX).Err? ==> r == Err(Message(ParseUnsigned(s, U32_MAX).error))
  {
    match ParseUnsigned(s, U32_MAX)
    case Err(k) => Err(Message(k))
    case Ok(v) => if v < 1 then Err("must >= 1") else Ok(())
  }

  // ----- Reference description of the accepted sizes -----

  /** The unit letters, in either case. */
  predicate IsUnitLetter(c: char) {
    c == 'k' || c == 'K' || c == 'm' || c == 'M' || c == 'g' || c == 'G' || c == 't' || c == 'T'
  }

  /** Bytes per unit: kibi, mebi, gibi, tebi. */
  function UnitFactor(c: char): nat
    requires IsUnitLetter(c)
  {
    if c == 'k' || c == 'K' then 1024
    else if c == 'm' || c == 'M' then 1_048_576
    else if c == 'g' || c == 'G' then 1_073_741_824
    else 1_099_511_627_776
  }

  /**
   * `t` (already trimmed and stripped of trailing `b`/`B`) denotes `n`
   * bytes: a `u64` literal on its own, or a `u64` literal followed by one
   * unit letter, scaled by that unit.
   */
  ghost predicate SizeDenotes(t: string, n: nat) {
    (IsUnsignedLiteral(t) && LiteralValue(t) <= U64_MAX && n == LiteralValue(t))
    || (|t| >= 1 && IsUnitLetter(t[|t| - 1])
        && IsUnsignedLiteral(t[..|t| - 1]) && LiteralValue(t[..|t| - 1]) <= U64_MAX
        && n == LiteralValue(t[..|t| - 1]) * UnitFactor(t[|t| - 1]))
  }

  // ----- Properties of the size parser -----

  /** 1024 to the exponent a unit letter selects is that unit's factor. */
  lemma UnitPowers(c: char)
    requires IsUnitLetter(c)
    ensures Power(SizeBase, UnitExponent(AsciiLowercase(c))) == UnitFactor(c)
    ensures var x := AsciiLowercase(c); x == 'k' || x == 'm' || x == 'g' || x == 't'
  {
    assert Power(SizeBase, 1) == 1024;
    assert Power(SizeBase, 2) == 1_048_576;
    assert Power(SizeBase, 3) == 1_073_741_824;
    assert Power(SizeBase, 4) == 1_099_511_627_776;
  }

  /** The exponent of 1024 that a lower-cased unit letter selects. */
  function UnitExponent(x: char): nat {
    if x == 'k' then 1 else if x == 'm' then 2 else if x == 'g' then 3 else 4
  }

  /** After normalisation the last character is never `b` or `B`, so the `'b'` arm is dead. */
  lemma BArmUnreachable(s: string)
    ensures var t := NormalizeSize(s);
            t == [] || AsciiLowercase(t[|t| - 1]) != 'b'
  {
  }

  /** The arm for a numeric prefix scaled by `1024^e` succeeds exactly on a `u64` literal. */
  lemma ScaledOk(prefix: string, e: nat, n: nat)
    ensures Scaled(prefix, e) == Ok(n) <==>
              IsUnsignedLiteral(prefix) && LiteralValue(prefix) <= U64_MAX
              && n == LiteralValue(prefix) * Power(SizeBase, e)
  {
  }

  /** How the `match` dispatches on a non-empty input that does not end in `b`/`B`. */
  lemma Dispatch(t: string)
    requires t != [] && !IsB(t[|t| - 1])
    ensures var c := t[|t| - 1];
            SizeOfNormalized(t) ==
              if IsUnitLetter(c) then Scaled(t[..|t| - 1], UnitExponent(AsciiLowercase(c)))
              else if IsAsciiDigit(c) then Scaled(t, 0)
              else Err(InvalidSizeChar(AsciiLowercase(c)))
  {
  }

  /** A literal starts with `+` or a digit and ends in a digit. */
  lemma LiteralBounds(t: string)
    requires IsUnsignedLiteral(t)
    ensures t != [] && IsAsciiDigit(t[|t| - 1])
    ensures !IsWhitespace(t[0]) && !IsWhitespace(t[|t| - 1]) && !IsB(t[|t| - 1])
  {
    assert Digits(t)[|Digits(t)| - 1] == t[|t| - 1];
    assert t[0] == '+' || IsAsciiDigit(Digits(t)[0]);
  }

  /** On a normalised input the `match` succeeds with `n` exactly when the input denotes `n`. */
  lemma SizeOfNormalizedOk(t: string, n: nat)
    requires t == [] || !IsB(t[|t| - 1])
    ensures SizeOfNormalized(t) == Ok(n) <==> SizeDenotes(t, n)
  {
    if t == [] {
      assert !IsUnsignedLiteral(t);
    } else {
      var c := t[|t| - 1];
      Dispatch(t);
      if IsUnsignedLiteral(t) {
        LiteralBounds(t);
      }
      if IsUnitLetter(c) {
        UnitPowers(c);
        ScaledOk(t[..|t| - 1], UnitExponent(AsciiLowercase(c)), n);
      } else if IsAsciiDigit(c) {
        assert Power(SizeBase, 0) == 1;
        ScaledOk(t, 0, n);
      }
    }
  }

  /** `parse_human_size` succeeds with `n` exactly when the normalised input denotes `n`. */
  lemma ParseHumanSizeOk(s: string, n: nat)
    ensures ParseHumanSize(s) == Ok(n) <==> SizeDenotes(NormalizeSize(s), n)
  {
    SizeOfNormalizedOk(NormalizeSize(s), n);
  }

  /** Each unit is a whole number of KiB, so any count of units is too. */
  lemma UnitMultipleOf1024(a: nat, c: char)
    requires IsUnitLetter(c)
    ensures (a * UnitFactor(c)) % 1024 == 0
  {
    var k := UnitFactor(c) / 1024;
    assert UnitFactor(c) == 1024 * k;
    assert a * UnitFactor(c) == 1024 * (a * k);
  }

  /** A unit letter is neither whitespace, nor `b`/`B`, nor a digit. */
  lemma UnitLetterIsPlain(u: char)
    requires IsUnitLetter(u)
    ensures !IsWhitespace(u) && !IsB(u) && !IsAsciiDigit(u)
  {
  }

  /** A literal followed by a unit letter is already normalised. */
  lemma NormalizeUnitLiteral(p: string, u: char)
    requires IsUnsignedLiteral(p) && IsUnitLetter(u)
    ensures NormalizeSize(p + [u]) == p + [u]
  {
    var t := p + [u];
    LiteralBounds(p);
    UnitLetterIsPlain(u);
    assert t[0] == p[0] && t[|t| - 1] == u;
    TrimKeepsTrimmed(t);
  }

  /** `k`, `m`, `g`, `t` (either case) after a `u64` literal scale it by 1024 to the first to fourth power. */
  lemma UnitSuffixScales(p: string, u: char)
    requires IsUnsignedLiteral(p) && LiteralValue(p) <= U64_MAX && IsUnitLetter(u)
    ensures ParseHumanSize(p + [u]) == Ok(LiteralValue(p) * UnitFactor(u))
    ensures ParseHumanSize(p + [u]).value % 1024 == 0
  {
    var t := p + [u];
    NormalizeUnitLiteral(p, u);
    UnitLetterIsPlain(u);
    assert t != [] && t[|t| - 1] == u && t[..|t| - 1] == p;
    var e := UnitExponent(AsciiLowercase(u));
    Dispatch(t);
    assert ParseHumanSize(t) == Scaled(p, e);
    var v := LiteralValue(p);
    assert ParseUnsigned(p, U64_MAX) == Ok(v);
    var f := Power(SizeBase, e);
    assert Scaled(p, e) == Ok(v * f);
    UnitPowers(u);
    assert f == UnitFactor(u);
    UnitMultipleOf1024(v, u);
  }

  /** Every size given with a unit letter is a whole number of KiB. */
  lemma UnitSizeIsMultipleOf1024(s: string, n: nat)
    requires ParseHumanSize(s) == Ok(n)
    requires var t := NormalizeSize(s); t != [] && IsUnitLetter(t[|t| - 1])
    ensures n % 1024 == 0
  {
    var t := NormalizeSize(s);
    ParseHumanSizeOk(s, n);
    if IsUnsignedLiteral(t) {
      LiteralBounds(t);
    }
    UnitMultipleOf1024(LiteralValue(t[..|t| - 1]), t[|t| - 1]);
  }

  /** A bare `u64` literal is its own value in bytes. */
  lemma LiteralIsBytes(p: string)
    requires IsUnsignedLiteral(p) && LiteralValue(p) <= U64_MAX
    ensures ParseHumanSize(p) == Ok(LiteralValue(p))
  {
    LiteralBounds(p);
    TrimKeepsTrimmed(p);
    assert NormalizeSize(p) == p;
    SizeOfNormalizedOk(p, LiteralValue(p));
  }

  /** Whitespace before and after the input does not change the outcome. */
  lemma WhitespaceIgnored(w1: string, s: string, w2: string)
    requires AllWhitespace(w1) && AllWhitespace(w2)
    ensures ParseHumanSize(w1 + s + w2) == ParseHumanSize(s)
  {
    TrimIgnoresSurrounding(w1, s, w2);
    assert NormalizeSize(w1 + s + w2) == NormalizeSize(s);
  }

  /** A run of `b`/`B` has no whitespace to trim. */
  lemma AllBIsTrimmed(bs: string)
    requires AllB(bs)
    ensures Trim(bs) == bs
  {
    if bs != [] {
      assert IsB(bs[0]) && IsB(bs[|bs| - 1]);
      TrimKeepsTrimmed(bs);
    }
  }

  /** An input of whitespace, then `b`/`B`, then whitespace normalises to nothing. */
  lemma NormalizeBlank(w1: string, bs: string, w2: string)
    requires AllWhitespace(w1) && AllWhitespace(w2) && AllB(bs)
    ensures NormalizeSize(w1 + bs + w2) == []
  {
    TrimIgnoresSurrounding(w1, bs, w2);
    AllBIsTrimmed(bs);
    TrimTrailingBSkips([], bs);
    assert [] + bs == bs;
  }

  /** `b`/`B` characters appended to text that ends in a non-whitespace character vanish in normalisation. */
  lemma NormalizeIgnoresTrailingBAfterText(s: string, bs: string)
    requires AllB(bs) && s != [] && !IsWhitespace(s[|s| - 1])
    ensures NormalizeSize(s + bs) == NormalizeSize(s)
  {
    assert bs == [] || IsB(bs[|bs| - 1]);
    TrimAppendAfterText(s, bs);
    TrimTrailingBSkips(Trim(s), bs);
  }

  /**
   * Appending `b`/`B` characters does not change the outcome, provided the
   * input does not end in whitespace (or is only whitespace).
   */
  lemma TrailingBIgnored(s: string, bs: string)
    requires AllB(bs)
    requires AllWhitespace(s) || !IsWhitespace(s[|s| - 1])
    ensures ParseHumanSize(s + bs) == ParseHumanSize(s)
  {
    if AllWhitespace(s) {
      NormalizeBlank(s, bs, []);
      assert s + bs + [] == s + bs;
      NormalizeBlank(s, [], []);
      assert s + [] + [] == s;
    } else {
      NormalizeIgnoresTrailingBAfterText(s, bs);
    }
  }

  /** An input made of whitespace and `b`/`B` only, in that shape, is an empty size. */
  lemma EmptyAfterStripping(w1: string, bs: string, w2: string)
    requires AllWhitespace(w1) && AllWhitespace(w2) && AllB(bs)
    ensures ParseHumanSize(w1 + bs + w2) == Err(EmptySize)
  {
    NormalizeBlank(w1, bs, w2);
  }

  /** The empty size error is reported exactly when nothing is left after normalisation. */
  lemma EmptySizeExactly(s: string)
    ensures ParseHumanSize(s) == Err(EmptySize) <==> NormalizeSize(s) == []
  {
    var t := NormalizeSize(s);
    if t != [] {
      Dispatch(t);
    }
  }

  /** Conversely, an input rejected as empty is whitespace, then `b`/`B`, then whitespace. */
  lemma EmptySizeShape(s: string) returns (w1: string, bs: string, w2: string)
    requires ParseHumanSize(s) == Err(EmptySize)
    ensures s == w1 + bs + w2
    ensures AllWhitespace(w1) && AllB(bs) && AllWhitespace(w2)
  {
    EmptySizeExactly(s);
    var a := TrimStart(s);
    TrimStartShape(s);
    TrimEndShape(a);
    bs := TrimEnd(a);
    TrimTrailingBShape(bs);
    assert bs[..0] == [] && bs[0..] == bs;
    var k := |s| - |a|;
    w1 := s[..k];
    w2 := a[|bs|..];
    SplitAt(a, |bs|);
    SplitAt(s, k);
  }

  /** A last character that is neither a digit nor a unit letter is reported, lower-cased. */
  lemma InvalidLastCharacter(s: string)
    requires var t := NormalizeSize(s);
             t != [] && !IsAsciiDigit(t[|t| - 1]) && !IsUnitLetter(t[|t| - 1])
    ensures var t := NormalizeSize(s);
            ParseHumanSize(s) == Err(InvalidSizeChar(AsciiLowercase(t[|t| - 1])))
  {
    Dispatch(NormalizeSize(s));
  }

  /** A unit letter after something that is not a number is an error. */
  lemma UnitNeedsNumber(s: string)
    requires var t := NormalizeSize(s);
             t != [] && IsUnitLetter(t[|t| - 1]) && !IsUnsignedLiteral(t[..|t| - 1])
    ensures ParseHumanSize(s).Err?
    ensures var t := NormalizeSize(s);
            t[..|t| - 1] == [] ==> ParseHumanSize(s) == Err(InvalidNumber(Empty))
  {
    Dispatch(NormalizeSize(s));
  }

  // ----- The test vectors and the defaults -----

  lemma TwoMebibytes()
    ensures ParseHumanSize("2M") == Ok(2_097_152)
  {
    LiteralTwo();
    UnitSuffixScales("2", 'M');
    assert "2" + ['M'] == "2M";
  }

  lemma TwoGibibytes()
    ensures ParseHumanSize("2G") == Ok(2_147_483_648)
  {
    LiteralTwo();
    UnitSuffixScales("2", 'G');
    assert "2" + ['G'] == "2G";
  }

  lemma TwoMebibytesWithB()
    ensures ParseHumanSize("2mb") == Ok(2_097_152)
  {
    LiteralTwo();
    UnitSuffixScales("2", 'm');
    assert "2" + ['m'] == "2m";
    assert AllB("b");
    TrailingBIgnored("2m", "b");
    assert "2m" + "b" == "2mb";
  }

  lemma PlainByteCount()
    ensures ParseHumanSize("2097152") == Ok(2_097_152)
  {
    Literal2097152();
    LiteralIsBytes("2097152");
  }

  lemma EmptySizeExamples()
    ensures ParseHumanSize("") == Err(EmptySize)
    ensures ParseHumanSize("  ") == Err(EmptySize)
    ensures ParseHumanSize("bB") == Err(EmptySize)
  {
    EmptyAfterStripping("", "", "");
    assert "" + "" + "" == "";
    EmptyAfterStripping("  ", "", "");
    assert "  " + "" + "" == "  ";
    EmptyAfterStripping("", "bB", "");
    assert "" + "bB" + "" == "bB";
  }

  lemma BadNumberExamples()
    ensures ParseHumanSize("k") == Err(InvalidNumber(Empty))
    ensures ParseHumanSize("xk") == Err(InvalidNumber(InvalidDigit))
  {
    TrimKeepsTrimmed("k");
    assert NormalizeSize("k") == "k";
    Dispatch("k");
    TrimKeepsTrimmed("xk");
    assert NormalizeSize("xk") == "xk";
    Dispatch("xk");
    assert "xk"[..1] == "x";
    assert Digits("x") == "x" && DigitPrefix("x") == [];
  }

  lemma BadCharacterExample()
    ensures ParseHumanSize("2X") == Err(InvalidSizeChar('x'))
  {
    TrimKeepsTrimmed("2X");
    assert NormalizeSize("2X") == "2X";
    Dispatch("2X");
  }

  /** Whitespace just before the `b` keeps the `b` from being ignored. */
  lemma TrailingBAfterWhitespace()
    ensures ParseHumanSize("2 ") == Ok(2)
    ensures ParseHumanSize("2 " + "b") == Err(InvalidSizeChar(' '))
  {
    SpaceAfterNumber();
    BAfterSpace();
  }

  lemma SpaceAfterNumber()
    ensures ParseHumanSize("2 ") == Ok(2)
  {
    LiteralTwo();
    LiteralIsBytes("2");
    WhitespaceIgnored("", "2", " ");
    assert "" + "2" + " " == "2 ";
  }

  lemma BAfterSpace()
    ensures ParseHumanSize("2 " + "b") == Err(InvalidSizeChar(' '))
  {
    assert "2 " + "b" == "2 b";
    TrimKeepsTrimmed("2 b");
    assert TrimTrailingB("2 b") == TrimTrailingB("2 ") by {
      assert "2 b"[..2] == "2 ";
    }
    assert NormalizeSize("2 b") == "2 ";
    Dispatch("2 ");
  }

  lemma IntervalDefaults()
    ensures CheckInterval("300") == Ok(())
    ensures CheckInterval("43200") == Ok(())
  {
    Literal300();
    Literal43200();
  }

  lemma IntervalRejections()
    ensures CheckInterval("0") == Err("must >= 1")
    ensures CheckInterval("abc") == Err("invalid digit found in string")
    ensures CheckInterval("") == Err("cannot parse integer from empty string")
  {
    assert Digits("0") == "0";
    assert Digits("abc") == "abc" && DigitPrefix("abc") == [];
  }

  /** A literal above `u32::MAX` is rejected with the overflow message. */
  lemma IntervalTooLarge(s: string)
    requires IsUnsignedLiteral(s) && LiteralValue(s) > U32_MAX
    ensures CheckInterval(s) == Err("number too large to fit in target type")
  {
    LiteralTooLarge(s, U32_MAX);
  }
}
