# rssbot command-line validators in Dafny

This project models the two pure helpers of rssbot's `src/main.rs` that check
command-line arguments:

- `parse_human_size` turns the `--max-feed-size` argument into a byte count.
  Examples are `"2M"`, `"2mb"` and `"2097152"`.
  It trims whitespace and strips every trailing `b`/`B`.
  It then dispatches on the ASCII-lowercased last character:
  - `k`, `m`, `g` and `t` scale the `u64` prefix by 1024 to the first through fourth power;
  - a digit parses the whole remaining text as a `u64`;
  - any other character is an "invalid size character" error;
  - nothing left is the "empty size" error.
- `check_interval` validates `--min-interval` and `--max-interval`. The
  argument must parse as a `u32` whose value is at least 1.

The project has four modules, each in its own file:

- `Wrappers` (`wrappers.dfy`): the `Result` type.
- `RustStr` (`rust_str.dfy`): the parts of Rust's string library the helpers
  use. It defines the Unicode `White_Space` set of `char::is_whitespace`,
  along with `trim_start`, `trim_end` and `trim`. The lemmas say what each
  trim removes and keeps.
- `RustInt` (`rust_int.dfy`): the unsigned `FromStr` of `u32` and `u64`.
  - It is modelled as Rust's algorithm:
    - empty input is `Empty`;
    - a lone sign is `InvalidDigit`;
    - one leading `+` is allowed;
    - a left-to-right fold reports `InvalidDigit` at the first non-digit,
      unless the value already overflowed, which is `PosOverflow`.
  - It is proved against a reference definition: the longest digit prefix
    and its positional decimal value.
  - It also has the three `ParseIntError` display messages.
- `Options` (`options.dfy`): the two helpers, plus a reference predicate
  `SizeDenotes`. That predicate states which normalised size strings denote
  which byte counts, independently of the `match`.

One consequence shows up in the proofs. Stripping trailing `b`/`B` happens
after trimming whitespace. So a `b` after trailing whitespace is not ignored:
`"2 "` is 2 bytes, but `"2 b"` is an invalid size character `' '`. "Appending
`b`/`B` never changes the outcome" is therefore proved only for inputs that do
not end in whitespace, or that are whitespace only. The counterexample is
stated as well (`Options.TrailingBAfterWhitespace`).

## Model

| member | source | states |
|---|---|---|
| RustStr.TrimStartShape | src/main.rs:109 | what `trim_start` removes is all whitespace, and what it keeps is a suffix of the input |
| RustStr.TrimEndShape | src/main.rs:109 | what `trim_end` removes is all whitespace, and what it keeps is a prefix of the input |
| RustStr.Trim | src/main.rs:109 | the trimmed text is no longer than the input, and neither starts nor ends with whitespace |
| RustStr.TrimIgnoresSurrounding | src/main.rs:109 | trimming whitespace-surrounded text gives the same as trimming the text itself |
| RustStr.TrimKeepsTrimmed | src/main.rs:109 | text without whitespace at either end is left unchanged by `trim` |
| RustStr.TrimAppendAfterText | src/main.rs:109 | trimming commutes with appending text that ends in non-whitespace after text that ends in non-whitespace |
| Options.TrimTrailingB | src/main.rs:109 | after `trim_end_matches` on `b`/`B`, the result is no longer than the input and its last character is not `b`/`B` |
| Options.TrimTrailingBShape | src/main.rs:109 | what the strip removes is all `b`/`B`, and what it keeps is a prefix of the input |
| Options.TrimTrailingBSkips | src/main.rs:109 | any run of `b`/`B` after `x` is removed completely, with the same result as stripping `x` alone |
| Options.NormalizeSize | src/main.rs:109 | the text dispatched on is no longer than the input, does not start with whitespace and does not end in `b`/`B` |
| Options.AsciiLowercase | src/main.rs:110 | the lowercased character is `b` exactly for `b`/`B`, one of `k`/`m`/`g`/`t` exactly for a unit letter in either case, and a digit exactly for a digit |
| RustInt.Accumulate | src/main.rs:112-116 | the digit fold returns `PosOverflow` once the digit prefix's value exceeds the maximum; otherwise it returns that value if the whole input is digits, and `InvalidDigit` if not |
| RustInt.ParseUnsigned | src/main.rs:97 | `parse` succeeds exactly on a non-empty digit string (one leading `+` allowed) whose value is within range, with that value; `Empty` exactly on empty input; `InvalidDigit` exactly on a non-literal whose digit prefix is in range |
| RustInt.LiteralTooLarge | src/main.rs:97 | a literal above the maximum is rejected with `PosOverflow` |
| RustInt.DecimalValueAppend | src/main.rs:116 | appending a digit multiplies the decimal value by ten and adds the digit |
| Options.CheckInterval | src/main.rs:96-104 | succeeds iff the argument is a `u32` literal of at least 1; gives "must >= 1" iff it is a literal of value 0; otherwise gives the `ParseIntError` message of the failed parse |
| Options.IntervalDefaults | src/main.rs:51-68 | the default intervals "300" and "43200" are accepted |
| Options.IntervalRejections | src/main.rs:96-104 | "0" gives "must >= 1", "abc" the invalid-digit message, and "" the empty-string message |
| Options.IntervalTooLarge | src/main.rs:97 | a literal above `u32::MAX` is rejected with the overflow message |
| RustInt.MessagesDistinct | src/main.rs:97 | the three `ParseIntError` messages are pairwise distinct, and none is "must >= 1" |
| Options.UnitPowers | src/main.rs:108-115 | `BASE.pow(e)` for the exponent a unit letter selects is that unit's factor 1024, 1024², 1024³ or 1024⁴, and the lowercased letter is one of `k`, `m`, `g`, `t` |
| Options.BArmUnreachable | src/main.rs:109-111 | after normalisation the lowercased last character is never `b`, so the `Some('b')` arm is dead |
| Options.ScaledOk | src/main.rs:112-116 | a scaled arm succeeds with `n` exactly when the prefix is a `u64` literal and `n` is its value times `1024^e` |
| Options.Scaled | src/main.rs:112-116 | a scaled arm succeeds exactly when the prefix is a `u64` literal, with its value times `1024^e`; otherwise it passes the parse error of the prefix on |
| Options.Dispatch | src/main.rs:110-117 | on non-empty text not ending in `b`/`B`: a unit letter scales the prefix, a digit parses the whole text, and anything else is an invalid size character (lowercased) |
| Options.SizeOfNormalized | src/main.rs:110-119 | "empty size" exactly on empty text; success only when the last character is a digit, a unit letter or `b`/`B`; an invalid size character only for any other last character, which it reports lowercased |
| Options.LiteralBounds | src/main.rs:116 | a `u64` literal is non-empty and ends in a digit, so whitespace trimming and the `b` strip leave it alone |
| Options.SizeOfNormalizedOk | src/main.rs:110-119 | on normalised text the `match` returns `Ok(n)` exactly when the text denotes `n` bytes, per the reference predicate |
| Options.ParseHumanSizeOk | src/main.rs:107-120 | `parse_human_size` returns `Ok(n)` exactly when the trimmed, `b`-stripped input denotes `n` bytes |
| Options.ParseHumanSize | src/main.rs:107-120 | every byte count returned is one the normalised input denotes, and "empty size" is returned exactly when nothing is left after normalising (the converse of the first is `ParseHumanSizeOk`) |
| Options.UnitMultipleOf1024 | src/main.rs:112-115 | any count of a unit is a multiple of 1024 |
| Options.NormalizeUnitLiteral | src/main.rs:109 | a literal followed by a unit letter is unchanged by the normalisation |
| Options.UnitSuffixScales | src/main.rs:108-115 | a `u64` literal followed by `k`/`m`/`g`/`t` in either case yields the literal times that unit's factor, a multiple of 1024 |
| Options.UnitSizeIsMultipleOf1024 | src/main.rs:112-115 | every successful size whose normalised text ends in a unit letter is a multiple of 1024 |
| Options.LiteralIsBytes | src/main.rs:116 | a bare `u64` literal yields its own decimal value |
| Options.WhitespaceIgnored | src/main.rs:109 | leading and trailing whitespace never changes the outcome |
| Options.AllBIsTrimmed | src/main.rs:109 | a run of `b`/`B` has no whitespace for `trim` to remove |
| Options.NormalizeBlank | src/main.rs:109 | whitespace, then `b`/`B`, then whitespace normalises to nothing |
| Options.NormalizeIgnoresTrailingBAfterText | src/main.rs:109 | `b`/`B` appended to text ending in non-whitespace vanish in normalisation |
| Options.TrailingBIgnored | src/main.rs:109 | appending `b`/`B` does not change the outcome for inputs that do not end in whitespace (or are only whitespace) |
| Options.EmptyAfterStripping | src/main.rs:109-118 | whitespace, then `b`/`B`, then whitespace is the "empty size" error |
| Options.EmptySizeExactly | src/main.rs:110-118 | "empty size" is reported exactly when nothing is left after normalisation |
| Options.EmptySizeShape | src/main.rs:109-118 | an input rejected as empty splits into whitespace, then `b`/`B`, then whitespace |
| Options.InvalidLastCharacter | src/main.rs:117 | a last character that is neither a digit nor a unit letter is reported, lowercased, as an invalid size character |
| Options.UnitNeedsNumber | src/main.rs:112-115 | a unit letter after a non-number is an error, and after nothing it is the empty-string parse error |
| Options.TwoMebibytes | src/main.rs:201 | "2M" is 2097152 bytes |
| Options.TwoGibibytes | src/main.rs:202 | "2G" is 2147483648 bytes |
| Options.TwoMebibytesWithB | src/main.rs:203 | "2mb" is 2097152 bytes |
| Options.PlainByteCount | src/main.rs:204 | "2097152" is 2097152 bytes |
| Options.EmptySizeExamples | src/main.rs:118 | "", "  " and "bB" are the "empty size" error |
| Options.BadNumberExamples | src/main.rs:112 | "k" fails to parse an empty number, and "xk" fails on an invalid digit |
| Options.BadCharacterExample | src/main.rs:117 | "2X" is the invalid size character `x` |
| Options.TrailingBAfterWhitespace | src/main.rs:109-117 | "2 " is 2 bytes, but "2 b" is the invalid size character `' '` |
| Options.SpaceAfterNumber | src/main.rs:109-116 | "2 " is 2 bytes |
| Options.BAfterSpace | src/main.rs:109-117 | "2 b" is the invalid size character `' '` |

## Left out

- Options.Scaled: the product `n * BASE.pow(e)` is unbounded. The source's
  `u64` multiplication panics in debug builds and wraps in release builds once
  the product exceeds `u64::MAX`. Neither behaviour is modelled.
- Options.ParseHumanSize: the `anyhow` error values are modelled as the
  `SizeError` datatype, not as rendered text. Their `{}` formatting and the
  `context("Invalid max_feed_size")` added by the caller are not modelled.
- Strings are sequences of Unicode scalar values, not UTF-8 bytes.
  `s[..s.len() - 1]` drops one byte. That is the same as dropping the last
  character here, because the arms that slice all end in an ASCII letter.
  Rust's integer parse also reads bytes, while `RustInt.Accumulate` reads
  characters. Both report `InvalidDigit` at the same point, because no byte
  of a non-ASCII character's UTF-8 encoding is an ASCII digit.
- `main`, `enable_fail_fast`, `init_proxy` and `print_error` are left out:
  process bootstrap, network calls, environment reads, panic hooks and
  terminal output.
- The `BOT_NAME`/`BOT_ID` globals and the shared database mutex are left out:
  process-wide mutable state and locking.
- The `Opt` structure and its StructOpt-derived argument parsing are library
  code. Only the validator it calls and the default values it passes are
  modelled.
- The `data`, `feed`, `fetcher`, `gardener`, `client`, `commands`, `messages`
  and `opml` modules are not part of this model.
