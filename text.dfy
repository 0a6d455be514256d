/**
 * The pieces of Rust's standard library that the parsers and printers rely on:
 * `str::parse::<i64>` (the numeric conversion of number tokens), the decimal
 * `Display` of `i64`, and `join` over a vector of strings.
 */
module Text {
  import opened Wrappers

  const I64Min: int := -0x8000_0000_0000_0000
  const I64Max: int := 0x7FFF_FFFF_FFFF_FFFF

  /** Rust's `i64`. */
  type I64 = n: int | I64Min <= n <= I64Max

  predicate IsDigit(c: char) { '0' <= c <= '9' }

  predicate AllDigits(s: string) { forall k :: 0 <= k < |s| ==> IsDigit(s[k]) }

  function DigitValue(c: char): nat
    requires IsDigit(c)
  {
    (c as int) - ('0' as int)
  }

  function DigitChar(d: nat): char
    requires d < 10
  {
    (('0' as int) + d) as char
  }

  /** The value of a string of decimal digits, most significant first. */
  function DecimalValue(s: string): nat
    requires AllDigits(s)
    decreases |s|
  {
    if s == [] then 0 else DecimalValue(s[..|s| - 1]) * 10 + DigitValue(s[|s| - 1])
  }

  /** `s.parse::<i64>()`: an optional `+` or `-`, then at least one decimal digit and nothing
      else, whose value fits in 64 bits. */
  function ParseI64(s: string): Option<I64>
  {
    var negative := 0 < |s| && s[0] == '-';
    var digits := if 0 < |s| && (s[0] == '+' || s[0] == '-') then s[1..] else s;
    if digits == [] || !AllDigits(digits) then None
    else
      var magnitude: int := DecimalValue(digits);
      var v := if negative then -magnitude else magnitude;
      if I64Min <= v <= I64Max then Some(v) else None
  }

  /** The decimal digits of `n`, without leading zeros. */
  function ShowNat(n: nat): string
    decreases n
  {
    if n < 10 then [DigitChar(n)] else ShowNat(n / 10) + [DigitChar(n % 10)]
  }

  /** `format!("{}", n)` for an `i64`. */
  function ShowInt(n: int): string
  {
    if n < 0 then "-" + ShowNat(-n) else ShowNat(n)
  }

  /** `parts.join(sep)`: the parts in order with `sep` between neighbours. */
  function Join(parts: seq<string>, sep: string): string
  {
    if parts == [] then ""
    else if |parts| == 1 then parts[0]
    else parts[0] + sep + Join(parts[1..], sep)
  }

  /** The digits of `n` read back as `n`, and they never start with a superfluous zero. */
  lemma {:induction false} ShowNatDigits(n: nat)
    ensures 0 < |ShowNat(n)| && AllDigits(ShowNat(n))
    ensures DecimalValue(ShowNat(n)) == n
    ensures ShowNat(n)[0] == '0' ==> n == 0
    decreases n
  {
    if n >= 10 {
      ShowNatDigits(n / 10);
      var s := ShowNat(n);
      assert s[..|s| - 1] == ShowNat(n / 10);
    }
  }

  /** Printing an `i64` and parsing the text back gives the same number. */
  lemma ShowIntParses(n: I64)
    ensures ParseI64(ShowInt(n)) == Some(n)
  {
    if n < 0 {
      ShowNatDigits(-(n as int));
      assert ShowInt(n)[1..] == ShowNat(-(n as int));
    } else {
      ShowNatDigits(n);
    }
  }

  /** Text holding a `.` is never an integer: `parse::<i64>` rejects it. */
  lemma DotIsNotI64(s: string)
    requires '.' in s
    ensures ParseI64(s) == None
  {
    var k :| 0 <= k < |s| && s[k] == '.';
    var digits := if 0 < |s| && (s[0] == '+' || s[0] == '-') then s[1..] else s;
    if digits != [] && k > 0 && digits == s[1..] {
      assert digits[k - 1] == '.';
    } else if digits != [] && digits == s {
      assert digits[k] == '.';
    }
  }

  /** Joining appends the last part after the others, as `join` builds its output left to right. */
  lemma {:induction false} JoinSnoc(parts: seq<string>, p: string, sep: string)
    requires parts != []
    ensures Join(parts + [p], sep) == Join(parts, sep) + sep + p
    decreases |parts|
  {
    if |parts| == 1 {
      assert (parts + [p])[1..] == [p];
    } else {
      assert (parts + [p])[1..] == parts[1..] + [p];
      JoinSnoc(parts[1..], p, sep);
    }
  }

  /** The length of a join: the parts plus one separator between each pair of neighbours. */
  function TotalLength(parts: seq<string>): nat
  {
    if parts == [] then 0 else |parts[0]| + TotalLength(parts[1..])
  }

  lemma {:induction false} JoinLength(parts: seq<string>, sep: string)
    requires parts != []
    ensures |Join(parts, sep)| == TotalLength(parts) + (|parts| - 1) * |sep|
    decreases |parts|
  {
    if |parts| > 1 {
      JoinLength(parts[1..], sep);
    }
  }
}
