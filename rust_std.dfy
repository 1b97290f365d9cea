/** The pieces of Rust's standard library the pages rely on: `Option`, the
    fixed-width integer types, `<uN as FromStr>` / `<iN as FromStr>` for
    decimal text, and `str::to_lowercase` (restricted to ASCII letters). */
module RustStd {

  datatype Option<T> = None | Some(value: T)

  datatype Result<T, E> = Ok(value: T) | Err(error: E)

  const U64_LIMIT: nat := 0x1_0000_0000_0000_0000
  const I32_MIN: int := -0x8000_0000
  const I32_MAX: int := 0x7fff_ffff

  type u32 = x: int | 0 <= x < 0x1_0000_0000
  type u64 = x: int | 0 <= x < 0x1_0000_0000_0000_0000
  type i32 = x: int | -0x8000_0000 <= x <= 0x7fff_ffff

  predicate IsDigit(c: char) { '0' <= c <= '9' }

  predicate AllDigits(s: string) { forall i :: 0 <= i < |s| ==> IsDigit(s[i]) }

  /** One or more decimal digits and nothing else. */
  predicate Decimal(s: string) { |s| > 0 && AllDigits(s) }

  function DigitChar(d: nat): char
    requires d < 10
  {
    ('0' as int + d) as char
  }

  /** The number a string of decimal digits denotes, most significant digit first. */
  function DigitsValue(s: string): nat
    requires AllDigits(s)
  {
    if s == [] then 0 else DigitsValue(s[..|s| - 1]) * 10 + (s[|s| - 1] as int - '0' as int)
  }

  /** The decimal text `to_string` produces for a natural number (no leading zeros). */
  function ShowNat(n: nat): (s: string)
    ensures |s| > 0 && AllDigits(s)
  {
    if n < 10 then [DigitChar(n)] else ShowNat(n / 10) + [DigitChar(n % 10)]
  }

  /** `to_string` of a signed integer. */
  function ShowInt(n: int): (s: string)
    ensures |s| > 0
    ensures s[0] == '-' <==> n < 0
    ensures n < 0 ==> Decimal(s[1..])
    ensures n >= 0 ==> Decimal(s)
  {
    if n < 0 then "-" + ShowNat(-n) else ShowNat(n)
  }

  /** A text with no leading sign. */
  predicate Unsigned(s: string) { |s| == 0 || (s[0] != '+' && s[0] != '-') }

  /** The value of a run of one or more digits, if it is below `limit`. */
  function DigitsBelow(d: string, limit: nat): (r: Option<nat>)
    ensures r.Some? <==> Decimal(d) && DigitsValue(d) < limit
    ensures r.Some? ==> r.value == DigitsValue(d)
  {
    if Decimal(d) && DigitsValue(d) < limit then Some(DigitsValue(d)) else None
  }

  /** `<uN as FromStr>::from_str` for a type whose values are below `limit`:
      an optional leading '+', then one or more decimal digits, denoting a
      value below `limit`. A sign without digits, a '-', any other character,
      the empty string and an overflowing value are parse errors. */
  function ParseUnsigned(s: string, limit: nat): (r: Option<nat>)
    ensures r.Some? ==> r.value < limit
    ensures Unsigned(s) ==> (r.Some? <==> Decimal(s) && DigitsValue(s) < limit)
    ensures Unsigned(s) && r.Some? ==> r.value == DigitsValue(s)
    ensures |s| > 0 && s[0] == '+' ==> (r.Some? <==> Decimal(s[1..]) && DigitsValue(s[1..]) < limit)
    ensures |s| > 0 && s[0] == '+' && r.Some? ==> r.value == DigitsValue(s[1..])
    ensures |s| > 0 && s[0] == '-' ==> r.None?
  {
    if |s| > 0 && s[0] == '-' then None
    else if |s| > 0 && s[0] == '+' then DigitsBelow(s[1..], limit)
    else DigitsBelow(s, limit)
  }

  /** `<u64 as FromStr>::from_str`: exactly the texts of one or more digits,
      optionally after a '+', whose value is below 2^64; the value is theirs. */
  function ParseU64(s: string): (r: Option<u64>)
    ensures Unsigned(s) ==> (r.Some? <==> Decimal(s) && DigitsValue(s) < U64_LIMIT)
    ensures Unsigned(s) && r.Some? ==> r.value == DigitsValue(s)
    ensures |s| > 0 && s[0] == '+' ==> (r.Some? <==> Decimal(s[1..]) && DigitsValue(s[1..]) < U64_LIMIT)
    ensures |s| > 0 && s[0] == '+' && r.Some? ==> r.value == DigitsValue(s[1..])
    ensures |s| > 0 && s[0] == '-' ==> r.None?
  {
    match ParseUnsigned(s, U64_LIMIT)
    case Some(n) => Some(n)
    case None => None
  }

  /** `<i32 as FromStr>::from_str`: an optional '+' or '-', then one or more
      decimal digits, denoting a value in the range of `i32`. */
  function ParseI32(s: string): (r: Option<i32>)
    ensures Unsigned(s) ==> (r.Some? <==> Decimal(s) && DigitsValue(s) <= I32_MAX)
    ensures Unsigned(s) && r.Some? ==> r.value == DigitsValue(s)
    ensures |s| > 0 && s[0] == '+' ==> (r.Some? <==> Decimal(s[1..]) && DigitsValue(s[1..]) <= I32_MAX)
    ensures |s| > 0 && s[0] == '+' && r.Some? ==> r.value == DigitsValue(s[1..])
    ensures |s| > 0 && s[0] == '-' ==> (r.Some? <==> Decimal(s[1..]) && DigitsValue(s[1..]) <= -I32_MIN)
    ensures |s| > 0 && s[0] == '-' && r.Some? ==> r.value == -(DigitsValue(s[1..]) as int)
  {
    if |s| > 0 && s[0] == '-' then
      match DigitsBelow(s[1..], -I32_MIN + 1)
      case Some(n) => Some(-(n as int))
      case None => None
    else if |s| > 0 && s[0] == '+' then DigitsBelow(s[1..], I32_MAX + 1)
    else DigitsBelow(s, I32_MAX + 1)
  }

  lemma {:induction false} DigitsValueAppend(s: string, d: nat)
    requires AllDigits(s) && d < 10
    ensures AllDigits(s + [DigitChar(d)])
    ensures DigitsValue(s + [DigitChar(d)]) == DigitsValue(s) * 10 + d
  {
  }

  /** Reading back the text `to_string` writes gives the number again. */
  lemma {:induction false} ShowNatValue(n: nat)
    ensures DigitsValue(ShowNat(n)) == n
  {
    if n < 10 {
      assert ShowNat(n)[..0] == [];
    } else {
      ShowNatValue(n / 10);
      DigitsValueAppend(ShowNat(n / 10), n % 10);
    }
  }

  /** `n.to_string().parse::<i32>() == Ok(n)` for every `i32`. */
  lemma ParseShowI32(n: i32)
    ensures ParseI32(ShowInt(n)) == Some(n)
  {
    if n < 0 {
      var s := ShowInt(n);
      assert s[1..] == ShowNat(-(n as int));
      ShowNatValue(-(n as int));
    } else {
      ShowNatValue(n);
    }
  }

  /** `n.to_string().parse::<uN>() == Ok(n)` for every value below the type's limit. */
  lemma ParseShowUnsigned(n: nat, limit: nat)
    requires n < limit
    ensures ParseUnsigned(ShowNat(n), limit) == Some(n)
  {
    ShowNatValue(n);
  }

  /** The lower-case form of one character; only ASCII letters change. */
  function LowerChar(c: char): (l: char)
    ensures 'A' <= c <= 'Z' ==> l as int == c as int + 32
    ensures !('A' <= c <= 'Z') ==> l == c
    ensures !('A' <= l <= 'Z')
  {
    if 'A' <= c <= 'Z' then (c as int + 32) as char else c
  }

  /** `str::to_lowercase` on ASCII text. */
  function ToLowercase(s: string): (r: string)
    ensures |r| == |s|
    ensures forall i :: 0 <= i < |s| ==> r[i] == LowerChar(s[i])
  {
    if s == [] then [] else [LowerChar(s[0])] + ToLowercase(s[1..])
  }

  /** Lower-casing twice is lower-casing once. */
  lemma LowercaseIdempotent(s: string)
    ensures ToLowercase(ToLowercase(s)) == ToLowercase(s)
  {
  }

  /** `str::starts_with`. */
  predicate StartsWith(s: string, prefix: string)
  {
    |prefix| <= |s| && s[..|prefix|] == prefix
  }
}
