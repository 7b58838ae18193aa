/**
 * Construction of the database from its URI: the query parameters `strict`,
 * `default_expiration` and `cleanup_interval`, Go's `strconv.Atoi` on 64-bit
 * integers, and `time.Duration(n) * time.Second`, which wraps around in int64.
 */
module Config {
  import opened Wrappers
  import opened Errors

  const MinInt64: int := -0x8000_0000_0000_0000
  const MaxInt64: int := 0x7FFF_FFFF_FFFF_FFFF
  const TwoTo64: int := 0x1_0000_0000_0000_0000

  /** time.Second, in nanoseconds (the unit of time.Duration). */
  const Second: int := 1_000_000_000

  /** Go's url.Values: each key with its values, in query-string order. */
  type Query = map<string, seq<string>>

  /** url.Values.Get: the first value given for the key, or "" if it has none. */
  function Get(q: Query, key: string): string
  {
    if key in q && |q[key]| > 0 then q[key][0] else ""
  }

  predicate IsDigit(ch: char) { '0' <= ch <= '9' }

  predicate AllDigits(s: string) { forall i | 0 <= i < |s| :: IsDigit(s[i]) }

  function DigitValue(ch: char): nat
    requires IsDigit(ch)
  {
    ch as int - '0' as int
  }

  function DigitChar(d: nat): char
    requires d < 10
  {
    ('0' as int + d) as char
  }

  /** The value of a run of decimal digits, read left to right (n := n*10 + d). */
  function DigitsValue(s: string): nat
    requires AllDigits(s)
  {
    if s == [] then 0 else DigitsValue(s[..|s| - 1]) * 10 + DigitValue(s[|s| - 1])
  }

  /**
   * strconv.Atoi on a 64-bit platform: an optional '+' or '-', then at least
   * one decimal digit (no spaces, no underscores, no fraction), and the value
   * must fit in int64. Anything else is an error.
   */
  function Atoi(s: string): (r: Option<int>)
    ensures r.Some? ==> MinInt64 <= r.value <= MaxInt64
    ensures r.Some? ==> |s| > 0 && (IsDigit(s[0]) || ((s[0] == '+' || s[0] == '-') && |s| > 1))
    ensures r.Some? ==> forall i | 1 <= i < |s| :: IsDigit(s[i])
    ensures r.Some? && |s| > 0 && s[0] == '-' ==> r.value <= 0
    ensures r.Some? && |s| > 0 && s[0] != '-' ==> r.value >= 0
  {
    var unsigned := if |s| > 0 && (s[0] == '+' || s[0] == '-') then s[1..] else s;
    if unsigned == [] || !AllDigits(unsigned) then None
    else
      var n: int := if s[0] == '-' then -(DigitsValue(unsigned) as int) else DigitsValue(unsigned);
      if MinInt64 <= n <= MaxInt64 then Some(n) else None
  }

  /** The decimal digits of a natural number, without leading zeros. */
  function NatDigits(n: nat): (s: string)
    ensures |s| > 0 && AllDigits(s)
  {
    if n < 10 then [DigitChar(n)] else NatDigits(n / 10) + [DigitChar(n % 10)]
  }

  /** strconv.Itoa: the canonical decimal form of an integer, the inverse of Atoi. */
  function Itoa(n: int): string
  {
    if n < 0 then "-" + NatDigits(-n) else NatDigits(n)
  }

  lemma {:induction false} NatDigitsValue(n: nat)
    ensures DigitsValue(NatDigits(n)) == n
  {
    if n >= 10 {
      NatDigitsValue(n / 10);
      var s := NatDigits(n);
      assert s[..|s| - 1] == NatDigits(n / 10);
    }
  }

  /** Every int64 survives formatting followed by Atoi. */
  lemma AtoiItoa(n: int)
    requires MinInt64 <= n <= MaxInt64
    ensures Atoi(Itoa(n)) == Some(n)
  {
    var s := Itoa(n);
    if n < 0 {
      NatDigitsValue(-n);
      assert s[1..] == NatDigits(-n);
    } else {
      NatDigitsValue(n);
      assert IsDigit(s[0]);
    }
  }

  /** Go's signed 64-bit arithmetic: the int64 congruent to x modulo 2^64. */
  function WrapInt64(x: int): (r: int)
    ensures MinInt64 <= r <= MaxInt64
    ensures (r - x) % TwoTo64 == 0
    ensures MinInt64 <= x <= MaxInt64 ==> r == x
  {
    (x - MinInt64) % TwoTo64 + MinInt64
  }

  /** time.Duration(n) * time.Second: n seconds in nanoseconds, wrapped to int64. */
  function Seconds(n: int): (d: int)
    ensures MinInt64 <= d <= MaxInt64
    ensures (d - n * Second) % TwoTo64 == 0
    ensures MinInt64 <= n * Second <= MaxInt64 ==> d == n * Second
  {
    WrapInt64(n * Second)
  }

  /** The largest second count whose duration does not wrap around. */
  lemma SecondsLargestExact()
    ensures Seconds(9_223_372_036) == 9_223_372_036_000_000_000
    ensures Seconds(9_223_372_037) == -9_223_372_036_709_551_616
  {
  }

  /** The settings the construction URI selects. */
  datatype Config = Config(strict: bool, defaultExpiration: int, cleanupInterval: int)

  /** An optional integer-seconds parameter: absent ("") is 0, otherwise Atoi decides. */
  function ParseSeconds(s: string): Result<int, Error>
  {
    if s == "" then Ok(0)
    else match Atoi(s)
      case None => Err(NumError(s))
      case Some(n) => Ok(Seconds(n))
  }

  predicate AbsentOrInteger(s: string) { s == "" || Atoi(s).Some? }

  /**
   * The parameter handling of NewRTreeSpatialDatabase: `strict` is false only
   * for the exact value "false"; each duration defaults to 0 and is otherwise
   * an integer number of seconds; `default_expiration` is checked first.
   */
  function ParseConfig(q: Query): (r: Result<Config, Error>)
    ensures r.Ok? <==> AbsentOrInteger(Get(q, "default_expiration")) && AbsentOrInteger(Get(q, "cleanup_interval"))
    ensures r.Ok? ==> (r.value.strict <==> Get(q, "strict") != "false")
    ensures r.Ok? && Get(q, "default_expiration") == "" ==> r.value.defaultExpiration == 0
    ensures r.Ok? && Get(q, "cleanup_interval") == "" ==> r.value.cleanupInterval == 0
    ensures r.Ok? && Get(q, "default_expiration") != "" ==>
      r.value.defaultExpiration == Seconds(Atoi(Get(q, "default_expiration")).value)
    ensures r.Ok? && Get(q, "cleanup_interval") != "" ==>
      r.value.cleanupInterval == Seconds(Atoi(Get(q, "cleanup_interval")).value)
    ensures r.Err? && !AbsentOrInteger(Get(q, "default_expiration")) ==>
      r.error == NumError(Get(q, "default_expiration"))
    ensures r.Err? && AbsentOrInteger(Get(q, "default_expiration")) ==>
      r.error == NumError(Get(q, "cleanup_interval"))
    ensures q == map[] ==> r == Ok(Config(true, 0, 0))
  {
    var strict := Get(q, "strict") != "false";
    match ParseSeconds(Get(q, "default_expiration"))
    case Err(e) => Err(e)
    case Ok(expires) =>
      match ParseSeconds(Get(q, "cleanup_interval"))
      case Err(e) => Err(e)
      case Ok(cleanup) => Ok(Config(strict, expires, cleanup))
  }

  /** A query that spells out the given settings, each key with a single value. */
  function QueryFor(strict: bool, expSeconds: int, cleanupSeconds: int): Query
  {
    map["strict" := [if strict then "true" else "false"],
        "default_expiration" := [Itoa(expSeconds)],
        "cleanup_interval" := [Itoa(cleanupSeconds)]]
  }

  /** Any settings written into the URI are read back as written (durations in seconds). */
  lemma ParseConfigQueryFor(strict: bool, expSeconds: int, cleanupSeconds: int)
    requires MinInt64 <= expSeconds <= MaxInt64 && MinInt64 <= cleanupSeconds <= MaxInt64
    ensures ParseConfig(QueryFor(strict, expSeconds, cleanupSeconds))
         == Ok(Config(strict, Seconds(expSeconds), Seconds(cleanupSeconds)))
  {
    var q := QueryFor(strict, expSeconds, cleanupSeconds);
    AtoiItoa(expSeconds);
    AtoiItoa(cleanupSeconds);
    assert Get(q, "default_expiration") == Itoa(expSeconds);
    assert Get(q, "cleanup_interval") == Itoa(cleanupSeconds);
  }
}
