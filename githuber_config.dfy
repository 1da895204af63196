/**
  `githuber/src/config/github.config.ts`: the service settings read from the environment
  into one shared, mutable record, and `validateGitHubConfig`, which repairs the rate
  limit in place. The environment is a parameter; the console messages are returned as
  a list of warnings.
 */
module GithuberConfig {
  import opened Wrappers
  import opened JsText

  /** A JavaScript number as these settings produce it: an integer or `NaN`. */
  datatype Num = Int(value: int) | NaN

  predicate IsDigit(c: char) {
    '0' <= c <= '9'
  }

  function DigitValue(c: char): nat
    requires IsDigit(c)
  {
    c as int - '0' as int
  }

  /** The number a run of decimal digits denotes, most significant digit first. */
  function DigitsValue(s: String): nat
    requires forall k :: 0 <= k < |s| ==> IsDigit(s[k])
  {
    if |s| == 0 then 0 else DigitsValue(s[..|s| - 1]) * 10 + DigitValue(s[|s| - 1])
  }

  /** `parseInt(s, 10)`: leading whitespace is skipped, one `+` or `-` is read, then the
      longest run of decimal digits; anything after it is ignored, and without a digit
      the result is `NaN`. */
  function ParseInt(s: String): (r: Num)
    ensures r.NaN? <==> var u := Unsigned(TrimStart(s)); |u| == 0 || !IsDigit(u[0])
  {
    var t := TrimStart(s);
    var u := Unsigned(t);
    var e := RunEnd(u, 0, IsDigit);
    if e == 0 then NaN
    else
      var v: int := DigitsValue(u[..e]);
      Int(if |t| > 0 && t[0] == '-' then -v else v)
  }

  /** What is left once a leading sign is dropped. */
  function Unsigned(t: String): (u: String)
    ensures |u| <= |t|
  {
    if |t| > 0 && (t[0] == '+' || t[0] == '-') then t[1..] else t
  }

  /** The decimal numeral of `n`, without leading zeros. */
  function Decimal(n: nat): (s: String)
    ensures |s| > 0 && forall k :: 0 <= k < |s| ==> IsDigit(s[k])
  {
    var d := ['0' + (n % 10) as char];
    if n < 10 then d else Decimal(n / 10) + d
  }

  lemma {:induction false} DecimalValue(n: nat)
    ensures DigitsValue(Decimal(n)) == n
  {
    var s := Decimal(n);
    assert DigitValue(s[|s| - 1]) == n % 10;
    if n >= 10 {
      assert s[..|s| - 1] == Decimal(n / 10);
      DecimalValue(n / 10);
    }
  }

  /** `parseInt` reads back the numeral of any natural number and stops at the first
      character after it that is not a digit. */
  lemma ParseDecimal(n: nat, rest: String)
    requires |rest| == 0 || !IsDigit(rest[0])
    ensures ParseInt(Decimal(n) + rest) == Int(n)
  {
    var u := Decimal(n) + rest;
    assert IsDigit(u[0]);
    LeadingDigit(u);
    ParseDigitsAfterSign(u, n, rest);
  }

  /** Text that starts with a digit has neither leading whitespace nor a sign. */
  lemma LeadingDigit(t: String)
    requires |t| > 0 && IsDigit(t[0])
    ensures Unsigned(t) == t
    ensures TrimStart(t) == t
  {
    assert t[0] != '+' && t[0] != '-';
    assert Unsigned(t) == t;
    assert !IsSpace(t[0]);
  }

  /** Text that starts with a sign has no leading whitespace, and the sign is dropped. */
  lemma LeadingSign(sign: char, u: String)
    requires sign == '+' || sign == '-'
    ensures var t := [sign] + u; t[0] == sign && Unsigned(t) == u
    ensures var t := [sign] + u; TrimStart(t) == t
  {
    var t := [sign] + u;
    assert t[1..] == u;
    assert Unsigned(t) == u;
    assert !IsSpace(t[0]);
  }

  /** The same after a sign: `-` negates, `+` does not. */
  lemma ParseSignedDecimal(sign: char, n: nat, rest: String)
    requires sign == '+' || sign == '-'
    requires |rest| == 0 || !IsDigit(rest[0])
    ensures ParseInt([sign] + (Decimal(n) + rest)) == Int(if sign == '-' then -(n as int) else n)
  {
    var u := Decimal(n) + rest;
    LeadingSign(sign, u);
    ParseDigitsAfterSign([sign] + u, n, rest);
  }

  /** Text that starts with its sign or first digit, whose unsigned part is a numeral
      followed by a non-digit, parses to that numeral's value, negated after a `-`. */
  lemma ParseDigitsAfterSign(t: String, n: nat, rest: String)
    requires TrimStart(t) == t && Unsigned(t) == Decimal(n) + rest
    requires |rest| == 0 || !IsDigit(rest[0])
    ensures ParseInt(t) == Int(if |t| > 0 && t[0] == '-' then -(n as int) else n)
  {
    DigitsThenStop(n, rest);
  }

  /** In a numeral followed by a non-digit, the digit run is exactly the numeral. */
  lemma DigitsThenStop(n: nat, rest: String)
    requires |rest| == 0 || !IsDigit(rest[0])
    ensures var d := Decimal(n);
            RunEnd(d + rest, 0, IsDigit) == |d| && DigitsValue((d + rest)[..|d|]) == n
  {
    var d := Decimal(n);
    var u := d + rest;
    assert forall k :: 0 <= k < |d| ==> IsDigit(u[k]);
    assert |d| == |u| || !IsDigit(u[|d|]);
    RunEndExact(u, |d|);
    assert u[..|d|] == d;
    DecimalValue(n);
  }

  /** The run of digits from 0 ends exactly where the first non-digit is. */
  lemma RunEndExact(u: String, e: nat)
    requires e <= |u| && forall k :: 0 <= k < e ==> IsDigit(u[k])
    requires e == |u| || !IsDigit(u[e])
    ensures RunEnd(u, 0, IsDigit) == e
  {
  }

  /** `GITHUB_TOKEN`, `GITHUB_USER_AGENT`, `GITHUB_BASE_URL`, `GITHUB_RATE_LIMIT` and
      `GITHUB_TIMEOUT`, each possibly unset. */
  datatype Env = Env(
    token: Option<String>,
    userAgent: Option<String>,
    baseUrl: Option<String>,
    rateLimit: Option<String>,
    timeout: Option<String>)

  const DefaultUserAgent: String := "GitHub-Service/1.0.0"
  const DefaultBaseUrl: String := "https://api.github.com"
  const DefaultRateLimitText: String := "60"
  const DefaultTimeoutText: String := "30000"

  /** The rate limit `validateGitHubConfig` falls back to. */
  const FallbackRateLimit: int := 60

  /** With nothing set, the rate limit is 60 requests a minute. */
  lemma DefaultRateLimitParses()
    ensures ParseInt(DefaultRateLimitText) == Int(60)
  {
    assert Decimal(6) == "6";
    assert Decimal(60) == "60";
    ParseDecimal(60, "");
    assert Decimal(60) + "" == DefaultRateLimitText;
  }

  /** With nothing set, the timeout is 30000 ms. */
  lemma DefaultTimeoutParses()
    ensures ParseInt(DefaultTimeoutText) == Int(30000)
  {
    assert Decimal(3) == "3";
    assert Decimal(30) == "30";
    assert Decimal(300) == "300";
    assert Decimal(3000) == "3000";
    assert Decimal(30000) == "30000";
    ParseDecimal(30000, "");
    assert Decimal(30000) + "" == DefaultTimeoutText;
  }

  /** The check `rateLimit < 1 || rateLimit > 100`; `NaN` fails both comparisons. */
  predicate OutOfRange(n: Num) {
    n.Int? && (n.value < 1 || n.value > 100)
  }

  /** The rate limit after validation. */
  function Clamped(n: Num): (r: Num)
    ensures !OutOfRange(r)
    ensures r.NaN? <==> n.NaN?
    ensures r != n ==> r == Int(FallbackRateLimit)
    ensures !OutOfRange(n) ==> r == n
    ensures OutOfRange(n) ==> r == Int(FallbackRateLimit)
  {
    if OutOfRange(n) then Int(FallbackRateLimit) else n
  }

  /** Validating twice changes nothing more than validating once. */
  lemma ClampedIdempotent(n: Num)
    ensures Clamped(Clamped(n)) == Clamped(n)
  {
  }

  /** The two console warnings `validateGitHubConfig` can print. */
  datatype Warning = TokenMissing | RateLimitOutOfRange

  /** `githubConfig`: the shared settings record. */
  class ServiceConfig {
    var token: Option<String>
    var userAgent: String
    var baseUrl: String
    var rateLimit: Num
    var timeout: Num

    /** The record as the module builds it on load. */
    constructor(env: Env)
      ensures token == env.token
      ensures userAgent == OrElse(env.userAgent, DefaultUserAgent)
      ensures baseUrl == OrElse(env.baseUrl, DefaultBaseUrl)
      ensures rateLimit == ParseInt(OrElse(env.rateLimit, DefaultRateLimitText))
      ensures timeout == ParseInt(OrElse(env.timeout, DefaultTimeoutText))
    {
      token := env.token;
      userAgent := OrElse(env.userAgent, DefaultUserAgent);
      baseUrl := OrElse(env.baseUrl, DefaultBaseUrl);
      var rateText := OrElse(env.rateLimit, DefaultRateLimitText);
      var timeoutText := OrElse(env.timeout, DefaultTimeoutText);
      rateLimit := ParseInt(rateText);
      timeout := ParseInt(timeoutText);
    }

    /** `validateGitHubConfig`: warns about a missing token, and replaces a rate limit
        outside 1..100 by 60 in place; nothing else changes. */
    method Validate() returns (warnings: seq<Warning>)
      modifies this
      ensures rateLimit == Clamped(old(rateLimit))
      ensures rateLimit.NaN? || 1 <= rateLimit.value <= 100
      ensures !OutOfRange(old(rateLimit)) ==> rateLimit == old(rateLimit)
      ensures OutOfRange(old(rateLimit)) ==> rateLimit == Int(FallbackRateLimit)
      ensures token == old(token) && userAgent == old(userAgent)
      ensures baseUrl == old(baseUrl) && timeout == old(timeout)
      ensures TokenMissing in warnings <==> !Truthy(token)
      ensures RateLimitOutOfRange in warnings <==> OutOfRange(old(rateLimit))
      ensures |warnings| <= 2
    {
      warnings := [];
      if !Truthy(token) {
        warnings := warnings + [TokenMissing];
      }
      if rateLimit.Int? && (rateLimit.value < 1 || rateLimit.value > 100) {
        warnings := warnings + [RateLimitOutOfRange];
        rateLimit := Int(FallbackRateLimit);
      }
    }
  }
}
