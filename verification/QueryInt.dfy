/** The text of cursors and limits in a pull request. */
module QueryInt {
  const TWO_TO_63 := 0x8000_0000_0000_0000

  predicate IsDigit(c: char) {
    '0' <= c <= '9'
  }

  predicate AllDigits(raw: string) {
    forall c <- raw :: IsDigit(c)
  }

  function DecimalValue(raw: string): nat
    requires AllDigits(raw)
  {
    if raw == "" then 0
    else
      var n := |raw| - 1;
      assert raw[n] in raw;
      10 * DecimalValue(raw[..n]) + (raw[n] as int - '0' as int)
  }

  // The decimal form a response prints.
  function Decimal(n: nat): string {
    var digit := ('0' as int + n % 10) as char;
    if n < 10 then [digit] else Decimal(n / 10) + [digit]
  }

  lemma {:induction false} DecimalRoundTrip(n: nat)
    ensures Decimal(n) != "" && AllDigits(Decimal(n))
    ensures DecimalValue(Decimal(n)) == n
  {
    if n >= 10 {
      DecimalRoundTrip(n / 10);
      var s := Decimal(n);
      assert s[..|s| - 1] == Decimal(n / 10);
    } else {
      assert Decimal(n)[..0] == "";
    }
  }

  function Pow10(n: nat): nat {
    if n == 0 then 1 else 10 * Pow10(n - 1)
  }

  lemma TenTimes(d: int, p: int)
    ensures d * (10 * p) == 10 * (d * p)
  {
  }

  /** The first digit weighs most: a number is read from its highest digit down. */
  lemma {:induction false} FirstDigitWeighsMost(c: char, rest: string)
    requires IsDigit(c) && AllDigits(rest)
    ensures AllDigits([c] + rest)
    ensures DecimalValue([c] + rest) == (c as int - '0' as int) * Pow10(|rest|) + DecimalValue(rest)
    ensures DecimalValue(rest) < Pow10(|rest|)
    decreases rest
  {
    var raw := [c] + rest;
    if rest == "" {
      assert raw[..0] == "";
    } else {
      var n := |rest| - 1;
      assert rest[n] in rest && raw[..n + 1] == [c] + rest[..n];
      FirstDigitWeighsMost(c, rest[..n]);
      TenTimes(c as int - '0' as int, Pow10(n));
    }
  }

  // What a response prints has no leading zero, but for zero itself.
  lemma {:induction false} NoLeadingZero(n: nat)
    ensures Decimal(n) != "" && (n > 0 ==> Decimal(n)[0] != '0') && Decimal(0) == "0"
  {
    if n >= 10 {
      NoLeadingZero(n / 10);
    }
  }

  // Absent, a value, or a client error.
  datatype Parsed = Missing | Value(n: nat) | Malformed

  method ParseNonNegativeQueryInt(raw: string) returns (p: Parsed)
    ensures p.Missing? <==> raw == ""
    ensures p.Value? <==> raw != "" && (forall c <- raw :: '0' <= c <= '9') && DecimalValue(raw) < 9_223_372_036_854_775_808
    ensures p.Value? ==> p.n == DecimalValue(raw)
    ensures forall n: nat | n < TWO_TO_63 && raw == Decimal(n) :: p == Value(n)
  {
    forall n: nat | raw == Decimal(n) ensures raw != "" && AllDigits(raw) && DecimalValue(raw) == n {
      DecimalRoundTrip(n);
    }
    if raw == "" {
      return Missing;
    }
    for i := 0 to |raw|
      invariant AllDigits(raw[..i])
    {
      if raw[i] < '0' || raw[i] > '9' {
        assert raw[i] in raw;
        return Malformed;
      }
      assert raw[..i + 1] == raw[..i] + [raw[i]];
    }
    assert raw[..|raw|] == raw;
    var n := DecimalValue(raw);
    if n >= TWO_TO_63 {
      return Malformed;
    }
    return Value(n);
  }

  datatype PullRequest = PullRequest(since: nat, limit: nat, live: string)

  datatype PullParams = Accepted(request: PullRequest) | InvalidParameter(param: string)

  predicate Readable(raw: string) {
    raw == "" || (AllDigits(raw) && DecimalValue(raw) < TWO_TO_63)
  }

  /** Every request that reaches the store asks for between 1 and maxLimit rows, after the cursor it
      named or zero; a limit above the maximum is truncated, not refused. */
  method ParsePull(rawSince: string, rawLimit: string, live: string, defaultLimit: nat, maxLimit: nat) returns (r: PullParams)
    requires 0 < defaultLimit <= maxLimit
    ensures r.Accepted? <==>
              && Readable(rawSince) && Readable(rawLimit) && live in ["", "poll", "sse"]
              && (rawLimit != "" ==> DecimalValue(rawLimit) != 0)
    ensures r.Accepted? ==> 1 <= r.request.limit <= maxLimit && r.request.live == live
    ensures r.Accepted? ==> r.request.since == if rawSince == "" then 0 else DecimalValue(rawSince)
    ensures r.Accepted? && rawLimit != "" && DecimalValue(rawLimit) <= maxLimit ==> r.request.limit == DecimalValue(rawLimit)
    ensures r.Accepted? && rawLimit != "" && DecimalValue(rawLimit) > maxLimit ==> r.request.limit == maxLimit
    ensures r.Accepted? && rawLimit == "" ==> r.request.limit == defaultLimit
    ensures r.InvalidParameter? ==> r.param in ["since", "limit", "live"]
    ensures r.InvalidParameter? ==> (r.param == "since" <==> !Readable(rawSince))
    ensures r.InvalidParameter? && Readable(rawSince) ==>
              (r.param == "limit" <==> !Readable(rawLimit) || (rawLimit != "" && DecimalValue(rawLimit) == 0))
  {
    var since := ParseNonNegativeQueryInt(rawSince);
    if since.Malformed? {
      return InvalidParameter("since");
    }
    var limitVal := ParseNonNegativeQueryInt(rawLimit);
    if limitVal.Malformed? {
      return InvalidParameter("limit");
    }
    var limit := defaultLimit;
    if limitVal.Value? {
      limit := limitVal.n;
    }
    if limit == 0 {
      return InvalidParameter("limit");
    }
    if limit > maxLimit {
      limit := maxLimit;
    }
    if live != "" && live != "poll" && live != "sse" {
      return InvalidParameter("live");
    }
    return Accepted(PullRequest(if since.Value? then since.n else 0, limit, live));
  }
}
