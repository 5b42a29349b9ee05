/**
 * The environment schema's defaults, minimums and the three list-valued
 * variables that are parsed from comma-separated strings.
 */
module Config {
  import opened Common
  import opened Strings

  const DefaultAppName: string := "Brigada Football"
  const DefaultPort: int := 3001
  const MinJwtSecretLength: nat := 32

  /** /[\d,]+/ without anchors: some character is a digit or a comma. */
  predicate HasDigitOrComma(s: string)
  {
    exists i :: 0 <= i < |s| && (IsDigit(s[i]) || s[i] == ',')
  }

  /** MOBILE_NUMBER_OPERATORS: the pattern test, then split on ',' and trim each part. */
  function ParseOperators(raw: string): (r: Option<seq<string>>)
    ensures r.Some? <==> HasDigitOrComma(raw)
    ensures r.Some? ==> |r.value| == Count(raw, ',') + 1
  {
    if !HasDigitOrComma(raw) then None
    else
      SplitLength(raw, ',');
      Some(seq(|Split(raw, ',')|, i requires 0 <= i < |Split(raw, ',')| => Trim(Split(raw, ',')[i])))
  }

  predicate Trimmed(s: string)
  {
    s == [] || (!IsSpace(s[0]) && !IsSpace(s[|s| - 1]))
  }

  lemma TrimOfTrimmed(s: string)
    requires Trimmed(s)
    ensures Trim(s) == s
  {
    if s != [] {
      TrimPadded([], s, []);
      assert [] + s + [] == s;
    }
  }

  /**
   * A list of trimmed, comma-free operator codes written out with ',' parses
   * back to the same list, provided one of them holds a digit.
   */
  lemma OperatorsRoundTrip(ops: seq<string>, k: nat, d: nat)
    requires |ops| >= 1
    requires forall i :: 0 <= i < |ops| ==> ',' !in ops[i] && Trimmed(ops[i])
    requires k < |ops| && d < |ops[k]| && IsDigit(ops[k][d])
    ensures ParseOperators(Join(ops, ',')) == Some(ops)
  {
    var raw := Join(ops, ',');
    SplitJoin(ops, ',');
    JoinContains(ops, k, d);
    TrimEach(ops);
    assert Split(raw, ',') == ops;
    var parsed := ParseOperators(raw).value;
    assert |parsed| == |ops|;
    assert forall i :: 0 <= i < |ops| ==> parsed[i] == Trim(ops[i]);
    assert parsed == ops;
  }

  /** Trimmed parts are left as they are. */
  lemma TrimEach(ops: seq<string>)
    requires forall i :: 0 <= i < |ops| ==> Trimmed(ops[i])
    ensures forall i :: 0 <= i < |ops| ==> Trim(ops[i]) == ops[i]
  {
    forall i | 0 <= i < |ops| ensures Trim(ops[i]) == ops[i] {
      TrimOfTrimmed(ops[i]);
    }
  }

  /** A digit inside one of the joined parts is a digit of the joined string. */
  lemma {:induction false} JoinContains(ops: seq<string>, k: nat, d: nat)
    requires k < |ops| && d < |ops[k]| && IsDigit(ops[k][d])
    ensures HasDigitOrComma(Join(ops, ','))
  {
    if |ops| == 1 {
      assert Join(ops, ',')[d] == ops[0][d];
    } else if k == 0 {
      assert Join(ops, ',')[d] == ops[0][d];
    } else {
      JoinContains(ops[1..], k - 1, d);
      var tail := Join(ops[1..], ',');
      var i :| 0 <= i < |tail| && (IsDigit(tail[i]) || tail[i] == ',');
      assert Join(ops, ',')[|ops[0]| + 1 + i] == tail[i];
    }
  }

  /** /^\d+,\d+$/: two non-empty digit runs around one comma. */
  predicate IsNumberPair(s: string)
  {
    ',' in s
    && var i := IndexOf(s, ',');
    0 < i < |s| - 1 && AllDigits(s[..i]) && AllDigits(s[i + 1..])
  }

  /** The pattern test, then split on ',', trim each part and read each as a decimal number. */
  function ParseNumberPair(raw: string): (r: Option<(nat, nat)>)
    ensures r.Some? <==> IsNumberPair(raw)
    ensures r.Some? ==> var i := IndexOf(raw, ',');
                        r.value == (DigitsValue(raw[..i]), DigitsValue(raw[i + 1..]))
  {
    if !IsNumberPair(raw) then None
    else
      var parts := Split(raw, ',');
      var i := IndexOf(raw, ',');
      assert parts == [raw[..i]] + Split(raw[i + 1..], ',');
      assert parts[0] == raw[..i] && parts[1] == raw[i + 1..];
      var a, b := Trim(parts[0]), Trim(parts[1]);
      TrimDigits(parts[0]);
      TrimDigits(parts[1]);
      Some((DigitsValue(a), DigitsValue(b)))
  }

  lemma TrimDigits(s: string)
    requires s != [] && AllDigits(s)
    ensures Trim(s) == s
  {
    TrimOfTrimmed(s);
  }

  /** Two numbers written as "a,b" are read back as (a, b), in order. */
  lemma NumberPairRoundTrip(a: nat, b: nat)
    ensures ParseNumberPair(NatToString(a) + "," + NatToString(b)) == Some((a, b))
  {
    var sa, sb := NatToString(a), NatToString(b);
    var raw := sa + "," + sb;
    assert raw[|sa|] == ',';
    assert raw[..|sa|] == sa;
    var i := IndexOf(raw, ',');
    assert i == |sa|;
    assert raw[i + 1..] == sb;
    assert IsNumberPair(raw);
    DigitsValueOfNatToString(a);
    DigitsValueOfNatToString(b);
  }

  datatype AgeRange = AgeRange(minAge: nat, maxAge: nat)
  datatype Throttler = Throttler(ttl: nat, limit: nat)

  /** DOB_AGE_RANGE as [min, max]. */
  function ParseDobAgeRange(raw: string): (r: Option<AgeRange>)
    ensures r.Some? <==> IsNumberPair(raw)
    ensures r.Some? ==> ParseNumberPair(raw) == Some((r.value.minAge, r.value.maxAge))
  {
    match ParseNumberPair(raw)
    case None => None
    case Some((a, b)) => Some(AgeRange(a, b))
  }

  /** THROTTLER_DATA as {ttl, limit}: the first number is the ttl, the second the limit. */
  function ParseThrottler(raw: string): (r: Option<Throttler>)
    ensures r.Some? <==> IsNumberPair(raw)
    ensures r.Some? ==> ParseNumberPair(raw) == Some((r.value.ttl, r.value.limit))
  {
    match ParseNumberPair(raw)
    case None => None
    case Some((a, b)) => Some(Throttler(a, b))
  }

  /** The raw environment variables this model reads (already coerced where the schema coerces). */
  datatype RawEnv = RawEnv(
    appName: Option<string>,
    port: Option<int>,
    jwtSecret: string,
    mobileNumberOperators: string,
    dobAgeRange: string,
    throttlerData: string)

  datatype AppConfig = AppConfig(
    appName: string,
    port: int,
    jwtSecret: string,
    mobileNumberOperators: seq<string>,
    dobAgeRange: AgeRange,
    throttler: Throttler)

  /** The schema over the modelled variables: parsing fails when any of them is rejected. */
  function ParseConfig(env: RawEnv): (r: Option<AppConfig>)
    ensures r.Some? <==> |env.jwtSecret| >= MinJwtSecretLength && HasDigitOrComma(env.mobileNumberOperators)
                         && IsNumberPair(env.dobAgeRange) && IsNumberPair(env.throttlerData)
    ensures r.Some? ==> r.value.appName == (if env.appName.Some? then env.appName.value else DefaultAppName)
    ensures r.Some? ==> r.value.port == (if env.port.Some? then env.port.value else DefaultPort)
    ensures r.Some? ==> |r.value.jwtSecret| >= MinJwtSecretLength
  {
    if |env.jwtSecret| < MinJwtSecretLength then None
    else
      match (ParseOperators(env.mobileNumberOperators), ParseDobAgeRange(env.dobAgeRange), ParseThrottler(env.throttlerData))
      case (Some(ops), Some(ages), Some(throttler)) =>
        Some(AppConfig(
          if env.appName.Some? then env.appName.value else DefaultAppName,
          if env.port.Some? then env.port.value else DefaultPort,
          env.jwtSecret, ops, ages, throttler))
      case _ => None
  }
}
