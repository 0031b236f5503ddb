/** Event timestamps, `Date.prototype.toISOString`, and the minute bucket
    `YYYY-MM-DDTHH:MM` under which the consumer counts errors and the API
    looks them up. */
module Timestamps {
  import opened Decimal
  import opened Records

  /** The key prefix both the consumer (`errors:${...}`) and the API use. */
  const BUCKET_PREFIX := "errors:"

  /** The number written by the digits `s[i..j]`. */
  function FieldValue(s: string, i: nat, j: nat): (v: nat)
    requires i <= j <= |s| && AllDigits(s[i..j])
  {
    DigitsValue(s[i..j])
  }

  predicate IsLeapYear(y: nat) {
    y % 4 == 0 && (y % 100 != 0 || y % 400 == 0)
  }

  function DaysInMonth(y: nat, m: nat): (days: nat)
    requires 1 <= m <= 12
  {
    if m == 2 then (if IsLeapYear(y) then 29 else 28)
    else if m == 4 || m == 6 || m == 9 || m == 11 then 30
    else 31
  }

  /** A minute bucket `YYYY-MM-DDTHH:MM` naming a real calendar minute. */
  predicate IsMinute(s: string) {
    && |s| == 16
    && AllDigits(s[0..4]) && s[4] == '-' && AllDigits(s[5..7]) && s[7] == '-'
    && AllDigits(s[8..10]) && s[10] == 'T' && AllDigits(s[11..13]) && s[13] == ':'
    && AllDigits(s[14..16])
    && 1 <= FieldValue(s, 5, 7) <= 12
    && 1 <= FieldValue(s, 8, 10) <= DaysInMonth(FieldValue(s, 0, 4), FieldValue(s, 5, 7))
    && FieldValue(s, 11, 13) <= 23
    && FieldValue(s, 14, 16) <= 59
  }

  /** A UTC timestamp in the shape `YYYY-MM-DDTHH:MM:SSZ` or
      `YYYY-MM-DDTHH:MM:SS.sssZ` (the latter is what `toISOString` prints). */
  predicate IsIsoTimestamp(s: string) {
    && (|s| == 20 || |s| == 24)
    && IsMinute(s[..16])
    && s[16] == ':' && AllDigits(s[17..19]) && FieldValue(s, 17, 19) <= 59
    && if |s| == 24 then s[19] == '.' && AllDigits(s[20..23]) && s[23] == 'Z'
       else s[19] == 'Z'
  }

  /** The timestamps whose `new Date(ts).toISOString()` this model knows: a
      missing field, the empty string (both an Invalid Date) and the ISO
      shapes above. */
  predicate DateModelled(ts: Option<string>) {
    ts.None? || ts.value == "" || IsIsoTimestamp(ts.value)
  }

  /** `toISOString` of a timestamp in one of the two ISO shapes: the same
      instant, always with milliseconds. */
  function ToIsoString(s: string): (iso: string)
    requires IsIsoTimestamp(s)
    ensures |iso| == 24 && iso[..19] == s[..19] && iso[23] == 'Z'
  {
    if |s| == 24 then s else s[..19] + ".000Z"
  }

  /** `toISOString` prints the same instant in its canonical 24-character
      form: the same date and time to the second, and the same milliseconds
      (`.000` when the input had none). */
  lemma ToIsoStringCanonical(s: string)
    requires IsIsoTimestamp(s)
    ensures var iso := ToIsoString(s);
      && |iso| == 24 && IsIsoTimestamp(iso)
      && iso[..19] == s[..19]
      && iso[19..] == (if |s| == 24 then s[19..] else ".000Z")
      && ToIsoString(iso) == iso
  {
    var iso := ToIsoString(s);
    if |s| == 20 {
      assert iso == s[..19] + ".000Z";
      assert iso[..16] == s[..16];
      assert iso[16..19] == s[16..19];
      assert iso[17..19] == s[17..19];
      assert iso[19..] == ".000Z";
      assert iso[20..23] == iso[19..][1..4] == "000";
    }
  }

  /** `new Date(ts).toISOString()`; `None` is the RangeError it throws on an
      Invalid Date. */
  function IsoOf(ts: Option<string>): (r: Option<string>)
    requires DateModelled(ts)
    ensures r.None? <==> (ts.None? || ts.value == "")
    ensures r.Some? ==> |r.value| == 24 && r.value[..19] == ts.value[..19]
  {
    if ts.None? || ts.value == "" then None else Some(ToIsoString(ts.value))
  }

  /** `new Date(ts).toISOString().slice(0, 16)`: the minute bucket of an event,
      or `None` when `toISOString` throws. */
  function MinuteOf(ts: Option<string>): (r: Option<string>)
    requires DateModelled(ts)
    ensures r.None? <==> (ts.None? || ts.value == "")
    ensures r.Some? ==> r.value == ts.value[..16]
  {
    match IsoOf(ts)
    case None => None
    case Some(iso) =>
      ToIsoStringCanonical(ts.value);
      Some(iso[..16])
  }

  /** The bucket the consumer derives is always a well-formed minute: the
      format the API's guidance message asks for. */
  lemma MinuteOfIsMinute(ts: Option<string>)
    requires DateModelled(ts) && MinuteOf(ts).Some?
    ensures IsMinute(MinuteOf(ts).value)
  {
  }

  /** The Redis key of a minute bucket: `errors:${minute}`. */
  function ErrorBucketKey(minute: string): (key: string)
    ensures |key| == |BUCKET_PREFIX| + |minute| && key[..|BUCKET_PREFIX|] == BUCKET_PREFIX
    ensures key[|BUCKET_PREFIX|..] == minute
  {
    BUCKET_PREFIX + minute
  }

  /** Distinct minutes never share a counter. */
  lemma ErrorBucketKeyInjective(a: string, b: string)
    requires ErrorBucketKey(a) == ErrorBucketKey(b)
    ensures a == b
  {
    assert a == ErrorBucketKey(a)[|BUCKET_PREFIX|..];
    assert b == ErrorBucketKey(b)[|BUCKET_PREFIX|..];
  }
}
