/** What a reader sees through the API after the consumer has handled a
    stream of events: the two halves of the pipeline composed. */
module Scenarios {
  import opened Decimal
  import opened Records
  import opened Timestamps
  import opened Stores
  import opened Consumer
  import opened Api

  /** `/errors?minute=m` after a stream of events reports how many ERROR
      events of that stream were stamped inside minute `m`. */
  lemma ErrorsAfterIngest(s: StoreState, ds: seq<Delivery>, m: string, t: int)
    requires m != ""
    requires ErrorBucketKey(m) !in s.counters
    requires CleanWithin(ds, t) && |ds| < REDIS_MAX_INT
    ensures Errors(Some(m), IngestAll(s, ds).0.counters, false, t)
         == Response(200, MinuteCount(m, Some(ErrorsIn(ds, m))))
  {
    BucketCountsErrors(s, ds, m, t);
    ErrorsReportsCount(m, IngestAll(s, ds).0.counters, false, t);
  }

  /** `/latest` after a stream of events returns the 50 most recent records,
      newest first, topped up from what the list held before. */
  lemma LatestAfterIngest(s: StoreState, ds: seq<Delivery>)
    requires |s.latest| <= LATEST_CAPACITY
    requires AllPushed(ds)
    ensures Latest(IngestAll(s, ds).0.latest, false)
         == Response(200, Entries(Take(Reversed(RecordsOf(ds)) + s.latest, 50)))
  {
    LatestAfterPushes(s, ds);
    var l := IngestAll(s, ds).0.latest;
    LatestReturnsHead(l, false);
    var all := Reversed(RecordsOf(ds)) + s.latest;
    assert l[..Min(50, |l|)] == all[..Min(50, |all|)];
  }

  const EMPTY := StoreState(map[], [], map[])

  function Event(id: string, ts: string, severity: string): (r: Record) {
    Record(id, Some(ts), "checkout", severity, "payment declined")
  }

  function Clean(r: Record, now: int): (d: Delivery) {
    Delivery(Wellformed(r), {}, now)
  }

  /** Three records A, B, C pushed in that order read back as [C, B, A]. */
  lemma LatestIsNewestFirst()
    ensures var a := Event("a", "2023-08-01T15:04:10Z", "INFO");
      var b := Event("b", "2023-08-01T15:04:20Z", "WARN");
      var c := Event("c", "2023-08-01T15:04:30Z", "INFO");
      Latest(IngestAll(EMPTY, [Clean(a, 0), Clean(b, 1), Clean(c, 2)]).0.latest, false)
        == Response(200, Entries([c, b, a]))
  {
    var a := Event("a", "2023-08-01T15:04:10Z", "INFO");
    var b := Event("b", "2023-08-01T15:04:20Z", "WARN");
    var c := Event("c", "2023-08-01T15:04:30Z", "INFO");
    var ds := [Clean(a, 0), Clean(b, 1), Clean(c, 2)];
    LatestAfterIngest(EMPTY, ds);
    assert RecordsOf(ds) == [a, b, c];
    assert Reversed(RecordsOf(ds)) == [c, b, a];
  }

  lemma TwoDigits(s: string)
    requires |s| == 2 && AllDigits(s)
    ensures DigitsValue(s) == 10 * DigitValue(s[0]) + DigitValue(s[1])
  {
    var h := s[..1];
    assert h[..0] == [] && h[0] == s[0];
    assert DigitsValue(h) == DigitValue(s[0]);
  }

  /** The hour 15:00 of 1 August 2023, up to the last digit of the minute. */
  const HOUR := "2023-08-01T15:0"

  /** Minute `15:0d` of that hour. */
  function MinuteIn(d: char): (m: string) {
    HOUR + [d]
  }

  /** The timestamp `15:0d:ssZ` of that hour. */
  function StampIn(d: char, s1: char, s2: char): (ts: string) {
    HOUR + [d, ':', s1, s2, 'Z']
  }

  lemma IsMinuteLiteral(d: char)
    requires IsDigit(d)
    ensures IsMinute(MinuteIn(d))
  {
    var m := MinuteIn(d);
    assert m[0..4] == "2023";
    assert m[5..7] == "08";
    assert m[8..10] == "01";
    assert m[11..13] == "15";
    assert m[14..16] == ['0', d];
    TwoDigits(m[5..7]);
    TwoDigits(m[8..10]);
    TwoDigits(m[11..13]);
    TwoDigits(m[14..16]);
  }

  /** A timestamp of that hour with a valid second lies in its minute. */
  lemma StampInMinute(d: char, s1: char, s2: char)
    requires IsDigit(d) && IsDigit(s1) && IsDigit(s2) && s1 <= '5'
    ensures IsIsoTimestamp(StampIn(d, s1, s2)) && MinuteOf(Some(StampIn(d, s1, s2))) == Some(MinuteIn(d))
  {
    var ts := StampIn(d, s1, s2);
    IsMinuteLiteral(d);
    assert ts[..16] == MinuteIn(d);
    assert ts[17..19] == [s1, s2];
    TwoDigits(ts[17..19]);
  }

  const MINUTE_A := "2023-08-01T15:04"
  const MINUTE_B := "2023-08-01T15:05"
  const MINUTE_C := "2023-08-01T15:06"

  const E1 := Event("e1", "2023-08-01T15:04:10Z", "ERROR")
  const E2 := Event("e2", "2023-08-01T15:04:45Z", "ERROR")
  const E3 := Event("e3", "2023-08-01T15:05:00Z", "ERROR")
  /** Three ERROR events handled within a minute of each other. */
  const STREAM := [Clean(E1, 1000), Clean(E2, 1035), Clean(E3, 1050)]

  lemma ErrorsInThree(a: Delivery, b: Delivery, c: Delivery, m: string)
    ensures ErrorsIn([a, b, c], m)
         == (if CountedIn(a, m) then 1 else 0) + (if CountedIn(b, m) then 1 else 0) + (if CountedIn(c, m) then 1 else 0)
  {
    assert [a, b, c][..2] == [a, b];
    assert [a, b][..1] == [a];
    assert [a][..0] == [];
    assert ErrorsIn([a], m) == (if CountedIn(a, m) then 1 else 0);
    assert ErrorsIn([a, b], m) == ErrorsIn([a], m) + (if CountedIn(b, m) then 1 else 0);
  }

  /** The stream's events are stamped in 15:04, 15:04 and 15:05. */
  lemma StreamStamps()
    ensures IsIsoTimestamp(E1.timestamp.value) && MinuteOf(E1.timestamp) == Some(MINUTE_A)
    ensures IsIsoTimestamp(E2.timestamp.value) && MinuteOf(E2.timestamp) == Some(MINUTE_A)
    ensures IsIsoTimestamp(E3.timestamp.value) && MinuteOf(E3.timestamp) == Some(MINUTE_B)
    ensures MINUTE_A != MINUTE_B && MINUTE_A != MINUTE_C && MINUTE_B != MINUTE_C
  {
    StampInMinute('4', '1', '0');
    StampInMinute('4', '4', '5');
    StampInMinute('5', '0', '0');
    assert E1.timestamp.value == StampIn('4', '1', '0');
    assert E2.timestamp.value == StampIn('4', '4', '5');
    assert E3.timestamp.value == StampIn('5', '0', '0');
    assert MINUTE_A == MinuteIn('4') && MINUTE_B == MinuteIn('5') && MINUTE_C == MinuteIn('6');
    assert MinuteIn('4') != MinuteIn('5') && MinuteIn('4') != MinuteIn('6') && MinuteIn('5') != MinuteIn('6') by {
      assert MinuteIn('4')[15] == '4' && MinuteIn('5')[15] == '5' && MinuteIn('6')[15] == '6';
    }
  }

  lemma StreamCounts()
    ensures CleanWithin(STREAM, 1100)
    ensures ErrorsIn(STREAM, MINUTE_A) == 2 && ErrorsIn(STREAM, MINUTE_B) == 1 && ErrorsIn(STREAM, MINUTE_C) == 0
  {
    StreamStamps();
    ErrorsInThree(STREAM[0], STREAM[1], STREAM[2], MINUTE_A);
    ErrorsInThree(STREAM[0], STREAM[1], STREAM[2], MINUTE_B);
    ErrorsInThree(STREAM[0], STREAM[1], STREAM[2], MINUTE_C);
  }

  /** Events at 15:04:10Z and 15:04:45Z share the 15:04 bucket and read back
      as 2; the one at 15:05:00Z reads back as 1; a minute with none reads 0. */
  lemma ErrorCountsPerMinute()
    ensures CleanWithin(STREAM, 1100) && var counters := IngestAll(EMPTY, STREAM).0.counters;
      && Errors(Some(MINUTE_A), counters, false, 1100) == Response(200, MinuteCount("2023-08-01T15:04", Some(2)))
      && Errors(Some(MINUTE_B), counters, false, 1100) == Response(200, MinuteCount("2023-08-01T15:05", Some(1)))
      && Errors(Some(MINUTE_C), counters, false, 1100) == Response(200, MinuteCount("2023-08-01T15:06", Some(0)))
  {
    StreamCounts();
    ErrorsAfterIngest(EMPTY, STREAM, MINUTE_A, 1100);
    ErrorsAfterIngest(EMPTY, STREAM, MINUTE_B, 1100);
    ErrorsAfterIngest(EMPTY, STREAM, MINUTE_C, 1100);
  }
}
