/** The consumer's per-message handler (`eachMessage` in consumer/index.js):
    parse the message, upsert it into the index, push it onto `latest_logs`
    and trim the list, and for an ERROR event bump its minute counter and
    re-arm that counter's 48-hour expiry. All of it sits in one `try`, so the
    first step that throws ends the handling of that message and keeps what
    the earlier steps wrote. */
module Consumer {
  import opened Records
  import opened Timestamps
  import opened Stores

  /** `ltrim('latest_logs', 0, 99)`. */
  const LATEST_STOP := 99
  const LATEST_CAPACITY := LATEST_STOP + 1
  /** `expire(minuteKey, 60*60*48)`. */
  const ERROR_TTL_SECONDS := 60 * 60 * 48

  /** The store calls the handler makes. */
  datatype Call = EsIndex | RedisLPush | RedisLTrim | RedisIncr | RedisExpire

  /** The steps of the handler, in the order it runs them. `DeriveMinute` is
      `new Date(obj.timestamp).toISOString()`, which throws on an Invalid Date. */
  datatype Step = IndexDoc | PushLatest | TrimLatest | DeriveMinute | IncrBucket | ExpireBucket

  datatype Failure = BadPayload | StepFailed(step: Step)

  /** What the handler logs: "Consumed & stored" or "Processing error". */
  datatype Outcome = Stored | Dropped(reason: Failure)

  /** One delivered message, the store calls that throw while it is handled,
      and the store clock at that time. */
  datatype Delivery = Delivery(payload: Payload, faults: set<Call>, now: int)

  /** The handler only reads the timestamp of an ERROR event. */
  predicate Admissible(p: Payload) {
    p.Wellformed? && IsError(p.rec) ==> DateModelled(p.rec.timestamp)
  }

  // ---------------------------------------------------------- the steps

  /** What a step sees: the record, its minute bucket (for an ERROR event
      whose timestamp is a date), the failing store calls and the clock. */
  datatype Context = Context(rec: Record, minute: Option<string>, faults: set<Call>, now: int)

  function ContextOf(r: Record, faults: set<Call>, now: int): (c: Context)
    requires Admissible(Wellformed(r))
  {
    Context(r, if IsError(r) then MinuteOf(r.timestamp) else None, faults, now)
  }

  /** The steps every parsed record goes through. */
  const LIST_STEPS: seq<Step> := [IndexDoc, PushLatest, TrimLatest]
  /** The steps that follow for an ERROR event. */
  const COUNT_STEPS: seq<Step> := [DeriveMinute, IncrBucket, ExpireBucket]

  /** The steps the handler attempts for a parsed record. */
  function Plan(r: Record): (steps: seq<Step>)
    ensures |steps| == (if IsError(r) then 6 else 3) && steps[..3] == [IndexDoc, PushLatest, TrimLatest]
    ensures IsError(r) ==> steps[3..] == [DeriveMinute, IncrBucket, ExpireBucket]
  {
    LIST_STEPS + (if IsError(r) then COUNT_STEPS else [])
  }

  /** Whether a step throws in state `s`. */
  predicate Throws(step: Step, c: Context, s: StoreState)
    ensures c.faults == {} && c.minute.Some? && Count(s.counters, ErrorBucketKey(c.minute.value), c.now) < REDIS_MAX_INT
            ==> !Throws(step, c, s)
    ensures c.minute.None? && (step == DeriveMinute || step == IncrBucket || step == ExpireBucket) ==> Throws(step, c, s)
    ensures step == IncrBucket && c.minute.Some? && Count(s.counters, ErrorBucketKey(c.minute.value), c.now) == REDIS_MAX_INT
            ==> Throws(step, c, s)
  {
    match step
    case IndexDoc => EsIndex in c.faults
    case PushLatest => RedisLPush in c.faults
    case TrimLatest => RedisLTrim in c.faults
    case DeriveMinute => c.minute.None?
    case IncrBucket =>
      RedisIncr in c.faults || c.minute.None? || Incr(s.counters, ErrorBucketKey(c.minute.value), c.now).None?
    case ExpireBucket => RedisExpire in c.faults || c.minute.None?
  }

  /** What a step writes when it does not throw. */
  function Effect(step: Step, c: Context, s: StoreState): (t: StoreState)
    ensures step != IndexDoc ==> t.index == s.index
    ensures step != PushLatest && step != TrimLatest ==> t.latest == s.latest
    ensures step != IncrBucket && step != ExpireBucket ==> t.counters == s.counters
    ensures step == IndexDoc ==> c.rec.id in t.index && t.index[c.rec.id] == c.rec
  {
    match step
    case IndexDoc => s.(index := Upsert(s.index, c.rec))
    case PushLatest => s.(latest := LPush(s.latest, c.rec))
    case TrimLatest => s.(latest := Range(s.latest, 0, LATEST_STOP))
    case DeriveMinute => s
    case IncrBucket =>
      if c.minute.None? then s
      else (match Incr(s.counters, ErrorBucketKey(c.minute.value), c.now)
        case None => s
        case Some(m) => s.(counters := m))
    case ExpireBucket =>
      if c.minute.None? then s
      else s.(counters := Expire(s.counters, ErrorBucketKey(c.minute.value), ERROR_TTL_SECONDS, c.now))
  }

  /** The writes of every step in order. */
  function ApplyAll(steps: seq<Step>, c: Context, s: StoreState): (t: StoreState) {
    if steps == [] then s else ApplyAll(steps[1..], c, Effect(steps[0], c, s))
  }

  /** Steps run in order inside one `try`: the first that throws stops the
      rest. The result is the final state and how many steps completed. */
  function Run(steps: seq<Step>, c: Context, s: StoreState): (r: (StoreState, nat))
    ensures r.1 <= |steps|
    ensures r.1 == 0 ==> r.0 == s
  {
    if steps == [] then (s, 0)
    else if Throws(steps[0], c, s) then (s, 0)
    else
      var rest := Run(steps[1..], c, Effect(steps[0], c, s));
      (rest.0, rest.1 + 1)
  }

  // ------------------------------------------------------- the handler

  /** The state and outcome after handling one message: a message that does
      not parse is dropped, and a parsed one runs its plan. */
  function Ingest(s: StoreState, p: Payload, faults: set<Call>, now: int): (r: (StoreState, Outcome))
    requires Admissible(p)
    ensures r.1 == Dropped(BadPayload) <==> p.Malformed?
    ensures p.Malformed? ==> r.0 == s
  {
    match p
    case Malformed => (s, Dropped(BadPayload))
    case Wellformed(r) =>
      var run := Run(Plan(r), ContextOf(r, faults, now), s);
      (run.0, if run.1 < |Plan(r)| then Dropped(StepFailed(Plan(r)[run.1])) else Stored)
  }

  /** Handling a sequence of deliveries in order. */
  function IngestAll(s: StoreState, ds: seq<Delivery>): (r: (StoreState, seq<Outcome>))
    requires forall i :: 0 <= i < |ds| ==> Admissible(ds[i].payload)
    ensures |r.1| == |ds|
  {
    if ds == [] then (s, [])
    else
      var prior := IngestAll(s, ds[..|ds| - 1]);
      var d := ds[|ds| - 1];
      var last := Ingest(prior.0, d.payload, d.faults, d.now);
      (last.0, prior.1 + [last.1])
  }

  // ---------------------------------------------- partial failure

  /** A run completes a prefix of the steps: exactly their writes are kept,
      none of them threw, and the step after the prefix (if any) threw. */
  lemma {:induction false} RunIsPrefix(steps: seq<Step>, c: Context, s: StoreState)
    ensures Run(steps, c, s).1 <= |steps|
    ensures Run(steps, c, s).0 == ApplyAll(steps[..Run(steps, c, s).1], c, s)
    ensures forall j :: 0 <= j < Run(steps, c, s).1 ==> !Throws(steps[j], c, ApplyAll(steps[..j], c, s))
    ensures Run(steps, c, s).1 < |steps| ==> Throws(steps[Run(steps, c, s).1], c, Run(steps, c, s).0)
    decreases |steps|
  {
    if steps != [] && !Throws(steps[0], c, s) {
      var s1 := Effect(steps[0], c, s);
      var tail := steps[1..];
      RunIsPrefix(tail, c, s1);
      var k := Run(steps, c, s).1;
      assert k == Run(tail, c, s1).1 + 1;
      assert steps[..k][1..] == tail[..k - 1];
      forall j | 0 <= j < k
        ensures !Throws(steps[j], c, ApplyAll(steps[..j], c, s))
      {
        if j > 0 {
          assert steps[..j][1..] == tail[..j - 1];
        }
      }
    } else if steps != [] {
      assert steps[..0] == [];
    }
  }

  /** Partial failure is a prefix: handling a parsed record keeps exactly the
      writes of the plan's first `k` steps, none of which threw; it is stored
      when all steps ran, and otherwise step `k` threw and is the one reported. */
  lemma IngestIsPrefix(s: StoreState, r: Record, faults: set<Call>, now: int)
    requires Admissible(Wellformed(r))
    ensures var c := ContextOf(r, faults, now);
      var k := Run(Plan(r), c, s).1;
      var t := Ingest(s, Wellformed(r), faults, now);
      && k <= |Plan(r)|
      && t.0 == ApplyAll(Plan(r)[..k], c, s)
      && (forall j :: 0 <= j < k ==> !Throws(Plan(r)[j], c, ApplyAll(Plan(r)[..j], c, s)))
      && (t.1 == Stored <==> k == |Plan(r)|)
      && (k < |Plan(r)| ==> t.1 == Dropped(StepFailed(Plan(r)[k])) && Throws(Plan(r)[k], c, t.0))
  {
    RunIsPrefix(Plan(r), ContextOf(r, faults, now), s);
  }

  /** Each store is written only by its own steps. */
  lemma {:induction false} RunFrame(steps: seq<Step>, c: Context, s: StoreState)
    ensures IndexDoc !in steps ==> Run(steps, c, s).0.index == s.index
    ensures PushLatest !in steps && TrimLatest !in steps ==> Run(steps, c, s).0.latest == s.latest
    ensures IncrBucket !in steps && ExpireBucket !in steps ==> Run(steps, c, s).0.counters == s.counters
    decreases |steps|
  {
    if steps != [] && !Throws(steps[0], c, s) {
      assert steps == [steps[0]] + steps[1..];
      RunFrame(steps[1..], c, Effect(steps[0], c, s));
    }
  }

  /** Running two step lists back to back: the second starts only if the
      first ran to its end. */
  lemma {:induction false} RunAppend(a: seq<Step>, b: seq<Step>, c: Context, s: StoreState)
    ensures var ra := Run(a, c, s);
      Run(a + b, c, s) == if ra.1 < |a| then ra else (Run(b, c, ra.0).0, |a| + Run(b, c, ra.0).1)
    decreases |a|
  {
    if a == [] {
      assert a + b == b;
    } else {
      assert (a + b)[0] == a[0];
      if !Throws(a[0], c, s) {
        assert (a + b)[1..] == a[1..] + b;
        RunAppend(a[1..], b, c, Effect(a[0], c, s));
      }
    }
  }

  /** The list steps: index, push, trim, stopping at the first that throws. */
  lemma RunListSteps(c: Context, s: StoreState)
    ensures var s1 := s.(index := Upsert(s.index, c.rec));
      var s2 := s1.(latest := LPush(s.latest, c.rec));
      var s3 := s1.(latest := Range(LPush(s.latest, c.rec), 0, LATEST_STOP));
      Run(LIST_STEPS, c, s) ==
        if EsIndex in c.faults then (s, 0)
        else if RedisLPush in c.faults then (s1, 1)
        else if RedisLTrim in c.faults then (s2, 2)
        else (s3, 3)
  {
    var s1 := Effect(IndexDoc, c, s);
    var s2 := Effect(PushLatest, c, s1);
    var s3 := Effect(TrimLatest, c, s2);
    var p1 := LIST_STEPS[1..];
    assert p1 == [PushLatest, TrimLatest];
    assert p1[1..] == [TrimLatest];
    assert Run(p1[1..][1..], c, s3) == (s3, 0);
    assert Run(p1[1..], c, s2) == (if RedisLTrim in c.faults then (s2, 0) else (s3, 1));
    assert Run(p1, c, s1) == (if RedisLPush in c.faults then (s1, 0) else if RedisLTrim in c.faults then (s2, 1) else (s3, 2));
  }

  /** The counting steps: derive the minute, `INCR` its bucket, `EXPIRE` it. */
  lemma RunCountSteps(c: Context, s: StoreState)
    ensures Run(COUNT_STEPS, c, s) ==
      if c.minute.None? then (s, 0)
      else
        var key := ErrorBucketKey(c.minute.value);
        if RedisIncr in c.faults || Incr(s.counters, key, c.now).None? then (s, 1)
        else
          var s5 := s.(counters := Incr(s.counters, key, c.now).value);
          if RedisExpire in c.faults then (s5, 2)
          else (s5.(counters := Expire(s5.counters, key, ERROR_TTL_SECONDS, c.now)), 3)
  {
    var p1 := COUNT_STEPS[1..];
    assert p1 == [IncrBucket, ExpireBucket];
    assert p1[1..] == [ExpireBucket];
    if c.minute.Some? {
      var s5 := Effect(IncrBucket, c, s);
      var s6 := Effect(ExpireBucket, c, s5);
      assert Run(p1[1..][1..], c, s6) == (s6, 0);
      assert Run(p1[1..], c, s5) == (if RedisExpire in c.faults then (s5, 0) else (s6, 1));
    }
  }

  /** Handling a parsed record runs the list steps and, for an ERROR event
      that got through them, the counting steps; the first step that throws
      is the one reported. */
  lemma IngestUnfolds(s: StoreState, r: Record, faults: set<Call>, now: int)
    requires Admissible(Wellformed(r))
    ensures var c := ContextOf(r, faults, now);
      var head := Run(LIST_STEPS, c, s);
      var tail := Run(COUNT_STEPS, c, head.0);
      Ingest(s, Wellformed(r), faults, now) ==
        if head.1 < 3 then (head.0, Dropped(StepFailed(LIST_STEPS[head.1])))
        else if !IsError(r) then (head.0, Stored)
        else (tail.0, if tail.1 < 3 then Dropped(StepFailed(COUNT_STEPS[tail.1])) else Stored)
  {
    var c := ContextOf(r, faults, now);
    RunListSteps(c, s);
    var head := Run(LIST_STEPS, c, s);
    if IsError(r) {
      RunAppend(LIST_STEPS, COUNT_STEPS, c, s);
      RunCountSteps(c, head.0);
    } else {
      RunAppend(LIST_STEPS, [], c, s);
      assert Plan(r) == LIST_STEPS;
    }
  }

  /** `key` holds the same counter (or is absent) in both maps. */
  predicate SameAt(a: map<string, Bucket>, b: map<string, Bucket>, key: string) {
    (key in a <==> key in b) && (key in a ==> a[key] == b[key])
  }

  /** No step touches a counter other than the record's own bucket. */
  lemma {:induction false} RunKeepsOtherKeys(steps: seq<Step>, c: Context, s: StoreState, key: string)
    requires c.minute.None? || key != ErrorBucketKey(c.minute.value)
    ensures SameAt(Run(steps, c, s).0.counters, s.counters, key)
    decreases |steps|
  {
    if steps != [] && !Throws(steps[0], c, s) {
      var s1 := Effect(steps[0], c, s);
      if c.minute.Some? && steps[0] == IncrBucket {
        IncrCounts(s.counters, ErrorBucketKey(c.minute.value), c.now);
      }
      assert SameAt(s1.counters, s.counters, key);
      RunKeepsOtherKeys(steps[1..], c, s1, key);
    }
  }

  // -------------------------------------------- what one message does

  /** A message that does not parse changes no store. */
  lemma MalformedChangesNothing(s: StoreState, faults: set<Call>, now: int)
    ensures Ingest(s, Malformed, faults, now) == (s, Dropped(BadPayload))
  {
  }

  /** The index write replaces the document under the record's id; if it
      throws, nothing at all is written. */
  lemma IngestIndexes(s: StoreState, r: Record, faults: set<Call>, now: int)
    requires Admissible(Wellformed(r))
    ensures var t := Ingest(s, Wellformed(r), faults, now);
      && (EsIndex in faults ==> t == (s, Dropped(StepFailed(IndexDoc))))
      && (EsIndex !in faults ==> t.0.index == Upsert(s.index, r))
  {
    var c := ContextOf(r, faults, now);
    IngestUnfolds(s, r, faults, now);
    RunListSteps(c, s);
    RunFrame(COUNT_STEPS, c, Run(LIST_STEPS, c, s).0);
  }

  /** Handling two records with the same id leaves exactly the second one
      under that id, whatever happened to the first. */
  lemma SameIdKeepsLastPayload(s: StoreState, a: Record, b: Record,
                               fa: set<Call>, fb: set<Call>, na: int, nb: int)
    requires Admissible(Wellformed(a)) && Admissible(Wellformed(b))
    requires a.id == b.id && EsIndex !in fb
    ensures var mid := Ingest(s, Wellformed(a), fa, na).0;
      Ingest(mid, Wellformed(b), fb, nb).0.index == Upsert(s.index, b)
  {
    var mid := Ingest(s, Wellformed(a), fa, na).0;
    IngestIndexes(s, a, fa, na);
    IngestIndexes(mid, b, fb, nb);
    UpsertLastWriteWins(s.index, a, b);
  }

  /** The first `n` entries of a list (all of a shorter one). */
  function Take<T>(xs: seq<T>, n: nat): (t: seq<T>) {
    xs[..Min(n, |xs|)]
  }

  /** The list after one message: untouched if the index write or the push
      threw, one entry longer if only the trim threw, and otherwise the new
      record followed by the old head, cut to 100 entries. */
  lemma IngestPushes(s: StoreState, r: Record, faults: set<Call>, now: int)
    requires Admissible(Wellformed(r))
    ensures var t := Ingest(s, Wellformed(r), faults, now).0;
      && (EsIndex in faults || RedisLPush in faults ==> t.latest == s.latest)
      && (EsIndex !in faults && RedisLPush !in faults && RedisLTrim in faults ==> t.latest == [r] + s.latest)
      && (EsIndex !in faults && RedisLPush !in faults && RedisLTrim !in faults ==>
            t.latest == Take([r] + s.latest, LATEST_CAPACITY) && |t.latest| <= LATEST_CAPACITY)
  {
    var c := ContextOf(r, faults, now);
    IngestUnfolds(s, r, faults, now);
    RunListSteps(c, s);
    RunFrame(COUNT_STEPS, c, Run(LIST_STEPS, c, s).0);
    PushThenTrim(s.latest, r, LATEST_STOP);
  }

  /** Only ERROR events touch the counters: any other record, and any message
      that does not parse, leaves every counter and expiry as it was. */
  lemma NonErrorLeavesCounters(s: StoreState, p: Payload, faults: set<Call>, now: int)
    requires Admissible(p)
    requires p.Malformed? || !IsError(p.rec)
    ensures Ingest(s, p, faults, now).0.counters == s.counters
  {
    if p.Wellformed? {
      RunFrame(Plan(p.rec), ContextOf(p.rec, faults, now), s);
    }
  }

  /** An ERROR event whose timestamp is no date (missing or empty) makes
      `toISOString` throw after the index write and the list push: it is
      indexed and listed but not counted. */
  lemma InvalidDateSkipsCount(s: StoreState, r: Record, faults: set<Call>, now: int)
    requires IsError(r) && (r.timestamp.None? || r.timestamp.value == "")
    requires EsIndex !in faults && RedisLPush !in faults && RedisLTrim !in faults
    ensures var t := Ingest(s, Wellformed(r), faults, now);
      && t.1 == Dropped(StepFailed(DeriveMinute))
      && t.0 == StoreState(Upsert(s.index, r), Range(LPush(s.latest, r), 0, LATEST_STOP), s.counters)
  {
    var c := ContextOf(r, faults, now);
    IngestUnfolds(s, r, faults, now);
    RunListSteps(c, s);
    RunCountSteps(c, Run(LIST_STEPS, c, s).0);
  }

  /** An ERROR event handled in full adds exactly one to its minute's counter
      (counting from 0 when the bucket is absent or expired) and re-arms that
      counter to expire 48 hours from now; no other counter changes. */
  lemma ErrorBumpsBucket(s: StoreState, r: Record, now: int)
    requires IsError(r) && DateModelled(r.timestamp) && MinuteOf(r.timestamp).Some?
    requires Count(s.counters, ErrorBucketKey(MinuteOf(r.timestamp).value), now) < REDIS_MAX_INT
    ensures var key := ErrorBucketKey(MinuteOf(r.timestamp).value);
      var t := Ingest(s, Wellformed(r), {}, now);
      && t.1 == Stored
      && t.0.counters.Keys == s.counters.Keys + {key}
      && t.0.counters[key] == Bucket(Count(s.counters, key, now) + 1, Some(now + ERROR_TTL_SECONDS))
      && (forall k :: k in s.counters && k != key ==> t.0.counters[k] == s.counters[k])
  {
    var key := ErrorBucketKey(MinuteOf(r.timestamp).value);
    var c := ContextOf(r, {}, now);
    IngestUnfolds(s, r, {}, now);
    RunListSteps(c, s);
    RunCountSteps(c, Run(LIST_STEPS, c, s).0);
    IncrCounts(s.counters, key, now);
    assert Present(Incr(s.counters, key, now).value, key, now);
  }

  /** A counter bumped at `now` reads as that count up to `now + 48h` and as
      absent (0) after that if nothing bumps it again. */
  lemma BumpedBucketExpires(s: StoreState, r: Record, now: int, later: int)
    requires IsError(r) && DateModelled(r.timestamp) && MinuteOf(r.timestamp).Some?
    requires Count(s.counters, ErrorBucketKey(MinuteOf(r.timestamp).value), now) < REDIS_MAX_INT
    requires now <= later
    ensures var key := ErrorBucketKey(MinuteOf(r.timestamp).value);
      var c := Ingest(s, Wellformed(r), {}, now).0.counters;
      && (later <= now + ERROR_TTL_SECONDS ==> Count(c, key, later) == Count(s.counters, key, now) + 1)
      && (later > now + ERROR_TTL_SECONDS ==> Count(c, key, later) == 0 && Get(c, key, later).None?)
  {
    ErrorBumpsBucket(s, r, now);
  }

  /** `INCR` and `EXPIRE` are separate calls: when the `EXPIRE` of a freshly
      created bucket throws, the bucket keeps its count of 1 with no expiry,
      and so never expires. */
  lemma ExpireFailureLeavesNoExpiry(s: StoreState, r: Record, now: int, later: int)
    requires IsError(r) && DateModelled(r.timestamp) && MinuteOf(r.timestamp).Some?
    requires !Present(s.counters, ErrorBucketKey(MinuteOf(r.timestamp).value), now)
    requires now <= later
    ensures var key := ErrorBucketKey(MinuteOf(r.timestamp).value);
      var t := Ingest(s, Wellformed(r), {RedisExpire}, now);
      && t.1 == Dropped(StepFailed(ExpireBucket))
      && key in t.0.counters && t.0.counters[key] == Bucket(1, None)
      && Count(t.0.counters, key, later) == 1
  {
    var key := ErrorBucketKey(MinuteOf(r.timestamp).value);
    var c := ContextOf(r, {RedisExpire}, now);
    IngestUnfolds(s, r, {RedisExpire}, now);
    RunListSteps(c, s);
    RunCountSteps(c, Run(LIST_STEPS, c, s).0);
  }

  /** Redelivery is not deduplicated: the same ERROR event handled twice
      leaves one document in the index but counts twice. */
  lemma RedeliveryCountsTwice(s: StoreState, r: Record, now: int)
    requires IsError(r) && DateModelled(r.timestamp) && MinuteOf(r.timestamp).Some?
    requires Count(s.counters, ErrorBucketKey(MinuteOf(r.timestamp).value), now) + 1 < REDIS_MAX_INT
    ensures var key := ErrorBucketKey(MinuteOf(r.timestamp).value);
      var once := Ingest(s, Wellformed(r), {}, now).0;
      var twice := Ingest(once, Wellformed(r), {}, now).0;
      && twice.index == once.index == Upsert(s.index, r)
      && Count(twice.counters, key, now) == Count(s.counters, key, now) + 2
  {
    var key := ErrorBucketKey(MinuteOf(r.timestamp).value);
    var once := Ingest(s, Wellformed(r), {}, now).0;
    ErrorBumpsBucket(s, r, now);
    assert Count(once.counters, key, now) == Count(s.counters, key, now) + 1;
    ErrorBumpsBucket(once, r, now);
    IngestIndexes(s, r, {}, now);
    IngestIndexes(once, r, {}, now);
    UpsertLastWriteWins(s.index, r, r);
  }

  /** A counter other than the record's own bucket is never touched. */
  lemma OtherBucketsUntouched(s: StoreState, p: Payload, faults: set<Call>, now: int, key: string)
    requires Admissible(p)
    requires p.Wellformed? && IsError(p.rec) && MinuteOf(p.rec.timestamp).Some? ==>
               key != ErrorBucketKey(MinuteOf(p.rec.timestamp).value)
    ensures SameAt(Ingest(s, p, faults, now).0.counters, s.counters, key)
  {
    if p.Wellformed? {
      RunKeepsOtherKeys(Plan(p.rec), ContextOf(p.rec, faults, now), s, key);
    }
  }

  // ------------------------------------------------- many messages

  /** Every delivery is one the list step handles in full: parsed, and
      neither its index write, its push nor its trim throws. */
  predicate AllPushed(ds: seq<Delivery>) {
    forall i :: 0 <= i < |ds| ==>
      && ds[i].payload.Wellformed? && Admissible(ds[i].payload)
      && EsIndex !in ds[i].faults && RedisLPush !in ds[i].faults && RedisLTrim !in ds[i].faults
  }

  function RecordsOf(ds: seq<Delivery>): (rs: seq<Record>)
    requires forall i :: 0 <= i < |ds| ==> ds[i].payload.Wellformed?
    ensures |rs| == |ds|
    ensures forall i :: 0 <= i < |ds| ==> rs[i] == ds[i].payload.rec
  {
    if ds == [] then [] else RecordsOf(ds[..|ds| - 1]) + [ds[|ds| - 1].payload.rec]
  }

  function Reversed<T>(xs: seq<T>): (r: seq<T>)
    ensures |r| == |xs|
    ensures forall i :: 0 <= i < |xs| ==> r[i] == xs[|xs| - 1 - i]
  {
    if xs == [] then [] else [xs[|xs| - 1]] + Reversed(xs[..|xs| - 1])
  }

  lemma TakeAfterPush<T>(x: T, xs: seq<T>, n: nat)
    requires 1 <= n
    ensures Take([x] + Take(xs, n), n) == Take([x] + xs, n)
  {
  }

  /** One more pushed record goes on top of what the list held, cut to 100. */
  lemma PushOnto(prior: StoreState, d: Delivery, older: seq<Record>)
    requires d.payload.Wellformed? && Admissible(d.payload)
    requires EsIndex !in d.faults && RedisLPush !in d.faults && RedisLTrim !in d.faults
    requires prior.latest == Take(older, LATEST_CAPACITY)
    ensures Ingest(prior, d.payload, d.faults, d.now).0.latest == Take([d.payload.rec] + older, LATEST_CAPACITY)
  {
    IngestPushes(prior, d.payload.rec, d.faults, d.now);
    TakeAfterPush(d.payload.rec, older, LATEST_CAPACITY);
  }

  /** The records of a stream, newest first, start with its last record. */
  lemma ReversedSnoc(ds: seq<Delivery>)
    requires ds != [] && AllPushed(ds)
    ensures Reversed(RecordsOf(ds)) == [ds[|ds| - 1].payload.rec] + Reversed(RecordsOf(ds[..|ds| - 1]))
  {
    assert RecordsOf(ds)[..|ds| - 1] == RecordsOf(ds[..|ds| - 1]);
  }

  /** The last delivery of a stream goes on top of what the earlier ones left. */
  lemma LatestStep(s: StoreState, ds: seq<Delivery>)
    requires ds != [] && AllPushed(ds) && AllPushed(ds[..|ds| - 1])
    requires IngestAll(s, ds[..|ds| - 1]).0.latest
          == Take(Reversed(RecordsOf(ds[..|ds| - 1])) + s.latest, LATEST_CAPACITY)
    ensures IngestAll(s, ds).0.latest == Take(Reversed(RecordsOf(ds)) + s.latest, LATEST_CAPACITY)
  {
    var init := ds[..|ds| - 1];
    var d := ds[|ds| - 1];
    PushOnto(IngestAll(s, init).0, d, Reversed(RecordsOf(init)) + s.latest);
    ReversedSnoc(ds);
    assert [d.payload.rec] + (Reversed(RecordsOf(init)) + s.latest) == Reversed(RecordsOf(ds)) + s.latest;
  }

  /** The list is most-recent-first: after the deliveries it holds their
      records newest first, then the entries it held before, cut to 100. */
  lemma {:induction false} LatestAfterPushes(s: StoreState, ds: seq<Delivery>)
    requires |s.latest| <= LATEST_CAPACITY
    requires AllPushed(ds)
    ensures IngestAll(s, ds).0.latest == Take(Reversed(RecordsOf(ds)) + s.latest, LATEST_CAPACITY)
  {
    if ds != [] {
      var init := ds[..|ds| - 1];
      assert AllPushed(init) by {
        forall i | 0 <= i < |init|
          ensures init[i] == ds[i]
        {
        }
      }
      LatestAfterPushes(s, init);
      LatestStep(s, ds);
    } else {
      assert Reversed(RecordsOf(ds)) + s.latest == s.latest;
    }
  }

  /** After at least 100 deliveries, the list holds exactly the last 100
      records, the newest first. */
  lemma LatestHoldsLastHundred(s: StoreState, ds: seq<Delivery>)
    requires |s.latest| <= LATEST_CAPACITY && LATEST_CAPACITY <= |ds|
    requires AllPushed(ds)
    ensures var l := IngestAll(s, ds).0.latest;
      && |l| == LATEST_CAPACITY
      && forall i :: 0 <= i < LATEST_CAPACITY ==> l[i] == ds[|ds| - 1 - i].payload.rec
  {
    LatestAfterPushes(s, ds);
    var l := IngestAll(s, ds).0.latest;
    var rs := RecordsOf(ds);
    var all := Reversed(rs) + s.latest;
    assert l == all[..LATEST_CAPACITY];
    forall i | 0 <= i < LATEST_CAPACITY
      ensures l[i] == ds[|ds| - 1 - i].payload.rec
    {
      assert l[i] == Reversed(rs)[i] == rs[|ds| - 1 - i];
    }
  }

  /** The list never grows past 100 entries as long as no trim throws. */
  lemma {:induction false} LatestStaysBounded(s: StoreState, ds: seq<Delivery>)
    requires |s.latest| <= LATEST_CAPACITY
    requires forall i :: 0 <= i < |ds| ==> Admissible(ds[i].payload) && RedisLTrim !in ds[i].faults
    ensures |IngestAll(s, ds).0.latest| <= LATEST_CAPACITY
  {
    if ds != [] {
      var d := ds[|ds| - 1];
      LatestStaysBounded(s, ds[..|ds| - 1]);
      if d.payload.Wellformed? {
        IngestPushes(IngestAll(s, ds[..|ds| - 1]).0, d.payload.rec, d.faults, d.now);
      }
    }
  }

  /** One outcome per delivery, and a message is reported as unreadable
      exactly when it does not parse. */
  lemma {:induction false} OutcomesAlign(s: StoreState, ds: seq<Delivery>)
    requires forall i :: 0 <= i < |ds| ==> Admissible(ds[i].payload)
    ensures |IngestAll(s, ds).1| == |ds|
    ensures forall i :: 0 <= i < |ds| ==>
      (IngestAll(s, ds).1[i] == Dropped(BadPayload) <==> ds[i].payload.Malformed?)
  {
    if ds != [] {
      var init := ds[..|ds| - 1];
      OutcomesAlign(s, init);
      forall i | 0 <= i < |init|
        ensures init[i] == ds[i]
      {
      }
    }
  }

  /** A message that does not parse is skipped and handling goes on with the
      next one: the stores end up as if it had never been delivered. */
  lemma {:induction false} MalformedSkipped(s: StoreState, pre: seq<Delivery>, bad: Delivery, post: seq<Delivery>)
    requires bad.payload.Malformed?
    requires forall i :: 0 <= i < |pre| ==> Admissible(pre[i].payload)
    requires forall i :: 0 <= i < |post| ==> Admissible(post[i].payload)
    ensures forall i :: 0 <= i < |pre + [bad] + post| ==> Admissible((pre + [bad] + post)[i].payload)
    ensures forall i :: 0 <= i < |pre + post| ==> Admissible((pre + post)[i].payload)
    ensures IngestAll(s, pre + [bad] + post).0 == IngestAll(s, pre + post).0
    decreases |post|
  {
    var with := pre + [bad] + post;
    var without := pre + post;
    assert forall i :: 0 <= i < |with| ==> with[i] == (if i < |pre| then pre[i] else if i == |pre| then bad else post[i - |pre| - 1]);
    assert forall i :: 0 <= i < |without| ==> without[i] == (if i < |pre| then pre[i] else post[i - |pre|]);
    if post == [] {
      assert with[..|with| - 1] == pre;
      assert without == pre;
    } else {
      var init := post[..|post| - 1];
      MalformedSkipped(s, pre, bad, init);
      assert with[..|with| - 1] == pre + [bad] + init;
      assert without[..|without| - 1] == pre + init;
    }
  }

  /** Whether a delivery is an ERROR event stamped inside minute `m`. */
  predicate CountedIn(d: Delivery, m: string) {
    && d.payload.Wellformed? && Admissible(d.payload) && IsError(d.payload.rec)
    && MinuteOf(d.payload.rec.timestamp) == Some(m)
  }

  /** How many of the deliveries are ERROR events stamped inside minute `m`. */
  function ErrorsIn(ds: seq<Delivery>, m: string): (n: nat)
    ensures n <= |ds|
  {
    if ds == [] then 0
    else ErrorsIn(ds[..|ds| - 1], m) + (if CountedIn(ds[|ds| - 1], m) then 1 else 0)
  }

  /** Every delivery is handled without a store failure, at a clock reading
      no more than 48 hours before `t` and not after it. */
  predicate CleanWithin(ds: seq<Delivery>, t: int) {
    forall i :: 0 <= i < |ds| ==>
      Admissible(ds[i].payload) && ds[i].faults == {} && t - ERROR_TTL_SECONDS <= ds[i].now <= t
  }

  /** The bucket of minute `m` after the deliveries: absent if none of them
      counted, and otherwise holding their number with an expiry not before `t`. */
  predicate BucketHolds(counters: map<string, Bucket>, m: string, n: nat, t: int) {
    var key := ErrorBucketKey(m);
    if n == 0 then key !in counters
    else key in counters && counters[key].count == n
         && counters[key].expiresAt.Some? && t <= counters[key].expiresAt.value
  }

  lemma {:induction false} BucketHoldsErrorsIn(s: StoreState, ds: seq<Delivery>, m: string, t: int)
    requires ErrorBucketKey(m) !in s.counters
    requires CleanWithin(ds, t) && |ds| < REDIS_MAX_INT
    ensures BucketHolds(IngestAll(s, ds).0.counters, m, ErrorsIn(ds, m), t)
  {
    if ds != [] {
      var init := ds[..|ds| - 1];
      var d := ds[|ds| - 1];
      var key := ErrorBucketKey(m);
      assert CleanWithin(init, t);
      BucketHoldsErrorsIn(s, init, m, t);
      var prior := IngestAll(s, init).0;
      var n := ErrorsIn(init, m);
      if CountedIn(d, m) {
        assert Count(prior.counters, key, d.now) == n;
        ErrorBumpsBucket(prior, d.payload.rec, d.now);
      } else {
        if d.payload.Wellformed? && IsError(d.payload.rec) && MinuteOf(d.payload.rec.timestamp).Some? {
          var other := MinuteOf(d.payload.rec.timestamp).value;
          if key == ErrorBucketKey(other) {
            ErrorBucketKeyInjective(m, other);
          }
        }
        OtherBucketsUntouched(prior, d.payload, d.faults, d.now, key);
      }
    }
  }

  /** The per-minute count is the number of ERROR events stamped in that
      minute: a reader at time `t` sees exactly that many, as long as the
      bucket started out empty, no store call failed and every event was
      handled within the 48 hours before `t`. */
  lemma BucketCountsErrors(s: StoreState, ds: seq<Delivery>, m: string, t: int)
    requires ErrorBucketKey(m) !in s.counters
    requires CleanWithin(ds, t) && |ds| < REDIS_MAX_INT
    ensures Count(IngestAll(s, ds).0.counters, ErrorBucketKey(m), t) == ErrorsIn(ds, m)
  {
    BucketHoldsErrorsIn(s, ds, m, t);
  }

  // ---------------------------------------------------------- the class

  /** The three stores the handler writes, updated in place. */
  class Backends {
    var index: map<string, Record>
    var latest: seq<Record>
    var counters: map<string, Bucket>

    function State(): (s: StoreState)
      reads this
    {
      StoreState(index, latest, counters)
    }

    constructor (init: StoreState)
      ensures State() == init
    {
      index := init.index;
      latest := init.latest;
      counters := init.counters;
    }

    /** The `eachMessage` handler. It never throws: every failure is caught
        and reported in the outcome. */
    method ProcessRecord(p: Payload, faults: set<Call>, now: int) returns (outcome: Outcome)
      requires Admissible(p)
      modifies this
      ensures (State(), outcome) == Ingest(old(State()), p, faults, now)
    {
      if p.Malformed? {
        return Dropped(BadPayload);
      }
      var r := p.rec;
      ghost var c := ContextOf(r, faults, now);
      IngestUnfolds(State(), r, faults, now);
      RunListSteps(c, State());
      if EsIndex in faults {
        return Dropped(StepFailed(IndexDoc));
      }
      index := Upsert(index, r);
      if RedisLPush in faults {
        return Dropped(StepFailed(PushLatest));
      }
      latest := LPush(latest, r);
      if RedisLTrim in faults {
        return Dropped(StepFailed(TrimLatest));
      }
      latest := Range(latest, 0, LATEST_STOP);
      if IsError(r) {
        RunCountSteps(c, State());
        var minute := MinuteOf(r.timestamp);
        if minute.None? {
          return Dropped(StepFailed(DeriveMinute));
        }
        var key := ErrorBucketKey(minute.value);
        if RedisIncr in faults {
          return Dropped(StepFailed(IncrBucket));
        }
        var bumped := Incr(counters, key, now);
        if bumped.None? {
          return Dropped(StepFailed(IncrBucket));
        }
        counters := bumped.value;
        if RedisExpire in faults {
          return Dropped(StepFailed(ExpireBucket));
        }
        counters := Expire(counters, key, ERROR_TTL_SECONDS, now);
      }
      return Stored;
    }

    /** `consumer.run`: the handler applied to each delivered message in order. */
    method ConsumeAll(ds: seq<Delivery>) returns (outcomes: seq<Outcome>)
      requires forall i :: 0 <= i < |ds| ==> Admissible(ds[i].payload)
      modifies this
      ensures (State(), outcomes) == IngestAll(old(State()), ds)
    {
      outcomes := [];
      var i := 0;
      while i < |ds|
        invariant 0 <= i <= |ds|
        invariant (State(), outcomes) == IngestAll(old(State()), ds[..i])
      {
        assert ds[..i + 1][..i] == ds[..i];
        var o := ProcessRecord(ds[i].payload, ds[i].faults, ds[i].now);
        outcomes := outcomes + [o];
        i := i + 1;
      }
      assert ds[..i] == ds;
    }
  }
}
