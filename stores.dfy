/** The three stores the consumer writes and the API reads, as values:
    the Elasticsearch index `logs` keyed by document id, the Redis list
    `latest_logs`, and the Redis counters `errors:<minute>` with their
    expiry on an integer clock in seconds. */
module Stores {
  import opened Records
  import opened Decimal

  /** The largest value a Redis integer holds (a signed 64-bit integer). */
  const REDIS_MAX_INT := 0x7fff_ffff_ffff_ffff

  /** A Redis counter: its value and the second at which it expires, if any. */
  datatype Bucket = Bucket(count: nat, expiresAt: Option<int>)

  datatype StoreState = StoreState(
    index: map<string, Record>,
    latest: seq<Record>,
    counters: map<string, Bucket>)

  function Min(a: int, b: int): (m: int) {
    if a <= b then a else b
  }

  // ---------------------------------------------------------------- index

  /** `es.index({id: r.id, body: r})`: creates or fully replaces the document `r.id`. */
  function Upsert(index: map<string, Record>, r: Record): (m: map<string, Record>)
    ensures r.id in m && m[r.id] == r
  {
    index[r.id := r]
  }

  /** After the write the document under `r.id` is `r`, created if it was
      missing, and every other document is as it was. */
  lemma UpsertReplaces(index: map<string, Record>, r: Record)
    ensures var m := Upsert(index, r);
      && m.Keys == index.Keys + {r.id}
      && m[r.id] == r
      && forall k :: k in index && k != r.id ==> m[k] == index[k]
  {
  }

  /** Writing the same id twice leaves exactly the last payload. */
  lemma UpsertLastWriteWins(index: map<string, Record>, a: Record, b: Record)
    requires a.id == b.id
    ensures Upsert(Upsert(index, a), b) == Upsert(index, b)
  {
  }

  // ----------------------------------------------------------------- list

  /** Redis `LRANGE`/`LTRIM` index range `start..stop`, both ends inclusive,
      for non-negative ends: the elements of the list at those positions. */
  function Range<T>(list: seq<T>, start: nat, stop: nat): (l: seq<T>)
    ensures |l| <= |list|
    ensures start == 0 ==> l == list[..Min(stop + 1, |list|)]
  {
    if start <= stop && start < |list| then list[start..Min(stop + 1, |list|)] else []
  }

  /** The range holds the list's elements from `start` on, as many as lie
      between `start` and `stop` inside the list. */
  lemma RangeContents<T>(list: seq<T>, start: nat, stop: nat)
    ensures var r := Range(list, start, stop);
      && |r| == (if start <= stop && start < |list| then Min(stop + 1, |list|) - start else 0)
      && forall i :: 0 <= i < |r| ==> r[i] == list[start + i]
  {
  }

  /** `LPUSH`: the new element becomes the head. */
  function LPush<T>(list: seq<T>, x: T): (l: seq<T>)
    ensures |l| == |list| + 1 && l[0] == x && l[1..] == list
  {
    [x] + list
  }

  /** Pushing and then trimming to `0..stop` keeps the new element followed
      by the old head: at most `stop + 1` entries. */
  lemma PushThenTrim<T>(list: seq<T>, x: T, stop: nat)
    ensures Range(LPush(list, x), 0, stop) == ([x] + list)[..Min(stop + 1, |list| + 1)]
    ensures |Range(LPush(list, x), 0, stop)| <= stop + 1
    ensures Range(LPush(list, x), 0, stop)[0] == x
  {
  }

  // ------------------------------------------------------------- counters

  /** A key is gone once the clock has passed its expiry second. */
  predicate Live(b: Bucket, now: int)
    ensures b.expiresAt.None? ==> Live(b, now)
  {
    b.expiresAt.None? || now <= b.expiresAt.value
  }

  /** Once a key has expired it stays expired: the clock only moves on. */
  lemma ExpiryIsFinal(b: Bucket, now: int, later: int)
    requires now <= later && !Live(b, now)
    ensures !Live(b, later)
  {
  }

  predicate Present(counters: map<string, Bucket>, key: string, now: int) {
    key in counters && Live(counters[key], now)
  }

  /** The value a reader sees under `key` at time `now`: 0 when absent or expired. */
  function Count(counters: map<string, Bucket>, key: string, now: int): (n: nat)
    ensures key !in counters ==> n == 0
    ensures key in counters && !Live(counters[key], now) ==> n == 0
    ensures key in counters && counters[key].expiresAt.None? ==> n == counters[key].count
  {
    if Present(counters, key, now) then counters[key].count else 0
  }

  /** `INCR key` at time `now`: a live key keeps its expiry and goes up by one;
      an absent or expired key starts again at 1 with no expiry. `None` is the
      overflow error Redis raises at the largest integer. */
  function Incr(counters: map<string, Bucket>, key: string, now: int): (r: Option<map<string, Bucket>>)
    ensures r.None? <==> Count(counters, key, now) == REDIS_MAX_INT
    ensures r.Some? ==> key in r.value && r.value[key].count == Count(counters, key, now) + 1
  {
    if Present(counters, key, now) then
      var b := counters[key];
      if b.count == REDIS_MAX_INT then None
      else Some(counters[key := Bucket(b.count + 1, b.expiresAt)])
    else
      Some(counters[key := Bucket(1, None)])
  }

  /** `INCR` fails exactly at the largest integer; otherwise the key reads one
      more than before (counting from 0 when absent or expired), a live key
      keeps its expiry, and no other key changes. */
  lemma IncrCounts(counters: map<string, Bucket>, key: string, now: int)
    ensures Incr(counters, key, now).None? <==> Count(counters, key, now) == REDIS_MAX_INT
    ensures var r := Incr(counters, key, now);
      r.Some? ==>
        && r.value.Keys == counters.Keys + {key}
        && r.value[key].count == Count(counters, key, now) + 1
        && r.value[key].expiresAt == (if Present(counters, key, now) then counters[key].expiresAt else None)
        && forall k :: k in counters && k != key ==> r.value[k] == counters[k]
  {
  }

  /** `EXPIRE key seconds` at time `now`: a live key expires `seconds` from now;
      an absent or expired key is left alone. */
  function Expire(counters: map<string, Bucket>, key: string, seconds: int, now: int): (c: map<string, Bucket>)
    ensures c.Keys == counters.Keys
    ensures key in counters ==> c[key].count == counters[key].count
    ensures Present(counters, key, now) ==> c[key].expiresAt == Some(now + seconds)
  {
    if Present(counters, key, now) then
      counters[key := Bucket(counters[key].count, Some(now + seconds))]
    else
      counters
  }

  /** `GET key` at time `now`: the stored decimal text, or nil when absent or expired. */
  function Get(counters: map<string, Bucket>, key: string, now: int): (r: Option<string>)
    ensures r.Some? <==> Present(counters, key, now)
    ensures r.Some? ==> IsDecimal(r.value) && ParseInt(r.value) == counters[key].count
  {
    if Present(counters, key, now) then
      ParseIntShow(counters[key].count);
      Some(Show(counters[key].count))
    else
      None
  }

  /** After `INCR` then `EXPIRE seconds` at time `now`, the key reads as one
      more than before until `now + seconds` and as absent afterwards. */
  lemma IncrThenExpire(counters: map<string, Bucket>, key: string, seconds: nat, now: int, later: int)
    requires Count(counters, key, now) < REDIS_MAX_INT
    requires now <= later
    ensures Incr(counters, key, now).Some?
    ensures var c := Expire(Incr(counters, key, now).value, key, seconds, now);
      && c[key] == Bucket(Count(counters, key, now) + 1, Some(now + seconds))
      && (later <= now + seconds ==> Count(c, key, later) == Count(counters, key, now) + 1)
      && (later > now + seconds ==> Count(c, key, later) == 0 && Get(c, key, later).None?)
  {
    var c1 := Incr(counters, key, now).value;
    assert Present(c1, key, now) by {
      if Present(counters, key, now) {
        assert c1[key].expiresAt == counters[key].expiresAt;
      }
    }
  }
}
