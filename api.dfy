/** The read side (api/index.js): `/search` over the index, `/latest` over
    the recent-records list and `/errors` over the minute counters, each as
    a function from the request's query parameters and the store it reads to
    the HTTP response it sends. */
module Api {
  import opened Decimal
  import opened Records
  import opened Stores
  import opened Timestamps

  /** `redis.lrange('latest_logs', 0, 49)`. */
  const LATEST_READ_STOP := 49
  /** `req.query.size || '20'`. */
  const DEFAULT_SIZE := "20"
  const MINUTE_HINT := "provide minute param like 2023-08-01T15:04"
  const REDIS_FAILED := "redis failed"
  const SEARCH_FAILED := "search failed"
  /** `fields: ['message', 'service', 'severity']`. */
  const SEARCH_FIELDS := ["message", "service", "severity"]

  /** The JSON bodies the handlers send. A count of `None` is `NaN`, which
      `res.json` writes as `null`. */
  datatype Body =
    | Hits(total: int, hits: seq<Record>)
    | Entries(entries: seq<Record>)
    | MinuteCount(minute: string, count: Option<int>)
    | Error(error: string)

  datatype Response = Response(status: nat, body: Body)

  // --------------------------------------------------------- parseInt

  predicate IsSpace(c: char) {
    c == ' ' || c == '\t' || c == '\n' || c == '\r' || c == '\U{B}' || c == '\U{C}'
  }

  function TrimStart(s: string): (t: string)
    ensures |t| <= |s| && t == s[|s| - |t|..]
    ensures |t| > 0 ==> !IsSpace(t[0])
  {
    if |s| > 0 && IsSpace(s[0]) then TrimStart(s[1..]) else s
  }

  /** The length of the run of digits `s` starts with. */
  function LeadingDigits(s: string): (n: nat)
    ensures n <= |s| && AllDigits(s[..n])
    ensures n < |s| ==> !IsDigit(s[n])
  {
    if |s| > 0 && IsDigit(s[0]) then
      var n := LeadingDigits(s[1..]) + 1;
      assert s[..n] == [s[0]] + s[1..][..n - 1];
      n
    else 0
  }

  /** `parseInt(s, 10)`: leading white space and one sign are skipped, then
      the longest run of digits is read; with no digit the result is `NaN`
      (`None`). */
  function JsParseInt(s: string): (r: Option<int>)
    ensures TrimStart(s) == "" ==> r.None?
    ensures |s| > 0 && IsDigit(s[0]) ==> r.Some? && r.value >= 0
  {
    var t := TrimStart(s);
    var signed := |t| > 0 && (t[0] == '-' || t[0] == '+');
    var u := if signed then t[1..] else t;
    var n := LeadingDigits(u);
    if n == 0 then None
    else if signed && t[0] == '-' then Some(0 - DigitsValue(u[..n]))
    else Some(DigitsValue(u[..n]))
  }

  /** On a well-formed decimal string `parseInt` reads the whole string. */
  lemma JsParseIntDecimal(s: string)
    requires IsDecimal(s)
    ensures JsParseInt(s) == Some(ParseInt(s))
  {
    assert TrimStart(s) == s;
    var u := if s[0] == '-' then s[1..] else s;
    assert AllDigits(u);
    assert LeadingDigits(u) == |u|;
    assert u[..|u|] == u;
  }

  /** A run of digits followed by a non-digit is read up to the non-digit. */
  lemma {:induction false} LeadingDigitsAppend(digits: string, rest: string)
    requires AllDigits(digits)
    requires |rest| > 0 ==> !IsDigit(rest[0])
    ensures LeadingDigits(digits + rest) == |digits|
    decreases |digits|
  {
    if |digits| > 0 {
      assert (digits + rest)[1..] == digits[1..] + rest;
      LeadingDigitsAppend(digits[1..], rest);
    } else {
      assert digits + rest == rest;
    }
  }

  /** A string that starts with a digit is read up to its first non-digit. */
  lemma JsParseIntDigitFirst(s: string)
    requires |s| > 0 && IsDigit(s[0])
    ensures JsParseInt(s) == Some(DigitsValue(s[..LeadingDigits(s)]))
  {
    assert TrimStart(s) == s;
  }

  /** `parseInt` stops at the first character that is not a digit. */
  lemma JsParseIntStops(digits: string, rest: string)
    requires AllDigits(digits) && |digits| > 0
    requires |rest| > 0 ==> !IsDigit(rest[0])
    ensures JsParseInt(digits + rest) == Some(DigitsValue(digits))
  {
    var s := digits + rest;
    assert s[0] == digits[0];
    JsParseIntDigitFirst(s);
    LeadingDigitsAppend(digits, rest);
    assert s[..|digits|] == digits;
  }

  /** With no digit (after white space and a sign) to start with, `parseInt`
      reads `NaN`. */
  lemma JsParseIntNaN(s: string)
    requires |s| > 0 && !IsDigit(s[0]) && !IsSpace(s[0]) && s[0] != '-' && s[0] != '+'
    ensures JsParseInt(s) == None
  {
    assert TrimStart(s) == s;
  }

  // ------------------------------------------------------------ /search

  /** The search the handler sends: a multi-field match of `query`, newest
      `timestamp` first, at most `size` hits (`None` is a `NaN` size). */
  datatype SearchRequest = SearchRequest(query: string, fields: seq<string>, sortField: string,
                                         descending: bool, size: Option<int>)

  datatype SearchHit = SearchHit(id: string, source: Record)

  /** What the index answers, or the error `es.search` throws. */
  datatype SearchReply = SearchOk(total: int, hits: seq<SearchHit>) | SearchFailed

  /** `req.query.q || ''` and `parseInt(req.query.size || '20', 10)`. */
  function SearchRequestOf(q: Option<string>, size: Option<string>): (req: SearchRequest)
    ensures req.query == "" <==> (q.None? || q.value == "")
    ensures req.fields == SEARCH_FIELDS && req.sortField == "timestamp" && req.descending
  {
    var query := if q.None? || q.value == "" then "" else q.value;
    var sizeText := if size.None? || size.value == "" then DEFAULT_SIZE else size.value;
    SearchRequest(query, SEARCH_FIELDS, "timestamp", true, JsParseInt(sizeText))
  }

  /** `hits.map(h => h._source)`. */
  function Sources(hits: seq<SearchHit>): (rs: seq<Record>)
    ensures |rs| == |hits|
    ensures forall i :: 0 <= i < |hits| ==> rs[i] == hits[i].source
  {
    if hits == [] then [] else [hits[0].source] + Sources(hits[1..])
  }

  /** `GET /search`: the index is a parameter, answering each request. */
  function Search(q: Option<string>, size: Option<string>, es: SearchRequest -> SearchReply): (resp: Response)
    ensures resp.status == 200 <==> es(SearchRequestOf(q, size)).SearchOk?
    ensures resp.status != 200 ==> resp == Response(500, Error(SEARCH_FAILED))
  {
    match es(SearchRequestOf(q, size))
    case SearchOk(total, hits) => Response(200, Hits(total, Sources(hits)))
    case SearchFailed => Response(500, Error(SEARCH_FAILED))
  }

  /** A missing or empty `q` searches for the empty string, and a missing or
      empty `size` asks for 20 hits; given ones are passed on (a decimal
      `size` as its value). The search is over message, service and severity,
      newest first. */
  lemma SearchDefaults(q: Option<string>, size: Option<string>)
    ensures var req := SearchRequestOf(q, size);
      && (q.None? || q.value == "" ==> req.query == "")
      && (q.Some? && q.value != "" ==> req.query == q.value)
      && (size.None? || size.value == "" ==> req.size == Some(20))
      && (size.Some? && IsDecimal(size.value) ==> req.size == Some(ParseInt(size.value)))
      && req.fields == ["message", "service", "severity"]
      && req.sortField == "timestamp" && req.descending
  {
    ParseIntShow(20);
    assert Show(20) == DEFAULT_SIZE;
    JsParseIntDecimal(DEFAULT_SIZE);
    if size.Some? && IsDecimal(size.value) {
      JsParseIntDecimal(size.value);
    }
  }

  /** The response passes the index's total through and lists the documents
      of its hits, in its order and as many; a failing search is a 500. */
  lemma SearchShape(q: Option<string>, size: Option<string>, es: SearchRequest -> SearchReply)
    ensures var reply := es(SearchRequestOf(q, size));
      var resp := Search(q, size, es);
      && (reply.SearchOk? ==>
            && resp.status == 200 && resp.body.Hits? && resp.body.total == reply.total
            && |resp.body.hits| == |reply.hits|
            && forall i :: 0 <= i < |reply.hits| ==> resp.body.hits[i] == reply.hits[i].source)
      && (reply.SearchFailed? ==> resp == Response(500, Error("search failed")))
  {
  }

  // ------------------------------------------------------------ /latest

  /** `GET /latest`: the first 50 entries of the list, or a 500 when the
      read throws. */
  function Latest(list: seq<Record>, readFails: bool): (resp: Response)
    ensures resp.status == 200 <==> !readFails
    ensures !readFails ==> resp.body.Entries? && |resp.body.entries| == Min(LATEST_READ_STOP + 1, |list|)
  {
    if readFails then Response(500, Error(REDIS_FAILED))
    else Response(200, Entries(Range(list, 0, LATEST_READ_STOP)))
  }

  /** `/latest` returns the first min(50, |list|) entries, in list order. */
  lemma LatestReturnsHead(list: seq<Record>, readFails: bool)
    ensures readFails ==> Latest(list, readFails) == Response(500, Error("redis failed"))
    ensures !readFails ==> Latest(list, readFails) == Response(200, Entries(list[..Min(50, |list|)]))
  {
  }

  // ------------------------------------------------------------ /errors

  /** `GET /errors?minute=m`: 400 without a (non-empty) `minute`; otherwise
      `GET errors:<m>`, read with `parseInt(count || '0', 10)`. */
  function Errors(minute: Option<string>, counters: map<string, Bucket>, readFails: bool, now: int): (resp: Response)
    ensures resp.status == 400 <==> (minute.None? || minute.value == "")
    ensures resp.status == 200 ==> resp.body.MinuteCount? && resp.body.minute == minute.value
  {
    if minute.None? || minute.value == "" then Response(400, Error(MINUTE_HINT))
    else if readFails then Response(500, Error(REDIS_FAILED))
    else
      var text := match Get(counters, ErrorBucketKey(minute.value), now)
        case None => "0"
        case Some(t) => t;
      Response(200, MinuteCount(minute.value, JsParseInt(text)))
  }

  /** A missing or empty `minute` is answered with 400 and the format hint,
      whatever the counters hold and without reading them. */
  lemma ErrorsRejectsMissing(minute: Option<string>, counters: map<string, Bucket>, other: map<string, Bucket>,
                             readFails: bool, now: int)
    requires minute.None? || minute.value == ""
    ensures Errors(minute, counters, readFails, now)
         == Errors(minute, other, !readFails, now)
         == Response(400, Error("provide minute param like 2023-08-01T15:04"))
  {
  }

  /** With a minute given, `/errors` echoes it and reports its bucket's count:
      the number stored, or 0 when the bucket is absent or expired. A failing
      read is a 500. No format check is made: any non-empty text is looked up. */
  lemma ErrorsReportsCount(m: string, counters: map<string, Bucket>, readFails: bool, now: int)
    requires m != ""
    ensures readFails ==> Errors(Some(m), counters, readFails, now) == Response(500, Error("redis failed"))
    ensures !readFails ==>
      Errors(Some(m), counters, readFails, now) == Response(200, MinuteCount(m, Some(Count(counters, ErrorBucketKey(m), now))))
    ensures !readFails && !Present(counters, ErrorBucketKey(m), now) ==>
      Errors(Some(m), counters, readFails, now) == Response(200, MinuteCount(m, Some(0)))
  {
    var key := ErrorBucketKey(m);
    match Get(counters, key, now)
    case None =>
      ParseIntShow(0);
      assert Show(0) == "0";
      JsParseIntDecimal("0");
    case Some(t) =>
      JsParseIntDecimal(t);
  }
}
