# StreamLens ingestion and query core, in Dafny

StreamLens consumes a stream of JSON log events. For each event, the consumer:

- indexes it into an Elasticsearch index `logs` keyed by the event's `id`;
- pushes it onto the Redis list `latest_logs`, which is trimmed to the 100 newest entries;
- for an event of severity `ERROR`, increments the Redis counter `errors:<YYYY-MM-DDTHH:MM>` of the event's own minute, and re-arms that counter's 48-hour expiry.

A small HTTP API reads these stores back:

- `/search` is a full-text search over the index;
- `/latest` returns the 50 newest list entries;
- `/errors?minute=…` returns one minute's error count.

The model treats the three stores as values:

- the index is a map from id to record;
- the list is a sequence of records;
- the counters are a map from key to a count plus an optional expiry second, on an integer clock.

The consumer's handler is a class `Consumer.Backends` holding those three stores as fields. Its method `ProcessRecord` performs the handler's steps in order with early exits. It is proved equal to the specification function `Consumer.Ingest`.

`Ingest` runs a fixed list of steps (`Consumer.Plan`): index, push, trim, and for an ERROR event also derive the minute, INCR and EXPIRE. The steps run inside one `try`, so the first step that throws stops the rest, and the writes of the earlier steps are kept. Which store calls throw is an input: the `faults` set of a `Delivery`.

The API handlers are pure functions of their query parameters and the store they read. Scenario lemmas compose the consumer with the API.

Modules:

| file | module | contents |
|---|---|---|
| decimal.dfy | `Decimal` | Redis's decimal text for a counter and `parseInt` of well-formed decimal text |
| records.dfy | `Records` | the event record and the parsed-or-not message value |
| timestamps.dfy | `Timestamps` | ISO timestamps, `toISOString`, the minute bucket and its key |
| stores.dfy | `Stores` | the three stores and the Redis and Elasticsearch operations the core uses |
| consumer.dfy | `Consumer` | the `eachMessage` handler: steps, partial failure, the class, lemmas over streams |
| api.dfy | `Api` | `/search`, `/latest` and `/errors`, with JavaScript `parseInt` |
| scenarios.dfy | `Scenarios` | consumer followed by API, with concrete streams |

Modelling choices:

- **Timestamps.** A timestamp is `None` when the field is missing, and a string otherwise.
  - A missing or empty timestamp is an Invalid Date, so `toISOString` throws.
  - Otherwise the model requires one of the two ISO UTC shapes: `YYYY-MM-DDTHH:MM:SSZ`, or the same with `.sss` milliseconds. The calendar fields must be valid.
  - `toISOString` then returns the 24-character form, and the minute bucket is its first 16 characters.
  - Only ERROR events need this precondition, because only they have their timestamp read.
- **Redis semantics.**
  - A counter with expiry second `e` is live while `now <= e`.
  - `INCR` keeps a live key's expiry, and restarts an absent or expired key at 1 with no expiry. It fails at 2^63-1.
  - `EXPIRE` on an absent key does nothing.
  - `GET` returns the decimal text, which the API reads back with `parseInt`.
- **Lists.** `LRANGE` and `LTRIM` are modelled for non-negative indexes, which is all the core uses.
- **Serialisation.** List entries are kept as records, because `JSON.parse(JSON.stringify(obj))` is the identity on a record.
- **Minute parameter.** The `/errors` handler rejects only a missing or empty `minute` (api/index.js:52). Any other text is looked up as the key `errors:<text>`, whether or not it has the `YYYY-MM-DDTHH:MM` shape named in the comment at api/index.js:49 (`Api.ErrorsReportsCount`).

## Model

| member | source | states |
|---|---|---|
| Decimal.Show | consumer/index.js:70 | the text Redis keeps for a counter is a non-empty run of digits, with a leading `0` only for 0 |
| Decimal.ShowDigitsValue | api/index.js:55-56 | the digits Redis stores for a count have exactly that count as their value |
| Decimal.ParseIntShow | api/index.js:56 | reading a stored counter's text back with `parseInt` yields the counter |
| Timestamps.ToIsoString | consumer/index.js:69 | `toISOString` of an ISO timestamp is 24 characters ending in `Z`, and agrees with the input to the second |
| Timestamps.ToIsoStringCanonical | consumer/index.js:69 | `toISOString` of an ISO timestamp is 24 characters, ISO again, the same to the second, `.000` milliseconds when none were given, and a fixed point |
| Timestamps.IsoOf | consumer/index.js:69 | `new Date(ts).toISOString()` throws exactly for a missing or empty timestamp, and otherwise is 24 characters that agree with the timestamp to the second |
| Timestamps.MinuteOf | consumer/index.js:69 | the minute bucket is undefined (the call throws) exactly for a missing or empty timestamp, and otherwise is the timestamp's first 16 characters |
| Timestamps.MinuteOfIsMinute | consumer/index.js:69 | every derived bucket is a valid `YYYY-MM-DDTHH:MM` calendar minute, the format `/errors` asks for |
| Timestamps.ErrorBucketKey | consumer/index.js:69 | the key is `errors:` followed by the minute |
| Timestamps.ErrorBucketKeyInjective | consumer/index.js:69 | distinct minutes have distinct `errors:` keys |
| Stores.Upsert | consumer/index.js:56-61 | after `es.index` the document under the record's id is the record |
| Stores.UpsertReplaces | consumer/index.js:56-61 | after the index write, `id` maps to the record, it is added if absent, and every other document is unchanged |
| Stores.UpsertLastWriteWins | consumer/index.js:56-61 | writing the same id twice leaves only the second payload |
| Stores.LPush | consumer/index.js:64 | the pushed element becomes the head, and the old list follows it unchanged |
| Stores.Range | consumer/index.js:65 | the inclusive range that `LTRIM` keeps and `LRANGE` reads (api/index.js:40) is never longer than the list, and `0..stop` is the list's first `stop + 1` entries |
| Stores.RangeContents | consumer/index.js:65 | an inclusive range holds exactly the list's elements from `start`, as many as lie within `stop` and the list's end |
| Stores.PushThenTrim | consumer/index.js:64-65 | push followed by trim to `0..99` is the new record followed by the old head, at most 100 entries, headed by the new record |
| Stores.Incr | consumer/index.js:70 | `INCR` fails exactly when the key's current count is the largest integer, and otherwise the key holds one more than before |
| Stores.Expire | consumer/index.js:72 | `EXPIRE` adds and removes no key and keeps the key's count; a live key then expires `seconds` from now |
| Stores.Live | consumer/index.js:72 | a key without an expiry is always live |
| Stores.ExpiryIsFinal | consumer/index.js:72 | a key that has expired stays expired at every later time |
| Stores.Count | api/index.js:55-56 | a reader sees 0 for a missing or expired key, and the stored count for a key without expiry |
| Stores.IncrCounts | consumer/index.js:70 | `INCR` fails exactly at the largest integer; otherwise the count goes up by one from 0 or from its live value, a live expiry is kept, and no other key changes |
| Stores.Get | api/index.js:55 | `GET` answers exactly for a live key, with decimal text whose decimal value is the count |
| Stores.IncrThenExpire | consumer/index.js:70-72 | after `INCR` and `EXPIRE`, the key holds one more with expiry `now + seconds`, reads as that until then, and reads as absent afterwards |
| Consumer.Plan | consumer/index.js:56-73 | every record goes through index, push and trim in that order, and exactly an ERROR event then goes through minute derivation, `INCR` and `EXPIRE` |
| Consumer.Throws | consumer/index.js:56-72 | with no failing call, a derived minute and room below the largest integer, no step throws; without a minute every counting step throws; `INCR` throws at the largest integer |
| Consumer.Effect | consumer/index.js:56-72 | each call writes only its own store: `es.index` the index, `lpush`/`ltrim` the list, `incr`/`expire` the counters; `es.index` stores the record under its id |
| Consumer.Run | consumer/index.js:51-78 | the steps of one `try` complete at most all of them, and a run whose first step throws writes nothing |
| Consumer.RunIsPrefix | consumer/index.js:51-78 | a run completes some prefix of its steps: it keeps exactly their writes, none of them threw, and the next step threw |
| Consumer.IngestIsPrefix | consumer/index.js:51-78 | handling a parsed record keeps the writes of the first `k` steps of its plan; it is stored exactly when all steps ran, and otherwise step `k` is the failure reported |
| Consumer.RunFrame | consumer/index.js:51-78 | the index, the list and the counters are each written only by their own steps |
| Consumer.RunKeepsOtherKeys | consumer/index.js:69-72 | no step touches a counter other than the record's own bucket |
| Consumer.RunAppend | consumer/index.js:51-78 | two step lists run back to back, and the second one starts only if the first finished |
| Consumer.RunListSteps | consumer/index.js:56-65 | index, push and trim each run unless an earlier one threw, giving the state after each |
| Consumer.RunCountSteps | consumer/index.js:68-73 | minute derivation, `INCR` and `EXPIRE` each run unless an earlier one threw, giving the state after each |
| Consumer.Ingest | consumer/index.js:50-79 | a message is reported as unreadable exactly when it does not parse, and then no store changes |
| Consumer.IngestAll | consumer/index.js:49-80 | each delivered message gets one outcome |
| Consumer.IngestUnfolds | consumer/index.js:50-79 | a parsed record goes through the list steps, and an ERROR event that got through them also goes through the counting steps; the first step that threw is reported |
| Consumer.MalformedChangesNothing | consumer/index.js:52-53 | a message that does not parse changes no store and is reported as unreadable |
| Consumer.IngestIndexes | consumer/index.js:56-61 | a failing index write leaves every store unchanged; otherwise the index afterwards is the old one with the record under its id |
| Consumer.SameIdKeepsLastPayload | consumer/index.js:56-61 | two records with the same id, processed in turn, leave exactly the second under that id |
| Consumer.IngestPushes | consumer/index.js:64-65 | the list is unchanged if the index write or the push threw; it is one entry longer if only the trim threw; otherwise it is the first 100 of the new record followed by the old list |
| Consumer.NonErrorLeavesCounters | consumer/index.js:68 | a non-ERROR record or an unreadable message leaves every counter and expiry unchanged |
| Consumer.InvalidDateSkipsCount | consumer/index.js:69 | an ERROR event without a date is indexed and listed, not counted, and reported as a `toISOString` failure |
| Consumer.ErrorBumpsBucket | consumer/index.js:69-72 | a fully handled ERROR event adds exactly 1 to its minute's counter (from 0 when absent or expired), with expiry `now + 172800`; no other counter changes |
| Consumer.BumpedBucketExpires | consumer/index.js:70-72 | the bumped bucket reads as the new count until `now + 172800`, and as absent (0, no `GET` value) after that |
| Consumer.ExpireFailureLeavesNoExpiry | consumer/index.js:70-72 | if `EXPIRE` throws after `INCR` created a bucket, the bucket reads as 1 with no expiry at every later time |
| Consumer.RedeliveryCountsTwice | consumer/index.js:56-72 | the same ERROR event handled twice leaves one document but counts 2 |
| Consumer.OtherBucketsUntouched | consumer/index.js:69-72 | whatever fails, a message leaves every counter other than its own bucket as it was |
| Consumer.PushOnto | consumer/index.js:64-65 | one more fully pushed record goes on top of what the list held, cut to 100 |
| Consumer.ReversedSnoc | consumer/index.js:64 | the records of a stream, newest first, start with its last record |
| Consumer.LatestStep | consumer/index.js:64-65 | the last delivery of a stream goes on top of the list the earlier deliveries left, cut to 100 |
| Consumer.LatestAfterPushes | consumer/index.js:64-65 | after a stream of records, the list is those records newest first, then the old entries, cut to 100 |
| Consumer.LatestHoldsLastHundred | consumer/index.js:64-65 | after at least 100 records, the list holds exactly the last 100, newest first |
| Consumer.LatestStaysBounded | consumer/index.js:64-65 | as long as no trim throws, the list never exceeds 100 entries |
| Consumer.OutcomesAlign | consumer/index.js:50-79 | every delivery gets exactly one outcome, and it is "unreadable" exactly when the message does not parse |
| Consumer.MalformedSkipped | consumer/index.js:76-78 | an unreadable message anywhere in a stream leaves the stores as if it had not been delivered, and handling goes on with the next message |
| Consumer.BucketHoldsErrorsIn | consumer/index.js:69-72 | after a clean stream handled within the 48 hours before `t`, a minute's bucket is absent if no event counted in it, and otherwise holds the count with an expiry not before `t` |
| Consumer.BucketCountsErrors | consumer/index.js:69-72 | a reader at `t` sees, for each minute, the number of ERROR events stamped in it |
| Consumer.Backends.constructor | consumer/index.js:14-15 | the handler starts from the given contents of the Elasticsearch index and the Redis store its clients connect to |
| Consumer.Backends.ProcessRecord | consumer/index.js:50-79 | the handler performs the steps in order with early exits; the new stores and the outcome are those of `Ingest` |
| Consumer.Backends.ConsumeAll | consumer/index.js:49-80 | handling each delivered message in order gives the stores and outcomes of `IngestAll` |
| Api.JsParseInt | api/index.js:14 | `parseInt` of empty or all-white-space text is `NaN`, and of text starting with a digit is a non-negative number |
| Api.JsParseIntDecimal | api/index.js:56 | `parseInt` reads a well-formed decimal string completely |
| Api.JsParseIntDigitFirst | api/index.js:14 | `parseInt` of text that starts with a digit is the value of its leading run of digits |
| Api.JsParseIntStops | api/index.js:14 | `parseInt` reads digits up to the first non-digit |
| Api.JsParseIntNaN | api/index.js:14 | `parseInt` is `NaN` when the text starts with something other than white space, a sign or a digit |
| Api.SearchRequestOf | api/index.js:13-27 | the query is empty exactly when `q` is missing or empty; the search is over message, service and severity, sorted by `timestamp` descending |
| Api.Search | api/index.js:12-35 | `/search` is 200 exactly when the index answers, and otherwise 500 `search failed` |
| Api.Sources | api/index.js:29 | the `_source` list has one entry per hit, in the hits' order |
| Api.SearchDefaults | api/index.js:13-27 | a missing or empty `q` searches for `''`; a missing or empty `size` asks for 20; given values are passed on; the search is over message, service and severity, newest first |
| Api.SearchShape | api/index.js:29-33 | the index's `total` passes through, the hits become their `_source` in order and at the same length, and a failing search is 500 `search failed` |
| Api.Latest | api/index.js:38-47 | `/latest` is 200 exactly when the read succeeds, and then lists min(50, length) entries |
| Api.LatestReturnsHead | api/index.js:38-46 | `/latest` is 200 with the first min(50, length) list entries in order, or 500 `redis failed` when the read throws |
| Api.Errors | api/index.js:50-61 | `/errors` is 400 exactly for a missing or empty `minute`, and a 200 echoes the minute given |
| Api.ErrorsRejectsMissing | api/index.js:51-52 | a missing or empty `minute` is 400 with the format hint, whatever the store holds and whether or not it would fail |
| Api.ErrorsReportsCount | api/index.js:53-59 | a given `minute` is echoed with its bucket's count, 0 when the bucket is absent or expired; a failing read is 500 `redis failed` |
| Scenarios.ErrorsAfterIngest | api/index.js:50-61 | `/errors?minute=m` after a clean stream reports the number of the stream's ERROR events stamped in `m` |
| Scenarios.LatestAfterIngest | api/index.js:38-47 | `/latest` after a stream returns the first 50 of its records newest first, followed by the older entries |
| Scenarios.LatestIsNewestFirst | consumer/index.js:64-65 | records A, B, C pushed onto an empty list read back as [C, B, A] |
| Scenarios.ErrorCountsPerMinute | api/index.js:53-56 | ERROR events at 15:04:10Z, 15:04:45Z and 15:05:00Z read back as 2 for 15:04, 1 for 15:05 and 0 for 15:06 |

## Left out

- Kafka connection, subscription and delivery. A stream is a sequence of deliveries handled one after another. Concurrency across partitions is not modelled.
- `ensureIndex` and the index mapping (consumer/index.js:17-39). They are schema creation with no logic of their own.
- Elasticsearch's `multi_match` matching, scoring and sorting. The index is a function parameter of `Api.Search`: it receives the request the handler builds (query, fields, sort, size) and answers with any total and hits. `total` is carried as an integer, whatever its shape.
- `refresh: false`: a new document may not be searchable at once. The index is modelled as a map that is up to date.
- Wall-clock time and Redis's own eviction. The clock is an integer parameter, and a key past its expiry second reads as absent.
- JSON. Parsing is reduced to "a record" or "unreadable" (`Payload`). The model covers neither objects without an `id`, nor values that parse to something other than an object, nor a `null` timestamp.
- Timestamps outside the two ISO UTC shapes. General `new Date(...)` parsing, offsets and non-UTC forms are not modelled, and an ERROR event must carry one of the modelled forms.
- Api.JsParseInt: leading white space covers only the ASCII space characters, not all the Unicode spaces JavaScript also skips. Its result is an exact integer, not a double, so sizes and counts above 2^53 are not rounded as `parseInt` rounds them.
- Express routing, query strings that repeat a parameter, `app.listen`, dotenv configuration, console logging and `process.exit`.
- The producer, which only generates random events.
- Negative `LRANGE` and `LTRIM` indexes, which the core never uses.
- Consumer.LatestStaysBounded: the list stays within 100 entries only while no `LTRIM` throws. `LPUSH` and `LTRIM` are two calls (consumer/index.js:64-65), and Consumer.IngestPushes shows the list one entry longer when the trim throws.
- Consumer.ExpireFailureLeavesNoExpiry: `INCR` and `EXPIRE` are two calls (consumer/index.js:70-72). When `EXPIRE` throws on a bucket that `INCR` has just created, the bucket keeps no expiry.
- A store call that throws is taken to have written nothing. A write that the store applied before its reply was lost (a timed-out `es.index`, `redis.lpush` or `redis.incr`, say) is not modelled, so Consumer.IngestIndexes, Consumer.IngestPushes and Consumer.ErrorBumpsBucket say nothing about it.
- Decimal.ParseIntShow: JavaScript `parseInt` returns a double, so a digit string whose value is above 2^53 reads back rounded (9007199254740993 reads as 9007199254740992). The model reads every digit string exactly.
- Api.JsParseIntDecimal: reads a decimal string exactly; `parseInt` rounds values above 2^53 to the nearest double.
- Api.JsParseIntDigitFirst: reads the leading digits exactly; `parseInt` rounds values above 2^53 to the nearest double.
- Api.JsParseIntStops: reads the leading digits exactly; `parseInt` rounds values above 2^53 to the nearest double.
- Api.SearchDefaults: a given decimal `size` is passed on exactly; above 2^53 `parseInt` would pass on a rounded double.
- Api.ErrorsReportsCount: reports the stored count exactly. A Redis counter can reach 2^63-1, and `parseInt` of a count above 2^53 yields a rounded double.
- Api.JsParseIntNaN: a text led by a Unicode space such as U+00A0 reads as `NaN` here, where JavaScript skips the space and reads the digits after it.
- Scenarios.ErrorsAfterIngest: reports the number of ERROR events exactly; a count above 2^53 would reach the client as a rounded double.
