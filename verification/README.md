# fasthttpd: a verified model of routing, request handling and logging

This project models the request path of the fasthttpd web server in Dafny and proves what it guarantees:

* **Routing.** A route table is searched from an offset; matching routes rewrite the path and collect filters until one
  decides. The answer is characterised by positions in the table, independently of the loop (`Routing`), and the loop over
  a reusable result object computes it (`RouteObjects`).
* **The read-through route cache.** The expiring cache (`Caches`), its length-prefixed keys (`CacheKeys`), the pooled
  result objects (`Results`) and `CachedRoute` calls are put together as interleaved atomic steps under a monotone clock:
  lookups, double misses, drops at the cap, delayed eviction passes, release callbacks, copies field by field and the
  pool (`Interleaving`, `RouteCache`). An ownership argument and a lease argument hold for every interleaving, and a run
  shows that the lease is needed.
* **The request run.** Filters, redirects, handlers, error pages and the retry after a 404 (`Server`, `RetryWalks`), with the
  memo table of the error pages (`ErrorPage`), and the object that does all this to a context and logs it (`Handling`).
* **Configuration includes** (`Includes`), **load balancing** (`Balancers`) and **access logs**: decimal and date printers
  with inverse parsers (`Digits`, `Dates`), the strftime compiler (`Strftimes`), JSON and LTSV lines (`JsonLog`,
  `JsonLine`, `Ltsv`), the buffered log (`AccessLogs`) and everything together, from logged record to bytes in the file
  and back (`LogStreams`).

`dafny verify dfyconfig.toml` checks the whole project.

## How to read it

Code that updates objects in place is a class or a method with loops; its `ensures` equates the new state with a
specification function of the old one. The lemmas then say what these functions mean: by positions, by runs, by an inverse
parser, or by a simpler machine that they refine. The modules `RouteLaws`, `RequestLaws`, `PageLaws` and `StrftimeLaws`,
and the lemmas named `...Exactly` and `...InOrder`, speak of the inputs alone, so that each specification function is
held to something that does not mention it.

Choices that run through the project:

* Byte slices are strings of characters. Every statement holds for all characters, hence for the bytes 0 to 255.
* The 64-bit key hash is taken to be collision-free: a key is the sequence of bytes fed to the hash.
* Regular expressions, upper-casing, status texts, URI parsing, redirects, globbing, time zones and the random and hash
  starts of the balancer are given functions or given values; every theorem holds for all of them. The theorems that say
  exactly when the retry loop is bounded, or handlers are guarded, hold for each URI parser that answers paths beginning
  with a slash together with each redirect that does not end in 404, as the HTTP library's do not (`Server.Real`).
* The result pool is a bag that may hand out any item, or a new one, and may forget items.
* Integers are unbounded, except where the width matters: the 4-byte key prefixes, the 64-bit counter of the balancer, and
  the 20-byte digit buffer.

Where the code does something other than its comments or callers suggest, the model follows the code and says exactly when
it matters:

* `Route` stores the index of the answering route relative to the offset it started from, and `Handle` uses it as an index
  into the whole table. `Server.Indexing` has both readings. With `FromStart` the retry loop always ends. With `AsWritten`
  its runs are the walks of a graph that the requests for the table span. A hop needs a request for which the deciding route
  involves a filter, or else calls a handler; redirects and statuses alone are answered at once. The loop makes at most two
  attempts exactly when no hop from the start is followed by another, and it ends for all filters, handlers and requests
  exactly when no walk comes back to an offset (`RetryWalks`).
* A request filter that refuses with status 404 is taken for a missing page and the request is tried on later routes. A set
  of filters guards the handlers in every table exactly when none of them can refuse with 404.
* `cache.Get` returns and refreshes entries that are past their time to live; a copy is safe exactly as long as it takes
  no longer than `expire`.
* A page that the file handler fails to serve for one request is demoted for all. This can be seen exactly when the page
  shows differently from the default page to some other request with that status.
* A comment says that X-Forwarded-For holds no characters special to JSON; nothing enforces it. A line can be read back
  exactly when the first entry has no quote, backslash or control byte except TABs around it.
* The number printer of the HTTP library panics on negative numbers, and a response of unknown length reports one; the log
  lines are printed exactly when none of their numbers is negative.
* `RotateShared` rotates behind the access log's buffer. The segments are those of an unbuffered log exactly when it never
  meets a buffered byte of an open log, and they consist of whole lines exactly when what it meets is always whole lines.
* A `Log` that has passed its check of `closed` when `Close` runs can leave its line in the buffer: at a given buffer size
  exactly when the last such line does not go past the buffer and no flush follows.
* The balancer's sum and counter wrap at 2^64. A scan sees every backend exactly when no sum in it wraps or the number of
  backends divides 2^64.
* The 12-hour directives of strftime are wrong exactly at midnight, which they print as 00 or as a blank and 0.

## Model

| member | source | states |
|---|---|---|
| CacheKeys.LE32RoundTrip | pkg/util/cache.go:61-65 | reading the four prefix bytes gives the length modulo 2^32 |
| CacheKeys.LE32Truncates | pkg/route/route.go:216-217 | numbers that agree modulo 2^32 have the same prefix bytes |
| CacheKeys.FieldsRoundTrip | pkg/util/cache.go:20-65 | a decoder recovers every list of fields shorter than 2^32 from the bytes the hash receives |
| CacheKeys.FieldsInjective | pkg/util/cache.go:20-24 | different lists of fields feed different bytes, so no two compositions share a key |
| CacheKeys.QueryKeyExact | pkg/route/route.go:208-224 | two lookups share a key if and only if method and path agree and the offsets agree modulo 2^32 |
| CacheKeys.SameKeySameLookup | pkg/route/route.go:208-224 | below 2^32 the key determines method, path and offset |
| CacheKeys.CacheKeyBuilder.constructor | pkg/util/cache.go:48-52 | an acquired builder has been fed nothing |
| CacheKeys.CacheKeyBuilder.Write | pkg/util/cache.go:61-65 | the field joins the list of fields written, and the bytes fed stay the encoding of that list |
| CacheKeys.CacheKeyBuilder.Sum | pkg/util/cache.go:78-80 | the key stands for exactly the fields written so far |
| Caches.Cache.constructor | pkg/util/cache.go:171-190 | empty store, defaults for non-positive expire and interval, first pass due one interval after creation |
| Caches.Cache.Get | pkg/util/cache.go:193-205 | a present entry is returned and refreshed even when stale, and may launch a pass; a miss changes nothing |
| Caches.Cache.Set | pkg/util/cache.go:210-226 | stores or replaces with a fresh timestamp; a new key at a full positive cap is dropped; either way a due pass is launched |
| Caches.Cache.Del | pkg/util/cache.go:228-240 | removes the entry and schedules its callback once, when one is registered |
| Caches.Cache.OnRelease | pkg/util/cache.go:253-258 | sets or clears the callback and nothing else |
| Caches.Cache.ScheduleEvictLocked | pkg/util/cache.go:263-269 | launches a pass with the current timestamp if and only if one is due, and moves the next one an interval on |
| Caches.Cache.Evict | pkg/util/cache.go:278-300 | the walk over the store removes exactly the stale entries and schedules exactly one callback for each |
| Caches.CapKept | pkg/util/cache.go:210-226 | in every run the store never exceeds a positive cap |
| Caches.LaunchesSpaced | pkg/util/cache.go:263-269 | in every run the timestamps of launched passes are at least an interval apart, and none is earlier than the first due time |
| Caches.PassesAccounted | pkg/util/cache.go:263-278 | every launched pass is either pending or has run exactly once, and no other pass runs |
| Caches.PeekIsLastTouch | pkg/util/cache.go:193-226 | an entry's timestamp is the time of the last Get or Set on its key, read off the operations alone |
| Caches.LeavesOnlyWhenStale | pkg/util/cache.go:228-293 | an entry leaves if and only if it is deleted or a pass comes whose timestamp exceeds its last Get or Set by more than expire |
| Caches.SetStoresExactly | pkg/util/cache.go:210-226 | after every run a Set stores its value with its time if and only if the key is present, there is no positive cap or the store is below it; otherwise the store is unchanged; a due pass is launched; a Get right behind finds the value |
| Caches.GetRefreshesExactly | pkg/util/cache.go:193-205 | after every run a Get finds an entry if and only if it is stored, puts its time on it and launches a due pass; without an entry it changes nothing |
| Caches.RemovalsKeepRest | pkg/util/cache.go:228-300 | Del and eviction passes remove exactly what they should, change no other entry and launch nothing |
| Caches.CallbacksConserve | pkg/util/cache.go:210-300 | in every run each value stored is still live, was overwritten by a later Set, was removed while no callback was set, or had its callback scheduled, each exactly once |
| Caches.NothingSilent | pkg/util/cache.go:228-300 | while the callback stays registered nothing is removed without it |
| Results.Buffer.Append | pkg/route/result.go:66-77 | appending extends the contents, in place or in a new backing array, and no other array is written |
| Results.Result.Reset | pkg/route/result.go:54-63 | the result says nothing afterwards, and its buffers are kept |
| Results.Result.CopyTo | pkg/route/result.go:66-77 | the target says exactly what the source says, nothing of its old value survives, the source is unchanged and the two share no memory |
| Results.Result.Equal | pkg/route/result.go:80-95 | true if and only if all fields but the route index agree |
| StringSets.Append | pkg/util/strings.go:26-37 | the nested search loops append exactly the values not present yet |
| StringSets.AppendNewUnion | pkg/util/strings.go:26-37 | appending to a duplicate-free union gives the duplicate-free union of both lists |
| StringSets.FirstOccurrencesOrdered | pkg/util/strings.go:22-37 | the union has no duplicates and keeps the order of first appearance |
| Uris.PathOf | pkg/util/http.go:32-38 | the longest prefix without a question mark |
| Routing.ResolveSplits | pkg/route/route.go:173-197 | searching A followed by B is searching A and, when A does not decide, searching B with the carried path, filters and rewrite |
| Routing.ResolvePrefix | pkg/route/route.go:173-197 | before the first deciding route, what has been collected is given by the matched positions: union of filters, last match, last rewrite |
| Routing.LastMatchMeaning | pkg/route/route.go:173-186 | the index, status message and handler come from the last matched position |
| Routing.LastRewriteMeaning | pkg/route/route.go:184-193 | the rewrite in force comes from the last matched position that rewrites |
| Routing.RouteMeaning | pkg/route/route.go:167-200 | the first deciding position fixes status, handler, redirect and relative index, the filters are the ordered duplicate-free union over exactly the matched positions up to it, and without one the answer is 404 |
| Routing.DeciderAnswers | pkg/route/route.go:173-197 | the loop stops at the first deciding position and answers for it, in every field |
| Routing.NewRoutes | pkg/route/route.go:128-157 | a table is built if and only if every route names configured filters and handlers and has a usable match; otherwise the first unusable route is reported |
| Routing.AnswersAreActionable | pkg/route/route.go:167-200 | every answer has a redirect, a positive status or a handler, and names only configured filters and handlers |
| Routing.AnswerNotEmpty | pkg/route/route.go:167-200 | no table and request yield an answer that says nothing |
| Routing.AnswerIndex | pkg/route/route.go:173-180 | an answer other than 404 comes from the first deciding route of the remaining table, and its index is counted from the offset |
| RouteLaws.OneRouteAnswers | pkg/route/route.go:57-113 | a table of one route answers exactly the requests whose method is one of its methods, or any if it has none, and whose path equals, begins with or matches its pattern, provided it has a handler, a positive status or a redirect; every field of the answer, with redirect or rewrite URI |
| RouteLaws.SecondRouteAnswers | pkg/route/route.go:173-197 | a route behind one that does not end the search sees the path, or what that route has rewritten it to up to the first question mark; earlier filters and rewrites stay |
| RouteLaws.ConfiguredRoute | pkg/route/route.go:31-89 | a configured route is for upper-cased methods and, by default, for the paths that begin with its path, by default a slash; its status message is the configured one or that of a positive status |
| RouteLaws.UsableExactly | pkg/route/route.go:57-89 | the kinds of match are equal, prefix and regexp, and only a pattern that does not compile is unusable |
| Interleaving.PartialComplete | pkg/route/result.go:66-77 | the nine assignments of a copy, undisturbed, amount to the whole result |
| Interleaving.KeepInv | pkg/route/route.go:203-233 | each of the thirteen atomic steps keeps the invariant on ownership, cache entries and calls under way |
| Interleaving.OneOwner | pkg/route/route.go:203-233 | in every interleaving a result is in at most one of store, pool, pending callback, pending Put and one call's hands, and at most once |
| Interleaving.CopiesAreAnswers | pkg/route/route.go:226-232 | in every interleaving a copy completed within the lease equals the route answer in all fields |
| Interleaving.LeaseProtects | pkg/route/result.go:54-77 | while a reader is within its lease no enabled step of anyone changes what it reads, and what it reads is the answer |
| Interleaving.ReleasedAtMostOnce | pkg/route/result.go:100-103 | in every run a result has been released as often as acquired or once less |
| RouteCache.TableKeysDistinct | pkg/route/route.go:208-224 | for every route table the cache keys keep lookups apart |
| RouteCache.CachedRouteIsRoute | pkg/route/route.go:203-233 | in every reachable state what CachedRoute returns within the lease is what Route answers, route index included |
| RouteCache.CachedRouteIsFresh | pkg/route/route.go:226-232 | the returned copy is in no other place: not stored, pooled, pending or in another call |
| RouteCache.LateReaderMayReadEmpty | pkg/route/route.go:115-119 | for every delay beyond expire, and every cache configuration, some run hands out an emptied result that late after its fetch |
| RouteCache.LeaseExactly | pkg/route/route.go:203-233 | for every table and configuration: in every run all copies completed within d of their fetch are answers, if and only if d is at most expire |
| RouteCache.EmptyIsNoAnswer | pkg/route/route.go:167-200 | such an empty result is a wrong answer for every table and request |
| RouteObjects.ResultPool.Acquire | pkg/route/result.go:17-23 | an empty result that shares no memory with what stays in the pool |
| RouteObjects.ResultPool.Release | pkg/route/result.go:100-103 | the result is emptied and put in the pool, and the pool stays free of aliasing |
| RouteObjects.ExamineInto | pkg/route/route.go:173-196 | one turn of the loop on a reused result object has the effect of one turn on values, and touches only that object |
| RouteObjects.Routes.Search | pkg/route/route.go:167-200 | the loop over the table leaves the route answer in the acquired result |
| RouteObjects.Routes.KeyOf | pkg/route/route.go:216-224 | the builder calls produce the key of method, path and offset |
| RouteObjects.Routes.Route | pkg/route/route.go:167-200 | the answer, in an object that shares nothing with pool, cache or stored results |
| RouteObjects.Routes.CopyOut | pkg/route/route.go:226-232 | a private copy of a stored result; the stored one and the cache are unaffected |
| RouteObjects.Routes.CachedRoute | pkg/route/route.go:203-233 | on hit and on miss the caller gets the answer of Route in an object of its own, and every stored result still answers the lookups of its key |
| Digits.ParseDecimal | pkg/util/bytes.go:57-71 | a decimal numeral consists of digits and reads back as its number |
| Digits.DecimalCanonical | pkg/util/bytes.go:57-71 | no leading zero except in the numeral of zero |
| Digits.DecimalLength | pkg/util/bytes.go:27-28 | a numeral fits in w places if and only if the number is below 10^w |
| Digits.FittedValue | pkg/util/bytes.go:57-71 | the digits written into a field of width w denote the number modulo 10^w |
| Digits.PrintLoop | pkg/util/bytes.go:60-65 | after each turn the digits in place and the number left together are the numeral |
| Digits.CopyRightUint | pkg/util/bytes.go:57-71 | the numeral, or its last digits when the field is full, right-aligned; every byte before the returned offset and after the field is untouched |
| Digits.CopyPaddingRightUint | pkg/util/bytes.go:35-54 | the same, filled up on the left to p places, bytes before the returned offset untouched |
| Digits.AppendPaddingUint | pkg/util/bytes.go:19-31 | for 0 to 2^63 - 1 and padding up to 20 the whole padded numeral is appended |
| Digits.PaddedMeaning | pkg/util/bytes.go:17-31 | the padded numeral has max(p, digits) places and, padding stripped, reads back as the number; with zeros even unstripped |
| Dates.AppendUint2 | pkg/logger/accesslog/json.go:96-98 | two digits for numbers below 100; beyond, some byte and the last digit |
| Dates.AppendUint4 | pkg/logger/accesslog/json.go:100-107 | four digits for numbers below 10000; beyond, some byte and the last three |
| Dates.UintsBeyond | pkg/logger/accesslog/json.go:96-107 | for all numbers the first byte is the leading count plus 48 modulo 256, and the others are the last digits |
| Dates.AppendISOTime | pkg/logger/accesslog/json.go:64-94 | appends the time piece by piece, for every year and offset; for years 0 to 9999 this is the format of section 5.6 of RFC 3339 (`ISORoundTrip`) |
| Dates.ISORoundTrip | pkg/logger/accesslog/json.go:62-94 | 20 or 25 bytes, and a parser recovers every field with the offset cut to whole minutes |
| Dates.ISOExactForWholeMinutes | pkg/logger/accesslog/json.go:80-92 | the time is recovered exactly if and only if its offset is a whole number of minutes |
| Dates.AppendNCSADate | pkg/logger/accesslog/ncsa.go:144-180 | filling the template in place yields the common-log date, for every year and offset |
| Dates.NCSALength | pkg/logger/accesslog/ncsa.go:142-180 | always 28 bytes |
| Dates.NCSARoundTrip | pkg/logger/accesslog/ncsa.go:142-180 | for years 0 to 9999 a parser recovers every field with the offset cut to whole hours |
| Dates.NCSAMonth | pkg/logger/accesslog/ncsa.go:142-180 | the month stands in its place by its English name |
| Dates.NCSAExactForWholeHours | pkg/logger/accesslog/ncsa.go:169-177 | the time is recovered exactly if and only if its offset is a whole number of hours |
| Strftimes.NewStrftimeBytes | pkg/util/strftime.go:21-46 | running the compiled format prints, at every time, what reading the format from left to right prescribes |
| Strftimes.AppendBytes | pkg/util/strftime.go:60-65 | the pieces' outputs in order behind the buffer |
| Strftimes.InterpretSplits | pkg/util/strftime.go:21-46 | a format can be cut anywhere but after a percent sign that waits for its directive |
| Strftimes.CutExactly | pkg/util/strftime.go:34-43 | output is the concatenation of the halves' outputs for every second half if and only if no percent sign is waiting |
| Strftimes.PercentUnknown | pkg/util/strftime.go:222-263 | a doubled percent sign is no directive and prints one percent sign |
| Strftimes.AbbreviatesDate | pkg/util/strftime.go:88-95 | %D prints what %m/%d/%y prints |
| Strftimes.AbbreviatesISODate | pkg/util/strftime.go:99-106 | %F prints what %Y-%m-%d prints |
| Strftimes.AbbreviatesHourMinute | pkg/util/strftime.go:153-158 | %R prints what %H:%M prints |
| Strftimes.AbbreviatesClock | pkg/util/strftime.go:165-172 | %T prints what %H:%M:%S prints |
| Strftimes.Hour12Exactly | pkg/util/strftime.go:110-116 | the hour is one of a 12-hour clock, and the right one, if and only if it is not midnight |
| Strftimes.TwelveHourExactly | pkg/util/strftime.go:110-129 | %I and %l print the clock's hour if and only if it is not midnight, and then 00 and a blank with 0 |
| StrftimeLaws.YearDirectives | pkg/util/strftime.go:82-219 | %C, %y, %g, %Y and %G print century, year of the century and year, with zeros to two and four places |
| StrftimeLaws.DayDirectives | pkg/util/strftime.go:85-134 | %m, %d and %e print month and day, with zeros or a blank to two places |
| StrftimeLaws.ClockDirectives | pkg/util/strftime.go:107-164 | %H, %k, %M and %S print hour, minute and second |
| StrftimeLaws.HalfDayDirectives | pkg/util/strftime.go:110-129 | %I and %l print the hour, less 12 in the afternoon |
| StrftimeLaws.ZoneDirective | pkg/util/strftime.go:208-219 | %z prints the sign, the whole hours and 00 |
| StrftimeLaws.CalendarDirectives | pkg/util/strftime.go:222-263 | the directives of the time library are exactly these 18 letters |
| StrftimeLaws.OtherCharacters | pkg/util/strftime.go:38-42 | after a percent sign every character that is no directive stands for itself |
| StrftimeLaws.FormatParses | pkg/util/strftime.go:21-65 | what %Y-%m-%dT%H:%M:%SZ prints parses back, by section 5.6 of RFC 3339, to the same date and clock |
| StrftimeLaws.AbbreviatesHalfDay | pkg/util/strftime.go:141-152 | %r prints what %I:%M:%S prints, a blank and the half of the day |
| JsonLog.AppendJSONString | pkg/logger/accesslog/json.go:31-60 | appends the escaped literal of any byte sequence |
| JsonLog.QuoteRoundTrip | pkg/logger/accesslog/json.go:28-60 | reading by section 7 of RFC 8259 recovers every byte sequence and exactly what follows its literal |
| JsonLog.QuoteHasNoControl | pkg/logger/accesslog/json.go:50-53 | no raw control byte appears in a literal |
| JsonLog.EscapesWritten | pkg/logger/accesslog/json.go:31-60 | the escapes byte for byte: the short forms, and lower-case hexadecimal digits for the other control bytes |
| JsonLog.CleanQuote | pkg/logger/accesslog/json.go:50-55 | bytes that need no escape stand for themselves |
| JsonLog.RawValueIsClean | pkg/logger/accesslog/json.go:129-138 | whatever follows, unescaped bytes between quotes are read as themselves only when they need no escape |
| JsonLog.RawReadBack | pkg/logger/accesslog/json.go:129-138 | bytes put between quotes unescaped are read back if and only if none is a quote, a backslash or a control byte |
| JsonLine.ObjectRoundTrip | pkg/logger/accesslog/json.go:142-195 | parsing a flat object of strings and numbers recovers keys and values in order |
| JsonLine.AppendJSONLog | pkg/logger/accesslog/json.go:144-195 | the appends produce the flat object of the 15 fields in the order of the schema, time and addresses between plain quotes, the client address taken from the header; a panic exactly for a negative number |
| JsonLine.ObjectReadBack | pkg/logger/accesslog/json.go:129-195 | an object some of whose strings are written unescaped is read back member by member if and only if none of them needs an escape |
| JsonLine.FieldsInOrder | pkg/logger/accesslog/json.go:142-195 | the 15 fields in order, key by key, each from the request's own value; the client is the peer, or the first entry of X-Forwarded-For without the blanks around it |
| JsonLine.LineRecoversFields | pkg/logger/accesslog/json.go:142-195 | parsing a line recovers all 15 fields if and only if printed time and peer address need no escape and the first X-Forwarded-For entry has no quote, backslash or control byte but TABs around it |
| JsonLine.TimeRecovered | pkg/logger/accesslog/json.go:145-146 | for years 0 to 9999 the time needs no escape and its field reads back up to whole minutes of its offset |
| JsonLine.AppendJSONClientIP | pkg/logger/accesslog/json.go:112-140 | appends, between plain quotes, the first entry of X-Forwarded-For without blanks around it, or the peer address without the header |
| JsonLine.ClientIpMeaning | pkg/logger/accesslog/json.go:114-130 | the client address is what lies between the blanks around the first entry, and nothing else is |
| JsonLine.OriginClean | pkg/logger/accesslog/json.go:114-137 | the client address needs no escape if and only if the entry has no quote, backslash or control byte but TABs around it, or without the header the peer address has none |
| Ltsv.AppendLTSVValue | pkg/logger/accesslog/ltsv.go:26-37 | appends the sanitised value |
| Ltsv.SanitiseMeaning | pkg/logger/accesslog/ltsv.go:23-37 | sanitising keeps the length and everything but TAB, LF and CR, leaves no TAB, LF or CR, is idempotent and keeps values that need nothing |
| Ltsv.AppendLTSVLog | pkg/logger/accesslog/ltsv.go:64-111 | the appends produce the labelled fields joined by TABs; a panic exactly for a negative number |
| Ltsv.FirstFieldsInOrder | pkg/logger/accesslog/ltsv.go:64-89 | time, host, forwardedfor, user, req, scheme and vhost, in order, each from the request's own value with spaces for TABs and breaks |
| Ltsv.LaterFieldsInOrder | pkg/logger/accesslog/ltsv.go:91-111 | status, sizes, duration, referer and ua, in order, each from the request's own value |
| Ltsv.LineRecoversFields | pkg/logger/accesslog/ltsv.go:52-111 | splitting a line at TABs gives the 13 labels in order and cutting at the first colon recovers each value, whatever the request held, if and only if printed time and peer address hold no TAB |
| Ltsv.ISOOneField | pkg/logger/accesslog/ltsv.go:65-66 | for years 0 to 9999 the printed time holds no TAB or line break |
| Ltsv.LineIsOneLine | pkg/logger/accesslog/ltsv.go:23-37 | no request can put a line break into a line |
| AccessLogs.AccessLog.constructor | pkg/logger/accesslog/accesslog.go:71-87 | empty buffer of the configured size, 4096 when that is not positive |
| AccessLogs.AccessLog.Flush | pkg/logger/accesslog/accesslog.go:157-160 | all buffered bytes move to the sink |
| AccessLogs.AccessLog.BufferedWrite | pkg/logger/accesslog/accesslog.go:176-178 | a write fills and flushes the buffer, or bypasses it when empty, as the buffered writer does at every size |
| AccessLogs.AccessLog.Log | pkg/logger/accesslog/accesslog.go:165-182 | writes the line and its break, nothing after close |
| AccessLogs.AccessLog.Rotate | pkg/logger/accesslog/accesslog.go:102-111 | flushes, then starts a new segment |
| AccessLogs.AccessLog.Close | pkg/logger/accesslog/accesslog.go:119-140 | flushes, refuses later lines, detaches the rotator and closes it; a second close does nothing |
| AccessLogs.BufWriteConserves | pkg/logger/accesslog/accesslog.go:176-178 | no byte is lost, doubled or reordered between sink and buffer |
| AccessLogs.BufferedLogRefines | pkg/logger/accesslog/accesslog.go:102-182 | at every buffer size and over every run, each finished segment holds exactly the whole lines an unbuffered log would have put there, if and only if no shared rotation of an open log meets a buffered byte |
| AccessLogs.OwnRotationsQuiet | pkg/logger/accesslog/accesslog.go:102-111 | the log's own rotations never do |
| AccessLogs.SharedRotationRefines | pkg/logger/rotator.go:102-111 | one shared rotation keeps segments and lines together if and only if the buffer is empty |
| AccessLogs.LogConserves | pkg/logger/accesslog/accesslog.go:102-182 | in every run the bytes in the sink followed by those buffered are the accepted lines in lock order |
| AccessLogs.LogReadsBack | pkg/logger/accesslog/accesslog.go:165-178 | lines without breaks are recovered by splitting |
| AccessLogs.NothingBufferedAfterClose | pkg/logger/accesslog/accesslog.go:119-182 | after a close nothing is buffered, at any buffer size, if and only if every line written since by a Log under way has been followed by a flush |
| AccessLogs.BufferedAfterCloseExactly | pkg/logger/accesslog/accesslog.go:119-182 | at each single buffer size: after a close nothing is buffered, if and only if the last line written since, when there is one, went past the buffer or was flushed later |
| AccessLogs.BypassExactly | pkg/logger/accesslog/accesslog.go:176-178 | a line goes past the buffer if and only if, with its break, it is longer than the buffer plus what is left of one in use |
| AccessLogs.LateLineStaysBuffered | pkg/logger/accesslog/accesslog.go:165-178 | an instance: a Log that passed its check before Close leaves a line that fits the buffer there |
| AccessLogs.SegmentsWholeExactly | pkg/logger/rotator.go:102-111 | at every buffer size and over every run, all segments consist of whole lines, if and only if the buffer that any shared rotation of an open log meets consists of whole lines |
| AccessLogs.SegmentIsLines | pkg/logger/rotator.go:102-111 | and then each segment is a stretch of the accepted lines |
| AccessLogs.SharedRotationCutsLine | pkg/logger/rotator.go:102-111 | an instance where it is not: the first segment ends inside a line |
| LogStreams.StreamSplits | pkg/logger/accesslog/accesslog.go:165-182 | splitting sink and buffer at line breaks recovers the logged lines of every run |
| LogStreams.JsonLogRecovers | pkg/logger/accesslog/json.go:142-195 | end to end: over every run, splitting what was written and parsing the pieces recovers the fields of every logged record in order |
| LogStreams.LtsvLogRecovers | pkg/logger/accesslog/ltsv.go:52-111 | the same for LTSV, whatever bytes the requests held |
| Balancers.NewProxyBalancer | pkg/handler/proxy.go:49-73 | set up if and only if there is a URL, the algorithm is known and every URL parses; otherwise the first of these errors |
| Balancers.ProxyBalancer.constructor | pkg/handler/proxy.go:56-72 | all backends alive and the counter at zero |
| Balancers.ProxyBalancer.Pick | pkg/handler/proxy.go:77-98 | the first backend seen alive from the start, nil when none is seen; round robin moves the 64-bit counter on by one |
| Balancers.ProxyBalancer.CheckHealth | pkg/handler/proxy.go:146-160 | after a tick every backend is alive if and only if its own request succeeded |
| Balancers.ChosenFrom | pkg/handler/proxy.go:91-96 | an alive backend is chosen from exactly the starts in the run of dead backends before it or on itself, when no sum wraps or n divides 2^64 |
| Balancers.NilWhenAllDead | pkg/handler/proxy.go:91-97 | nil if and only if no backend is alive, when no sum wraps or n divides 2^64 |
| Balancers.PicksSnoc | pkg/handler/proxy.go:88-97 | the last of k picks one after the other scans from the counter those before it have left |
| Balancers.FairShare | pkg/handler/proxy.go:88-97 | with liveness fixed, any n consecutive picks choose an alive backend exactly 1 + (dead backends just before it, cyclically) times, when no sum reaches 2^64, and through every wrap when n divides 2^64 |
| Balancers.CoverageExactly | pkg/handler/proxy.go:91-97 | a scan from this start sees every backend if and only if no sum in it wraps or n divides 2^64 |
| Balancers.CoverageIffDivisor | pkg/handler/proxy.go:88-97 | scans cover all backends at every counter value if and only if their number divides 2^64 |
| Balancers.PickChooses | pkg/handler/proxy.go:77-98 | a pick chooses the first living backend from the counter, the draw or the client's hash on, counted round |
| Balancers.HashPicks | pkg/handler/proxy.go:86-87 | with all backends alive hash h always gets backend h modulo their number, and the counter stays |
| Balancers.RoundRobinPicks | pkg/handler/proxy.go:88-97 | the k-th pick of a new balancer gets backend k modulo their number |
| Includes.RemainingShrinks | pkg/config/load.go:32-39 | every nested load leaves strictly fewer files that are not on the chain |
| Includes.LoadTreeMapsPath | pkg/config/load.go:27-40 | the recursion ends for every finite store and computes the expansion, with the source's errors in its order |
| Includes.ExpandIncludes | pkg/config/load.go:58-79 | the two loops concatenate plain documents and sub-expansions and stop at the first error |
| Includes.FailureHasChain | pkg/config/load.go:27-79 | a failed load exhibits an include chain that revisits a file or ends in one that is missing, does not decode or has a pattern that leads nowhere |
| Includes.ChainFails | pkg/config/load.go:27-79 | every such chain makes the load fail |
| Includes.LoadsExactly | pkg/config/load.go:27-79 | a load succeeds if and only if the root has an absolute form and along every include chain from it all files exist and decode, all patterns glob, all matches have absolute forms and no file is revisited |
| Includes.FirstFaultReported | pkg/config/load.go:27-79 | a failed load reports the first fault in left-to-right depth-first order, a successful one has none |
| Includes.CircularExactly | pkg/config/load.go:27-79 | when every file loads, expansion fails, as circular, if and only if some include chain from the root revisits an absolute path |
| Includes.LoadFlattens | pkg/config/load.go:58-79 | a successful load equals the flattening that keeps no chain |
| Includes.LoadedInOrder | pkg/config/load.go:23-79 | on success the plain documents, and only those, in left-to-right depth-first order |
| ErrorPage.SearchIsFirst | pkg/handler/errorpages.go:64-82 | the page with the fewest digits replaced from the right, none if and only if no pattern has a page |
| ErrorPage.StepKeepsTable | pkg/handler/errorpages.go:47-113 | each request leaves every entry unset, the search's answer, or the dash of a page that failed for a request with that status |
| ErrorPage.StepAgrees | pkg/handler/errorpages.go:47-113 | a request after any history gets the status, body and content type of an un-memoised search, when pages that fail for one request look like the default page to the others |
| ErrorPage.TableStaysOk | pkg/handler/errorpages.go:47-113 | after every history of requests the table is of that form |
| ErrorPage.MemoIsInvisible | pkg/handler/errorpages.go:47-113 | the memo table cannot be seen after any history in status, body or content type, if and only if a page that fails for one request shows like the default page to every other with that status |
| ErrorPage.FixedPagesAreSteady | pkg/handler/errorpages.go:84-113 | that is so when the file handler succeeds or fails by the path alone |
| ErrorPage.ServeKeepsStatus | pkg/handler/errorpages.go:94-104 | showing a page changes the response alone and never its status |
| ErrorPage.ErrorPages.constructor | pkg/handler/errorpages.go:29-45 | 200 unset entries |
| ErrorPage.ErrorPages.Handle | pkg/handler/errorpages.go:47-62 | one step of the memo table's history: response and entry as specified, the request with its URI unchanged, and under that condition what the un-memoised search shows |
| ErrorPage.ErrorPages.HandleStatus | pkg/handler/errorpages.go:64-82 | overwriting digits by x from the right finds the search's page and stores the outcome |
| ErrorPage.ErrorPages.SendError | pkg/handler/errorpages.go:84-113 | the page with the original status and URI, or the default page and a dash in the table when it fails |
| ErrorPage.ErrorPages.SendDefaultError | pkg/handler/errorpages.go:129-148 | an existing body is kept, otherwise status and status text as HTML |
| PageLaws.PageIsShown | pkg/handler/errorpages.go:47-113 | with a file handler that goes by the URI, after every history: the body and content type of the page of the first pattern that has one, under the original status, or the default page when the page fails |
| PageLaws.DefaultIsShown | pkg/handler/errorpages.go:111-148 | without a page: the default page, written out, unless there is a body |
| PageLaws.FirstRequestShown | pkg/handler/errorpages.go:84-113 | for every file handler, the first request with its status is shown the handler's answer to the same request for the page |
| PageLaws.OthersPass | pkg/handler/errorpages.go:47-55 | other statuses than 400 to 599 are passed on and leave no trace |
| Server.MakeAll | pkg/handler/server.go:157-177 | instances exist for exactly the configured names, if and only if every one can be built |
| Server.Init | pkg/handler/server.go:145-185 | after a successful set-up every name in the route table is a key of the maps |
| Server.AskFiltersInOrder | pkg/handler/server.go:224-229 | the filters are asked in order, and the first refusal is the last question |
| Server.AnswerFiltersInOrder | pkg/handler/server.go:244-248 | the response sides run in the same order and stop at the first refusal |
| Server.EventsInOrder | pkg/handler/server.go:220-249 | all filters accept before the one main step, error pages follow it, response filters come last, nothing but error pages follows a refusal, and nothing is cut short |
| Server.AnswerResolvable | pkg/handler/server.go:224-240 | map lookups by the names of a routing result never miss |
| Server.NeverNotActionable | pkg/handler/server.go:234-242 | the last branch, neither redirect, status nor handler, is never reached |
| RequestLaws.HandleMeaning | pkg/handler/server.go:220-249 | the first filter gets the request under its rewritten URI, with the query string when asked for, each further one what the one before it left; a refusal goes to the error pages; otherwise redirect, status or handler get the last filter's context, and error pages and response filters what these leave |
| RequestLaws.HandlerSeesRewrite | pkg/handler/server.go:221-223 | a handler that copies the URI it sees shows the rewritten one, with a question mark or an ampersand before the query string |
| RequestLaws.RetryStartsAfresh | pkg/handler/server.go:207-213 | a retry gets the request as the attempt before it left it, and an empty response |
| RequestLaws.AttemptsRoute | pkg/handler/server.go:201-206 | every attempt routes the method and URI it finds from its offset on and handles the answer |
| Server.RunsAgree | pkg/handler/server.go:198-218 | the request determines the run |
| Server.ResumesBehind | pkg/handler/server.go:204-213 | counted from the table's start, every retry resumes right behind the route that answered, which has nextIfNotFound |
| Server.FromStartTerminates | pkg/handler/server.go:198-218 | counted from the table's start, a run makes at most one attempt more than there are routes |
| Server.AsWrittenStopsAfterTwo | pkg/handler/server.go:198-218 | as written, at most two attempts when no route of the first half has nextIfNotFound |
| Server.AsWrittenMayRepeat | pkg/handler/server.go:198-218 | as written, for all flags with one in the first half, a table with these flags has handlers and a request with runs of every length |
| Server.FlagsBoundAsWritten | pkg/handler/server.go:198-218 | as written, with any library, all tables with given flags make at most two attempts, if and only if no flag is in the first half |
| RetryWalks.RetryIsHop | pkg/handler/server.go:207-213 | every retry as written is a hop of the table: the route at offset + index decides, involves a filter or calls a handler without redirect, and the route at the index passes 404 on |
| RetryWalks.AsWrittenRunsAreWalks | pkg/handler/server.go:198-218 | as written, with any library, a table allows a run of n + 1 attempts, for some filters, handlers and request, if and only if it has a walk of n hops |
| RetryWalks.AsWrittenTerminatesExactly | pkg/handler/server.go:198-218 | as written, with any library, a table never makes more than two attempts, whatever its filters, handlers and requests, if and only if no hop from the start is followed by another |
| RetryWalks.AsWrittenEndsExactly | pkg/handler/server.go:198-218 | as written, with any library, some filters, handlers and request make the loop go on for ever, if and only if a walk of hops comes back to an offset |
| RetryWalks.AcyclicEnds | pkg/handler/server.go:198-218 | otherwise every run makes at most one attempt more than there are routes |
| RetryWalks.NoRetryAfterEnough | pkg/handler/server.go:207-215 | a run that has made enough turns does not retry again: more than there are routes, counted from the table's start, and as written as many as no walk of hops has |
| RetryWalks.EnoughExactly | pkg/handler/server.go:198-218 | as written, with any library, so many turns always suffice, if and only if no walk has so many hops |
| RetryWalks.EnoughWhenAcyclic | pkg/handler/server.go:198-218 | some number of turns always suffices, if and only if no walk comes back to an offset, and then every number above that of the routes does |
| RetryWalks.TwoEnough | pkg/handler/server.go:198-218 | two turns suffice if and only if no hop from the start is followed by another, as when no flag is in the first half |
| Server.RefusalRetried | pkg/handler/server.go:207-215 | after a refusal the loop goes on if and only if the filter left 404, the result was not 404 and the route passes 404 on |
| Server.HandlersAreGuarded | pkg/handler/server.go:198-240 | a handler runs only for the route that answered and after every filter of every route matched in that attempt accepted in order; so did those of all earlier attempts if and only if none was refused with 404 |
| Server.PoliteFiltersGuard | pkg/handler/server.go:198-240 | with filters that never refuse with 404, every filter of every attempt up to a handler call has accepted |
| Server.RefusedThenHandled | pkg/handler/server.go:207-229 | with any library, for every filter and context it refuses with 404 there is a table in which a later route's handler is called after the refusal |
| Server.GuardedExactly | pkg/handler/server.go:198-240 | with any library, a set of filters guards the handlers in every table and for every request, if and only if none of them can refuse a context with 404 |
| Handling.HostHandler.HandleRouteResult | pkg/handler/server.go:220-249 | the steps on context and error pages, with exactly the specified events |
| Handling.HostHandler.Ask | pkg/handler/server.go:224-229 | the loop over the request sides threads the context and stops at the first refusal |
| Handling.HostHandler.Answer | pkg/handler/server.go:244-248 | the loop over the response sides threads the context and stops at the first refusal |
| Handling.HostHandler.Turn | pkg/handler/server.go:201-216 | one turn of the loop: route answer, its handling, the index put into off and the decision to go round again |
| Handling.HostHandler.Loop | pkg/handler/server.go:200-217 | the turns are a run of the request, and the loop ends at the first attempt that does not retry |
| Handling.HostHandler.Handle | pkg/handler/server.go:198-218 | the URI is collected, the loop runs, and one line about the final context is logged; it ends when the limit on turns is enough, which as written any limit above the number of routes is for every table without a cycle |

## Left out

- CacheKeys: hash collisions; the key is the bytes fed to the hash.
- Interleaving: data races finer than its steps; each cache operation, each route search, each assignment of a copy, each reset and each Put is one step.
- Interleaving: `Del`, which the routes never call, is modelled for the cache alone.
- RouteObjects.Routes.CachedRoute: speaks of a caller that is not interrupted; what holds under interleaving is stated by `RouteCache`.
- Handling.HostHandler.Handle: takes a limit on the number of turns, because the loop as written need not end; it calls the route answer directly, which `RouteCache.CachedRouteIsRoute` justifies for calls within the lease.
- Handling.HostHandler.Handle: requests are handled one after the other, and the line that is logged is a given function of the context.
- `HandleError` and virtual-host lookup.
- ErrorPage.ErrorPages.Handle: the file handler is a given function of the context, and requests to the error pages come one after the other.
- Balancers.ProxyBalancer.Pick: liveness does not change during one scan.
- JsonLine.AppendJSONLog: the printed forms of the peer address, with and without port, are given byte strings.
- Digits.AppendPaddingUint: the panics on negative numbers and on padding above 20 are the precondition.
- Dates.AppendISOTime: years before 0.
- Dates.AppendNCSADate: years before 0.
- Strftimes.NewStrftimeBytes: week numbers, names of days and months, epoch seconds and the zone name are given functions of directive and time.
- AccessLogs.AccessLog.Close: the sink is free of errors, so a flush after the close still reaches it.
- The NCSA token closures, the compilation of NCSA formats by regular expression, and the NCSA request line.
- Schema validation, edit expressions and YAML decoding of configuration; decoded documents are given.
- Networking, TLS, certificates, signals, shutdown, command-line handling, static files and reverse proxying.
- The counting of shared rotators, and the basic-auth, header and content components.
