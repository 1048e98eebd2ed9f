# Load tester and benchmark servers, modelled in Dafny

This project models the logic inside a small benchmark of web servers that
all answer `GET /api/test1` with the rows of one PostgreSQL query.

**The load tester** (`infra/test.py`, module `LoadTest`, with `Statistics`)
- Validates its parameters and derives the HTTP client's pool limits.
- Records each request as one signed latency: positive for a success, negated for a failure.
- Splits the results into success and error latencies and counts them.
- Stops when nothing succeeded. Otherwise it reports mean, median, the 90th, 95th and 99th percentiles, min, max and requests per second.
- The network and the clock are inputs:
  - `outcome(i)` says how the i-th request ended and how long it took;
  - `totalTime` is the measured wall-clock time.
- The statistics follow numpy's definitions over exact reals:
  - the percentile interpolates linearly at rank p/100·(k−1) of the sorted sample;
  - the median is the mean of the middle element(s).

**The C++ server** (`cpp/main.cpp`, module `CppServer`)
- Builds the libpq connection string from the environment.
- Turns each row into a JSON record (`DataModel::toJson`).
- Its result callback appends the records one by one to a jsoncpp value that starts out null. This is modelled as a method with a loop.
- A database error becomes status 500 with body "Database error".
- With zero rows the jsoncpp value is never appended to, so the body is JSON `null`, not `[]`. The model states this.

**The Rust server** (`rust/src/main.rs`, module `RustServer`)
- Formats a `postgres://` URL. A missing DB_USER, DB_PASSWORD or DB_NAME stops it with the message of the first `expect` that fails.
- Maps the rows to records in order. A query error gives an empty list.

**The Go server** (`go/main.go`, module `GoServer`)
- Formats a keyword/value DSN in which unset variables are empty and sslmode defaults to "disable".
- Answers with the rows, or with status 500 and `{"error": message}`.
- With zero rows the `results` slice stays nil and is written as JSON `null`, as in the C++ server.

**Shared modules**
- `Backend`: rows, query results, JSON values and responses. It also has `DecodeRecord`/`DecodeRecords`: how a client reads the records back into rows. This is the partner every handler is proved against.
- `Conninfo`: the keyword/value connection-string syntax that PostgreSQL clients read, modelled on libpq's parser:
  - blanks separate settings and are skipped after '=';
  - values are bare or single-quoted;
  - a backslash takes the next character.

  The C++ and Go strings are proved against this reader. pgx, the reader behind the Go driver, agrees with it on everything the lemmas use: blank skipping after '=', bare values without backslashes, and quoted values.

## Model

| member | source | states |
|---|---|---|
| `LoadTest.Validate` | infra/test.py:35-36 | the run is accepted exactly when both counts are positive; otherwise ValueError; an accepted run keeps the given values |
| `LoadTest.ClientLimits` | infra/test.py:39 | keep-alive connections = max_concurrent, connections = 2·max_concurrent, so 0 < keep-alive < connections |
| `LoadTest.Encode` | infra/test.py:17-22 | a success is reported as a non-negative number, a failure as a non-positive one, and the magnitude is the latency |
| `LoadTest.Gather` | infra/test.py:44-48 | exactly one result per task, the i-th being task i's encoded outcome |
| `LoadTest.Partition` | infra/test.py:53-56 | the two lists are the positive results and the negated negative results, both strictly positive; success_count + errors_count = len(results); errors_count = len(error_times) + the number of zero results |
| `LoadTest.PartitionCounts` | infra/test.py:53-56 | every result is a success, an error or a zero: the three counts add up to len(results) |
| `LoadTest.SplitPositive` | infra/test.py:53-54 | every success time and every error time is strictly positive |
| `LoadTest.SuccessTimes` | infra/test.py:53 | the success comprehension; no contract of its own: `SplitPositive`, `SuccessTimesExact` and `SuccessTimesAppend` state what it keeps |
| `LoadTest.ErrorTimes` | infra/test.py:54 | the negating error comprehension; no contract of its own: `SplitPositive`, `ErrorTimesExact` and `ErrorTimesAppend` state what it keeps |
| `LoadTest.SuccessTimesExact` | infra/test.py:53 | success_times holds each positive value exactly as often as the results do, and no other value |
| `LoadTest.ErrorTimesExact` | infra/test.py:54 | error_times holds x exactly as often as the results hold −x, for positive x only |
| `LoadTest.SuccessTimesAppend` | infra/test.py:53 | the success filter keeps order: it distributes over concatenation |
| `LoadTest.ErrorTimesAppend` | infra/test.py:54 | the error filter keeps order: it distributes over concatenation |
| `LoadTest.GatherSplit` | infra/test.py:44-54 | reading the signs back recovers, in task order, the latencies of the tasks that succeeded and of those that failed (after a positive time) |
| `LoadTest.ZeroTimeSuccessCountsAsError` | infra/test.py:53-56 | adding a success in zero time to any results adds one to errors_count and leaves success_times, error_times and success_count unchanged |
| `LoadTest.Benchmark` | infra/test.py:35-73 | ValueError exactly for bad parameters; the report keeps the url and total_time it was given; counts add up to n_requests and success_count = len(success_times); lists are the succeeded/failed latencies; limits (c, 2c); no statistics exactly when nothing succeeded; otherwise the latency figures are `Statistics.Describe` of success_times, min and max are success times, min ≤ mean ≤ max, rps = success_count / total_time; ZeroDivisionError exactly when something succeeded and total_time is 0 |
| `Statistics.Sort` | infra/test.py:65-68 | the sorted sample numpy ranks is ordered and a permutation of the sample |
| `Statistics.Min` | infra/test.py:69 | the minimum is an element of the sample and at most every element |
| `Statistics.Max` | infra/test.py:70 | the maximum is an element of the sample and at least every element |
| `Statistics.Mean` | infra/test.py:64 | np.mean as sum over count; no contract of its own: `MeanBetweenMinMax` and `OneToTenMedianAndMean` state its properties |
| `Statistics.Median` | infra/test.py:65 | np.median as the middle of the sorted sample; no contract of its own: `MedianIsPercentile50` ties it to the 50th percentile |
| `Statistics.AtRank` | infra/test.py:66-68 | numpy's linear interpolation at a fractional rank of the sorted sample; no contract of its own: `PercentileBounds` and `PercentileMonotone` state its properties |
| `Statistics.Percentile` | infra/test.py:66-68 | np.percentile with the linear method; no contract of its own: `PercentileBounds`, `PercentileMonotone` and `OneToTenPercentiles` state its properties |
| `Statistics.MeanBetweenMinMax` | infra/test.py:64-70 | min ≤ mean ≤ max |
| `Statistics.Rank` | infra/test.py:66-68 | the interpolation rank p/100·(k−1) lies in [0, k−1] for p in [0, 100] |
| `Statistics.PercentileBounds` | infra/test.py:66-70 | every percentile lies between min and max |
| `Statistics.PercentileMonotone` | infra/test.py:66-68 | percentiles do not decrease with p, so p90 ≤ p95 ≤ p99 |
| `Statistics.MedianIsPercentile50` | infra/test.py:65-66 | the median is the 50th percentile |
| `Statistics.OneToTenPercentiles` | infra/test.py:66-68 | on the sample 1..10 the 90th, 95th and 99th percentiles are 9.1, 9.55 and 9.91 (numpy's values) |
| `Statistics.OneToTenMedianAndMean` | infra/test.py:64-65 | on the sample 1..10 the median and the mean are 5.5 |
| `Statistics.Describe` | infra/test.py:63-70 | the seven figures are `Mean`, `Median`, `Percentile` at 90, 95 and 99, `Min` and `Max` of the sample; min and max are elements of the sample and bound it; min ≤ mean ≤ max; min ≤ median ≤ p90 ≤ p95 ≤ p99 ≤ max |
| `CppServer.GetenvOr` | cpp/main.cpp:81-85 | a set variable verbatim, an unset one as the fallback |
| `CppServer.ConnString` | cpp/main.cpp:88-92 | the concatenation as written; no contract of its own: `ConnStringIsRender` and the read-back lemmas state what it means to the driver |
| `CppServer.ConnStringIsRender` | cpp/main.cpp:81-92 | the concatenated string is the five settings host, port, dbname, user, password written `k=v` and separated by single blanks, with the getenv values or their defaults |
| `CppServer.ConnStringReadBack` | cpp/main.cpp:81-92 | with bare values the driver reads back the five settings in order; a missing DB_IP gives "localhost", a missing DB_PORT "5432", a missing DB_PASSWORD "" (it is written last, so nothing follows it), present values are kept verbatim |
| `CppServer.ConnStringWithoutDbName` | cpp/main.cpp:85-92 | with DB_NAME unset or set to "", the driver reads dbname as "user=<DB_USER>" and gets no user setting; host, port and password (unset or not) are read as intended |
| `CppServer.ConnStringWithoutUser` | cpp/main.cpp:81-92 | with DB_USER unset or set to "", the driver reads user as "password=<DB_PASSWORD>" ("password=" when DB_PASSWORD is unset) and gets no password setting |
| `CppServer.ConnStringWithEmptyHost` | cpp/main.cpp:81-92 | with DB_IP set to "", the driver reads host as "port=<DB_PORT or 5432>" and gets no port setting |
| `CppServer.QuotedConnStringReadBack` | cpp/main.cpp:81-92 | with every value quoted, the driver reads back the five intended settings for any environment, empty defaults included |
| `CppServer.DataModel.ToJson` | cpp/main.cpp:14-27 | an object with exactly the keys field1 and field2 that decodes to the same row |
| `CppServer.Append` | cpp/main.cpp:55 | jsoncpp's append: null becomes a one-element array, an array grows by one at the end, earlier elements unchanged |
| `CppServer.RowsResponse` | cpp/main.cpp:47-59 | status 200 with a JSON body; no rows gives null; otherwise an array that decodes to the rows, in order |
| `CppServer.GetData` | cpp/main.cpp:45-71 | a database error gives status 500 with the text "Database error"; rows give the response above |
| `RustServer.DbUrl` | rust/src/main.rs:77-84 | a URL exactly when DB_USER, DB_PASSWORD and DB_NAME are set; otherwise the message for the first missing one, in argument order; a URL starts with "postgres://" |
| `RustServer.DbUrlRoundTrip` | rust/src/main.rs:77-84 | taking the URL apart gives back user, password, DB_IP or "localhost", DB_PORT or "5432", and the database name, when none of those five values holds a delimiter it would displace or a '%', '?' or '#' |
| `RustServer.Serialize` | rust/src/main.rs:26-30 | a record decodes to the row it was made from |
| `RustServer.ToData` | rust/src/main.rs:51-57 | one record per row, same length and order, fields unchanged |
| `RustServer.Test1` | rust/src/main.rs:37-57 | a query error gives no records; otherwise the records are the rows in order |
| `RustServer.Test1Response` | rust/src/main.rs:34-61 | always status 200 with a JSON array, which decodes to the rows (to nothing after an error) |
| `GoServer.Getenv` | go/main.go:31-35 | an unset variable reads as the empty string; a set one verbatim |
| `GoServer.Sslmode` | go/main.go:36-40 | never empty: a non-empty DB_SSLMODE verbatim, otherwise "disable" |
| `GoServer.Dsn` | go/main.go:42-45 | the `Sprintf` output as written; no contract of its own: `DsnIsRender` and the read-back lemmas state what it means to the driver |
| `GoServer.DsnIsRender` | go/main.go:42-45 | the DSN is the six settings host, user, password, dbname, port, sslmode written `k=v` and separated by single blanks, with no defaults besides sslmode |
| `GoServer.DsnReadBack` | go/main.go:31-45 | with bare values the driver reads back the six settings in order, sslmode "disable" when unset or empty |
| `GoServer.DsnWithoutHost` | go/main.go:31-45 | with DB_IP unset or set to "", the driver reads host as "user=<DB_USER>" and gets no user setting |
| `GoServer.QuotedDsnReadBack` | go/main.go:31-45 | with every value quoted, the driver reads back the six intended settings for any environment |
| `GoServer.Marshal` | go/main.go:18-21 | a record decodes to the row it was made from |
| `GoServer.GetTestData` | go/main.go:57-69 | a query error gives status 500 with `{"error": message}`; otherwise status 200: no rows give null, other rows an array that decodes to them, in order |

## Findings

| source | as written | input that shows it | evidently intended | confidence | as-written member | corrected member |
|---|---|---|---|---|---|---|
| cpp/main.cpp:81-92 | a DB_NAME or DB_USER that is unset or empty, or a DB_IP or DB_PORT set to "", is written as an empty bare value, `dbname= user=...`, `user= password=...` or `host= port=...` | DB_NAME unset, DB_USER=bench: the driver reads dbname "user=bench" and no user (`CppServer.ConnStringWithoutUser`: DB_USER unset, DB_PASSWORD=pw gives user "password=pw" and no password; `CppServer.ConnStringWithEmptyHost`: DB_IP="" gives host "port=5432" and no port) | an unset name reaches the driver as empty; quoting every value does this | medium (libpq skips blanks after '='); not executed | `CppServer.ConnStringWithoutDbName` | `CppServer.QuotedConnStringReadBack` |
| go/main.go:31-45 | an unset DB_IP (or any unset variable) is written as an empty bare value, `host= user=...` | DB_IP unset, DB_USER=bench: the driver reads host "user=bench" and no user | an unset host reaches the driver as empty; quoting every value does this | medium (pgx, like libpq, skips blanks after '='); not executed | `GoServer.DsnWithoutHost` | `GoServer.QuotedDsnReadBack` |

## Left out

- The semaphore, `asyncio.gather` scheduling and the client's lifetime (infra/test.py:14, 38, 43-48): concurrency. The model takes each task's outcome as an input.
- The HTTP requests, `raise_for_status` and the timeouts: network I/O. Whether a request succeeded is part of the input.
- `time.perf_counter`: clock I/O. Latencies and the total time are non-negative real inputs.
- IEEE floating point: the statistics are computed over exact reals. numpy's rounding is not modelled.
- All printing and the argparse command line.
- Reading the environment: getenv, `std::env::var`, `os.Getenv`, `.env` files. The environment is a map input.
- `std::env::var` also fails on a value that is not valid Unicode. Strings here are always valid, so that error is not modelled.
- The server frameworks: listeners, worker threads, routing, logging, timing and shutdown.
- The SQL query and its `field2 > 995` filter, which PostgreSQL runs. A query result is an input.
- How the drivers validate keywords and open connections. `Conninfo.Parse` reads settings and does not check keywords or values.
- How sqlx reads a URL: percent-decoding, query parameters and bracketed IPv6 hosts are not modelled. `RustServer.ParseDbUrl` splits at the delimiters the formatted URL uses.
- RustServer.DbUrlRoundTrip: the URL reader it is proved against accepts inputs the real one treats differently, so the round trip is not promised for them. Among them: an empty DB_IP, which is refused as an empty host; a DB_IP holding a character a host may not contain (a blank, '<', '>', '[', ']', '^', '|' or '\'); an empty DB_PORT, for which sqlx uses 5432; a DB_PORT that is not all digits or is above 65535, which is refused as an invalid port; a DB_NAME with a leading '/' or with "." or ".." path segments, which URL path normalisation changes; and an empty user, password or database name, which sqlx takes as unset.
- gorm is not part of this model. `GoServer.GetTestData` takes from it that `Scan` leaves `results` nil when the query returns no rows, so the body is `null`.
- The Python and JavaScript servers (python/main.py, js/main.js): they pass rows through without logic of their own.
- infra/env_config.py, infra/models.py, infra/fill_db.py and infra/analyze.py: settings loading, ORM declarations, random inserts and one SQL query.
