# Service-metrics collector and response capture, in Dafny

This project models the two pieces of logic at the heart of a metrics agent
that is a fork of the Prometheus node exporter.

- **The "svr" collector** (`collector/service.go`). It classifies the
  configured location as `FILE`, `HTTP` or `NONE`. A `FILE` is run as a
  program and its standard output is read as `name value` lines. An `HTTP`
  location is fetched. Its body goes through the JSON branch whenever
  `json.Unmarshal` accepts it; the text `null` counts and gives an empty
  object. Any other body is read as `name value` lines. Either way the collector fills a
  map from metric name to float64. `Update` then emits one gauge per entry,
  named `<namespace>_svr_<name>`, or emits nothing and returns an error.
- **The response capture shim** (`custom_http_responsewriter.go`). The push
  path hands this in-memory `ResponseWriterDelegate` to the normal metrics
  handler. It creates its header map lazily and records the status code. It
  appends every `Write` to a string body.

Files:

- `wrappers.dfy`: `Option`, which stands for Go's nil-able results.
- `text.dfy`: `strings.Split` with a one-character separator, and the lines
  that a `bufio.Scanner` yields with its default line splitter. Both come
  with round-trip lemmas.
- `service.dfy`: the collector. The outside world is an `Env` value of
  oracles: `os.Stat`, `url.Parse`, running the program, `http.Get` with
  reading the body, `json.Unmarshal` and `strconv.ParseFloat`. Each
  ingestion routine is a method with the source's loop. Each is proved equal
  to a specification function (`ByShell`, `ByHttp`, `SvrInfo`), and the
  properties are proved as lemmas about those functions. `Update` iterates
  over the map's keys in an order it picks nondeterministically, as Go's
  `range` over a map does.
- `response_writer.dfy`: the shim as a class whose methods update its fields
  in place. A ghost history of writes shows that the body is always the
  concatenation of the writes, in order.

Where the code and the system's documented intent differ, the model follows
the code:

- A JSON number is dropped, not stored. The `case float64:` arm has an empty
  body, and Go `switch` cases do not fall through. A decoded JSON number is
  never an `int`, so the `case int:` arm is never reached.
- The JSON branch returns the error of the *last* string conversion in
  iteration order. A later successful conversion clears an earlier failure.
- The line grammars do not skip blank lines. A blank line panics the program
  path and is `invalid metrics` on the HTTP path.
- The program path has no field-count check. Extra fields are ignored, and a
  line without a space panics when it indexes field 1.
- An HTTP response with a non-2xx status is parsed like any other. Only a
  transport or read failure from the fetch is an error.

## Model

| member | source | states |
|---|---|---|
| `Service.CheckPathType` | collector/service.go:52-63 | A location that exists is `FILE` whether or not it parses as a URL. Otherwise it is `HTTP` exactly when it parses as a URL, else `NONE`. |
| `Service.ExistingFileWins` | collector/service.go:143-145 | An existing location is always read by running it, even when it is also a valid URL. |
| `Service.UnsupportedLocation` | collector/service.go:139-151 | A location that neither exists nor parses as a URL fails with the text `"Unsupported path:" + path` and leaves the map empty. |
| `Service.GetSvrInfo` | collector/service.go:139-151 | Starts from an empty map and dispatches on the location's class. The result equals `SvrInfo`. |
| `Service.GetSvrInfoByShell` | collector/service.go:65-86 | If the run fails, returns its error and leaves the map untouched. Otherwise the line loop ends exactly as `ByShell` says, with the map's contents and the status. |
| `Service.GetSvrInfoByHttp` | collector/service.go:88-137 | A fetch failure is returned as is. A body that `json.Unmarshal` accepts, including `null` (an empty object), goes through the JSON loop. A body it rejects goes through the strict line loop. The result equals `ByHttp`. |
| `Service.ScanAccepts` | collector/service.go:121-131 | Either line loop succeeds exactly when every line has acceptable fields and converts without error. The program path needs at least 2 fields and the HTTP path exactly 2. The map then holds every line's `field0 -> ParseFloat(field1)` write, in order, so a later duplicate name overwrites an earlier one. |
| `Service.ScanStopsAtFirstBadLine` | collector/service.go:76-83 | A loop stops at its first bad line. Bad fields give the panic (program path) or `invalid metrics` (HTTP path), with the earlier lines' writes. A failed conversion gives that conversion's error, with the writes up to and including the failing line. |
| `Service.ExtraFieldsAndBlankLines` | collector/service.go:78-79 | On the program path, `name value extra` behaves as `name value`, and a blank line panics. On the HTTP path, both lines are `invalid metrics`. |
| `Service.StoreLastWins` | collector/service.go:127 | After a series of map writes, a key is present exactly when it was present before or was written. A written key holds its last write, and an unwritten key keeps its value. |
| `Service.JsonStoresOnlyStrings` | collector/service.go:105-119 | The JSON loop stores exactly the string members, each converted, in iteration order, even when a conversion fails. It ends with the last string conversion's error, or the initial nil when there is no string member. |
| `Service.JsonResult` | collector/service.go:103-136 | The JSON branch's keys are the earlier keys plus the string members' keys. A key holds the conversion of its last string member. The branch fails exactly when the last string conversion failed, and with that conversion's error. |
| `Service.JsonDropsNonStrings` | collector/service.go:107-117 | `{"x": 3, "y": "4.5", "z": true}` yields only `y`, because the number and the boolean are dropped. |
| `Service.ProgramOutputScenario` | collector/service.go:65-86 | A program that prints `cpu 0.42` and `mem 128` yields a map with exactly those two entries, and no error. |
| `Service.FQNameInjective` | collector/service.go:162 | Distinct keys get distinct fully-qualified gauge names. |
| `Service.OneGaugePerKeyCount` | collector/service.go:159-168 | If each key's gauge is present, each gauge belongs to some key and no two gauges share a name, then there are as many gauges as keys. |
| `Service.Update` | collector/service.go:153-170 | A failed acquisition returns `"couldn't get service info: " + err` and emits nothing, even if the map already holds some entries. A panic is not recovered, so it ends the whole exporter process; the model marks it `Crashed`. A success emits exactly one gauge per map key, named `BuildFQName(namespace, "svr", k)` and carrying the key's value. |
| `Service.ScanOutcome` | collector/service.go:77-83 | A line loop (this one, or the HTTP loop at lines 122-131) only adds keys to the map and never removes one. The HTTP grammar never panics. |
| `Service.ScanStopsAtBadFields` | collector/service.go:123-126 | When the first bad line has the wrong number of fields (here, or for the unchecked `sp[1]` at line 79), the loop ends with the arity fault and the writes of the earlier lines. |
| `Service.ScanStopsAtFailedConversion` | collector/service.go:127-130 | When the first bad line's conversion fails (here, or at lines 79-82), the loop ends with that conversion's error and the writes up to and including that line. |
| `Service.JsonFold` | collector/service.go:105-119 | The JSON loop only adds keys. An object without string members leaves the map and the error as they were. |
| `Service.JsonOutcome` | collector/service.go:105-119 | The JSON branch only adds keys. The `err` it returns at line 136 is either nil or a conversion error. |
| `Service.ByShell` | collector/service.go:65-86 | The program path only adds keys. A failed run leaves the map as it was. |
| `Service.ByHttp` | collector/service.go:88-137 | The HTTP path only adds keys and never panics. A failed fetch leaves the map as it was. |
| `Service.SvrInfo` | collector/service.go:139-151 | Only a location that exists as a file can panic, since only the program path indexes a field without checking. |
| `Service.FQName` | collector/service.go:162 | The gauge name is empty exactly when the key is. Otherwise the name is longer than the key and ends with it. |
| `Service.Emit` | collector/service.go:159-168 | The emission loop gives each key one gauge, named after the key and carrying its value. Every gauge belongs to a key, no two share a name, and there are as many gauges as keys. |
| `Text.Split` | collector/service.go:78 | `strings.Split` never returns an empty list, so `sp[0]` always exists, here and at line 123. |
| `Text.Lines` | collector/service.go:76-77 | No line scanned here, or at lines 121-122, holds a newline. |
| `ResponseWriter.HttpHeader.constructor` | custom_http_responsewriter.go:19 | A new header map is empty. |
| `Text.SplitCount` | collector/service.go:78 | `strings.Split` yields one more piece than the line has spaces. |
| `Text.SplitPiecesFree` | collector/service.go:78 | No piece of a split contains the separator. |
| `Text.SplitThenJoin` | collector/service.go:123 | Joining the pieces with the separator gives back the line. |
| `Text.JoinThenSplit` | collector/service.go:123 | Splitting a join of separator-free pieces gives back the pieces. |
| `Text.TwoPieces` | collector/service.go:123-126 | The HTTP loop's `len(sp) == 2` holds exactly when the line has exactly one space, and the line is then `sp[0] + " " + sp[1]`. |
| `Text.LinesRoundTrip` | collector/service.go:121-122 | Scanning loses only line terminators. The lines, each followed by a newline, spell the payload (plus a final newline when the payload lacked one), and no line holds a newline. |
| `Text.ScanTerminated` | collector/service.go:76-77 | Scanning newline-terminated, newline-free lines yields exactly those lines. |
| `ResponseWriter.ResponseWriterDelegate.constructor` | custom_http_responsewriter.go:9-14 | The zero value: no header map, code 0 and an empty body. |
| `ResponseWriter.ResponseWriterDelegate.Header` | custom_http_responsewriter.go:16-22 | Creates an empty header map only when there is none. Every later call returns that same object, and nothing else changes. |
| `ResponseWriter.ResponseWriterDelegate.WriteHeader` | custom_http_responsewriter.go:25-28 | Sets the code unconditionally, so repeated calls overwrite it. The header and the body are unchanged. |
| `ResponseWriter.ResponseWriterDelegate.Write` | custom_http_responsewriter.go:31-37 | A code of 0 becomes 200 and a recorded code is kept. The body becomes the old body followed by `p`, so it stays the concatenation of all writes in order. Returns the length of the whole body, not of `p`, and never an error. |
| `ResponseWriter.FlattenSnoc` | custom_http_responsewriter.go:35 | Adding one write to the history appends its bytes to the concatenation. |
| `ResponseWriter.ReportFailure` | node_exporter.go:47-48 | The handler's error path, `WriteHeader(code)` then `Write(message)`, leaves a non-zero code such as 400 in place. The body gains exactly the message. |

## Left out

- node_exporter.go is left out except for the two-call error path in `ReportFailure`. That covers flag parsing, logging, the signal wait, `ListenAndServe`, the cron schedule, the synthetic request, `http.Post` to the gateway and the Prometheus registry and handler. All of them are process plumbing or library calls.
- The `os.Chmod(path, 0777)` at collector/service.go:66 is dropped. Its error is ignored, and its lasting change to the file's mode is not modelled.
- Running the program and capturing its output, `http.Get`, reading and closing the body, `os.Stat`, `url.Parse`, `json.Unmarshal` and `strconv.ParseFloat` are oracles in `Env`. These are I/O or library code. A float64 is an uninterpreted 64-bit pattern, and no IEEE parsing or rounding is modelled.
- Go's random map iteration order is not modelled as randomness. In the JSON branch it is the order the `unmarshal` oracle lists the members. In `Update` it is a nondeterministic choice of the next key.
- The `bufio.Scanner` details are not modelled: the 64 KiB token limit, the stripping of a `\r` before the newline, and the `scanner.Err()` result. The loops end with a nil error.
- The caller's `rst` map is mutated in place in Go. Here it is a map value that each routine takes and returns, together with the status. The partial map after an error is therefore kept, but aliasing is not modelled.
- The `namespace` constant is declared in a collector file that is not part of this model, so `Update` takes it as a parameter. The help text of each metric is not modelled.
- `Update` does not model the panic that `MustNewConstMetric` raises for an invalid metric name, such as an empty key or a key with characters not allowed in a metric name. It does not model the channel send either. The gauges are a returned sequence.
- The `case float32`, `int32`, `int64` and `int` arms of the JSON switch are not modelled, because `json.Unmarshal` into `interface{}` never produces those types.
- The shim's embedded `http.ResponseWriter`, which is nil, and the methods that the shim does not override are not modelled. The header map's own operations (`Set`, `Get`) are outside the shim.
- Go's 64-bit width of `int` is not modelled for `Code` or for `Write`'s result.
- The program's standard output and the HTTP body are bytes in Go but `string` (a sequence of characters) here, so invalid UTF-8 cannot be represented. Splitting on the ASCII space and newline does not depend on this.
- The `log.Debugf` call at collector/service.go:158 is not modelled; it only writes a log line.
