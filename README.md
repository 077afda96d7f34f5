# transformimgs image service: dispatch core in Dafny

This project models the request path of the transformimgs image service
(package `img`). The handlers `ResizeUrl`, `FitToSizeUrl`, `OptimiseUrl` and
`AsIs` turn an HTTP request into transformation parameters:

- the image URL, completed from `X-Forwarded-Proto`;
- the output formats from the `Accept` header;
- the quality tier from the Save-Data client hint;
- a size in the `WxH` grammar.

A handler then builds a `Command` and hands it to one of a fixed pool of
execution lanes (`Queue`), chosen round robin. It waits until a lane's worker
has finished the command and writes the image with its `Content-Type`,
`Content-Length` and `Cache-Control` headers, or writes the error.

The model is split into five modules:

| file | module | models |
|---|---|---|
| `go_strings.dfy` | `GoStrings` | the Go library routines the core relies on: `strings.Split` with one separator, `strings.TrimSpace`, `strings.HasPrefix`, `strconv.Itoa` and `%d` |
| `types.dfy` | `Types` | `Image`, `Quality`, `ResizeConfig`, `TransformationConfig`, `Cmd`, and `Command` as a class with mutable `result`, `err` and `finished` fields |
| `negotiation.dfy` | `Negotiation` | the pure decisions: `getQueryParam`, `getImgUrl`, `getSupportedFormats` (a method with the source's loop), `getQuality`, the hide short-circuit, `Vary`, both size grammars, `addHeaders` |
| `lanes.dfy` | `Lanes` | `Queue` as a class `Lane` holding a FIFO of commands; `Step` is one iteration of the worker loop, `Start` drains the lane, `AddAndWait` enqueues, waits and runs the callback |
| `service.dfy` | `ImageService` | `Service` as a class with the lane array and the round-robin cursor; `NewService`, `getQueue`, `execOp`, `writeResult` and the four handlers |

### How the model differs from the Go code

**Sequential lanes.** The goroutine, the unbuffered channel and the condition
variable are replaced by a sequential queue. Sending on the channel appends to
the lane's `ops`. The guarded wait `for !op.Finished` runs worker steps until
the submitted command is finished. A ghost `trace` records every `Finished`
and every callback, in order. Between two submissions every lane is idle
(`Service.Valid`).

**Package variables become parameters.** `CacheTTL` and `SaveDataEnabled`
become a `Settings` value passed to the handlers.

**Collaborators become functions.** The loader (`Loader.Load`) and the three
processor transformations are function parameters: `Loader` and `Cmd`. A
transformation returns an image, an error or both, never neither (the
`EngineOutcome` subset type). In Go, `(nil, nil)` would make `writeResult`
dereference nil.

**Local buffers are sequences.** The `trimmedAccepts` slice of `getSupportedFormats` is
local and never shared, so it is a sequence of fixed length written index by
index.

**Submitted commands are ghost results.** Each handler also returns, as a
ghost value, the command it handed to a lane, or null when it handed none. Its
contract can then say which lane's history changed, and how.

**Responses are values.** A handler returns a `Response`: status, the headers
in the order they were added, and a body. The body is a message, the image
bytes, or the empty GIF placeholder.

### Behaviour kept from the code

- `getQueue` increments the cursor before reading it. With more than one lane,
  the first submission of a fresh service goes to lane 1
  (`FirstSubmissionLane`).
- `AsIs` adds `Content-Type` itself and `addHeaders` adds it again, so a
  successful `AsIs` response carries the header twice (`AsIsReturnsSource`).
- The loose size grammar `^\d*[x]?\d*$` also accepts `"x50"`, `"50"` and
  `"x"`. The strict grammar `^\d*[x]\d*$` accepts `"x"`. Both are modelled as
  written (`ResizeSizeExamples`, `FitSizeExamples`).

## Model

| member | source | states |
|---|---|---|
| `Types.Command.constructor` | img/service.go:101-109 | A new command carries the given transformation and config, the given result, no error, and is not finished. |
| `Lanes.Lane.constructor` | img/queue.go:9-14 | `NewQueue`: a lane with no queued commands and an empty history. |
| `Lanes.Lane.Enqueue` | img/queue.go:31 | The channel send: the command joins the end of the queue, behind every command already there, and nothing else changes. |
| `Lanes.Processed` | img/queue.go:18-23 | The loop body always leaves the command finished, with an image or an error. |
| `Lanes.PassThroughKeepsResult` | img/queue.go:18-20 | A command that already has a result is not transformed: its result and error are unchanged. |
| `Lanes.MissingResultIsComputed` | img/queue.go:18-19 | A command without a result ends with exactly the (result, error) pair its transformation returns for its config. |
| `Lanes.ProcessedIdempotent` | img/queue.go:18-23 | A second pass over a processed command gives the same state. If the first pass left an image, the second passes it through without calling the transformation. If it left only an error, the result is still absent and the transformation would be called again. |
| `Lanes.Lane.Step` | img/queue.go:17-26 | One worker iteration takes the oldest command and leaves it processed. The transformation is invoked exactly when the result was absent (the ghost counter `runs` goes up by one). The lane's history gains that command's `Finished` event. |
| `Lanes.Lane.Start` | img/queue.go:16-27 | The worker processes every queued command, oldest first, whatever error an earlier one ended with. The history gains their `Finished` events in queue order. |
| `Lanes.Lane.AwaitFinished` | img/queue.go:34-38 | The guarded wait ends with the submitted command finished, the lane empty, and every command ahead of it processed first, in order. While the submitter waits the worker runs. Because the command is the newest and signals only when finished, one wake-up covers the whole queue. |
| `Lanes.Lane.AddAndWait` | img/queue.go:29-41 | The command is enqueued behind the earlier ones and all of them are processed in order. The callback's result is its value on the finished command. The history ends with the command's `Finished` followed by one callback event. |
| `Lanes.CallbackOnceAfterFinish` | img/queue.go:34-40 | In the history `AddAndWait` leaves, when the callback had not run for the command before: the callback event is last, comes right after the command's `Finished`, and occurs nowhere else (`CallbackLastAndOnce`). The handlers establish this for their fresh commands. |
| `Lanes.FinishEvents` | img/queue.go:17 | One `Finished` event per command, in the order the commands were received. |
| `GoStrings.Split` | img/service.go:511 | `strings.Split` gives at least one piece, no piece contains the separator, and joining the pieces with the separator restores the input. |
| `GoStrings.SplitJoin` | img/service.go:511 | `Split` inverts `Join` for separator-free pieces, so the split is the unique such decomposition. |
| `GoStrings.SplitCount` | img/service.go:511-512 | The number of pieces is the number of separators plus one. |
| `GoStrings.TrimSpaceTrims` | img/service.go:514 | `strings.TrimSpace` returns an infix of its input; everything outside that infix is white space, and neither end of the result is white space. |
| `GoStrings.ItoaRoundTrip` | img/service.go:484 | Reading back the decimal numeral `strconv.Itoa` writes gives the number. |
| `GoStrings.ParseDecimalRoundTrip` | img/service.go:484 | Every canonical decimal numeral is what `Itoa` writes for its value. |
| `Negotiation.GetQueryParam` | img/service.go:488-493 | The value is returned when the parameter occurs exactly once; otherwise the result is `""`. |
| `Negotiation.GetImgUrl` | img/service.go:495-506 | The result is empty iff the route value is. It is `proto + ":" + value` for a `//` value with exactly one `X-Forwarded-Proto`, and the value unchanged otherwise. The route value is always a suffix of the result. |
| `Negotiation.SupportedFormatsShape` | img/service.go:508-520 | Without an `Accept` header the list is empty. Otherwise there is one entry per comma-separated piece (commas plus one), in header order. Each entry is its piece with the surrounding white space removed, and is itself trimmed. |
| `Negotiation.GetSupportedFormats` | img/service.go:508-520 | The loop writing the trimmed entries into `trimmedAccepts` index by index returns exactly the list `SupportedFormats` describes. |
| `Negotiation.GetQuality` | img/service.go:575-588 | The quality is always `DEFAULT` or `LOW`. It is `LOW` iff Save-Data is enabled, the `Save-Data` header is `on`, and the raw `save-data` values are not exactly `["off"]`. So a repeated `save-data=off` does not opt out. |
| `Negotiation.HideImage` | img/service.go:541-549 | The placeholder is due iff Save-Data is enabled, the header is `on`, and the raw `save-data` values are exactly `["hide"]`. |
| `Negotiation.HideImpliesLowQuality` | img/service.go:541-549 | Whenever the placeholder is due, the quality tier would have been `LOW`. |
| `Negotiation.QualityExamples` | img/service.go:575-588 | With the setting, header and parameter `(on, "on", none)` the quality is `LOW`. It is `DEFAULT` for `(on, "on", "off")`, `(off, "on", none)` and `(on, none, none)`. It is `LOW` for `(on, "on", "hide")` and for `save-data=off` given twice. |
| `Negotiation.HideExamples` | img/service.go:541-549 | The placeholder is due for `(on, "on", "hide")`. It is not due when the setting is off, the header is absent or `off`, or the parameter is absent or `off`. |
| `Negotiation.VaryNamesFields` | img/service.go:541-552 | Split on commas and trimmed, the way `Accept` is read, the `Vary` value names `Accept` and `Save-Data` when Save-Data is enabled, and `Accept` alone otherwise. |
| `Negotiation.SkipDigitsAt` | img/service.go:296 | Skipping digits from a position stops exactly at the first non-digit, so `\d*` matches greedily and uniquely. |
| `Negotiation.StrictImpliesLoose` | img/service.go:387 | Every size the strict grammar accepts, the loose one accepts. |
| `Negotiation.MatchesSize` | img/service.go:296 | The scanner accepts exactly `digits ['x'] digits` for the loose pattern of `ResizeUrl`, and exactly `digits 'x' digits` for the strict pattern of `FitToSizeUrl` (line 387). |
| `Negotiation.CheckSize` | img/service.go:291-302 | An empty size is reported missing. A non-empty size outside the grammar is malformed. Otherwise it is accepted as given. `FitToSizeUrl` (lines 382-393) makes the same checks with the strict grammar. |
| `Negotiation.ResizeSizeExamples` | img/service.go:291-302 | `50`, `x50`, `50x50` and a lone `x` all pass the resize check. |
| `Negotiation.FitSizeExamples` | img/service.go:382-393 | `50x50` and a lone `x` pass the fit check; `50` fails it. |
| `Negotiation.RejectedSizeExamples` | img/service.go:291-302 | `abcx` is malformed for both grammars. An empty or absent size is missing. |
| `Negotiation.MaxAgeRoundTrip` | img/service.go:485 | For a non-negative TTL, the `max-age` value is a non-empty run of digits with no leading zero (a canonical decimal) that parses back to the TTL. |
| `Negotiation.AddHeaders` | img/service.go:480-486 | `Content-Type` is first iff the MIME type is non-empty. `Content-Length` is the canonical decimal of the data length: digits, no leading zero, parsing back to the length. `Cache-Control` is last. There are no other fields. |
| `ImageService.NextLaneIsSuccessorModulo` | img/service.go:469-473 | One `getQueue` call sets the cursor to its old value plus one, modulo the pool size. |
| `ImageService.LaneAfterModulo` | img/service.go:469-473 | After any number k of `getQueue` calls from cursor `start`, the cursor is `(start + k)` modulo the pool size. |
| `ImageService.LaneAfterInRound` | img/service.go:469-473 | Within one round, the k-th call from cursor `start` picks `start + k`, wrapped once past the end. |
| `ImageService.RoundRobinVisitsEveryLaneOnce` | img/service.go:466-477 | Any N consecutive calls on a pool of N lanes pick pairwise distinct lanes that cover the pool. |
| `ImageService.FirstSubmissionLane` | img/service.go:469-473 | From a fresh cursor, the first call picks lane 1 when there are several lanes (lane 0 when there is one). |
| `ImageService.Service.GetQueue` | img/service.go:466-477 | The cursor advances by one, wrapping to 0 at the pool size. The lane returned is the one the new cursor points to. The service stays valid. |
| `ImageService.Service.constructor` | img/service.go:120-124 | The struct literal: the given loader and processor, a fresh pool of `procNum` empty slots, and the cursor at 0. |
| `ImageService.NewService` | img/service.go:113-132 | Fails iff `procNum <= 0`, with the message `procNum must be positive, but got [n]`. Otherwise: exactly `procNum` distinct fresh idle lanes, the cursor at 0, and the given loader and processor. |
| `ImageService.Service.ExecOp` | img/service.go:456-464 | The cursor advances once. The command is processed on the lane chosen, and only that lane's history changes: `Finished` then the callback. The response is `writeResult` of the finished command. |
| `ImageService.WriteResultOutcome` | img/service.go:522-530 | The status is 500 iff the command carries an error, and 200 otherwise. The headers already set stay in front. On a 200 the body is the image bytes, and the `Content-Length` field parses back to their number. |
| `ImageService.Transformed` | img/service.go:563-572 | A command built by `transformUrl` ends finished with exactly what its transformation returns. `ExecTransformation`, `TransformUrl` and the three handlers ensure that their submitted command ends in this state. |
| `ImageService.TransformStatus` | img/service.go:532-573 | The status is always 200, 400 or 500. It is 400 iff the URL is missing. A load error gives 500. A submitted transformation gives 500 iff the engine reported an error, and 200 otherwise. The placeholder is a 200. |
| `ImageService.TransformVaryFirst` | img/service.go:541-552 | The missing-URL 400 has no header. Every other response starts with `Vary: Accept, Save-Data` when Save-Data is enabled, or `Vary: Accept` otherwise, and has no other `Vary` field. |
| `ImageService.AddHeadersOmitVary` | img/service.go:480-486 | `addHeaders` never writes a `Vary` field. |
| `ImageService.TransformResponseReadsNegotiation` | img/service.go:532-573 | Two requests with the same URL, placeholder decision, accepted formats and quality get the same response. |
| `ImageService.SaveDataHeaderIgnoredWhenNotVaried` | img/service.go:541-552 | With Save-Data disabled, `Vary` is exactly `Accept`, and two requests whose headers differ only in `Save-Data` get the same response. |
| `ImageService.PlaceholderExactlyWhenHidden` | img/service.go:541-549 | The body is the empty GIF iff the URL is present, Save-Data is enabled, the header is `on` and the raw `save-data` values are exactly `["hide"]`. No loader or engine outcome produces it otherwise. |
| `ImageService.PlaceholderIgnoresCollaborators` | img/service.go:541-549 | The Save-Data placeholder is the empty GIF and is the same whatever the loader and the transformation are: neither is consulted. |
| `ImageService.Service.TransformUrl` | img/service.go:532-573 | The response is `TransformResponse`: a 400 for a missing URL; otherwise `Vary` first, then the placeholder, a 500 for a load error, or the written result of the transformation. A command is submitted iff the URL is present, no placeholder is due and the load succeeds. That command is fresh, carries the transformation and the negotiated source, formats, quality and config, ran the transformation once, and ends in the `Transformed` state of its config. Only the chosen lane's history changes, gaining its `Finished` and then its one callback. With no command submitted, the cursor and every history are unchanged. |
| `ImageService.Service.ExecTransformation` | img/service.go:563-572 | A fresh command for the configuration is run on the next lane. Its transformation ran once, only that lane's history changes, and the callback is the last event there, once. The command ends in the `Transformed` state, and the response is `writeResult` of that state. |
| `ImageService.Service.OptimiseUrl` | img/service.go:207-209 | `transformUrl` with the processor's `Optimise` and no size config. A submitted command's config holds the loaded source, the negotiated formats and the quality, with no size. It ran `Optimise` once and ends in its `Transformed` state. Only the chosen lane's history changes, and the command's callback is the last event there, once. Without a submission the cursor and every history are unchanged. |
| `ImageService.Service.SizedTransform` | img/service.go:291-304 | A missing size is a 400 `size param is required`, and a malformed one a 400 `size param should be in format WxH`. Neither submits a command, and the cursor and every lane history are unchanged. An accepted size goes to `transformUrl` with that size. The submitted command's config holds the loaded source, the negotiated formats, the quality and that size. It ran the transformation once and ends in its `Transformed` state. Only the chosen lane's history changes, and the callback is the last event there, once. `FitToSizeUrl` (lines 382-395) is the strict instance. |
| `ImageService.Service.ResizeUrl` | img/service.go:289-305 | The loose grammar in front of `transformUrl` with `Resize`. An empty size is a 400 `size param is required`, and one outside the grammar a 400 `size param should be in format WxH`. Neither submits anything, so the cursor and every lane history are unchanged. A submitted command's config holds the loaded source, the negotiated formats, the quality and the size. It ran `Resize` once, ends in its `Transformed` state, and its callback is the last event of its lane, once. |
| `ImageService.Service.FitToSizeUrl` | img/service.go:381-396 | The strict grammar in front of `transformUrl` with `FitToSize`. An empty size is a 400 `size param is required`, and one outside the grammar a 400 `size param should be in format WxH`. Neither submits anything, so the cursor and every lane history are unchanged. A submitted command's config holds the loaded source, the negotiated formats, the quality and the size. It ran `FitToSize` once, ends in its `Transformed` state, and its callback is the last event of its lane, once. |
| `ImageService.AsIsReturnsSource` | img/service.go:425-454 | A successful `AsIs` returns 200 with the source bytes unchanged. `Content-Type` appears twice when the MIME type is known. |
| `ImageService.Service.AsIs` | img/service.go:425-454 | The response is `AsIsResponse`. A 400 for a missing URL and a 500 for a load error submit nothing, and leave the cursor and every lane history unchanged. Otherwise a fresh pass-through command is submitted. It has no transformation, carries the loaded image, and has never run a transformation. It goes through the next lane, whose history alone gains its `Finished` and then its one callback. |
| `ImageService.Service.ExecPassThrough` | img/service.go:444-452 | A fresh command already carrying the image is passed through the next lane without a transformation. Only that lane's history changes, with the callback last and once. The response is `writeResult` of the finished pass-through. |

## Left out

- Concurrency is not modelled: the goroutine per lane, the unbuffered channel, `sync.Cond` and `currProcMux`. Lanes and the cursor update are sequential, so interleavings of concurrent requests are not captured.
- `GetRouter` and the gorilla `mux` routing: the `{imgUrl}` route variable is an input field of `Request`.
- HTTP writing: `http.Error` also sets `Content-Type: text/plain` and `X-Content-Type-Options`; a response is a value and those headers are not added.
- The bytes of the `emptyGif` constant: the placeholder is the body `EmptyGif`.
- The internals of `Loader.Load` and of the `Processor` methods (network fetch, ImageMagick) are opaque function parameters. The request context passed to `Load` is not modelled.
- Logging through `Log.Printf`, the swagger documentation comments and the documented but unread `dppx` parameter.
- The Go `regexp` engine: the two size patterns are character-level grammars with a scanner proved equivalent to them.
- UTF-8: strings are sequences of runes. Canonicalisation of header keys by `net/http` is assumed to have happened (keys such as `Save-Data` and `X-Forwarded-Proto` are looked up as written).
- img/processor/imagemagick_test.go exercises the external ImageMagick binary and has no counterpart here.
- `Types.Command.constructor`: a command with neither a result nor a transformation would make the Go worker call a nil function; the lanes require `Runnable` instead of modelling that panic.
- `Lanes.Lane.AddAndWait`: the callback is the response writer; its side effect on the `http.ResponseWriter` becomes its return value.
- `ImageService.Loader`: a load yields an image or an error, never neither. A Go loader returning `(nil, nil)` would make `AsIs` dereference nil at `result.MimeType`; that panic is not modelled.
- `Lanes.ProcessedIdempotent`: the second pass agrees with the first only because a transformation is a function of its config. In Go, a command that ended with an error alone would call the engine again, and its answer may differ. No handler hands a command to a lane twice.
- `Types.EngineOutcome`: an engine call that returns neither an image nor an error is excluded by this subset type. In Go that `(nil, nil)` answer would leave the command finished with no result, and `writeResult` would dereference nil; that panic is not modelled.
