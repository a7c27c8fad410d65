# node-http-parser: the Node binding and its example server, in Dafny

This project models the two files of node-http-parser that sit around the HTTP/1.x
parsing engine, and proves properties of them:

- `src/http-parser.cc`, the Node binding. A script object supplies up to seven handlers,
  one per parser event. The binding keeps them in a fixed seven-slot table (`Parser.callbacks`)
  and fills it in again on `rebind`. It also checks the `(start, len)` slice handed to
  `execute`, holds the caller's buffer (`Parser.buffer`) while the engine runs, turns each
  engine event into a handler call with an (offset, size) span into that buffer, and
  translates the handler's result into the engine's integer convention (no handler: 0, empty
  result: -1, otherwise the value's int32). `strerror` maps error codes to text.
- `examples/simple-http-server.js`, the example server. Its `Context` object rebuilds the URL
  and an alternating `[name, value, ...]` header list from fragments that may arrive in
  pieces; two accumulators, `headerName` and `headerValue`, hand off to each other. The
  server writes the request body back in the chunked transfer coding of section 7.1 of
  RFC 9112, and treats a read that is not fully consumed as a parse error.

The parsing engine (`http_parser_init`, `http_parser_execute`, `http_parser_pause` and the
method and error tables) is not part of this model. `HttpParserBinding.Engine<S>` stands for
it: its state type `S` is held by value and never inspected; `execute` gets the exact slice
and a dispatcher function and returns a consumed count and a new state. The error table is a
parameter of `StrError`. The script runtime is a parameter too (`Invoker`: function, receiver,
arguments to completion).

Files: `wrappers.dfy` (Option, Result), `js_values.dfy` (script values and the ToInt32/ToUint32
conversions), `binding.dfy` (the binding), `context.dfy` (the `Context` object and header
reassembly), `chunked.dfy` (chunk framing and a chunk reader to check it against),
`connection.dfy` (the server's read listener and links between the modules).

The binding stores the caller's buffer in `buffer_` only while the engine runs, and
`Parser.buffer` does the same. `execute` throws "Out of bounds" before the engine runs, which
`Parser.Execute` returns as `Failure("Out of bounds")`.

## Model

| member | source | states |
|---|---|---|
| `JsValues.ToInt32` | src/http-parser.cc:97 | the result is the one value in [-2^31, 2^31) congruent to the input modulo 2^32 |
| `JsValues.ToUint32` | src/http-parser.cc:166-167 | the result is the one value in [0, 2^32) congruent to the input modulo 2^32 |
| `JsValues.Int32Value` | src/http-parser.cc:97 | a handler's value always converts to an int32; a value without a number (NaN) gives 0, and a number gives its ToInt32 |
| `JsValues.Uint32Value` | src/http-parser.cc:166-167 | `start` and `len` always convert to values below 2^32: a value without a number (NaN) gives 0, and a number gives its ToUint32 |
| `HttpParserBinding.Slot` | src/http-parser.cc:40-53 | each event has a slot number below 7 (`EventAt` inverts the numbering, so every slot has exactly one event) |
| `HttpParserBinding.EventAt` | src/http-parser.cc:40-53 | every slot below 7 belongs to the event whose slot number it is |
| `HttpParserBinding.SlotsAndNamesAreDistinct` | src/http-parser.cc:40-53 | no two events share a slot or a property name |
| `HttpParserBinding.Name` | src/http-parser.cc:233-235 | each event's handler is the target property named `on_` followed by the event's name |
| `HttpParserBinding.Get` | src/http-parser.cc:130 | a property read gives the property's value, or `undefined` when the target has no such property |
| `HttpParserBinding.Binding` | src/http-parser.cc:130-134 | a slot is filled exactly when the property read gives a function, and then holds that function |
| `HttpParserBinding.BoundTable` | src/http-parser.cc:125-139 | the rebound table has 7 slots and the slot of each event holds that event's binding |
| `HttpParserBinding.BoundTableHoldsFunctions` | src/http-parser.cc:130-134 | a slot is filled exactly when the target's same-named property is a function, and then holds that function |
| `HttpParserBinding.Parser.BindSlot` | src/http-parser.cc:128-136 | one step of the unrolled rebind: the event's slot is set or cleared, the other six are untouched |
| `HttpParserBinding.Parser.RebindTarget` | src/http-parser.cc:125-139 | the target is replaced and every one of the 7 slots is rewritten from it |
| `HttpParserBinding.Parser.Rebind` | src/http-parser.cc:184-191 | a non-object throws "Argument must be an object" and changes nothing; an object rebinds the whole table |
| `HttpParserBinding.Parser.Init` | src/http-parser.cc:141-152 | a new parser has a fresh engine state for its type, a table bound to the target and no buffer held |
| `HttpParserBinding.NewParser` | src/http-parser.cc:141-152 | construction throws "Argument must be an object" exactly when the target is not an object |
| `HttpParserBinding.ReturnCode` | src/http-parser.cc:96-97 | an empty completion (the call threw) gives -1, a returned value gives its Int32Value, and the code is always an int32 |
| `HttpParserBinding.NotifyCallback` | src/http-parser.cc:85-98 | an empty slot gives 0; otherwise the handler is called with the parser object and its result is translated (empty result -1) |
| `HttpParserBinding.DataCallback` | src/http-parser.cc:100-123 | needs a held buffer and a span inside it; an empty slot gives 0; otherwise the handler gets the buffer, offset and size as unsigned 32-bit values |
| `HttpParserBinding.ReturnCodeOfPlainValues` | src/http-parser.cc:96-97 | `undefined` gives 0, an int32 number gives itself, and 2^32-1 gives -1, the same code as an empty result |
| `HttpParserBinding.Dispatch` | src/http-parser.cc:85-123 | each engine event goes to its own slot; data events are given offset `start + pos` into the held buffer |
| `HttpParserBinding.Dispatcher` | src/http-parser.cc:233-236 | the callbacks handed to the engine accept every event the engine may report, and answer each as `Dispatch` does |
| `HttpParserBinding.SpanAliasesSlice` | src/http-parser.cc:108-116 | a span inside the engine's slice lies inside the buffer, at `start + pos`, with the same bytes |
| `HttpParserBinding.SpanNotTruncated` | src/http-parser.cc:115-116 | on buffers under 4 GiB the offset and size reach the handler unchanged |
| `HttpParserBinding.SizeAdd` | src/http-parser.cc:168 | `size_t` addition gives a value below 2^w that is the sum or the sum minus 2^w |
| `HttpParserBinding.OutOfBounds` | src/http-parser.cc:168 | the guard as written rejects every slice whose end wraps around and accepts every slice that starts and ends inside the buffer |
| `HttpParserBinding.OutOfBoundsExactly` | src/http-parser.cc:168-169 | on both widths the guard rejects exactly the slices with `start >= buflen` or `start + len > buflen` |
| `HttpParserBinding.EmptySlicesAtTheEndRejected` | src/http-parser.cc:168 | an empty buffer, and an empty slice at the very end of a buffer, are always rejected |
| `HttpParserBinding.OverflowTestNeededOn32Bit` | src/http-parser.cc:168 | with a 32-bit `size_t`, every slice that starts inside the buffer and whose end wraps around passes the first two tests, although it ends past the buffer; only the overflow test rejects it |
| `HttpParserBinding.OverflowTestRedundantOn64Bit` | src/http-parser.cc:166-168 | with a 64-bit `size_t` the sum of two 32-bit arguments cannot wrap |
| `HttpParserBinding.Parser.Execute` | src/http-parser.cc:159-174 | rejects out-of-bounds slices with "Out of bounds", without running the engine; otherwise runs the engine on exactly those bytes with the buffer held, then releases it, and returns the consumed count as a uint32 |
| `HttpParserBinding.Parser.Pause` | src/http-parser.cc:176-182 | pause and unpause are handed to the engine |
| `HttpParserBinding.Parser.Reset` | src/http-parser.cc:193-199 | the engine state is re-initialised for the given type; the table is kept |
| `HttpParserBinding.Parser.Dispose` | src/http-parser.cc:77-83 | the destructor clears all 7 slots |
| `HttpParserBinding.Describe` | src/http-parser.cc:205-209 | finds the description of a code exactly when the table has a row for it |
| `HttpParserBinding.StrError` | src/http-parser.cc:201-212 | a known code gives its description text, any other code "unknown error" |
| `HttpParserBinding.StrErrorAsWritten` | src/http-parser.cc:205-211 | as written, a known code gives its description wrapped in quote marks, any other code "unknown error" |
| `HttpParserBinding.StrErrorAsWrittenKeepsQuotes` | src/http-parser.cc:206 | as written, every known code gives its description wrapped in quote marks, never the description itself |
| `HttpParserBinding.StrErrorOfSuccess` | src/http-parser.cc:206 | code 0 with text `success` comes out as `"success"`, quote marks included |
| `ServerContext.Context.constructor` | examples/simple-http-server.js:34-36 | a new context is reset |
| `ServerContext.Context.Reset` | examples/simple-http-server.js:39-44 | url, name and value become empty and the header list empty |
| `ServerContext.Context.OnUrl` | examples/simple-http-server.js:50-52 | the fragment is appended to the URL; nothing else changes |
| `ServerContext.Context.OnHeaderField` | examples/simple-http-server.js:54-59 | the fragment is appended to the name; a non-empty pending value is pushed and cleared |
| `ServerContext.Context.OnHeaderValue` | examples/simple-http-server.js:61-66 | the fragment is appended to the value; a non-empty pending name is pushed and cleared |
| `ServerContext.Context.OnHeadersComplete` | examples/simple-http-server.js:68-73 | a non-empty pending value is pushed and cleared |
| `ServerContext.Context.OnBody` | examples/simple-http-server.js:75-77 | the context is unchanged and the `data` listener gets exactly the span's bytes |
| `ServerContext.Context.OnMessageComplete` | examples/simple-http-server.js:79-82 | the context is reset after the message |
| `ServerContext.AfterUrl` | examples/simple-http-server.js:50-52 | a URL fragment extends the URL and leaves the header list and both accumulators alone |
| `ServerContext.AfterField` | examples/simple-http-server.js:54-59 | a name fragment extends the name, the pending value (if it has text) is pushed, and the value accumulator ends empty |
| `ServerContext.AfterValue` | examples/simple-http-server.js:61-66 | a value fragment extends the value, the pending name (if it has text) is pushed, and the name accumulator ends empty |
| `ServerContext.AfterHeadersComplete` | examples/simple-http-server.js:68-73 | the end of the header block pushes the pending value if it has text and empties the value accumulator; URL and name stay |
| `ServerContext.HandlersKeepOneAccumulator` | examples/simple-http-server.js:54-73 | after any handler the name and the value are never both non-empty |
| `ServerContext.UrlIsConcatenation` | examples/simple-http-server.js:50-52 | after any run of URL fragments the URL is their concatenation |
| `ServerContext.FieldRun` | examples/simple-http-server.js:54-59 | a run of name fragments yields their concatenation, after pushing the previous value |
| `ServerContext.ValueRun` | examples/simple-http-server.js:61-66 | a run of value fragments yields their concatenation, after pushing the name |
| `ServerContext.OneHeader` | examples/simple-http-server.js:54-66 | one header pushes its whole name and leaves its whole value pending |
| `ServerContext.HeaderRunsReassemble` | examples/simple-http-server.js:54-73 | while headers arrive, the list plus the pending value is the reassembled list |
| `ServerContext.Reassembly` | examples/simple-http-server.js:54-73 | once the header block ends, `headers = [n1, v1, ..., nk, vk]`, each entry the concatenation of its fragments, when every name and value has text |
| `ServerContext.EmptyValueBreaksAlternation` | examples/simple-http-server.js:54-73 | headers `A` (empty value) and `B: 1` give `[A, B, 1]`, not `[A, "", B, 1]` |
| `ServerContext.HandOffReassembly` | examples/simple-http-server.js:54-73 | with a hand-off on every change of role, every header is reassembled, empty values included |
| `ChunkedCoding.Hex` | examples/simple-http-server.js:103 | the size is written in lowercase hexadecimal digits with no leading zero |
| `ChunkedCoding.ChunkFrame` | examples/simple-http-server.js:102-105 | a chunk is the size line, CRLF, the data, CRLF: it starts with the hexadecimal size and holds the data between the size line's CRLF and the final CRLF |
| `ChunkedCoding.LastChunk` | examples/simple-http-server.js:108 | the final write is the chunk-size line of size zero followed by an empty trailer section |
| `ChunkedCoding.FramedEndsWithLastChunk` | examples/simple-http-server.js:102-109 | whatever the body's fragments, the body the server writes ends with the last chunk |
| `ChunkedCoding.HexRoundTrip` | examples/simple-http-server.js:103 | reading the written size back gives the size |
| `ChunkedCoding.HexCanonical` | examples/simple-http-server.js:103 | every lowercase digit string without a leading zero is the size string of its value |
| `ChunkedCoding.ReadChunkFrame` | examples/simple-http-server.js:102-105 | a chunk written for a fragment's bytes reads back as those bytes, whatever follows |
| `ChunkedCoding.DecodeFramed` | examples/simple-http-server.js:102-109 | the chunks of non-empty fragments, each written as the bytes its size was taken from, followed by `0\r\n\r\n` decode to exactly those fragments |
| `ChunkedCoding.EmptyFragmentIsLastChunk` | examples/simple-http-server.js:102-109 | a zero-length fragment would be written as the last chunk itself |
| `ServerConnection.CheckConsumed` | examples/simple-http-server.js:88-89 | a read is accepted exactly when execute consumed all of it; otherwise execute's exception or "Parse error" |
| `ServerConnection.OnRead` | examples/simple-http-server.js:87-90 | an empty read throws "Out of bounds" and leaves the engine alone; any other read runs the engine on the whole read and fails with "Parse error" unless it is all consumed |
| `ServerConnection.EmptyReadRejected` | examples/simple-http-server.js:88 | on both widths execute rejects the empty read that a zero-length socket read would be |
| `ServerConnection.ContextHandlersContinue` | src/http-parser.cc:85-123 | a handler returning undefined, as every context handler does, gives 0 to the engine, through the notification template and the data template alike |

## Left out

- The parsing engine (`http_parser_init`, `http_parser_execute`, `http_parser_pause`, the method and error tables): its source is not part of this model, so it is the abstract `Engine<S>`; no request-line, header or chunk grammar is modelled, and the engine's promise that its spans lie inside its slice appears as the dispatcher's precondition.
- Re-entrancy: a handler that calls `rebind`, `reset`, `pause` or `execute` during `execute` is not modelled (a nested `execute` clears `buffer_` while the outer engine call runs, so the outer call's next data event fails the held-buffer assertion; `Parser.Execute`'s `Valid()` precondition, which demands that no buffer is held, excludes it); the dispatcher uses the table as it was when the engine started, and the script runtime (`Invoker`) is a pure function.
- `node::FatalException` after a handler throws: reporting or aborting the process is not modelled; a throwing call is the `Empty` completion, which gives -1.
- V8 handle machinery (`Persistent`, `HandleScope`, `TryCatch`, `ObjectWrap`, `UNWRAP`) and the `container_of`/`offset_of` pointer arithmetic: the parser object owns its fields directly.
- Module initialisation (`init`), the exported constants and the property accessors (`http_major`, `http_minor`, `status_code`, `method`, `http_errno`, `upgrade`): they read fields of the engine state, which is abstract.
- Script values: numbers are integers only (no fractions, NaN, infinities or precision loss above 2^53), there are no strings, and every object converts to NaN, so `valueOf` is not modelled.
- `Execute`: `args[0]` is taken to be a Buffer; what `Buffer::Data` does with another object is not modelled.
- Property reads on the target are a map that already includes inherited properties; getters are not modelled.
- The example's `EventEmitter` mechanism (`emit`, `on`) and the `message_begin` handler, which only emits: how events reach listeners is not modelled. `OnBody` returns the bytes the `data` listener receives, and `ChunkFrame` and `LastChunk` model what the `data` and `message_complete` listeners write, but no member ties `OnBody`'s result to `ChunkFrame`.
- Handlers receive the parser's own Buffer object; the model passes the buffer by value, so a handler that modifies the buffer (and with it the bytes the engine goes on to parse) is not modelled.
- Socket plumbing: `net.createServer`, `conn.write`, `conn.destroy`, `listen`, `console.log`, and the response head with its `Date()` header.
- Buffer-to-string conversion in `+=` and `buf + '\r\n'`: fragments and written data are byte sequences. `buf + '\r\n'` decodes the fragment as UTF-8 and `conn.write` encodes it again, so a fragment that is not valid UTF-8 by itself (binary data, or a multi-byte character split across two fragments) is written with a byte length other than the size line announces; `ChunkFrame`, `ReadChunkFrame` and `DecodeFramed` cover only fragments whose bytes survive that round trip unchanged.
- ServerContext.Reassembly: proved only for headers whose name and value both have text, because the code as written loses empty values (see Findings).

## Findings

| source | as written | input that shows it | evidently intended | confidence | as-written member | corrected member |
|---|---|---|---|---|---|---|
| src/http-parser.cc:206 | each case stringizes the table's description argument, which is already a string literal, so the script gets its spelling including the quote marks | `strerror(0)` with the row (0, `success`) gives `"success"` | the description text, `success` | medium, not executed; the error table lives in a header that is not part of this model | `HttpParserBinding.StrErrorAsWrittenKeepsQuotes` | `HttpParserBinding.StrError` |
| examples/simple-http-server.js:54-73 | an accumulator is pushed only when it is non-empty, so a header with an empty value never reaches the list | header `A` with an empty value, then `B: 1` | `[A, "", B, 1]` | high, not executed | `ServerContext.EmptyValueBreaksAlternation` | `ServerContext.HandOffReassembly` |

`ServerContext.Context` itself keeps the handlers as written; the corrected hand-off is the
`HandOff` state and its functions in `context.dfy`.
