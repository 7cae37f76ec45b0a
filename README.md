# curlhttpfs read path, in Dafny

curlhttpfs is a FUSE file system that exposes a web server as a read-only
tree: every `read` on a file becomes an HTTP request with a `Range` header,
and the reply is parsed as libcurl streams it into a write callback. This
project models that read path and proves what it does:

- `libc_text.dfy` (`LibcText`): the C library pieces the code relies on:
  `strchr`, the C-locale `tolower` behind `strncasecmp`, the decimal
  text of `%llu`, and the C-locale `isspace` and `%lu` conversion of `sscanf`.
- `content_range.dfy` (`RangeHeader`): the `Content-Range:` recogniser of
  `my_parse_header`. Its partner is the header line a server writes
  (section 14.4 of RFC 9110), and the recogniser reads that line back exactly.
- `response_parser.dfy` (`ResponseParser`): the state machine of
  `my_write_callback`, `my_parse_status` and `my_parse_header` over
  `struct httpfs_buffer`. It has two layers:
  - a pure specification: `Step` for one callback and `Run` for the callback over a whole reply;
  - a class `ResponseBuffer` with the struct's fields and the destination array, whose methods are proved to follow `Step`.
- `range_fetch.dfy` (`RangeFetch`): `read_curl_buffer`: the range text
  `offset-(offset+size-1)` in unsigned long long arithmetic, and the loop that
  feeds each delivered chunk to the callback.
- `http_fs.dfy` (`HttpFs`): `httpfs_getattr`'s directory guess, `httpfs_open`'s
  handle, and `httpfs_read`'s EISDIR, end-of-file, clamp, ENOENT and
  size-cache rules. `ReadModel` states the read on values, and the method `Read` is proved equal to it.
- `range_server.dfy` (`RangeServer`): a server that honours range requests
  (sections 14.2, 14.4, 15.3.7 and 15.5.17 of RFC 9110). Against it, each read
  returns exactly the bytes that exist in the range it asked for, and reads
  that follow one another reassemble the resource.

The network is a parameter. A `Transport` maps a URL and a range text to an
`Exchange`, which holds:

- the response code `curl_easy_getinfo` reports (`None` when the lookup fails);
- the chunks the callback receives, in order: status line, header lines, blank line, body pieces;
- whether `curl_easy_perform` completes.

An incomplete exchange stands for `curl_easy_init` failing, or for a network
or TLS error after the chunks already delivered.

Two facts of the code shape the model:

- `getattr`'s '.' test looks at the whole path, not only its last component (curlhttpfs.c:101).
- `read` decides EISDIR from the path itself, empty or ending in '/' (curlhttpfs.c:315). `open` sets the handle's `is_dir` flag (curlhttpfs.c:131), but nothing reads it.

## Model

| member | source | states |
|---|---|---|
| LibcText.StrChr | curlhttpfs.c:101 | `strchr` finds the first occurrence: none exactly when the character is absent; otherwise an index holding it with no earlier occurrence |
| LibcText.EqualsIgnoreCase | curlhttpfs.c:201 | `strncasecmp(src, "Content-Range:", 14) == 0`: equal length and equal characters after C-locale `tolower`; it has no contract of its own, and `ParseRangeValueText` shows every casing of the field name is accepted |
| LibcText.DecimalValue | curlhttpfs.c:265-266 | the decimal text `%llu` prints reads back as the same number |
| LibcText.ScanDecimal | curlhttpfs.c:204-205 | a `%lu` conversion after any white space yields the printed number and leaves the rest of the line |
| RangeHeader.ScanByteRange | curlhttpfs.c:204-205 | the `sscanf` pattern ` bytes %lu-%lu/%lu `; it has no contract of its own, and its meaning rests on `ParseRangeValueText`, which proves it reads back the three numbers a server prints |
| RangeHeader.ParseContentRange | curlhttpfs.c:201-210 | a range is recognised only on a line at least 14 characters long whose first 14 match `Content-Range:` ignoring case, and it is what ` bytes a-b/c` after that prefix denotes |
| RangeHeader.ParseRangeValueText | curlhttpfs.c:201-210 | whatever the case of the field name, ` bytes a-b/c` as printed reads back as exactly (a, b, c) |
| RangeHeader.ParseContentRangeLine | curlhttpfs.c:201-210 | a Content-Range line written for (a, b, c) is recognised as (a, b, c) |
| ResponseParser.StatusStep | curlhttpfs.c:157-183 | the status callback accepts the whole chunk exactly when the code lookup succeeds and the code is 416 or in [200,300); 416 changes nothing, a 2xx sets `status` and `in_header`, and nothing else changes |
| ResponseParser.HeaderStep | curlhttpfs.c:185-220 | a header line fails exactly when the status is not 206, or it is the blank line while no size is known; the blank line clears `in_header`; a matching Content-Range sets start, chunk (b+1-a) and size, and any other line leaves them |
| ResponseParser.Room | curlhttpfs.c:243-250 | the bytes kept of a body chunk never pass `destlen` and are the whole chunk unless the destination becomes full |
| ResponseParser.BodyStep | curlhttpfs.c:243-253 | a body chunk is always reported fully consumed, and the destination then holds the old captured bytes followed by the chunk, cut at `destlen` |
| ResponseParser.Step | curlhttpfs.c:222-254 | one callback keeps `len <= destlen`, only appends to the captured bytes, captures nothing outside the body, never moves the phase backwards, never goes from the status straight to the body, and never leaves the body once in it |
| ResponseParser.Run | curlhttpfs.c:222-254 | a whole reply keeps the bound, only appends, and only moves the phase forwards |
| ResponseParser.RunAppend | curlhttpfs.c:222-254 | feeding a reply in two parts is feeding it at once: the second part starts from where the first stopped, unless the first failed |
| ResponseParser.RangeNotSatisfiableSwallowsAll | curlhttpfs.c:169-172 | after a 416, `status` stays 0, so every later chunk is routed back to the status check and swallowed; the state, and so `len` and `dest`, never change |
| ResponseParser.BadStatusAborts | curlhttpfs.c:160-177 | a failed code lookup, or a code that is neither 416 nor 2xx, fails on the first chunk and leaves the state as it was |
| ResponseParser.OtherSuccessAborts | curlhttpfs.c:211-217 | a 2xx other than 206 fails at its first header line and captures nothing |
| ResponseParser.PlainHeadersKeepState | curlhttpfs.c:185-220 | header lines of no interest to a 206 are accepted and change nothing |
| ResponseParser.MissingContentRangeAborts | curlhttpfs.c:188-192 | a 206 whose headers carry no usable Content-Range fails at the blank line |
| ResponseParser.BodyCapture | curlhttpfs.c:243-253 | once in the body, any further chunks succeed, and the destination holds the captured bytes followed by the chunks, cut at `destlen` |
| ResponseParser.RangeLineStep | curlhttpfs.c:201-210 | the Content-Range line of a 206 records the span and size it names |
| ResponseParser.BlankLineStep | curlhttpfs.c:188-194 | once a size is known, the blank line ends the headers and changes nothing else |
| ResponseParser.RangeLineThenBody | curlhttpfs.c:185-253 | a Content-Range line, the blank line and a body yield the header's span and size, and the body cut at `destlen` |
| ResponseParser.PartialContentCaptured | curlhttpfs.c:157-254 | a well-formed 206 reply (status line, uninteresting headers, Content-Range, blank line, body) succeeds with the header's span and size, and the body cut at `destlen` |
| ResponseParser.ResponseBuffer.constructor | curlhttpfs.c:306-333 | the buffer starts with no status, no size known (-1), and an empty cursor over the caller's destination |
| ResponseParser.ResponseBuffer.ParseStatus | curlhttpfs.c:157-183 | `my_parse_status` changes the buffer's fields exactly as `StatusStep` says |
| ResponseParser.ResponseBuffer.ParseHeader | curlhttpfs.c:185-220 | `my_parse_header` changes the buffer's fields exactly as `HeaderStep` says |
| ResponseParser.ResponseBuffer.CopyIn | curlhttpfs.c:245-251 | the copy writes the chunk's first `n` bytes at the cursor and leaves every other destination byte alone |
| ResponseParser.ResponseBuffer.Feed | curlhttpfs.c:222-254 | `my_write_callback` changes the buffer exactly as `Step` says, keeps `len <= destlen`, and writes nothing at or past the new cursor |
| RangeFetch.RangeLast | curlhttpfs.c:265-266 | the range's last byte is `offset + size - 1` whenever that lies in 0..2^64-1 (so `offset - 1` for size 0 at a positive offset), and wraps to 2^64-1 when offset and size are both 0 |
| RangeFetch.RangeText | curlhttpfs.c:265-266 | the `sprintf` of `%llu-%llu`; it has no contract of its own, and its meaning rests on `RangeTextRoundTrip` |
| RangeFetch.RangeTextRoundTrip | curlhttpfs.c:265-266 | the range text names exactly the first and last byte asked for |
| RangeFetch.FetchModel | curlhttpfs.c:256-300 | the fetch succeeds exactly when the exchange completes and the callback takes every chunk; a successful fetch keeps the captured bytes within the destination and only adds to them |
| RangeFetch.ReadCurlBuffer | curlhttpfs.c:256-300 | the fetch returns -1 when the callback rejects a chunk or the exchange fails, otherwise `len`; its final buffer state is that of `Run` over the delivered chunks, and nothing past the cursor is written |
| HttpFs.Getattr | curlhttpfs.c:98-107 | a path is a directory (directory mode with permissions 0111, three links) exactly when it has length 1 or no '.' in it; otherwise a read-only regular file with one link |
| HttpFs.FileHandle.constructor | curlhttpfs.c:128-131 | a `struct httpfs_file` starts with the given URL and `is_dir` flag and an unknown size (-1) |
| HttpFs.Open | curlhttpfs.c:116-143 | a non-read-only access mode is refused with -EACCES; otherwise a new handle with URL `base_url ++ path`, unknown size, and `is_dir` exactly for an empty path or one ending in '/' |
| HttpFs.Clamp | curlhttpfs.c:320-327 | the requested length is `size`, cut to what remains of a known file |
| HttpFs.ReadModel | curlhttpfs.c:302-347 | -EISDIR exactly for a directory path; a read at or past a known size returns 0 without fetching; otherwise the clamped range is fetched, the read is -ENOENT exactly when that fetch fails, and on success the data are the captured bytes and an unknown size becomes the reply's `remote_size`; the only errors are -EISDIR and -ENOENT, which deliver nothing and keep the cache; a success returns the count delivered, at most `size`; a known size is never overwritten and never read past |
| HttpFs.Read | curlhttpfs.c:302-347 | `httpfs_read` returns, caches and delivers into `buf` what `ReadModel` says, and writes nothing past `size`, nor past the result on success |
| RangeServer.RespondToRead | curlhttpfs.c:265-266 | a server honouring the range answers a request inside the resource with a 206 for the bytes that exist |
| RangeServer.PartialReplyCaptured | curlhttpfs.c:222-300 | such a 206 is fetched in full, and it reports the resource's size |
| RangeServer.ReadFromServer | curlhttpfs.c:302-347 | against that server, a read at or past the end returns 0 and keeps the cache (a 416 reports no size); any other read of at least one byte returns exactly `resource[offset..min(offset+size, N)]` and caches N |
| RangeServer.WholeResourceFails | curlhttpfs.c:211-217 | a 200 reply carrying the whole resource is a failed fetch |
| RangeServer.ReadIgnoredRangeFails | curlhttpfs.c:335-339 | a read answered by a server that ignores ranges fails with -ENOENT, delivers nothing and keeps the cached size |
| RangeServer.ZeroSizeReadFails | curlhttpfs.c:265-266 | a read of size 0 at a positive offset with no size known asks for `offset-(offset-1)`, which names no byte; the server answers 200, and the read fails with -ENOENT instead of returning 0 |
| RangeServer.ReadIsNext | curlhttpfs.c:302-347 | against that server, a read at the session's offset returns no error, and appending its data and advancing by its result is exactly one step of `Next` |
| RangeServer.ReadAllStep | curlhttpfs.c:302-347 | each read of a reader that resumes where the last one ended advances it by one step of `Next` |
| RangeServer.TileCoversPrefix | curlhttpfs.c:302-347 | successive steps collect exactly the resource's prefix up to `min(start + sum of sizes, N)` |
| RangeServer.ReadAllIsTile | curlhttpfs.c:302-347 | the reads the file system performs follow those steps, so successive reads reassemble the resource |

## Left out

- `logmsg`, `main`, option parsing, the FUSE operation table, `httpfs_init` and `httpfs_destroy`: process glue and file I/O with no read-path behaviour.
- `httpfs_opendir` (always -EACCES) and `httpfs_release` (`free` of the handle): there is no state to model once allocation is left to Dafny.
- The `direct_io`, `keep_cache` and `nonseekable` flags `open` sets: they only instruct FUSE.
- The libcurl calls (`curl_easy_init`, `setopt`, `perform`, `cleanup`, `getinfo`): they are replaced by the `Transport` parameter. `CURLOPT_FOLLOWLOCATION` off and TLS verification on only shape which exchanges a transport can deliver.
- Concurrency: FUSE may run reads in parallel and race on `fh->size`. The model is sequential.
- RangeHeader.ParseContentRange: the `%lu` conversions take digits only; a sign and values beyond `unsigned long` are not modelled, nor the `(ssize_t)` casts of the three values, which go negative past 2^63-1.
- ResponseParser.Step: the chunk length is `size * nmemb`; its `size_t` overflow is not modelled.
- HttpFs.Read: `offset` is an unbounded natural. `off_t`'s sign and the `(int)` cast of the result are not modelled.
- HttpFs.Open: the unchecked `strcpy`/`strcat` into the 512-byte URL is a precondition (`|base_url| + |path| < 512`), not a failure path. The `malloc` result is not checked in the source and is assumed to succeed.
- LibcText.EqualsIgnoreCase: `strncasecmp` stops at a NUL in the header chunk; header lines are assumed to hold no NUL in their first 14 bytes. The chunk the callback receives is not NUL-terminated either: on a chunk shorter than 14 bytes `strncasecmp` reads past its end, and `sscanf` can read past the line. The model reads only the chunk and treats such a line as no match.
- Bytes are Dafny `char`s. No encoding is involved, since the source copies them verbatim.
- RangeServer.ReadFromServer: covers reads of at least one byte only. `httpfs_read` has no guard against size 0. With no size known and a positive offset, it sends the empty range `offset-(offset-1)`, and the read fails with -ENOENT (`ZeroSizeReadFails`). At offset 0 the range wraps to `0-18446744073709551615`. FUSE does not issue zero-length reads, so the end-to-end lemmas leave this case out. The server model ignores any `Range` it cannot read and sends the whole resource with a 200; the file system then fails that read (`ReadIgnoredRangeFails`).
