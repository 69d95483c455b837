# Stream and UploadedFile, modelled in Dafny

This project models the two classes of a small PHP HTTP-message library:

- `Stream` (src/Stream.php) wraps one PHP stream resource. On every call it checks again whether its resource is still usable. The resource must be set (not unset by `detach`), still open (not `fclose`d by anyone) and of type `stream`. Readability and writability come from the open mode that `stream_get_meta_data` reports. Operations check in a fixed order: availability, then permission, then whether the OS call failed. When the resource is gone, the queries return fixed defaults. Only `__toString` swallows errors.
- `UploadedFile` (src/UploadedFile.php) holds an upload's stream, size, error code and client file name and media type. If no size is given, the constructor records the stream's `getSize()`. Every other method reads a field back. `moveTo` has an empty body.

Layout:

- `wrappers.dfy`: `Option` (PHP null), `Result` and `Outcome` (PHP exceptions).
- `php.dfy`: PHP's `strpbrk`, which the permission checks use.
- `handles.dfy`: the OS handle, abstractly. A `HandleState` record holds the data, the position, the reported mode, the seekable flag, the end-of-file flag, an open flag, the resource type, and a flag for a device whose transfer calls all fail. Its member functions are the PHP builtins the wrapper calls. The `Handle` class holds one such record and gives the resource an identity: the code that opened the handle keeps a reference and can close it behind the wrapper's back.
- `stream_semantics.dfy`: one function per `Stream` method. Each gives the method's result and the state it leaves behind, in terms of a `View` of the wrapper's field (`Detached`, or `Attached` to a handle state).
- `stream_properties.dfy`: lemmas about those functions. They cover the defaults, the guard order, permissions, reading and writing at the position, seeking, the close/detach lifecycle and `__toString`.
- `stream.dfy`: the class `Stream`, with `var resource: Handle?`. Each method follows the PHP body step by step, updates the shared handle in place, and is proved equal to its semantic function.
- `uploaded_file.dfy`: the class `UploadedFile` and three client methods for what its accessors report.
- `stream_scenarios.dfy`: the situations of the library's Stream tests, run through the class.

Two points where the model keeps the code as written:

- tests/UploadedFileTest.php:79-140, like PSR-7's `UploadedFileInterface`, expects a one-time `moveTo` with checks, and a `getStream` that fails after a move. The code's `moveTo` is empty and `getStream` checks nothing. The model has both as written.
- `close()` calls `fclose` and then `detach()`. By then `detach()` finds the handle closed, returns null and leaves the field set. After `close()` the field still holds the closed handle, so the stream is unavailable. `Stream.Close` states exactly this.

## Model

| member | source | states |
|---|---|---|
| `Php.Strpbrk` | src/Stream.php:146 | `strpbrk` finds something iff some character of the haystack is in the list. What it returns is the haystack from the first such character on. |
| `StreamSemantics.RequireAvailable` | src/Stream.php:244-249 | Passes iff the resource is available. Otherwise it fails with "not available". |
| `StreamProperties.AvailabilityFollowsTheHandle` | src/Stream.php:254-257 | Available iff the field holds an open stream-type resource. Closing the handle, by anyone, makes the stream unavailable. A detached stream is unavailable. |
| `StreamProperties.UnavailableDefaults` | src/Stream.php:66-239 | An unavailable stream has null size and null metadata (whole array or any key). `eof` is true. `isSeekable`, `isReadable` and `isWritable` are false. |
| `StreamProperties.UnavailableOperationsFail` | src/Stream.php:84-221 | On an unavailable stream, `tell`, `seek`, `write`, `read` and `getContents` throw "The stream resource is not available." and change nothing. |
| `StreamProperties.WritingModes` | src/Stream.php:146 | A mode allows writing iff it contains `w`, `a`, `x`, `c` or `+`. |
| `StreamProperties.ReadingModes` | src/Stream.php:180 | A mode allows reading iff it contains `r` or `+`. |
| `StreamProperties.ReportedModes` | tests/StreamTest.php:201-248 | Reported modes: "w+b" (memory opened with 'w') is readable and writable. "wb" (stdout) is writable only. "rb" (stdin) is readable only. |
| `StreamProperties.WriteGuardOrder` | src/Stream.php:152-167 | `write` fails with "not available" iff unavailable. It fails with "not writable" iff available and the mode lacks a writing character. It fails with "failed to write" iff both checks pass and the device fails. No other failure exists. An exception leaves the state unchanged. |
| `StreamProperties.ReadGuardOrder` | src/Stream.php:186-201 | The same order for `read`. "Failed to read" happens iff the length is below 1 or the device fails. Exceptions leave the state unchanged. |
| `StreamProperties.GetContentsGuardOrder` | src/Stream.php:206-221 | The same order for `getContents`. Exceptions leave the state unchanged. |
| `StreamProperties.ReadAtPosition` | src/Stream.php:186-201 | `read(n)` fails iff n < 1. Otherwise it returns the min(n, remaining) bytes at the position and advances the position by that count. The data is unchanged. `eof` turns true iff fewer bytes remained than were asked for. |
| `StreamProperties.WriteAtPosition` | src/Stream.php:152-167 | `write(s)` returns \|s\| and overwrites the data at the position with `s`, extending the data if needed. The position moves past `s`, and nothing else about the handle changes. `tell` and `getSize` report the new position and length. |
| `StreamProperties.SeekOutcome` | src/Stream.php:116-125 | `seek` succeeds iff the stream is seekable and the target lies within the data. Success moves the position to the target and clears `eof`, leaving the data and the rest of the handle as they were. Failure throws "Failed to seek…" and changes nothing. |
| `StreamProperties.SeekBeforeStartFails` | tests/StreamTest.php:164-170 | `seek(-1)` always throws "Failed to seek…". So does a relative seek of -1 from position 0. |
| `StreamProperties.RewindGoesToStart` | src/Stream.php:130-133 | `rewind` (`seek(0)`) on a seekable stream sets the position to 0 and clears `eof`. Nothing else changes. |
| `StreamProperties.GetContentsReadsTheRest` | src/Stream.php:206-221 | `getContents` returns the data from the position to the end and leaves the stream at its end, with `eof` true. |
| `StreamProperties.MetadataEntries` | src/Stream.php:226-239 | `getMetadata` returns the mode and the seekable flag under their keys and null for any other key. The full array has exactly those keys. `isSeekable` equals the seekable entry. |
| `StreamProperties.CloseLifecycle` | src/Stream.php:40-46 | After `close` the stream is unavailable. Closing an available stream releases the handle and keeps its data. Closing an unavailable stream changes nothing, so closing twice is the same as closing once. |
| `StreamProperties.DetachLifecycle` | src/Stream.php:51-61 | `detach` on an available stream returns the untouched handle and unsets the field. On an unavailable stream it returns null and changes nothing. A second `detach` returns null. |
| `StreamProperties.ToStringContent` | src/Stream.php:24-35 | `__toString` gives the whole data on a seekable stream, wherever the position is. On an unseekable stream it gives the rest from the position. It gives the empty string when the stream is unavailable, unreadable or failing. A successful conversion leaves the position at the end with `eof` set. An unavailable or failing stream is left as it was, and an unreadable one is only rewound, when seekable. |
| `StreamProperties.WriteThenToString` | tests/StreamTest.php:46-51 | Bytes written to a read-write seekable stream come back from `__toString` with the unoverwritten data around them. On an empty stream they come back exactly. |
| `StreamProperties.WriteRewindRead` | tests/StreamTest.php:242-248 | Bytes written at the start of a read-write seekable stream are read back by `rewind` then `read` of their length. |
| `Streams.Stream.Create` | src/Stream.php:15-19 | Construction succeeds iff given an open stream resource, and the new stream wraps that very handle. Anything else throws "not available". |
| `Streams.Stream.IsResourceAvailable` | src/Stream.php:254-257 | Returns the live availability of the field's handle. |
| `Streams.Stream.ThrowIfResourceIsNotAvailable` | src/Stream.php:244-249 | Equals `RequireAvailable` of the current state. |
| `Streams.Stream.ToString` | src/Stream.php:24-35 | Result and new handle state are those of `StreamSemantics.ToString`. |
| `Streams.Stream.Close` | src/Stream.php:40-46 | The field keeps the same handle, whose state becomes `StreamSemantics.Close` of the old one. |
| `Streams.Stream.Detach` | src/Stream.php:51-61 | Returns the old handle and nulls the field iff the stream was available. Otherwise it returns null and keeps the field. |
| `Streams.Stream.GetSize` | src/Stream.php:66-79 | Equals `StreamSemantics.GetSize` of the current state. |
| `Streams.Stream.Tell` | src/Stream.php:84-95 | Equals `StreamSemantics.Tell` of the current state. |
| `Streams.Stream.Eof` | src/Stream.php:100-103 | Equals `StreamSemantics.Eof` of the current state. |
| `Streams.Stream.IsSeekable` | src/Stream.php:108-111 | Equals `StreamSemantics.IsSeekable` of the current state. |
| `Streams.Stream.Seek` | src/Stream.php:116-125 | Outcome and new handle state are those of `StreamSemantics.Seek`. |
| `Streams.Stream.Rewind` | src/Stream.php:130-133 | Outcome and new state are exactly those of `seek(0, SEEK_SET)`. |
| `Streams.Stream.IsWritable` | src/Stream.php:138-147 | Reading the mode through `getMetadata()` gives `StreamSemantics.IsWritable`. |
| `Streams.Stream.Write` | src/Stream.php:152-167 | Result and new handle state are those of `StreamSemantics.Write`. |
| `Streams.Stream.IsReadable` | src/Stream.php:172-181 | Reading the mode through `getMetadata()` gives `StreamSemantics.IsReadable`. |
| `Streams.Stream.Read` | src/Stream.php:186-201 | Result and new handle state are those of `StreamSemantics.Read`. |
| `Streams.Stream.GetContents` | src/Stream.php:206-221 | Result and new handle state are those of `StreamSemantics.GetContents`. |
| `Streams.Stream.GetMetadata` | src/Stream.php:226-239 | Equals `StreamSemantics.GetMetadata` of the current state and key. |
| `StreamScenarios.ConstructionRefusesOtherValues` | tests/StreamTest.php:38-44 | A non-resource value, or a closed handle, is refused with "not available". |
| `StreamScenarios.WrittenBytesComeBack` | tests/StreamTest.php:87-106 | On a memory stream, `write(s)` returns \|s\|. Then `getSize` and `tell` are \|s\|, and `__toString` gives `s`. |
| `StreamScenarios.ToStringRewinds` | tests/StreamTest.php:53-59 | `__toString` gives all the written bytes even after a seek into them. |
| `StreamScenarios.ClosedFromOutside` | tests/StreamTest.php:80-215 | Once the caller closes the raw handle, the wrapper gives all the unavailable defaults and throws "not available". `detach` returns null. |
| `StreamScenarios.CloseReleasesTheHandle` | tests/StreamTest.php:68-73 | `close()` closes the caller's handle, and the size becomes null. |
| `StreamScenarios.DetachReturnsTheHandle` | tests/StreamTest.php:75-78 | `detach()` returns the very handle, still open. A second call returns null. |
| `StreamScenarios.EofAfterAReadAtTheEnd` | tests/StreamTest.php:118-125 | `eof` is false on a fresh empty stream and true after a read at the end. |
| `StreamScenarios.NegativeSeekAndRead` | tests/StreamTest.php:164-170 | `seek(-1)` throws "Failed to seek…" and `read(-1)` throws "Failed to read…". |
| `StreamScenarios.WriteOnlyStream` | tests/StreamTest.php:61-66 | Stdout is writable, not readable and not seekable. `read` throws "not readable" and `__toString` gives "". |
| `StreamScenarios.ReadOnlyStream` | tests/StreamTest.php:224-240 | Stdin is readable, not writable. `write` throws "not writable" and leaves the handle unchanged. |
| `UploadedFiles.UploadedFile.constructor` | src/UploadedFile.php:32-44 | Stores the stream, the error code and the client metadata as given. The size is the given one, or else the stream's `getSize()` at construction. |
| `UploadedFiles.UploadedFile.MoveTo` | src/UploadedFile.php:49-52 | Changes neither the upload, nor its stream, nor the handle. |
| `UploadedFiles.UploadedFile.GetStream` | src/UploadedFile.php:57-60 | Returns the stored stream, with no check. |
| `UploadedFiles.UploadedFile.GetSize` | src/UploadedFile.php:65-68 | Returns the recorded size. |
| `UploadedFiles.UploadedFile.GetError` | src/UploadedFile.php:73-76 | Returns the stored error code. |
| `UploadedFiles.UploadedFile.GetClientFilename` | src/UploadedFile.php:81-84 | Returns the stored client file name. |
| `UploadedFiles.UploadedFile.GetClientMediaType` | src/UploadedFile.php:89-92 | Returns the stored client media type. |
| `UploadedFiles.UploadedFile.ThrowIfStreamIsNotAvailable` | src/UploadedFile.php:97-102 | Always passes, because the field always holds a stream. |
| `UploadedFiles.AccessorsReportConstructorArguments` | tests/UploadedFileTest.php:50-77 | The accessors of a new upload return the stream, size, error and client metadata it was given. With no size, they return the stream's size. |
| `UploadedFiles.DefaultsOfANewUpload` | src/UploadedFile.php:32-37 | An upload built from a stream alone reports the stream's size, `UPLOAD_ERR_OK`, and null file name and media type. |
| `UploadedFiles.MoveToChangesNothing` | src/UploadedFile.php:49-52 | Every accessor answers the same before and after `moveTo`. |

## Left out

- The one-time move: the checks for "already moved", an upload error, an empty target path and an unwritable directory, the 4096-byte chunked copy, and `getStream` failing after a move. The library's UploadedFile tests expect all of this, but `moveTo` has an empty body and `throwIfStreamIsNotAvailable` is never called. The model follows the code.
- src/Factory/StreamFactory.php is not part of this model. It only opens a resource (`fopen`, `fwrite`) and wraps it.
- Real I/O. The OS calls are functions of an abstract handle record. OS failure is one explicit input: a flag for a device on which `fstat`, `ftell`, `fseek`, `fread`, `fwrite` and `stream_get_contents` all fail. Per-call intermittent failures are not modelled.
- The handle model is a memory stream. Seeking past the end fails. Append-mode writes go to the position, not to the end. Standard input and output are represented only by their reported mode and seekability.
- `fread` refuses a length below 1, as PHP 7 does (the tests expect `read(-1)` to throw the library's read exception). PHP 8's `ValueError` is not modelled.
- The `$whence` argument is one of `SEEK_SET`, `SEEK_CUR` and `SEEK_END`. An arbitrary integer, which `fseek` would reject, is not modelled.
- The metadata array has only the `mode` and `seekable` entries the wrapper consults. Any other key reads as null.
- `UploadedFile` accepts any `StreamInterface` implementation. Here its stream is this project's `Stream`.
- Exception classes: every exception the wrapper throws is a `RuntimeException`. The model keeps the kind and its message (`StreamSemantics.Message`).
- Concurrency: the library is single-threaded and so is the model.
