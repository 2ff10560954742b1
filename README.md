# Streamed download with rollback

This project models `src/download.rs` of a small desktop client that fetches
archives over HTTP.

- `download_file_internal` obtains a response for a URL.
- It then creates (or truncates) the file at a path.
- It appends every chunk of the response body to that file, in order.
- It stops at the first chunk that cannot be read or written.

`download_file` wraps it. After any error it removes whatever stands at the
path and returns the original message. When that removal fails, it returns a
compound message that embeds the original.

The network, the filesystem and the device are abstract:

- `Storage.FileSystem` is a class whose `entries: map<string, Entry>` the
  operations update in place. An `Entry` is either a file with its bytes or a
  directory.
- `create` and `remove_file` fail on a directory at the path. They also fail on
  paths named in two fixed oracle sets, `createDenied` and `removeDenied`, which
  stand for causes the model does not see: a missing parent, permissions.
- `write_all` receives a per-call fault. `Download.WriteFault` says which write
  fails, if any, and how many bytes it persisted before failing. A `write_all`
  of an empty chunk never fails, as in the standard library. A failing one
  persists part of its chunk, never all of it.
- `Http.Fetch` is what `reqwest::get` produced: no response (`Unreachable`), or
  a `Http.BodyStream`. That is a class over a finite sequence of items, each a
  `Chunk` of bytes or a `ReadError`. Its `pos` counts the items taken, which
  makes "nothing after the failure is read" checkable.

The methods `Download.DownloadFileInternal` and `Download.DownloadFile` follow
the Rust code step by step. The internal method has a `while` loop whose
invariant is: the file holds the concatenation of the items taken so far. Each
method is proved equal to a pure run of the old filesystem, the served items and
the fault oracle: `Download.InternalRun` and `Download.DownloadRun`. The
properties the code promises are lemmas about those runs, in module
`DownloadProperties`.

The cleanup runs on any error, including a failed fetch or a failed create.
So a file that was at the path before the call is deleted, and a directory in
the way yields the cleanup error. See `DownloadProperties.FetchFailure` and
`DownloadProperties.CreateFailure`.

## Model

| member | source | states |
|---|---|---|
| Storage.Persisted | src/download.rs:18-19 | one `write_all` leaves a prefix of its chunk in the file; the whole chunk exactly when no fault hits it or the chunk is empty |
| Storage.FileSystem.Exists | src/download.rs:29 | `Path::exists` is true exactly when a file or a directory stands at the path |
| Storage.FileSystem.Create | src/download.rs:11-12 | `File::create` fails exactly when a directory or a refusal stands at the path; on success the file exists and is empty (old content truncated), nothing else changes |
| Storage.FileSystem.WriteAll | src/download.rs:18-19 | appends what was persisted to the file at the path; succeeds exactly when there is no fault or the chunk is empty |
| Storage.FileSystem.RemoveFile | src/download.rs:30-31 | `fs::remove_file` removes the entry exactly when it is a file that may be removed; a failure changes nothing |
| Http.BodyStream.Next | src/download.rs:14-16 | `stream.next()` yields the next item and advances by one, or yields `None` at the end and stays put |
| Http.ConcatAppend | src/download.rs:16-20 | the bytes delivered by two item runs in sequence are those of the first followed by those of the second |
| Http.ConcatPrefix | src/download.rs:16-20 | the bytes delivered by any prefix of the stream are a prefix of what the whole stream delivers |
| Download.FirstFailure | src/download.rs:16-20 | the loop's stopping index: every earlier item is a chunk that is written without fault, and the item there (if any) fails to read or to write |
| Download.FirstFailureIs | src/download.rs:16-20 | that index is unique: any index meeting those conditions is the stopping index |
| Download.DownloadFileInternal | src/download.rs:6-23 | the method's result, the new filesystem and the number of items read equal `InternalRun` of the old filesystem, the served body and the fault oracle |
| Download.DownloadFile | src/download.rs:25-36 | the method's result, the new filesystem and the number of items read equal `DownloadRun`: the internal run followed by the cleanup rule |
| DownloadProperties.SuccessExactly | src/download.rs:11-22 | `Ok` exactly when a response arrives, the file can be created and every item is a chunk written without fault; then the file holds exactly the concatenated bytes, every item was read, and nothing else changed |
| DownloadProperties.PreviousContentIrrelevant | src/download.rs:11-12 | when the file can be created, an old file at the path, whatever its content, changes neither the result nor the final filesystem |
| DownloadProperties.FetchFailure | src/download.rs:7-33 | with no response the internal error is "Failed to get content at {url}" and the filesystem is untouched; the cleanup still deletes a pre-existing file, or wraps the error when it cannot |
| DownloadProperties.CreateFailure | src/download.rs:11-33 | when creation fails the internal error is "Failed to create file at {path}", nothing changes and no item is read; the cleanup then deletes a pre-existing file, or wraps the error when removal is refused, as it always is for a directory at the path |
| DownloadProperties.ReadFailureStops | src/download.rs:16-33 | the first unreadable item `k` ends the download with "Error while downloading file"; the file holds the chunks before `k`; exactly `k + 1` items were read; the cleanup then removes the file and returns that error, or, when removal is refused, keeps the file and returns the wrapped error |
| DownloadProperties.WriteFailureStops | src/download.rs:18-33 | a failing write of item `k` ends the download with "Error while writing file"; the file holds the chunks before `k` and a strict prefix of chunk `k`; no later item is read; no other entry changes; the cleanup then removes the file and returns that error, or, when removal is refused, keeps the partial file and returns the wrapped error |
| DownloadProperties.WrittenIsPrefix | src/download.rs:11-22 | once the file is created it always holds a prefix of the delivered bytes in order, and all of them on `Ok` |
| DownloadProperties.ErrorRollback | src/download.rs:26-33 | on `Ok` nothing is removed; after an internal error: with nothing at the path the error passes through unchanged; with a removable file it is deleted and the original error returned; with an entry that cannot be removed, the entry is kept and the error is "Failed file cleanup after error: " + the original; so something is left at the path exactly when the cleanup error is returned |
| DownloadProperties.OnlyPathTouched | src/download.rs:25-36 | no entry other than the path is ever created, changed or removed |
| DownloadProperties.CleanupErrorDistinct | src/download.rs:30-31 | the cleanup message differs from every internal message and from the error it wraps |
| DownloadProperties.ChunkBoundariesIrrelevant | src/download.rs:16-22 | two fault-free bodies delivering the same bytes in different chunks give the same result and filesystem |
| DownloadProperties.ExampleOverwrite | src/download.rs:11-22 | an old four-byte file is replaced by exactly the three bytes sent in chunks `[1,2]`, `[]`, `[3]`; the directory beside it is untouched |
| DownloadProperties.ExampleWriteFaultRollsBack | src/download.rs:16-33 | a fault on the second write removes the partial file and returns the write error; with removal refused, the partial file `[1,2,3]` stays and the compound message is returned |

## Left out

- The network is not modelled. `reqwest::get` and `bytes_stream` become an `Http.Fetch` value with a finite list of items, and the URL appears only in the error message. HTTP status codes are not interpreted, as in the code.
- `async` suspension, timeouts, cancellation and concurrent downloads to the same path are not modelled. The model runs one call at a time, and nothing else touches the filesystem during it.
- Download.DownloadFileInternal: requires the body stream to be unread (`pos == 0`). In the code the stream is made inside the function from a fresh response; here it is passed in.
- `Path::exists` is modelled as "an entry stands at the path". A permission error that makes it return false, and symbolic links, are not modelled.
- The reasons why `File::create`, `write_all` or `fs::remove_file` fail beyond a directory at the path are fixed oracles, not modelled causes.
- This model covers `src/download.rs` only.
- The UI (`src/components.rs`), the router (`src/route.rs`), the API client (`src/models.rs`), configuration persistence (`src/app_config.rs`) and start-up (`src/main.rs`) are not part of this model. They are rendering code or thin wrappers over external libraries.
