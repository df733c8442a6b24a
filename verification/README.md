# s3nio core in Dafny

This project models the two central pieces of s3nio, a Java NIO filesystem over an S3-style
object store:

- **UnixPath**: a POSIX-style path kept as plain text. It is an immutable value. It offers
  creation, classification (root, absolute, empty), `resolve`, `getParent`, `resolveSibling`,
  `toAbsolutePath` and `normalize`.
- **S3SeekableByteChannel**: a read-only seekable channel over one object of the store. It keeps
  one window of `BUFFER_SIZE` (4096) bytes. A read serves bytes from the window, and an empty
  window is refilled with one ranged fetch of the object.

Files:

- `wrappers.dfy`: `Option` (Java's `null`), `Result` (a value or a thrown exception), and `Min`.
- `unix_path.dfy`, module `UnixPaths`: the path as `datatype UnixPath(path: string)`.
  - Every operation is a function.
  - The shared `ROOT_PATH` and `EMPTY_PATH` instances become the values `RootPath` and
    `EmptyPath`.
  - Reference identity and value equality coincide, as `UnixPath.equals` compares texts.
  - The two `java.lang.String` searches the code relies on are defined here with their
    contracts: `lastIndexOf` for every start, and `indexOf` for the non-negative starts that
    `normalize` uses.
- `unix_path_normalize.dfy`, module `UnixPathNormalize`: `normalize`.
  - `UnixPath.normalize`'s do-while loop is kept as a method, `Normalize`, with the body of the
    loop in `Pass` and `ScanPart` and the builder in `Join`.
  - The method is proved equal to `Normalized`. `Normalized` is a specification built from
    cutting the text into parts (`Parts`) and a left-to-right scan over them (`Step`, `Run`).
  - Lemmas about `Normalized` give the properties of normalisation: it is the identity exactly
    on paths without `.`, `..` or empty segments, it never lengthens a path, its result is
    normal, and it is idempotent.
- `s3_channel.dfy`, module `S3Channel`: the channel as a class with the fields of
  `S3SeekableByteChannel`.
  - `buffer` is an `array<bv8>`. `bufferPointer`, `bufferLimit`, `position` and `closed` are
    mutable fields; `size` is constant.
  - The remote object is a constant `content: seq<bv8>`. Its length is the size looked up when
    the channel opens.
  - A ranged fetch is answered by `GetObjectRange`. For a valid range it follows HTTP range
    semantics (section 2.1 of RFC 7233): the last byte is clipped to the end of the object, and
    a first byte past the end is refused as unsatisfiable. An invalid range is also refused:
    one with a negative first byte, or one whose last byte comes before its first. See
    "## Left out".
  - The fetched range reaches the channel as a sequence of chunks, one per call to the stream's
    `read`. How the network splits a range into chunks is not under the channel's control, so
    it is a parameter of `Read` and `Rebuffer`. The chunks carry the fetched bytes in order, but
    the stream may end early, even before the first byte (`Delivers`). `DeliversAll` says that
    the whole range arrives.
  - Each method is proved against a value-level function of the state. The state is a `Cursor`:
    the buffer's bytes, pointer, limit and position. `Read` follows `ReadStep`, `CopyWindow`
    follows `Serve`, and `Rebuffer` follows `Refill`.
  - Lemmas about those functions give what a read promises:
    - it answers -1 exactly at the end of the object;
    - it fails exactly when a refill is refused;
    - it answers 0 when it must refill and the stream delivers nothing;
    - it copies `n` bytes, as many as the window and the room in the destination allow, into
      the destination and nowhere else, and moves the pointer and the position by `n`;
    - while the window holds the object's bytes, it delivers the object's bytes.
  - `ReadOnce` and `ReadToEnd` are callers of the channel. For a store that delivers each range
    whole and in one chunk, `ReadToEnd` proves that reading until -1 yields exactly the object.
  - `position()` and `isOpen()` are modelled as `Position` and `IsOpen`. They are plain field
    reads whose body is the whole contract, so they have no `ensures` and no row below.

Behaviour kept as the code has it, where a conventional implementation would differ:

- `normalize` drops a leading `..` that has nothing to cancel: `../a` becomes `a`. A
  conventional normalisation keeps a leading `..` in place. `/..` becomes the empty path,
  because the `..` removes the root part `/`. See `NormalizeLeadingParentVanishes` and
  `NormalizeParentOfRootExample`.
- `position(long)` only sets the position. It neither checks the range nor invalidates the
  window. A seek therefore keeps the old window, and the next read serves stale bytes
  (`StaleReadAfterSeek`). A correct seek would keep the window only when the new position falls
  inside it, and otherwise force a refill.
- The refill range's upper bound is `min(size, position + BUFFER_SIZE - 1)`. Near the end this
  asks for byte `size`, one past the last byte, and the store clips it. The last byte of the
  object is `size - 1`.
- `read` does not check `closed`, so reads after `close` still succeed. `close` only sets the
  flag and keeps the buffer.
- A refill whose stream delivers no bytes leaves an empty window, and `read` then returns 0
  without moving (`ReadEmptyRefill`). It does not retry or report an error.
- `write` reports 0 bytes written instead of failing, although the channel is read-only.
  `truncate` fails with `UnsupportedOperation`.
- `relativize`, `startsWith`, `endsWith` and `getFileName` are stubs: they return `other`,
  `false`, `false` and the path itself.
- The refill's drain loop reads every chunk into the start of the buffer, while `bufferLimit`
  sums the lengths of all chunks. A range that arrives in one chunk fills the window correctly.
  A range that arrives in several chunks leaves bytes in the window that are not the object's
  (`SplitRefillBreaksWindow`). The window's coherence with the object is therefore proved for
  single-chunk refills (`RefillHolds`, `ReadCoherent`, `ReadOnce`, `ReadToEnd`).

## Model

| member | source | states |
|---|---|---|
| UnixPaths.IndexOf | src/main/java/com/github/fcofdez/s3fs/UnixPath.java:198 | the first position at or after `from` holding the character, or -1 exactly when there is none |
| UnixPaths.LastIndexOf | src/main/java/com/github/fcofdez/s3fs/UnixPath.java:76 | the last position at or before `from` holding the character, or -1 when there is none; a `from` past the end searches the whole text |
| UnixPaths.CreatePath | src/main/java/com/github/fcofdez/s3fs/UnixPath.java:27-35 | the path wraps the text verbatim; the empty text gives the shared empty path and "/" the shared root |
| UnixPaths.IsRootInternal | src/main/java/com/github/fcofdez/s3fs/UnixPath.java:37-39 | a text is the root exactly when it is "/" |
| UnixPaths.IsRoot | src/main/java/com/github/fcofdez/s3fs/UnixPath.java:41-43 | a path is the root exactly when it equals the root path |
| UnixPaths.IsAbsolute | src/main/java/com/github/fcofdez/s3fs/UnixPath.java:45-47 | a path is absolute exactly when its text starts with "/" |
| UnixPaths.IsEmpty | src/main/java/com/github/fcofdez/s3fs/UnixPath.java:102-104 | a path is empty exactly when it equals the empty path |
| UnixPaths.HasTrailingSeparator | src/main/java/com/github/fcofdez/s3fs/UnixPath.java:84-90 | a path has a trailing separator exactly when its text is some text followed by "/" |
| UnixPaths.Equals | src/main/java/com/github/fcofdez/s3fs/UnixPath.java:168-174 | two paths are equal exactly when their texts are, so equality is the model's value equality |
| UnixPaths.Resolve | src/main/java/com/github/fcofdez/s3fs/UnixPath.java:54-65 | an absolute operand wins; an empty operand leaves the base; otherwise the result is the base, one "/" unless the base already ends with one, then the operand |
| UnixPaths.GetParent | src/main/java/com/github/fcofdez/s3fs/UnixPath.java:72-82 | no parent exactly for the empty path, the root, and paths with no "/" before their last character; otherwise a proper prefix ending in "/" with no "/" between it and the last character, absolute exactly when the path is |
| UnixPaths.ResolveSibling | src/main/java/com/github/fcofdez/s3fs/UnixPath.java:97-100 | an absolute operand, or a path without a parent, gives the operand; otherwise the parent's text followed by the operand's, or the parent itself for an empty operand |
| UnixPaths.ToAbsolutePath | src/main/java/com/github/fcofdez/s3fs/UnixPath.java:136-139 | refused exactly when the working directory is not absolute; otherwise an absolute path, the path itself when already absolute, the working directory for the empty path, and else the directory, a glue "/" where needed, and the path |
| UnixPaths.ToAbsolutePathFromRoot | src/main/java/com/github/fcofdez/s3fs/UnixPath.java:144-146 | always absolute; an absolute path is kept, a relative one gains a leading "/" |
| UnixPaths.Relativize | src/main/java/com/github/fcofdez/s3fs/UnixPath.java:111-113 | stub: the operand, whatever the base |
| UnixPaths.StartsWith | src/main/java/com/github/fcofdez/s3fs/UnixPath.java:120-122 | stub: never true, not even for the path itself |
| UnixPaths.EndsWith | src/main/java/com/github/fcofdez/s3fs/UnixPath.java:129-131 | stub: never true, not even for the path itself |
| UnixPaths.GetFileName | src/main/java/com/github/fcofdez/s3fs/UnixPath.java:181-183 | stub: the whole path |
| UnixPaths.ParentOfResolve | src/main/java/com/github/fcofdez/s3fs/UnixPath.java:54-82 | resolving a single name against a path and taking the parent gives back that path, with a trailing "/" |
| UnixPaths.SiblingSharesParent | src/main/java/com/github/fcofdez/s3fs/UnixPath.java:97-100 | a sibling resolved from a single name has the same parent as the path it came from |
| UnixPaths.AbsoluteHasParent | src/main/java/com/github/fcofdez/s3fs/UnixPath.java:72-82 | every absolute path other than the root has a parent, and that parent is absolute |
| UnixPaths.ResolveAgainstEmpty | src/main/java/com/github/fcofdez/s3fs/UnixPath.java:61-64 | a relative name resolved against the empty path becomes absolute: "/" then the name |
| UnixPathNormalize.Normalize | src/main/java/com/github/fcofdez/s3fs/UnixPath.java:190-235 | the loop computes exactly the specification `Normalized`: the kept parts glued together when anything was dropped, the path itself otherwise |
| UnixPathNormalize.Pass | src/main/java/com/github/fcofdez/s3fs/UnixPath.java:197-224 | one pass cuts the part at `mark` and scans it; what remains to scan afterwards (nothing when no separator was found) yields the same final scan as before the pass; the size counter stays the length of the kept text |
| UnixPathNormalize.ScanPart | src/main/java/com/github/fcofdez/s3fs/UnixPath.java:202-221 | the switch does one `Step` of the scan: "." and "./" are dropped, ".." and "../" drop the last kept part, a lone "/" not at the start is dropped, other parts are kept; the size counter follows |
| UnixPathNormalize.Join | src/main/java/com/github/fcofdez/s3fs/UnixPath.java:229-234 | the builder yields the kept parts concatenated in order, of exactly the precomputed size |
| UnixPathNormalize.PartTests | src/main/java/com/github/fcofdez/s3fs/UnixPath.java:203-209 | the character tests of the scan agree with the switch's comparisons against ".", "./", "..", "../" and "/" |
| UnixPathNormalize.LoneSeparator | src/main/java/com/github/fcofdez/s3fs/UnixPath.java:215 | the part cut at `mark` is "/" exactly when the separator found is at `mark`, the case the default branch tests |
| UnixPathNormalize.NextPart | src/main/java/com/github/fcofdez/s3fs/UnixPath.java:198-200 | the part the loop cuts at `mark` is the first of the parts of the rest of the text, and the others follow the separator found |
| UnixPathNormalize.ScanNext | src/main/java/com/github/fcofdez/s3fs/UnixPath.java:197-224 | scanning the rest of the text is one step on the part cut at `mark`, then the scan of what follows the separator, if one was found |
| UnixPathNormalize.PartsConcat | src/main/java/com/github/fcofdez/s3fs/UnixPath.java:198-200 | gluing the parts the loop cuts gives back the text |
| UnixPathNormalize.PartsShape | src/main/java/com/github/fcofdez/s3fs/UnixPath.java:198-200 | every part but the last ends with its only "/", and the last part has none |
| UnixPathNormalize.PartsOfClosed | src/main/java/com/github/fcofdez/s3fs/UnixPath.java:198-200 | parts that each end with their only "/", followed by a text without "/", are cut back into exactly those parts |
| UnixPathNormalize.RunMutated | src/main/java/com/github/fcofdez/s3fs/UnixPath.java:202-221 | the scan marks the path mutated exactly when some part is dropped or cancels another; when nothing is, every part is kept |
| UnixPathNormalize.RunLength | src/main/java/com/github/fcofdez/s3fs/UnixPath.java:202-221 | the scan never lengthens the text, and shortens it whenever it marks a mutation |
| UnixPathNormalize.RunShape | src/main/java/com/github/fcofdez/s3fs/UnixPath.java:202-221 | the kept parts contain nothing the scan would drop, and keep the shape of parts: all closed by "/", except possibly a last one |
| UnixPathNormalize.NormalizedIdentity | src/main/java/com/github/fcofdez/s3fs/UnixPath.java:226-227 | normalisation returns the path itself exactly when it has no ".", ".." or empty segment |
| UnixPathNormalize.NormalizedNotLonger | src/main/java/com/github/fcofdez/s3fs/UnixPath.java:190-235 | normalisation never lengthens a path |
| UnixPathNormalize.NormalizedIsNormal | src/main/java/com/github/fcofdez/s3fs/UnixPath.java:190-235 | the result of normalisation has no ".", ".." or empty segment |
| UnixPathNormalize.NormalizedIdempotent | src/main/java/com/github/fcofdez/s3fs/UnixPath.java:190-235 | normalising twice is normalising once |
| UnixPathNormalize.NormalizeDropsCurrentDir | src/main/java/com/github/fcofdez/s3fs/UnixPath.java:203-206 | "a/./b" normalises to "a/b" for any names a and b |
| UnixPathNormalize.NormalizeDropsEmptySegment | src/main/java/com/github/fcofdez/s3fs/UnixPath.java:215-219 | "a//b" normalises to "a/b" for any names a and b |
| UnixPathNormalize.RunDropsMiddle | src/main/java/com/github/fcofdez/s3fs/UnixPath.java:202-221 | a "./" or lone "/" between two kept parts is dropped and both neighbours are kept |
| UnixPathNormalize.NormalizeParentCancelsName | src/main/java/com/github/fcofdez/s3fs/UnixPath.java:207-213 | "a/../b" normalises to "b" for any names a and b |
| UnixPathNormalize.RunCancels | src/main/java/com/github/fcofdez/s3fs/UnixPath.java:207-213 | a "../" after a kept part removes it, and the part after it is kept |
| UnixPathNormalize.NormalizeLeadingParentVanishes | src/main/java/com/github/fcofdez/s3fs/UnixPath.java:207-213 | a leading "../" with nothing to cancel vanishes: "../a" normalises to "a" |
| UnixPathNormalize.NormalizeParentOfRootExample | src/main/java/com/github/fcofdez/s3fs/UnixPath.java:207-213 | "/.." normalises to the empty path, as the ".." removes the root part |
| S3Channel.GetObjectRange | src/main/java/com/github/fcofdez/s3fs/S3SeekableByteChannel.java:74-80 | the store's answer to an inclusive range: refused exactly when the first byte is outside the object or after the last; otherwise the object's bytes from the first, up to the last or to the end of the object (an invalid range is refused rather than ignored, see Left out) |
| S3Channel.RangeRequest | src/main/java/com/github/fcofdez/s3fs/S3SeekableByteChannel.java:90-94 | the range starts at the position and ends at the size or BUFFER_SIZE - 1 bytes further, whichever is first; it is inverted (last before first) exactly when the position is past the size |
| S3Channel.FetchAt | src/main/java/com/github/fcofdez/s3fs/S3SeekableByteChannel.java:74-80 | the fetch a refill makes succeeds exactly when the position is inside the object, and yields the object's bytes from the position: a whole window's worth, or up to the end (a position past the end is refused, see Left out) |
| S3Channel.Overwrite | src/main/java/com/github/fcofdez/s3fs/S3SeekableByteChannel.java:81-85 | draining the stream chunk by chunk keeps the buffer's size and leaves the last chunk at its start |
| S3Channel.Splice | src/main/java/com/github/fcofdez/s3fs/S3SeekableByteChannel.java:65 | the destination after a bulk put: the same length, the piece at the offset, every other byte unchanged |
| S3Channel.Put | src/main/java/com/github/fcofdez/s3fs/S3SeekableByteChannel.java:65 | the destination's bulk put writes `len` bytes of the buffer from `offset` at `at` and changes nothing else |
| S3Channel.WindowAdvance | src/main/java/com/github/fcofdez/s3fs/S3SeekableByteChannel.java:63-68 | serving n bytes of a window that holds the object's bytes serves the object's bytes and leaves a window that still holds them |
| S3Channel.Refill | src/main/java/com/github/fcofdez/s3fs/S3SeekableByteChannel.java:73-88 | a refill succeeds exactly when the position is inside the object; then the pointer is 0 and the limit is the number of bytes the stream delivered, at most the fetched range; a stream that delivers the whole range fills a non-empty window, a whole one unless it reaches the end of the object |
| S3Channel.Serve | src/main/java/com/github/fcofdez/s3fs/S3SeekableByteChannel.java:61-70 | the copy loop keeps the cursor well formed and always answers a count (what it copies is stated by ServeKeeps and ServeCoherent) |
| S3Channel.ReadStep | src/main/java/com/github/fcofdez/s3fs/S3SeekableByteChannel.java:53-71 | a read keeps the cursor well formed and the destination's length (the rest is stated by the lemmas below) |
| S3Channel.ReadEndOfData | src/main/java/com/github/fcofdez/s3fs/S3SeekableByteChannel.java:54-55 | a read answers -1 exactly when the position is the size, and then changes nothing |
| S3Channel.ReadRefused | src/main/java/com/github/fcofdez/s3fs/S3SeekableByteChannel.java:57-59 | a read fails exactly when the window is empty and the position is outside the object; it fails with a refused range and changes nothing |
| S3Channel.ServeKeeps | src/main/java/com/github/fcofdez/s3fs/S3SeekableByteChannel.java:61-70 | serving copies n = min(unserved bytes, room left) bytes, at least one when there are room and unserved bytes, from the window's pointer into d[at..at+n]; it changes the destination nowhere else, keeps the buffer and limit, and moves the pointer and the position by n |
| S3Channel.ServeCoherent | src/main/java/com/github/fcofdez/s3fs/S3SeekableByteChannel.java:61-70 | serving a window that holds the object's bytes copies the object's bytes from the position and keeps the window holding them |
| S3Channel.ReadEmptyRefill | src/main/java/com/github/fcofdez/s3fs/S3SeekableByteChannel.java:57-70 | a read that must refill, from a position inside the object, with a stream that delivers nothing, answers 0; the window stays empty and the position and destination are unchanged |
| S3Channel.ReadServes | src/main/java/com/github/fcofdez/s3fs/S3SeekableByteChannel.java:53-71 | a successful read before the end serves the window it finds, or the refilled one if it found it empty: n = min(unserved bytes, room) bytes, copied from the window's pointer into d[at..at+n] and nowhere else; n is at least one when the destination has room, unless an empty window was refilled from a stream that ended early; the pointer and the position move by n |
| S3Channel.RefillHolds | src/main/java/com/github/fcofdez/s3fs/S3SeekableByteChannel.java:73-88 | a refill that arrives in one chunk, whole or cut short, leaves a window holding the object's bytes |
| S3Channel.ReadCoherent | src/main/java/com/github/fcofdez/s3fs/S3SeekableByteChannel.java:53-88 | while the window holds the object's bytes and a refill arrives in one chunk, a read delivers the object's bytes from the position and keeps the window holding them |
| S3Channel.ReadAdvances | src/main/java/com/github/fcofdez/s3fs/S3SeekableByteChannel.java:53-88 | from a position inside the object, with a coherent window and refills delivered whole in one chunk, a read never fails: -1 exactly at the end, otherwise the object's next n > 0 bytes at the start of the destination |
| S3Channel.SplitRefillBreaksWindow | src/main/java/com/github/fcofdez/s3fs/S3SeekableByteChannel.java:81-87 | a refill of the object [1, 2] delivered whole but in two chunks leaves a window that does not hold the object's bytes |
| S3Channel.SeekableByteChannel.constructor | src/main/java/com/github/fcofdez/s3fs/S3SeekableByteChannel.java:22-40 | the size is the object's length, the position is 0, the window is empty, the buffer is new and zeroed, and the channel is open |
| S3Channel.SeekableByteChannel.Remaining | src/main/java/com/github/fcofdez/s3fs/S3SeekableByteChannel.java:96-98 | the unserved bytes of the window: between 0 and BUFFER_SIZE, and 0 exactly when the pointer meets the limit |
| S3Channel.SeekableByteChannel.Rebuffer | src/main/java/com/github/fcofdez/s3fs/S3SeekableByteChannel.java:73-88 | succeeds exactly when `Refill` does, and then leaves the state `Refill` gives; a refused fetch changes nothing |
| S3Channel.SeekableByteChannel.Read | src/main/java/com/github/fcofdez/s3fs/S3SeekableByteChannel.java:53-71 | the new state, destination and answer are those of `ReadStep` on the old state |
| S3Channel.SeekableByteChannel.CopyWindow | src/main/java/com/github/fcofdez/s3fs/S3SeekableByteChannel.java:61-70 | the new state, destination and count are those of `Serve` on the old state |
| S3Channel.SeekableByteChannel.SetPosition | src/main/java/com/github/fcofdez/s3fs/S3SeekableByteChannel.java:112-117 | only the position changes, to the new one, unchecked; the window is kept; the channel itself is returned |
| S3Channel.SeekableByteChannel.Size | src/main/java/com/github/fcofdez/s3fs/S3SeekableByteChannel.java:120-122 | the object's length |
| S3Channel.SeekableByteChannel.Write | src/main/java/com/github/fcofdez/s3fs/S3SeekableByteChannel.java:101-104 | writes nothing and reports 0 bytes written |
| S3Channel.SeekableByteChannel.Truncate | src/main/java/com/github/fcofdez/s3fs/S3SeekableByteChannel.java:125-127 | always fails with an unsupported operation |
| S3Channel.SeekableByteChannel.Close | src/main/java/com/github/fcofdez/s3fs/S3SeekableByteChannel.java:135-137 | the channel is closed afterwards and no longer open; the position and window are kept |
| S3Channel.ReadOnce | src/main/java/com/github/fcofdez/s3fs/S3SeekableByteChannel.java:53-88 | for a store that delivers each range whole and in one chunk, one read from a position inside the object with a coherent window: -1 exactly at the end, otherwise 0 < n <= the destination's length, the position moves by n, and the destination starts with the object's next n bytes |
| S3Channel.ReadToEnd | src/main/java/com/github/fcofdez/s3fs/S3SeekableByteChannel.java:53-88 | for a store that delivers each range whole and in one chunk, opening a channel and reading until -1 yields exactly the object's bytes |
| S3Channel.StaleReadAfterSeek | src/main/java/com/github/fcofdez/s3fs/S3SeekableByteChannel.java:112-117 | after reading byte 10 of [10, 20, 30] and seeking back to 0, the next read yields 20, not 10 |

## Left out

- Java's `null` results are `None`. An exception is an `Err` or `None` result where the model has
  an error path: the refused range of a refill, the argument check of `toAbsolutePath`, and
  `truncate`.
- `create` is left out. It dispatches on the runtime class of a `Path` (`S3Path`, from the rest
  of the filesystem, which is not part of this model). The channel's constructor takes the
  object's bytes in place of the client, bucket and key.
- The size lookup (`headObject`) is left out: the object is assumed to exist. Its `NotFound`
  failure, and transport failures during a fetch or a stream read, are not modelled; a stream
  that ends early is modelled, as chunks that carry only a prefix of the range. A refill
  refused by the store is an `Err(RangeNotSatisfiable)` result.
- The text form of the range header (`bytes=%d-%d`) is left out. `RangeRequest` gives the two
  numbers.
- The Java `long` and `int` widths are not modelled: positions and counts are unbounded
  integers. Overflow would need objects beyond 2^63 bytes or a seek near `Long.MAX_VALUE`.
- The destination `ByteBuffer` is an array plus a start offset. Its limit is the array's length.
  Its position after a read is the start offset plus the count returned.
- The `CharSequence` members of `UnixPath` are not modelled: `length`, `charAt`, `subSequence`,
  `toString` and `hashCode` only delegate to the text. The lazily filled `splittedPath` field is
  never used by the code shown, so it is left out too.
- The reference identity of `UnixPath` (`return this`, shared `ROOT_PATH` and `EMPTY_PATH`) is
  value equality here.
- Concurrency and changes to the remote object while a channel is open are not modelled.
- S3Channel.GetObjectRange: an invalid range is refused. Such a range has a negative first byte,
  or a last byte before its first. `RangeRequest` produces one only after an unchecked seek to
  a negative position or past the size. An HTTP store must ignore such a Range header and answer
  with the whole object. The drain loop would then read the whole object into the window, and
  `bufferLimit` could exceed `BUFFER_SIZE`. That answer and what follows from it are not
  modelled.
- S3Channel.FetchAt: a refill at a position past the size is refused, because `GetObjectRange`
  refuses the inverted range, as above.
- S3Channel.ReadRefused: "a read fails exactly when the window is empty and the position is
  outside the object" rests on that refusal. For a position past the size, an HTTP store would
  instead send the whole object, as above.
- S3Channel.RangeRequest: the range itself is exact. What the store does with an inverted range
  (position past the size) is modelled as a refusal; see the `GetObjectRange` line above.
- S3Channel.ReadCoherent: the window's coherence with the object is stated only for refills
  that arrive in one chunk. A refill in several chunks does not keep it, as the code is written
  (`SplitRefillBreaksWindow`).
- S3Channel.ReadAdvances: assumes that each refill delivers the whole fetched range in one
  chunk. A range split over several chunks breaks the window, as above. A stream that ends
  early makes the read answer 0 (`ReadEmptyRefill`).
- S3Channel.ReadOnce: assumes a store that delivers each fetched range whole and in one chunk,
  for the same reasons.
- S3Channel.ReadToEnd: proved only for a store that delivers each range whole and in one chunk,
  because it reads through `ReadOnce`. With a range split over several chunks the drain loop corrupts the
  window, and the bytes read are not the object's (`SplitRefillBreaksWindow`).
- The remaining files of the repository are not part of this model. These are the filesystem
  provider, the filesystem, `S3Path`, the directory stream and the utilities.
