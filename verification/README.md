# Image sequences: readers, writers and their containers

This project is a Dafny model of a small C++ library for image sequences. The library has two factories:

- A reader factory. It opens a frame sequence from one of several storage formats and hands out frames by number.
- A writer factory. It stores numbered frames in one of those formats.

The model covers these parts:

- **The archive reader.** It reads a tar archive, optionally with a `::<pattern>` naming the frames inside it. It builds two indexes: one from entry names to archive positions, and one from frame numbers to positions. It then seeks through the archive stream.
- **The archive writer.** It appends one entry per frame, named by the pattern. It uses a pax tar, gzip-compressed when the path asks for that.
- **The MultiPng container.** This is one file of concatenated PNG images plus a text index `<frame> <start> <end>` per line. The model covers the writer's byte and index bookkeeping, index loading, the reader's cursor, and the libpng transform pipeline that decides a decoded frame's channel count and depth.
- **The `.pngv` sequence adapters** built on that container.
- **The offset wrapper.** A path `<inner path>::<n>` with a non-zero `n` shifts every frame number by `n`.
- **The ffmpeg reader.** It reads a forward-only pipe that must be reopened to go back.
- **The factories themselves.** They try the backends in a fixed order and keep the first that opens.

External libraries and the file system are parameters:

- libpng, OpenCV and libarchive are abstract codec functions;
- the set of existing files and archives is a map;
- `sprintf` of a frame pattern is a `Formatter`;
- the ffmpeg pipe is the finite list of frames it would deliver.

Each stateful object is an immutable record. Each call is a pure function returning the new record and, for readers, the frame.

| module | file | models |
|---|---|---|
| `Wrappers` | wrappers.dfy | `Option` and `Result` |
| `Text` | text.dfy | `strstr(…, "::")`, suffix tests, C `atoi`, `%d` spelling |
| `Tables` | tables.dfy | `std::map` filled by assignment; ordered key walks |
| `Stream` | stream.dfy | reading forward through a stream of entries |
| `Media` | media.dfy | images and the image codec |
| `Archive` | archive.dfy | archive entries, metadata and filters |
| `ArchiveReader` | archive_reader.dfy | `SequenceReaderArchive` |
| `ArchiveWriter` | archive_writer.dfy | `SequenceWriterArchive` |
| `MultiPng` | multipng.dfy | `MultiPngWriter`, `MultiPngReader` |
| `MultiPngSequence` | multipng_sequence.dfy | `SequenceReaderMultiPng`, `SequenceWriterMultiPng` |
| `FfmpegReader` | ffmpeg_reader.dfy | `SequenceReaderFfmpeg` |
| `Trial` | trial.dfy | "first of these that opens" |
| `SequenceReaders` | reader_factory.dfy | `SequenceReader::Create`, `SequenceReaderOffset`, dispatch, `SequenceReaderMultiFile` |
| `SequenceWriters` | writer_factory.dfy | `SequenceWriter::Create`, dispatch, `SequenceWriterMultiFile` |
| `RoundTrips` | round_trips.dfy | writing a sequence and reading it back |

## Model

| member | source | states |
|---|---|---|
| Text.SplitAtSeparator | src/SequenceReaderOffset.h:38-43 | The path is cut at its first `::`. The result exists exactly when the path holds a separator. Head, `::` and tail rebuild the path, and the head holds no separator. |
| Text.SplitOfJoin | src/SequenceReaderArchive.h:87-95 | Joining an archive path and a pattern with `::` and cutting again gives both back, provided the path holds no `::` and does not end in `:`. |
| Text.AtoiDecimal | src/SequenceReaderOffset.h:39 | `atoi` reads back the `%d` spelling of any integer, also when non-digit text follows it. |
| Text.AtoiOfWord | src/SequenceReaderOffset.h:39 | `atoi` is 0 on text that starts with a letter, so a name pattern after `::` is not an offset. |
| Stream.ScanForward | src/SequenceReaderArchive.h:208-215 | Reading forward from position `cur` stops at the target, or at the end of the stream when the target lies beyond it. It never moves backwards. |
| ArchiveReader.ScanNames | src/SequenceReaderArchive.h:152-167 | Every entry name is in the name index. Each name maps to a position holding that name, and no later entry has the same name (the last one wins). |
| ArchiveReader.ExpandPattern | src/SequenceReaderArchive.h:172-188 | The frame map holds exactly the numbers from `first` up to where the pattern first names a missing entry, or `last`. Each maps to the position of its named entry. |
| ArchiveReader.Index | src/SequenceReaderArchive.h:109-127 | Indexing clamps a negative first frame to 0. The reader is seekable iff the archive path ends in `.tar` and no compression filter is present. Without a pattern the frame map is empty. With one, the frame map holds exactly `first..last`, each number mapped to the entry its formatted name finds. |
| ArchiveReader.IndexStopsAtMissingName | src/SequenceReaderArchive.h:172-188 | When the frame map ends before the requested last frame, the next frame's formatted name is absent from the archive. Every frame in range has its name present. |
| ArchiveReader.Seek | src/SequenceReaderArchive.h:190-224 | Seeking succeeds iff the target is at most the entry count, and then the cursor is at the target. A seekable archive jumps straight to the target. A non-seekable one rewinds to the start for a backward target and scans forward otherwise. A failed seek leaves the cursor at the end. |
| ArchiveReader.Read | src/SequenceReaderArchive.h:227-267 | The returned frame is the decoded entry that the frame map (or the frame number itself, without a map) designates. On a closed reader, or for a number that is not an archive ordinal (without a map) or not a key of the map, Read returns nothing and changes no state. Otherwise the frame cursor becomes `pos + 1`, and the archive cursor moves one past the entry. |
| ArchiveReader.Open | src/SequenceReaderArchive.h:81-147 | Opening succeeds iff the archive exists and its first frame decodes. The first frame is clamped to 0, and after opening the cursor stands after the first frame. |
| ArchiveReader.Close | src/SequenceReaderArchive.h:53-68 | After Close, First and Last are -1, both cursors are 0, and no frame number is admitted. |
| ArchiveReader.ReadOrderIrrelevant | python/tests.py:96-115 | Reading any sequence of frame numbers from one reader returns, at each step, the frame that number designates. Forward, backward and random orders therefore give the same frames. |
| ArchiveReader.PatternMissReadsOrdinal | src/SequenceReaderArchive.h:172-188 | When the first frame's formatted name is missing, the frame map stays empty and frame `first` is read as the entry at that ordinal position. |
| ArchiveWriter.FormatFor | src/SequenceWriterArchive.h:95-106 | `.tar.gz` and `.tgz` give gzip-compressed pax, `.tar` gives plain pax, and any other ending gives no format. |
| ArchiveWriter.Open | src/SequenceWriterArchive.h:59-118 | Opening succeeds iff the path holds `::`, the archive part has a known extension, and the archive can be created. Without `::` the error says whether the path looked like an archive. The writer starts empty at frame 0 with the pattern after `::`. |
| ArchiveWriter.Write | src/SequenceWriterArchive.h:120-147 | Writing appends exactly one entry and keeps the earlier ones. The entry is named by the pattern at the frame number: the given position, or the counter for a negative one. It holds the encoded image as a regular file with mode 0644 and all three times set to the clock. The counter moves past that frame. |
| ArchiveWriter.NextNamesNextWrite | src/SequenceWriterArchive.h:120-153 | A write without a position names its entry for frame Next, and after any write Next is one past the frame stored. |
| ArchiveWriter.Close | src/SequenceWriterArchive.h:44-57 | The finished archive holds the written entries in order, with the compression filters of its format. |
| ArchiveWriter.WriteAllNames | src/SequenceWriterArchive.h:120-137 | After n writes without a position, entry j holds image j under the name of frame `pos + j`. |
| FfmpegReader.ReadNext | src/SequenceReaderFfmpeg.h:119-127 | A frame comes back iff the pipe has one left. Then it is the frame at the cursor and the cursor advances; otherwise nothing changes. |
| FfmpegReader.SetLast | src/SequenceReaderFfmpeg.h:101-105 | Draining the pipe leaves the cursor at the frame count, and Last is one less. |
| FfmpegReader.Seek | src/SequenceReaderFfmpeg.h:184-203 | Seeking succeeds iff the target lies between 0 and the frame count. A backward target restarts the pipe and reads forward. A failed seek stops at the nearest reachable position. |
| FfmpegReader.Read | src/SequenceReaderFfmpeg.h:148-153 | Reading frame `pos` gives the frame at that index iff it exists, and leaves the cursor after it. |
| FfmpegReader.ReadAtNextSkipsNothing | src/SequenceReaderFfmpeg.h:148-172 | Reading at Next is exactly one ReadNext: no restart and no skipped frame. After a read at `pos` that delivers a frame, Next is `pos + 1`. |
| FfmpegReader.Open | src/SequenceReaderFfmpeg.h:52-68 | Opening succeeds iff the video can be probed and the pipe opens. The first frame is clamped to 0. Last is the counted length minus one, or a smaller positive `last` when one is asked for. |
| MultiPng.StoredIsColor | src/MultiPng.cpp:302-304 | A stored image counts as colour iff its colour-type code has the colour bit (2) set. |
| MultiPng.ColorTypeFor | src/MultiPng.cpp:142-144 | One channel is written as gray, three as RGB and anything else as RGBA. |
| MultiPng.ColorTypeKeepsChannels | src/MultiPng.cpp:142-144 | The chosen colour type has as many samples per pixel as the image has channels exactly for 1, 3 and 4 channels. |
| MultiPng.SetPos | src/MultiPng.h:50-51 | SetPos then GetPos returns the position set, and touches neither the data nor the index. |
| MultiPng.Write | src/MultiPng.cpp:105-198 | A write succeeds iff the depth is supported and the data file is open; on failure nothing changes. On success the data grows by the encoded image, and the index gains the line `<idx> <old size> <new size>` when the index file is open. The frame counter advances by one. |
| MultiPng.OnlySupportedDepthsWrite | src/MultiPng.cpp:100-116 | Only 8- and 16-bit depths are written; any other depth fails and leaves the container as it was. |
| MultiPng.WritePreservesDisjoint | src/MultiPng.cpp:177-186 | A write keeps the index lines' byte ranges within the data and pairwise disjoint. |
| MultiPng.WritePreservesTiled | src/MultiPng.cpp:177-186 | With both files open, a write keeps the index lines tiling the data end to end from byte 0. |
| MultiPng.TiledIsDisjoint | src/MultiPng.cpp:177-186 | Index lines that tile the data describe disjoint ranges. |
| MultiPng.LoadIndex | src/MultiPng.cpp:229-233 | The loaded index has a key for every line's frame and no other key. A frame's range is that of its last line. |
| MultiPng.Length | src/MultiPng.h:128-131 | GetLength is 0 exactly for an empty index, and never exceeds Last - First + 1. |
| MultiPng.First | src/MultiPng.h:112-118 | First is -1 for an empty index and otherwise the least frame number. |
| MultiPng.Last | src/MultiPng.h:120-126 | Last is -1 for an empty index and otherwise the greatest frame number. |
| MultiPng.Load | src/MultiPng.cpp:200-245 | A loaded reader carries the data file (if present) and the index built from the index file (empty if absent). Its cursor is at the least frame, or -1 if there is none. |
| MultiPng.SetNext | src/MultiPng.h:134-140 | SetNext moves the cursor to `pos` iff `pos` is an indexed frame of an open container, or -1; otherwise the cursor becomes -1. Nothing else changes. |
| MultiPng.ColorOutput | src/MultiPng.cpp:328 | A positive request yields colour, 0 yields gray, and a negative request keeps the stored colour. |
| MultiPng.Transforms | src/MultiPng.cpp:340-370 | The transform list always strips alpha and follows libpng's stage order. |
| MultiPng.TransformsMembers | src/MultiPng.cpp:340-370 | A transformation is in the list iff its stage asks for it: strip-16 or swap by depth and host, alpha stripping always, palette and low-gray expansion by colour type and depth, and exactly one colour conversion chosen by stored colour and request. |
| MultiPng.TransformsDepth | src/MultiPng.cpp:340-343 | Samples are stripped to 8 bits iff the depth exceeds 8 and native depth is not kept. Otherwise the bytes are swapped iff the host is little-endian. |
| MultiPng.TransformsExpansion | src/MultiPng.cpp:355-363 | Palette images are expanded to RGB, and low-depth gray is expanded to 8 bits. |
| MultiPng.TransformsColour | src/MultiPng.cpp:365-370 | A colour image read as colour is put in BGR order, and a gray image read as colour is turned into RGB. Whenever gray is the output, the RGB-to-gray conversion is requested. Each holds in both directions. |
| MultiPng.AllocatedChannels | src/MultiPng.h:93 | As written, the frame buffer gets 3 channels for every non-zero colour request, including the default "as stored" request. |
| MultiPng.AllocatedChannelsMismatch | src/MultiPng.h:93 | For a gray image read with the default request, the buffer has 3 channels but libpng delivers 1. |
| MultiPng.AllocatedDepthMismatch | src/MultiPng.h:93 | As written, the buffer depth is the stored bit depth. It is 4 for a 4-bit gray image that libpng expands to 8, and 16 for a 16-bit image that is stripped to 8. |
| MultiPng.FrameChannels | src/MultiPng.cpp:328 | The corrected frame has 3 channels iff the output is colour, and 1 otherwise. |
| MultiPng.FrameDepth | src/MultiPng.cpp:340-343 | The corrected frame is 16 bits deep iff the stored depth exceeds 8 and native depth is kept, and 8 bits otherwise. |
| MultiPng.FrameShapeMatchesDecode | src/MultiPng.cpp:323-390 | The corrected channel count and depth equal what the transform pipeline delivers, for every header, request and host. |
| MultiPng.Tail | src/MultiPng.h:84-88 | Seeking to a start offset inside the data leaves exactly the bytes after it to decode. An offset outside the data leaves nothing. |
| MultiPng.Decode | src/MultiPng.cpp:269-390 | A frame is decoded iff its header parses, its width and height are non-zero, and its pixels decode through the transform list. The frame has the header's size, and its shape is the corrected channel count and depth. |
| MultiPng.Read | src/MultiPng.h:74-110 | Read returns the frame at the cursor, decoded with the corrected shape (see Findings). With no data, a -1 cursor or an unindexed cursor, nothing changes. Otherwise the cursor moves to the next indexed frame above it, or -1 past the last. |
| MultiPng.NextIsWhatReadDelivers | src/MultiPng.h:134-145 | After SetNext(pos), Next is `pos` when that frame exists in an open container and -1 otherwise. Read returns the frame stored under Next, and then Next is the next larger indexed frame. |
| MultiPng.SetNextThenRead | src/MultiPng.h:134-140 | SetNext(pos) followed by Read returns the frame at `pos`. |
| MultiPng.FramesAt | src/MultiPng.h:74-110 | The frames at a list of positions are, element by element, the frame at each position. |
| MultiPng.FramesIgnoreCursor | src/MultiPng.h:74-110 | The frame at a position does not depend on where the cursor stands. |
| MultiPng.ReadsAscend | src/MultiPng.h:74-110 | From the first indexed frame above `t`, repeated Reads return every frame above `t` in ascending order. |
| MultiPng.ReadsFromFirst | src/MultiPng.h:112-131 | From First, GetLength Reads return every indexed frame in ascending order. |
| MultiPng.NewContainerIsEmpty | src/MultiPng.cpp:82-92 | With the corrected loader, a container just created reads back with no frames, and First, Last and Next are -1 (see Findings for the loader as written). |
| MultiPng.RepeatedLastLine | src/MultiPng.cpp:229-233 | Storing the last index line a second time, as the extraction loop's final pass does, leaves the loaded index unchanged. |
| MultiPng.LoadIndexAsWritten | src/MultiPng.cpp:222-233 | As written, the loop's extra pass makes no difference after a non-empty index file, but turns an empty one into a one-frame index under whatever the unset variables hold. |
| MultiPng.EmptyIndexLoadsPhantomFrame | src/MultiPng.cpp:222-233 | The empty index file of a new container loads, as written, as exactly one frame; the corrected loader gives no frame. |
| MultiPngSequence.Open | src/SequenceReaderMultiPng.h:51-100 | Opening succeeds iff the path ends in `.pngv` and the (possibly clamped) first frame decodes. First and Last are the clamped bounds, and the container's cursor is at First. |
| MultiPngSequence.OpenLast | src/SequenceReaderMultiPng.h:77-79 | A positive requested last frame is capped at the container's last frame; otherwise Last is the container's. |
| MultiPngSequence.Read | src/SequenceReaderMultiPng.h:103-117 | A closed reader returns nothing. An open one returns the container's frame at `pos`, and after a successful read Next is the next indexed frame above `pos`. |
| MultiPngSequence.Next | src/SequenceReaderMultiPng.h:132-138 | Next is the container's cursor, or -1 when closed. |
| MultiPngSequence.Close | src/SequenceReaderMultiPng.h:38-49 | A closed reader has no container and Next is -1. |
| MultiPngSequence.OpenThenRead | src/SequenceReaderMultiPng.h:51-117 | After a successful Open, reading First succeeds, and Next moves to the following indexed frame. |
| MultiPngSequence.OpenWriter | src/SequenceWriterMultiPng.h:47-61 | Assuming both container files can be created (see Left out), a writer opens iff the path ends in `.pngv`, with a new empty container at frame 0. |
| MultiPngSequence.Write | src/SequenceWriterMultiPng.h:64-74 | The frame is stored under the given position, or the counter for a negative one. When the data file opens, the data grows by the image encoded as 8-bit PNG of the matching colour type. When the index file opens as well, the index gains that frame's line; when only the index file fails, the index is unchanged. When the data file does not open, data and index are unchanged. The counter moves past that frame in every case. |
| MultiPngSequence.CloseWriter | src/SequenceWriterMultiPng.h:38-45 | A closed writer has no container and Next is 0. |
| Trial.FirstSome | src/SequenceReader.cpp:31-82 | An ordered trial succeeds iff some candidate opens. It returns that of the earliest candidate that does, all earlier ones having failed. |
| SequenceReaders.Create | src/SequenceReader.cpp:31-82 | A missing path gives no reader. A reader Create returns is valid and comes from a backend of the build's order; the offset wrapper only for a path holding `::`. |
| SequenceReaders.ReaderOrder | src/SequenceReader.cpp:38-79 | The offset wrapper is tried first. MultiPng and the OpenCV capture are tried exactly when built in. Otherwise the order is MultiPng, single files, archive, ffmpeg, capture. |
| SequenceReaders.Shift | src/SequenceReaderOffset.h:44-47 | A bound of -1 stays -1; any other bound is lowered by the offset. |
| SequenceReaders.OpenOffset | src/SequenceReaderOffset.h:34-54 | The wrapper opens only on a path with `::` whose suffix `atoi`s to a non-zero offset. The inner reader is the factory's reader for the head, with both bounds shifted down by the offset. |
| SequenceReaders.Read | src/SequenceReaderOffset.h:67-72 | The wrapper reads its inner reader at `pos` minus the offset, or returns nothing when closed. Each backend returns its own frame at `pos`, and single files load the formatted name. |
| SequenceReaders.CloseOffset | src/SequenceReaderOffset.h:56-65 | A closed wrapper has no inner reader and offset 0; First, Last and Next are -1. |
| SequenceReaders.ClosedOffsetReadsNothing | src/SequenceReaderOffset.h:67-72 | A closed wrapper reads nothing at any position. |
| SequenceReaders.TryReadersIsFirstSome | src/SequenceReader.cpp:31-82 | The factory's candidate loop is the ordered trial over the reader order. |
| SequenceReaders.CreateFirstSuccess | src/SequenceReader.cpp:31-82 | Create succeeds iff some backend opens the path, and the reader it returns is that of the earliest such backend. |
| SequenceReaders.LaterReadersIgnored | src/SequenceReader.cpp:31-82 | Once a candidate opens, appending further candidates changes nothing. |
| SequenceReaders.DecimalSuffixIsOffset | src/SequenceReaderOffset.h:34-54 | For `<head>::<n><rest>` with a non-zero `n` and a head some backend opens with the shifted bounds, Create returns the offset wrapper with offset `n` around that reader. |
| SequenceReaders.WrapperOpensFirst | src/SequenceReader.cpp:38-43 | Whenever the offset wrapper opens a path, Create returns it. |
| SequenceReaders.OffsetShiftsFrames | src/SequenceReaderOffset.h:67-93 | The wrapper's First, Last and Next are the inner reader's plus the offset. Reading `pos + offset` gives the inner frame `pos` and moves Next as the inner read does. Reading at Last gives the inner reader's last frame. |
| SequenceReaders.NextAfterRead | src/SequenceReaderArchive.h:227-267 | After a read, Next is one past the frame for an archive reader that admits it and for an ffmpeg reader that delivers it, the next larger indexed frame for a `.pngv` reader, and -1 for single files. |
| SequenceReaders.OffsetReadsInnerFirst | src/SequenceReaderOffset.h:67-79 | The wrapper's First is the inner First plus the offset, and reading it returns the inner reader's first frame. |
| SequenceWriters.Create | src/SequenceWriter.cpp:28-56 | A missing path gives no writer. A writer Create returns is valid, comes from a backend of the writer order, and starts with Next 0. |
| SequenceWriters.WriterOrder | src/SequenceWriter.cpp:28-56 | MultiPng is tried first exactly when built in; then the archive, then single files. |
| SequenceWriters.OpenBackend | src/SequenceWriterMultiFile.h:52-82 | MultiPng opens iff the path ends in `.pngv`, assuming its two files can be created (see Left out). The archive opens iff its Open succeeds. Single files open iff a probe save of frame 0's name works. Every new writer starts at frame 0. |
| SequenceWriters.CreateIsOrderedTrial | src/SequenceWriter.cpp:28-56 | The writer factory is the ordered trial over the writer order. |
| SequenceWriters.WriterChoice | src/SequenceWriter.cpp:28-56 | A `.pngv` path gets the MultiPng writer when it is built in, assuming its two files can be created (see Left out). Otherwise an archive that can be created gets the archive writer. Otherwise single files are used iff the probe save works. |
| SequenceWriters.Write | src/SequenceWriterMultiFile.h:84-91 | Every backend stores the frame under the given position, or the counter for a negative one, and moves the counter past it. The archive appends the named entry. Single files save the image under the formatted name. MultiPng appends the encoded frame when its data file opens, and the frame's index line when the index file opens as well; otherwise data and index are unchanged. |
| SequenceWriters.WriteAllCounts | src/SequenceWriterMultiFile.h:84-97 | n writes without positions advance Next by n, whatever the backend. |
| SequenceWriters.WriteAllSavesInOrder | src/SequenceWriterMultiFile.h:84-91 | n writes without positions save image k under the name of frame `counter + k`, after the earlier saves. |
| RoundTrips.SeekableIffUncompressed | src/SequenceReaderArchive.h:109-114 | An archive written to a `.tar` path is read back seekable, and one written to `.tar.gz` or `.tgz` is not. |
| RoundTrips.SamePathSplit | src/SequenceWriterArchive.h:65-75 | The reader and the writer cut a `<archive>::<pattern>` path into the same archive path and pattern, and the writer opens it. |
| RoundTrips.IndexOfNumberedEntries | src/SequenceReaderArchive.h:152-188 | An archive whose entry j is named by the pattern at j indexes as frames `0..n-1`, with frame i the entry at position i. |
| RoundTrips.ArchiveRoundTrip | src/SequenceWriterArchive.h:120-147 | Writing n images to `<archive>::<pattern>` and indexing the result from frame 0 gives First 0 and Last n-1. It is seekable iff uncompressed, and frame i reads back as image i's encoding decoded. |
| RoundTrips.WriteAllTiled | src/MultiPng.cpp:177-187 | Consecutive container writes keep the index tiling the data. |
| RoundTrips.WriteAllLines | src/MultiPng.cpp:177-187 | After n writes without positions, line j of the index names frame `counter + j`, and its range holds image j's encoding. |
| RoundTrips.MultiPngRoundTrip | src/MultiPng.cpp:200-245 | With the corrected loader (which differs from the source only for n = 0, see Findings), writing n images to a `.pngv` path and loading it gives exactly the frames `0..n-1`. Length is n, Last is n-1, and the cursor is at 0 (or -1 when empty). Each frame's range lies within the data and holds that image's encoding. |

## Left out

- Pixel work is left out. Encoding, decoding, colour conversion and copying are libpng, OpenCV and ffmpeg code, modelled as codec functions and a transform list. The model does not state what happens to pixels.
- File and pipe I/O are left out. `fopen`, `popen`, `fread` and libarchive's stream are maps of existing files, a frame list and an entry list. An `fopen` failure and a libarchive open failure are one outcome: the archive is absent.
- The buffers the source allocates are left out: the image size (`Size()`), `m_size`, `cvCreateImage` and the like.
- Unused writer parameters are left out: fourcc, fps and frame_size, beyond the single-file probe.
- MultiPng index-file token parsing is left out. The index file is a list of parsed lines; a malformed line is not modelled.
- MultiPng.LoadIndex: it is the corrected loader. An index file with no lines gives an empty index, where the source inserts one entry from uninitialised variables (see Findings).
- MultiPng.Decode: the frame shape is the corrected FrameChannels/FrameDepth; the source allocates the buffer by AllocatedChannels/AllocatedDepth (see Findings).
- libpng's `longjmp` error path is left out. A failing encode inside `MultiPngWriter::Write` cannot leave half a PNG in the data file.
- MultiPng.Tail: a negative start offset gives no bytes, where `fseek` would fail and leave the file position where it was.
- MultiPng.ReadsFromFirst: it requires non-negative frame numbers, because -1 is also the cursor's "past the end" sentinel.
- MultiPngSequence.CloseWriter: the source's Close leaves a dangling pointer in the writer. The model clears it instead.
- MultiPngSequence.OpenWriter: the model assumes the `.pngv` and `.idx` files can both be created. The `MultiPngWriter` constructor (`src/MultiPng.cpp:88-91`) passes its `fopen` results to `fclose` unchecked, so a path that cannot be created (a missing directory, no permission) means `fclose(NULL)`, which has no defined behaviour to model. SequenceWriters.OpenBackend and SequenceWriters.WriterChoice inherit this assumption for `.pngv` paths.
- MultiPngSequence.Write: it requires an attached container. The source dereferences a null or deleted writer when Write comes before Open or after Close, which has no defined behaviour to model.
- Memory that Close frees is left out, as are maps that Close leaves filled: the archive reader's Close keeps its indexes, but admits no frame.
- FfmpegReader.Seek: a pipe that fails to reopen while seeking backwards is not modelled; reopening always succeeds.
- FfmpegReader Close is left out. It only closes the pipe.
- The OpenCV video capture reader (`src/SequenceReaderVideoOpenCv.h`) is left out. It is an oracle of the environment, because its seeking is not frame accurate.
- `Destroy` in both factories is left out. It only deletes the object and nulls the pointer.
- Text.Atoi: `atoi` overflow is not modelled, because the value is unbounded.
- The 16-bit native-depth choice is a parameter of the reader. It is not derived from the requested image depth.
- Text.EndsWith: suffix tests are guarded by a length check. `strcmp(filename + len - 4, …)` on a path shorter than the suffix reads before the string in `src/SequenceWriterArchive.h:80` and `src/SequenceReaderMultiPng.h:56`.
- ArchiveWriter.Close: the writer's counter reset is not modelled. Close returns the finished archive.
- The writer factory's Close is left to each backend's Close.
- Whether an archive can be created is an oracle keyed on the full path.
- The capture read is an oracle over the path, bounds, colour request and cursor.

## Findings

| source | as written | input that shows it | evidently intended | confidence | as-written member | corrected member |
|---|---|---|---|---|---|---|
| src/MultiPng.h:93 | The frame buffer gets `m_iscolor_desired ? 3 : 1` channels | A gray PNG read with the default colour request -1: the buffer has 3 channels, but libpng delivers 1 | One channel for gray output, three for colour output | medium, not executed | MultiPng.AllocatedChannelsMismatch | MultiPng.FrameShapeMatchesDecode |
| src/MultiPng.h:93 | The frame buffer depth is the stored bit depth `m_bit_depth` | A 4-bit gray PNG (delivered as 8 bits), or a 16-bit PNG with native depth off (stripped to 8) | 8 bits, or 16 when a 16-bit image is kept at native depth | medium, not executed | MultiPng.AllocatedDepthMismatch | MultiPng.FrameShapeMatchesDecode |
| src/MultiPng.cpp:229-233 | The loop `while(!fi.eof())` extracts a line and stores `m_indexes[frame_idx]`; it tests for end of file before extracting, so it makes one pass more than there are lines | An empty `.idx`, which a container opened for writing and closed without a frame leaves behind: the one pass extracts nothing and stores an entry under the never-set `frame_idx` | An empty index with no frames | medium, not executed | MultiPng.EmptyIndexLoadsPhantomFrame | MultiPng.NewContainerIsEmpty |
