/** SequenceReaderArchive: random access to the frames stored as entries of
    a tar-style archive that libarchive can only read as a forward stream.

    One full scan at open time records every entry's name; an optional name
    pattern (`archive.tar::frame_%04d.png`) turns frame numbers into entry
    ordinals. Reading a frame seeks the stream to the entry's ordinal: by a
    direct jump when the archive is an uncompressed tar, otherwise by
    skipping entries forward, rewinding to the start first when the target
    lies behind.

    The stream is modelled by the ordinal of the entry it delivers next.
    Byte offsets of entry headers are abstracted to those ordinals. */
module ArchiveReader {
  import opened Wrappers
  import opened Text
  import opened Tables
  import opened Media
  import opened Archive
  import opened Stream

  /** The reader's state. `apos` is both the reader's archive cursor and the
      entry the stream delivers next: every branch of the source moves the
      two together. */
  datatype Reader = Reader(
    entries: seq<Entry>,
    open: bool,               // the libarchive handle exists
    seekable: bool,
    names: map<string, nat>,  // entry pathname to ordinal
    frames: map<int, nat>,    // frame number to ordinal; empty without a pattern
    first: int,
    last: int,
    pos: int,                 // next logical frame, reported by Next
    apos: nat,                // archive ordinal of the stream
    isColor: int)

  /** The state of a freshly constructed reader. */
  const Unopened := Reader([], false, false, map[], map[], -1, -1, 0, 0, -1)

  /** What every reachable state satisfies: the stream never passes the end
      of the archive and every frame resolves to an entry. */
  predicate Valid(r: Reader) {
    && r.apos <= |r.entries|
    && (forall k :: k in r.frames ==> r.frames[k] < |r.entries|)
  }

  /** Direct jumps are allowed only for an uncompressed tar: the archive path
      ends in ".tar" and every filter libarchive reports is "none". */
  predicate Seekable(archivePath: string, filters: seq<string>) {
    EndsWith(archivePath, ".tar") && forall i :: 0 <= i < |filters| ==> filters[i] == "none"
  }

  function NamePairs(entries: seq<Entry>): (ps: seq<(string, nat)>)
    ensures |ps| == |entries|
    ensures forall k :: 0 <= k < |ps| ==> ps[k] == (entries[k].pathname, k as nat)
  {
    seq(|entries|, k requires 0 <= k < |entries| => (entries[k].pathname, k as nat))
  }

  /** The name index of CreateIndex's scan: every pathname of the archive,
      mapped to the ordinal of the last entry that carries it. */
  function ScanNames(entries: seq<Entry>): (names: map<string, nat>)
    ensures forall k :: 0 <= k < |entries| ==> entries[k].pathname in names
    ensures forall name :: name in names ==> names[name] < |entries| && entries[names[name]].pathname == name
    ensures forall name, k :: name in names && names[name] < k < |entries| ==> entries[k].pathname != name
  {
    var ps := NamePairs(entries);
    var m := LastWins(ps);
    forall k | 0 <= k < |entries|
      ensures entries[k].pathname in m
    {
      assert ps[k].0 == entries[k].pathname;
      assert 0 <= LastIndex(ps, entries[k].pathname);
    }
    m
  }

  /** CreateIndex's update of the last frame: an unknown last (-1) becomes
      the frame of the final entry, counted from `first`. */
  function ScannedLast(first: int, last: int, count: nat): int {
    if last == -1 then first + count - 1 else last
  }

  /** CreateIndexMap from frame `i` on: the frame-to-ordinal map of the frames
      whose formatted names exist, and the last frame, lowered to just below
      the first frame whose name is missing. */
  function ExpandPattern(fmt: Formatter, pattern: string, names: map<string, nat>, i: int, last: int)
    : (r: (map<int, nat>, int))
    decreases last - i
    ensures i <= last ==> i - 1 <= r.1 <= last
    ensures last < i ==> r.1 == last
    ensures forall k :: k in r.0 <==> i <= k <= r.1
    ensures forall k :: k in r.0 ==> fmt(pattern, k) in names && r.0[k] == names[fmt(pattern, k)]
    ensures forall k :: i <= k <= r.1 ==> fmt(pattern, k) in names
    ensures r.1 < last ==> fmt(pattern, r.1 + 1) !in names
  {
    if last < i then (map[], last)
    else
      var name := fmt(pattern, i);
      if name in names then
        var rest := ExpandPattern(fmt, pattern, names, i + 1, last);
        (rest.0[i := names[name]], rest.1)
      else
        (map[], i - 1)
  }

  /** The state Open has built just before it reads the first frame: the name
      index of one full scan, the frame map of the pattern if there is one,
      the clamped first frame, the derived last frame, and the stream
      rewound to ordinal 0. */
  function Index(file: ArchiveFile, archivePath: string, pattern: string, fmt: Formatter,
                 first: int, last: int, isColor: int): (r: Reader)
    ensures Valid(r) && r.open && r.entries == file.entries && r.isColor == isColor
    ensures r.pos == 0 && r.apos == 0
    ensures r.seekable <==> Seekable(archivePath, file.filters)
    ensures r.first == if first < 0 then 0 else first
    ensures r.names == ScanNames(file.entries)
    ensures pattern == "" ==> r.frames == map[] && r.last == ScannedLast(r.first, last, |file.entries|)
    ensures pattern != "" ==> forall k :: k in r.frames <==> r.first <= k <= r.last
    ensures pattern != "" ==> forall k :: k in r.frames ==>
              fmt(pattern, k) in r.names && r.frames[k] == r.names[fmt(pattern, k)]
    ensures pattern != "" ==> r.last <= ScannedLast(r.first, last, |file.entries|)
  {
    var f := if first < 0 then 0 else first;
    var requested := ScannedLast(f, last, |file.entries|);
    var names := ScanNames(file.entries);
    var seekable := Seekable(archivePath, file.filters);
    if pattern == "" then
      Reader(file.entries, true, seekable, names, map[], f, requested, 0, 0, isColor)
    else
      var expanded := ExpandPattern(fmt, pattern, names, f, requested);
      Reader(file.entries, true, seekable, names, expanded.0, f, expanded.1, 0, 0, isColor)
  }

  /** With a pattern, the last frame is lowered only by a missing name: when
      it ends below the requested last frame, the name of the frame just
      after it is absent from the archive, and every frame from the first one
      up to it has its name present. */
  lemma IndexStopsAtMissingName(file: ArchiveFile, archivePath: string, pattern: string, fmt: Formatter,
                                first: int, last: int, isColor: int)
    requires pattern != ""
    ensures var ix := Index(file, archivePath, pattern, fmt, first, last, isColor);
            ix.last < ScannedLast(ix.first, last, |file.entries|) ==>
              ix.first - 1 <= ix.last && fmt(pattern, ix.last + 1) !in ix.names
    ensures var ix := Index(file, archivePath, pattern, fmt, first, last, isColor);
            forall k :: ix.first <= k <= ix.last ==> fmt(pattern, k) in ix.names
  {
    var ix := Index(file, archivePath, pattern, fmt, first, last, isColor);
    var f := if first < 0 then 0 else first;
    var requested := ScannedLast(f, last, |file.entries|);
    var expanded := ExpandPattern(fmt, pattern, ScanNames(file.entries), f, requested);
    assert ix.first == f && ix.names == ScanNames(file.entries);
    assert ix.last == expanded.1;
  }

  /** What a seek did: where the stream ended up, whether that is the
      target, and how it got there. */
  datatype SeekOutcome = SeekOutcome(apos: nat, ok: bool, jumped: bool, rewound: bool, scanned: nat)

  /** Seek the stream from ordinal `cur` to ordinal `target` in an archive of
      `count` entries. */
  function Seek(seekable: bool, count: nat, cur: nat, target: nat): (s: SeekOutcome)
    requires cur <= count
    ensures s.apos <= count
    ensures s.ok <==> s.apos == target
    ensures s.ok <==> target <= count
    ensures !s.ok ==> s.apos == count
    ensures seekable && target < count && target != cur ==> s.jumped && !s.rewound && s.scanned == 0
    ensures !seekable && target < cur ==> s.rewound && s.scanned == target
    ensures !seekable ==> !s.jumped
    ensures seekable ==> !s.rewound
    ensures cur <= target ==> !s.rewound
    ensures !seekable && cur <= target ==> s.scanned == s.apos - cur
    ensures target == cur ==> !s.jumped && !s.rewound && s.scanned == 0 && s.apos == cur
  {
    var jumped := seekable && target < count && target != cur;
    var c1 := if jumped then target else cur;
    var rewound := !seekable && target < c1;
    var c2 := if rewound then 0 else c1;
    var c3 := ScanForward(c2, target, count);
    SeekOutcome(c3, c3 == target, jumped, rewound, c3 - c2)
  }

  /** Read's position check: without a frame map the frame must be an ordinal
      of the archive, with one it must be a key of the map. */
  predicate Admits(r: Reader, pos: int) {
    r.open && if r.frames == map[] then 0 <= pos < |r.entries| else pos in r.frames
  }

  /** The archive ordinal of an admitted frame. */
  function Resolve(r: Reader, pos: int): (apos: nat)
    requires Valid(r) && Admits(r, pos)
    ensures apos < |r.entries|
  {
    if r.frames == map[] then pos else r.frames[pos]
  }

  /** The frame a reader delivers for `pos`, defined without any cursor: the
      body of the entry the frame resolves to, decoded with the reader's
      colour request. */
  function FrameAt(r: Reader, pos: int, codec: ImageCodec): Option<Image>
    requires Valid(r)
  {
    if Admits(r, pos) then codec.decode(r.entries[Resolve(r, pos)].data, r.isColor) else None
  }

  /** Read(pos): check the position, resolve it to an ordinal, seek there,
      read that entry's body and decode it, then advance both cursors. */
  function Read(r: Reader, pos: int, codec: ImageCodec): (out: (Reader, Option<Image>))
    requires Valid(r)
    ensures Valid(out.0)
    ensures out.1 == FrameAt(r, pos, codec)
    ensures !Admits(r, pos) ==> out.0 == r
    ensures Admits(r, pos) ==> out.0 == r.(pos := pos + 1, apos := Resolve(r, pos) + 1)
  {
    if !r.open then (r, None)
    else if (r.frames == map[] && (pos < 0 || pos >= |r.entries|))
         || (r.frames != map[] && pos !in r.frames) then
      (r, None)
    else
      var apos: nat := if r.frames == map[] then pos else r.frames[pos];
      var s := Seek(r.seekable, |r.entries|, r.apos, apos);
      if !s.ok then (r.(apos := s.apos), None)
      else if s.apos < |r.entries| then
        (r.(pos := pos + 1, apos := apos + 1), codec.decode(r.entries[apos].data, r.isColor))
      else (r.(apos := s.apos), None)
  }

  /** The archive path of an argument: the text before the first "::". */
  function ArchivePathOf(path: string): string {
    match SplitAtSeparator(path)
    case None => path
    case Some(sp) => sp.head
  }

  /** The name pattern of an argument: the text after the first "::", or
      none. */
  function PatternOf(path: string): string {
    match SplitAtSeparator(path)
    case None => ""
    case Some(sp) => sp.tail
  }

  /** Open: split off the pattern, open the archive, build the indexes and
      read the first frame as a liveness check. */
  function Open(path: string, first: int, last: int, isColor: int,
                archives: map<string, ArchiveFile>, fmt: Formatter, codec: ImageCodec): (r: Option<Reader>)
    ensures r.Some? ==> ArchivePathOf(path) in archives && Valid(r.value) && r.value.open
    ensures r.Some? <==>
              ArchivePathOf(path) in archives &&
              var ix := Index(archives[ArchivePathOf(path)], ArchivePathOf(path), PatternOf(path), fmt, first, last, isColor);
              FrameAt(ix, ix.first, codec).Some?
    ensures r.Some? ==> r.value.pos == r.value.first + 1
    ensures r.Some? ==> r.value.first == if first < 0 then 0 else first
  {
    var archivePath := ArchivePathOf(path);
    if archivePath !in archives then None
    else
      var ix := Index(archives[archivePath], archivePath, PatternOf(path), fmt, first, last, isColor);
      var (r, frame) := Read(ix, ix.first, codec);
      if frame.Some? then Some(r) else None
  }

  /** Close: the handle is released and the cursors and bounds reset. As in
      the source, the name and frame maps are left in place. */
  function Close(r: Reader): (c: Reader)
    ensures !c.open && c.pos == 0 && c.apos == 0 && c.first == -1 && c.last == -1
    ensures Valid(r) ==> Valid(c)
    ensures forall pos :: !Admits(c, pos)
  {
    r.(open := false, seekable := false, pos := 0, apos := 0, first := -1, last := -1, isColor := -1)
  }

  /** Reads the frames of `order` one after the other. */
  function ReadAll(r: Reader, order: seq<int>, codec: ImageCodec): (out: (Reader, seq<Option<Image>>))
    requires Valid(r)
    ensures Valid(out.0) && |out.1| == |order|
    decreases |order|
  {
    if |order| == 0 then (r, [])
    else
      var step := Read(r, order[0], codec);
      var rest := ReadAll(step.0, order[1..], codec);
      (rest.0, [step.1] + rest.1)
  }

  /** Any read order yields the same frames: each read delivers the frame
      its position resolves to, whatever the cursors were before. */
  lemma {:induction false} ReadOrderIrrelevant(r: Reader, order: seq<int>, codec: ImageCodec)
    requires Valid(r)
    ensures forall i :: 0 <= i < |order| ==> ReadAll(r, order, codec).1[i] == FrameAt(r, order[i], codec)
    decreases |order|
  {
    if |order| > 0 {
      var r1 := Read(r, order[0], codec).0;
      ReadOrderIrrelevant(r1, order[1..], codec);
      forall p
        ensures FrameAt(r1, p, codec) == FrameAt(r, p, codec)
      {
      }
    }
  }

  /** A pattern whose first formatted name is missing leaves the frame map
      empty, so Read falls back to plain ordinals: the first frame is the
      body of the entry at ordinal `first`, whatever its name. */
  lemma PatternMissReadsOrdinal(file: ArchiveFile, archivePath: string, pattern: string, fmt: Formatter,
                                first: nat, last: int, isColor: int, codec: ImageCodec)
    requires pattern != ""
    requires first <= ScannedLast(first, last, |file.entries|)
    requires fmt(pattern, first) !in ScanNames(file.entries)
    ensures var ix := Index(file, archivePath, pattern, fmt, first, last, isColor);
            && ix.frames == map[]
            && ix.last == first - 1
            && FrameAt(ix, first, codec) ==
                 if first < |file.entries| then codec.decode(file.entries[first].data, isColor) else None
  {
  }
}
