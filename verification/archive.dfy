/** The tar-style archive as libarchive presents it: an ordered run of
    entries, each a header and a body, and the names of the compression
    filters it detected under the archive format. */
module Archive {
  import opened Media

  datatype FileType = RegularFile | Directory | OtherFile

  /** The header fields of an entry that the system sets or reads. */
  datatype Meta = Meta(size: int, fileType: FileType, perm: int, mtime: int, ctime: int, atime: int)

  datatype Entry = Entry(pathname: string, meta: Meta, data: seq<byte>)

  /** An archive file: its entries in stream order and the filter names
      `archive_filter_name` reports for it ("none" for no compression). */
  datatype ArchiveFile = ArchiveFile(entries: seq<Entry>, filters: seq<string>)
}
