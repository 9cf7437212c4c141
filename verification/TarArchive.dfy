/** The archive a list of files stands for, independently of how it is streamed. */
module TarArchive {
  import opened CLib
  import opened UstarHeader

  datatype File = File(name: Bytes, data: Bytes)

  /** The file can be given a header. */
  predicate Packable(f: File) {
    PackableName(f.name) && PackableSize(|f.data|)
  }

  predicate AllPackable(files: seq<File>) {
    forall i :: 0 <= i < |files| ==> Packable(files[i])
  }

  /** Header, contents, and zeros up to the next block boundary. */
  function EntryBytes(f: File): (b: Bytes)
    requires Packable(f)
    ensures |b| == BLOCK_SIZE + |f.data| + RequiredPadding(|f.data|)
  {
    PackHeaderAccepts(f.name, |f.data|);
    PackHeader(f.name, |f.data|).block + f.data + Zeros(RequiredPadding(|f.data|))
  }

  /**
   What streaming `files` puts out: their entries and, when the source really ends there, the two
   zero blocks of the trailer; or the entries before the first file that cannot be packed.
   */
  function Stream(files: seq<File>, complete: bool): Bytes {
    if files == [] then if complete then Zeros(TRAILER_SIZE) else []
    else if !Packable(files[0]) then []
    else EntryBytes(files[0]) + Stream(files[1..], complete)
  }

  /** The whole archive. */
  function Archive(files: seq<File>): Bytes
    requires AllPackable(files)
  {
    Stream(files, true)
  }

  function EntrySizes(files: seq<File>): nat {
    if files == [] then 0
    else BLOCK_SIZE + |files[0].data| + RequiredPadding(|files[0].data|) + EntrySizes(files[1..])
  }

  lemma {:induction false} ArchiveLength(files: seq<File>)
    requires AllPackable(files)
    ensures |Archive(files)| == EntrySizes(files) + TRAILER_SIZE
    ensures |Archive(files)| % BLOCK_SIZE == 0
  {
    hide Packable, EntryBytes, RequiredPadding;
    if files != [] {
      assert Packable(files[0]) && AllPackable(files[1..]);
      ArchiveLength(files[1..]);
      PaddingAligns(|files[0].data|);
      SumOfBlocks(|EntryBytes(files[0])|, |Stream(files[1..], true)|);
    }
  }

  lemma {:induction false} SumOfBlocks(a: nat, b: nat)
    requires a % BLOCK_SIZE == 0 && b % BLOCK_SIZE == 0
    ensures (a + b) % BLOCK_SIZE == 0
  {
  }
}
