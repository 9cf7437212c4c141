/**
 Uploading a directory: the size announced beforehand by a walk, and the archive streamed through
 the cursor and the packer.
 */
module Upload {
  import opened CLib
  import opened UstarHeader
  import opened TarArchive
  import opened FileTree
  import TarCursor
  import opened Traversal
  import opened ZtarPack
  import opened PackTheorems

  // ---------------------------------------------------------------------------------------------
  // The announced size
  // ---------------------------------------------------------------------------------------------

  /** `compute_size_callback`, in `size_t` arithmetic. */
  function CountEntry(total: nat, v: Visit): nat {
    match v.entry
    case FileNode(_, data) =>
      ((total + BLOCK_SIZE) % SIZE_MODULUS + (|data| + RequiredPadding(|data|)) % SIZE_MODULUS) % SIZE_MODULUS
    case DirNode(_, _) => total
  }

  function AnnouncedSize(dir: Bytes, nodes: seq<Node>): nat
    requires dir != []
  {
    (Fold<nat>(CountEntry, 0, WalkTree(dir, nodes).visits) + TRAILER_SIZE) % SIZE_MODULUS
  }

  /** `calculate_tar_directory_size`: a walk that gives up part of a listing still counts the rest. */
  method CalculateTarDirectorySize(dir: Bytes, nodes: seq<Node>) returns (size: nat)
    requires dir != [] && NulFree(dir) && Fits(dir) && ValidNodes(nodes)
    ensures size == AnnouncedSize(dir, nodes)
  {
    var walker := new Walker<nat>(dir, CountEntry, 0);
    var err := walker.WalkRecursive(nodes, dir);
    size := (walker.userData + TRAILER_SIZE) % SIZE_MODULUS;
  }

  /** A listed file under its name in the archive. */
  function AsFile(source: Bytes, f: TarCursor.Found): File
    requires source <= f.path
  {
    File(TarCursor.RelativeName(source, f.path), f.data)
  }

  function AsFiles(source: Bytes, fs: seq<TarCursor.Found>): (r: seq<File>)
    requires forall i :: 0 <= i < |fs| ==> source <= fs[i].path
    ensures |r| == |fs|
  {
    seq(|fs|, i requires 0 <= i < |fs| => AsFile(source, fs[i]))
  }

  /** Bytes the entries of these files take in an archive. */
  function Volume(fs: seq<TarCursor.Found>): nat {
    if fs == [] then 0
    else BLOCK_SIZE + |fs[0].data| + RequiredPadding(|fs[0].data|) + Volume(fs[1..])
  }

  lemma {:induction false} VolumeIsEntrySizes(source: Bytes, fs: seq<TarCursor.Found>)
    requires forall i :: 0 <= i < |fs| ==> source <= fs[i].path
    ensures EntrySizes(AsFiles(source, fs)) == Volume(fs)
  {
    hide RequiredPadding;
    if fs != [] {
      VolumeIsEntrySizes(source, fs[1..]);
      assert AsFiles(source, fs)[1..] == AsFiles(source, fs[1..]);
    }
  }

  predicate SameSize(a: nat, b: nat) { a % SIZE_MODULUS == b % SIZE_MODULUS }

  lemma {:induction false} CountOneFile(total: nat, path: Bytes, node: Node)
    requires node.FileNode?
    ensures SameSize(CountEntry(total, Visit(path, node)),
                     total + (BLOCK_SIZE + |node.data| + RequiredPadding(|node.data|)))
    ensures CountEntry(total, Visit(path, node)) < SIZE_MODULUS
  {
    hide RequiredPadding;
    var n := |node.data| + RequiredPadding(|node.data|);
    ModuloOfSum(total + BLOCK_SIZE, n, SIZE_MODULUS);
  }

  lemma {:induction false} ModuloOfSum(a: nat, b: nat, m: nat)
    requires m == 0x1_0000_0000 || m == 0x1_0000_0000_0000_0000
    ensures (a % m + b % m) % m == (a + b) % m
    ensures (a % m + b % m) % m % m == (a + b) % m
  {
  }

  lemma {:induction false} SameSizeShifts(a: nat, b: nat, n: nat)
    requires SameSize(a, b)
    ensures SameSize(a + n, b + n)
  {
    ModuloOfSum(a, n, SIZE_MODULUS);
    ModuloOfSum(b, n, SIZE_MODULUS);
  }

  /** Counting along a walk adds up the volume of the files it visits. */
  lemma {:induction false} CountsVolume(visits: seq<Visit>, start: nat)
    ensures SameSize(Fold<nat>(CountEntry, start, visits), start + Volume(FileVisits(visits)))
    ensures start < SIZE_MODULUS ==> Fold<nat>(CountEntry, start, visits) < SIZE_MODULUS
    decreases |visits|
  {
    hide CountEntry, SameSize, RequiredPadding;
    if visits == [] {
      assert SameSize(start, start) by { SameSizeItself(start); }
    } else {
      var v := visits[0];
      var next := CountEntry(start, v);
      var rest := Volume(FileVisits(visits[1..]));
      CountsVolume(visits[1..], next);
      if v.entry.FileNode? {
        CountOneFile(start, v.path, v.entry);
        var own := BLOCK_SIZE + |v.entry.data| + RequiredPadding(|v.entry.data|);
        assert FileVisits(visits) == [TarCursor.Found(v.path, v.entry.data)] + FileVisits(visits[1..]);
        assert FileVisits(visits)[1..] == FileVisits(visits[1..]);
        SameSizeShifts(next, start + own, rest);
        SameSizeChain(Fold<nat>(CountEntry, start, visits), next + rest, start + own + rest);
      } else {
        assert FileVisits(visits) == [] + FileVisits(visits[1..]) == FileVisits(visits[1..]);
        assert next == start by { CountDirectory(start, v); }
      }
    }
  }

  lemma {:induction false} CountDirectory(total: nat, v: Visit)
    requires v.entry.DirNode?
    ensures CountEntry(total, v) == total
  {
  }

  lemma {:induction false} SameSizeItself(a: nat)
    ensures SameSize(a, a)
  {
  }

  lemma {:induction false} SameSizeChain(a: nat, b: nat, c: nat)
    requires SameSize(a, b) && SameSize(b, c)
    ensures SameSize(a, c)
  {
  }

  /**
   For a directory the cursor can list and files that can all be packed, the announced size is the
   length of the archive, in `size_t` arithmetic.
   */
  lemma {:induction false} AnnouncedIsArchiveLength(source: Bytes, nodes: seq<Node>)
    requires source != [] && NulFree(source) && Fits(source) && ValidNodes(nodes)
    requires Listable(source, nodes, 1)
    requires forall i :: 0 <= i < |FilesBelow(source, nodes)| ==> source <= FilesBelow(source, nodes)[i].path
    requires AllPackable(AsFiles(source, FilesBelow(source, nodes)))
    ensures AnnouncedSize(source, nodes) == |Archive(AsFiles(source, FilesBelow(source, nodes)))| % SIZE_MODULUS
  {
    hide CountEntry, Listable, FilesBelow, WalkTree, Fold, Archive, AllPackable, Fits, Volume;
    WalkListsFiles(source, nodes, 1);
    var fs := FilesBelow(source, nodes);
    var visits := WalkTree(source, nodes).visits;
    CountsVolume(visits, 0);
    VolumeIsEntrySizes(source, fs);
    ArchiveLength(AsFiles(source, fs));
    SameSizeShifts(Fold<nat>(CountEntry, 0, visits), Volume(fs), TRAILER_SIZE);
  }
}
