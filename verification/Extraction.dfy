/** The directory part of a path, and `mkdir_recursive`, which makes every directory on the way to one. */
module Extraction {
  import opened CLib
  import opened UstarHeader
  import opened SafePath
  import opened FileTree
  import opened FileSystem

  // ---------------------------------------------------------------------------------------------
  // The directory part of a path
  // ---------------------------------------------------------------------------------------------

  /** `strrchr(path, '/')`. */
  function LastSlash(path: Bytes): (r: Option<nat>)
    ensures r.Some? ==> r.value < |path| && path[r.value] == SLASH && SlashFree(path[r.value + 1..])
    ensures r.None? ==> SlashFree(path)
  {
    if path == [] then None
    else if path[|path| - 1] == SLASH then Some(|path| - 1)
    else
      var r := LastSlash(path[..|path| - 1]);
      assert r.Some? ==> path[r.value + 1..] == path[..|path| - 1][r.value + 1..] + [path[|path| - 1]];
      r
  }

  function DirPart(path: Bytes): Bytes {
    var i := LastSlash(path);
    if i.None? then path else path[..i.value]
  }

  function FilePart(path: Bytes): (name: Bytes)
    ensures SlashFree(name)
  {
    var i := LastSlash(path);
    if i.None? then path else path[i.value + 1..]
  }

  function FullPath(dest: Bytes, name: Bytes): Bytes { dest + [SLASH] + name }

  lemma {:induction false} LastSlashAfter(path: Bytes, p: nat)
    requires p < |path| && path[p] == SLASH
    ensures LastSlash(path).Some? && LastSlash(path).value >= p
  {
    if path[|path| - 1] != SLASH {
      LastSlashAfter(path[..|path| - 1], p);
    }
  }

  lemma {:induction false} SplitAtLastSlash(dest: Bytes, name: Bytes)
    ensures var full := FullPath(dest, name);
            && LastSlash(full).Some? && LastSlash(full).value >= |dest|
            && full == DirPart(full) + [SLASH] + FilePart(full)
            && Resolve(full) == Resolve(DirPart(full)) + KeptComponent(FilePart(full))
            && Resolve(full) == Resolve(dest) + Resolve(name)
  {
    hide Resolve, LastSlash, KeptComponent;
    var full := FullPath(dest, name);
    LastSlashAfter(full, |dest|);
    ResolveOfJoin(DirPart(full), FilePart(full));
    ResolveIsKept(FilePart(full));
    ResolveOfJoin(dest, name);
  }

  /** The directory of a combined path lies between the destination and the file. */
  lemma {:induction false} DirPartIsBelow(dest: Bytes, name: Bytes)
    ensures var d, q := Resolve(dest), Resolve(DirPart(FullPath(dest, name)));
            AtOrUnder(d, q) && AtOrUnder(q, d + Resolve(name))
  {
    hide Resolve, LastSlash, KeptComponent;
    var full := FullPath(dest, name);
    SplitAtLastSlash(dest, name);
    var last := LastSlash(full).value;
    if last == |dest| {
      assert full[..last] == dest;
    } else {
      assert full[..last] == dest + [SLASH] + full[|dest| + 1..last];
      ResolveOfJoin(dest, full[|dest| + 1..last]);
    }
  }

  lemma {:induction false} ResolveIsKept(c: Bytes)
    requires SlashFree(c)
    ensures Resolve(c) == KeptComponent(c)
  {
    ResolveOfComponent(c);
  }

  // ---------------------------------------------------------------------------------------------
  // mkdir_recursive
  // ---------------------------------------------------------------------------------------------

  lemma {:induction false} OneMoreDirectory(nodes: Nodes, p: Path, part: Bytes)
    requires WellFormedFs(nodes) && MakeDirectories(nodes, p).ok
    ensures var q := p + KeptComponent(part);
            MakeDirectories(nodes, q) == EnsureDirectory(MakeDirectories(nodes, p).nodes, q)
  {
    MakeDirectoriesMakes(nodes, p);
    if IsSkipped(part) {
      assert p + KeptComponent(part) == p;
    } else {
      assert Parent(p + [part]) == p;
    }
  }

  /** Once a directory cannot be made, nothing more is made. */
  lemma {:induction false} FailureIsFinal(nodes: Nodes, p: Path, q: Path)
    requires AtOrUnder(p, q) && !MakeDirectories(nodes, p).ok
    ensures MakeDirectories(nodes, q) == MakeDirectories(nodes, p)
    decreases |q|
  {
    if p != q {
      assert p == Parent(q)[..|p|];
      FailureIsFinal(nodes, p, Parent(q));
    } else {
      assert q[..|p|] == p;
    }
  }

  /** A component starts here: at the beginning, or after a slash. */
  predicate StartsAt(path: Bytes, base: nat) {
    base <= |path| && (base == 0 || path[base - 1] == SLASH)
  }

  /** The prefix of a path up to the start of a component, and up to a point within it. */
  lemma {:induction false} NextPrefix(path: Bytes, base: nat, p: nat)
    requires base <= p <= |path| && StartsAt(path, base) && SlashFree(path[base..p])
    ensures Resolve(path[..p]) == Resolve(path[..base]) + KeptComponent(path[base..p])
  {
    hide Resolve, KeptComponent;
    ResolveIsKept(path[base..p]);
    ResolveOfNothing();
    if base == 0 {
      assert path[..0] == [] && path[0..p] == path[..p];
      assert [] + KeptComponent(path[0..p]) == KeptComponent(path[0..p]);
    } else {
      var front := path[..base - 1];
      assert path[..p] == front + [SLASH] + path[base..p];
      assert path[..base] == front + [SLASH] + [];
      ResolveOfJoin(front, path[base..p]);
      ResolveOfJoin(front, []);
      assert Resolve(front) + [] == Resolve(front);
    }
  }

  /** A slash at the end adds nothing. */
  lemma {:induction false} TrailingSlash(path: Bytes, p: nat)
    requires p < |path| && path[p] == SLASH
    ensures Resolve(path[..p + 1]) == Resolve(path[..p])
  {
    assert path[..p + 1] == path[..p] + [SLASH] + [];
    ResolveOfJoin(path[..p], []);
    ResolveOfNothing();
    assert Resolve(path[..p]) + [] == Resolve(path[..p]);
  }

  lemma {:induction false} PrefixResolves(path: Bytes, p: nat)
    requires p < |path| && path[p] == SLASH
    ensures AtOrUnder(Resolve(path[..p]), Resolve(path))
  {
    assert path == path[..p] + [SLASH] + path[p + 1..];
    ResolveOfJoin(path[..p], path[p + 1..]);
  }

  /** The buffer starts with the C string `dir`. */
  ghost predicate Loaded(buffer: Bytes, dir: Bytes) {
    |dir| < |buffer| == MAX_PATH_SIZE && NulFree(dir) && buffer[..|dir|] == dir && buffer[|dir|] == NUL
  }

  lemma {:induction false} LoadedIsCStr(buffer: Bytes, dir: Bytes)
    requires Loaded(buffer, dir)
    ensures CStr(buffer) == dir
  {
    assert buffer == dir + buffer[|dir|..];
    CStrOfTerminated(dir, buffer[|dir|..]);
  }

  /** The buffer of a path cut at its very beginning: nothing up to the first NUL, no slash after it. */
  ghost predicate LoadedEmpty(buffer: Bytes, path: Bytes) {
    && |path| < |buffer| == MAX_PATH_SIZE && buffer[0] == NUL
    && (forall i :: 0 < i < |path| ==> buffer[i] != SLASH)
    && (forall i :: 0 < i < MAX_PATH_SIZE && |path| <= i ==> buffer[i] == NUL)
  }

  function DirectoryOf(path: Bytes, isFilePath: bool): Bytes {
    if isFilePath then DirPart(path) else path
  }

  /** Copy the path and, for a file, cut off its last component. */
  method LoadDirectory(path: Bytes, isFilePath: bool) returns (temp: array<Byte>)
    requires NulFree(path) && Fits(path)
    requires isFilePath ==> LastSlash(path).Some?
    ensures fresh(temp) && temp.Length == MAX_PATH_SIZE
    ensures var dir := DirectoryOf(path, isFilePath);
            |dir| <= |path| && (if dir != [] then Loaded(temp[..], dir) else LoadedEmpty(temp[..], path))
  {
    hide LastSlash;
    temp := new Byte[MAX_PATH_SIZE](i => NUL);
    CopyInto(temp, 0, StrNCpyBytes(path, MAX_PATH_SIZE));
    assert temp[..|path|] == path && temp[|path|] == NUL;
    assert forall i :: 0 <= i < |path| ==> temp[i] == path[i];
    if isFilePath {
      var slash := LastSlash(path);
      assert forall i :: slash.value < i < |path| ==> path[i] == path[slash.value + 1..][i - slash.value - 1] != SLASH;
      temp[slash.value] := NUL;
      assert temp[..slash.value] == path[..slash.value];
    }
  }

  /** Cut the path at a slash, make that directory if nothing is there, put the slash back. */
  method MakePrefix(nodes: Nodes, temp: array<Byte>, ptr: nat, ghost dir: Bytes) returns (made: FsResult)
    requires Loaded(temp[..], dir) && ptr < |dir| && temp[ptr] == SLASH
    modifies temp
    ensures made == EnsureDirectory(nodes, Resolve(dir[..ptr]))
    ensures made.ok ==> Loaded(temp[..], dir)
  {
    hide Resolve, EnsureDirectory;
    ghost var before := temp[..];
    temp[ptr] := NUL;
    assert temp[..] == before[ptr := NUL];
    CutIsPrefix(before, dir, ptr);
    made := EnsureDirectory(nodes, Resolve(CStr(temp[..])));
    if !made.ok { return; }
    temp[ptr] := SLASH;
    assert temp[..] == before;
  }

  /** The directories up to the component at `base` are there; the scan has reached `ptr`. */
  ghost predicate MadeUpTo(before: Nodes, dir: Bytes, base: nat, ptr: nat, nodes: Nodes) {
    && base <= ptr <= |dir| && StartsAt(dir, base) && SlashFree(dir[base..ptr])
    && MakeDirectories(before, Resolve(dir[..base])) == FsResult(nodes, true)
  }

  /** The scan starts at the second character; a slash in the first one is passed over. */
  function FirstBase(dir: Bytes): nat {
    if dir != [] && dir[0] == SLASH then 1 else 0
  }

  lemma {:induction false} NothingMadeYet(before: Nodes, dir: Bytes)
    requires dir != []
    ensures MadeUpTo(before, dir, FirstBase(dir), 1, before)
  {
    hide Resolve;
    ResolveOfNothing();
    assert dir[..0] == [];
    if dir[0] == SLASH { TrailingSlash(dir, 0); }
  }

  /** What making the next prefix does, and what its failure means for the whole path. */
  lemma {:induction false} NextIsMade(before: Nodes, dir: Bytes, base: nat, ptr: nat, nodes: Nodes)
    requires WellFormedFs(before) && MadeUpTo(before, dir, base, ptr, nodes)
    ensures var made := EnsureDirectory(nodes, Resolve(dir[..ptr]));
            && MakeDirectories(before, Resolve(dir[..ptr])) == made
            && (ptr < |dir| && dir[ptr] == SLASH && made.ok ==> MadeUpTo(before, dir, ptr + 1, ptr + 1, made.nodes))
            && (ptr < |dir| && dir[ptr] == SLASH && !made.ok ==> MakeDirectories(before, Resolve(dir)) == made)
            && (ptr == |dir| ==> MakeDirectories(before, Resolve(dir)) == made)
  {
    hide Resolve, MakeDirectories, EnsureDirectory;
    NextPrefix(dir, base, ptr);
    OneMoreDirectory(before, Resolve(dir[..base]), dir[base..ptr]);
    if ptr == |dir| {
      assert dir[..ptr] == dir;
    } else if dir[ptr] == SLASH {
      PrefixResolves(dir, ptr);
      TrailingSlash(dir, ptr);
      if !MakeDirectories(before, Resolve(dir[..ptr])).ok {
        FailureIsFinal(before, Resolve(dir[..ptr]), Resolve(dir));
      }
    }
  }

  lemma {:induction false} ScanOn(before: Nodes, dir: Bytes, base: nat, ptr: nat, nodes: Nodes)
    requires MadeUpTo(before, dir, base, ptr, nodes) && ptr < |dir| && dir[ptr] != SLASH
    ensures MadeUpTo(before, dir, base, ptr + 1, nodes)
  {
    hide MakeDirectories, Resolve;
    assert dir[base..ptr + 1] == dir[base..ptr] + [dir[ptr]];
  }

  /** The state of the scan: nothing happens while there is no directory part. */
  ghost predicate Scanning(before: Nodes, path: Bytes, dir: Bytes, base: nat, ptr: nat, nodes: Nodes, buffer: Bytes) {
    if dir != [] then ptr <= |dir| <= |path| && Loaded(buffer, dir) && MadeUpTo(before, dir, base, ptr, nodes)
    else nodes == before && LoadedEmpty(buffer, path) && (ptr == 1 || ptr <= |path|)
  }

  /**
   `mkdir_recursive`: at every slash the path is cut there in place, the directory made if nothing is
   there, and the slash put back. A file path without a slash has no directory to make.
   */
  method MkdirRecursive(before: Nodes, path: Bytes, isFilePath: bool) returns (nodes: Nodes, ok: bool)
    requires WellFormedFs(before) && NulFree(path)
    ensures !Fits(path) ==> nodes == before && !ok
    ensures Fits(path) && isFilePath && LastSlash(path).None? ==> nodes == before && ok
    ensures Fits(path) && (isFilePath ==> LastSlash(path).Some?) ==>
              FsResult(nodes, ok) == MakeDirectories(before, Resolve(DirectoryOf(path, isFilePath)))
  {
    hide MakeDirectories, Resolve, EnsureDirectory, WellFormedFs, LastSlash, DirectoryOf, Scanning;
    nodes := before;
    if |path| >= MAX_PATH_SIZE { return nodes, false; }
    if isFilePath && LastSlash(path).None? { return nodes, true; }
    var temp := LoadDirectory(path, isFilePath);
    ghost var dir := DirectoryOf(path, isFilePath);
    ghost var base: nat := FirstBase(dir);
    ScanStarts(before, path, dir, temp[..]);
    var ptr := 1;
    ScanningAt(before, path, dir, base, ptr, nodes, temp[..]);
    while temp[ptr] != NUL
      invariant 1 <= ptr < temp.Length && (temp[ptr] != NUL ==> ptr < |path|)
      invariant Scanning(before, path, dir, base, ptr, nodes, temp[..])
      decreases |path| - ptr
    {
      if temp[ptr] == SLASH {
        ScanMakes(before, path, dir, base, ptr, nodes, temp[..]);
        var made := MakePrefix(nodes, temp, ptr, dir);
        nodes := made.nodes;
        if !made.ok { return nodes, false; }
        base := ptr + 1;
      } else {
        ScanPasses(before, path, dir, base, ptr, nodes, temp[..]);
      }
      ptr := ptr + 1;
      ScanningAt(before, path, dir, base, ptr, nodes, temp[..]);
    }
    ScanEnds(before, path, dir, base, ptr, nodes, temp[..]);
    var final := EnsureDirectory(nodes, Resolve(CStr(temp[..])));
    return final.nodes, final.ok;
  }

  lemma {:induction false} ScanStarts(before: Nodes, path: Bytes, dir: Bytes, buffer: Bytes)
    requires |dir| <= |path| && (if dir != [] then Loaded(buffer, dir) else LoadedEmpty(buffer, path))
    ensures Scanning(before, path, dir, FirstBase(dir), 1, before, buffer)
  {
    hide Loaded, LoadedEmpty, MadeUpTo, FirstBase;
    if dir != [] { NothingMadeYet(before, dir); }
  }

  /** The character under the scan is within the buffer, and a NUL exactly where the path ends. */
  lemma {:induction false} ScanningAt(
    before: Nodes, path: Bytes, dir: Bytes, base: nat, ptr: nat, nodes: Nodes, buffer: Bytes)
    requires ptr >= 1 && Scanning(before, path, dir, base, ptr, nodes, buffer)
    ensures ptr < |buffer| && (buffer[ptr] != NUL ==> ptr < |path|)
  {
    hide MadeUpTo;
    if dir != [] { LoadedAt(buffer, dir); }
  }

  /** At a slash, a directory is made, and the scan goes on behind it or ends with its failure. */
  lemma {:induction false} ScanMakes(
    before: Nodes, path: Bytes, dir: Bytes, base: nat, ptr: nat, nodes: Nodes, buffer: Bytes)
    requires WellFormedFs(before) && ptr >= 1 && Scanning(before, path, dir, base, ptr, nodes, buffer)
    requires ptr < |buffer| && buffer[ptr] == SLASH
    ensures ptr < |dir| && Loaded(buffer, dir)
    ensures var made := EnsureDirectory(nodes, Resolve(dir[..ptr]));
            && (!made.ok ==> made == MakeDirectories(before, Resolve(dir)))
            && (made.ok ==> forall after: Bytes :: Loaded(after, dir) ==>
                  Scanning(before, path, dir, ptr + 1, ptr + 1, made.nodes, after))
  {
    hide MadeUpTo, Resolve, EnsureDirectory, MakeDirectories, WellFormedFs;
    if dir != [] {
      LoadedAt(buffer, dir);
      NextAt(before, dir, base, ptr, nodes);
      NextIsMade(before, dir, base, ptr, nodes);
    }
  }

  lemma {:induction false} NextAt(before: Nodes, dir: Bytes, base: nat, ptr: nat, nodes: Nodes)
    requires MadeUpTo(before, dir, base, ptr, nodes)
    ensures ptr <= |dir|
  {
  }

  lemma {:induction false} ScanPasses(
    before: Nodes, path: Bytes, dir: Bytes, base: nat, ptr: nat, nodes: Nodes, buffer: Bytes)
    requires ptr >= 1 && Scanning(before, path, dir, base, ptr, nodes, buffer)
    requires ptr < |buffer| && buffer[ptr] !in {NUL, SLASH}
    ensures Scanning(before, path, dir, base, ptr + 1, nodes, buffer)
  {
    hide MadeUpTo;
    if dir != [] {
      LoadedAt(buffer, dir);
      ScanOn(before, dir, base, ptr, nodes);
    }
  }

  /** At the end of the path only the last directory is missing. */
  lemma {:induction false} ScanEnds(
    before: Nodes, path: Bytes, dir: Bytes, base: nat, ptr: nat, nodes: Nodes, buffer: Bytes)
    requires WellFormedFs(before) && ptr >= 1 && Scanning(before, path, dir, base, ptr, nodes, buffer)
    requires ptr < |buffer| && buffer[ptr] == NUL
    ensures CStr(buffer) == dir
    ensures EnsureDirectory(nodes, Resolve(dir)) == MakeDirectories(before, Resolve(dir))
  {
    hide MadeUpTo, Resolve;
    if dir != [] {
      LoadedAt(buffer, dir);
      LoadedIsCStr(buffer, dir);
      NextIsMade(before, dir, base, ptr, nodes);
      assert dir[..ptr] == dir;
    } else {
      ResolveOfNothing();
    }
  }

  lemma {:induction false} LoadedAt(buffer: Bytes, dir: Bytes)
    requires Loaded(buffer, dir)
    ensures |dir| < |buffer| && buffer[|dir|] == NUL
    ensures forall i :: 0 <= i < |dir| ==> buffer[i] == dir[i] != NUL
  {
    assert forall i :: 0 <= i < |dir| ==> buffer[i] == buffer[..|dir|][i];
  }

  /** Writing a NUL at `p` makes the buffer denote the prefix. */
  lemma {:induction false} CutIsPrefix(buffer: Bytes, s: Bytes, p: nat)
    requires p < |s| < |buffer| && buffer[..|s|] == s && NulFree(s)
    ensures CStr(buffer[p := NUL]) == s[..p]
  {
    assert buffer[p := NUL] == s[..p] + buffer[p := NUL][p..];
    assert NulFree(s[..p]);
    CStrOfTerminated(s[..p], buffer[p := NUL][p..]);
  }
}
