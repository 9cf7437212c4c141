/**
 The upload cursor: `read_get_next_entry` finds the next regular file of a directory tree with an
 explicit stack of open directories and one shared path buffer.
 */
module TarCursor {
  import opened CLib
  import opened UstarHeader
  import opened FileTree

  const MAX_TAR_DIR_DEPTH := 10
  const FS_READ_BUFFER_SIZE := 4096

  // ---------------------------------------------------------------------------------------------
  // The stack of open directories, and one call, as functions
  // ---------------------------------------------------------------------------------------------

  /** An open directory: its path, and the entries not yet listed. */
  datatype Frame = Frame(path: Bytes, rest: seq<Node>)

  /** A file as the cursor hands it out. */
  datatype Found = Found(path: Bytes, data: Bytes)

  /** What one iteration of the search leads to. */
  datatype Outcome = Searching | SearchFailed | FoundFile(name: Bytes, size: nat)

  datatype Advance = Entry(stack: seq<Frame>, file: Found) | Exhausted | Failed

  predicate ValidStack(stack: seq<Frame>) {
    forall i :: 0 <= i < |stack| ==>
      stack[i].path != [] && NulFree(stack[i].path) && Fits(stack[i].path) && ValidNodes(stack[i].rest)
  }

  function TreeWeight(nodes: seq<Node>): nat {
    if nodes == [] then 0
    else 2 + (if nodes[0].DirNode? then TreeWeight(nodes[0].children) else 0) + TreeWeight(nodes[1..])
  }

  function StackWeight(stack: seq<Frame>): nat {
    if stack == [] then 0
    else 1 + TreeWeight(stack[|stack| - 1].rest) + StackWeight(stack[..|stack| - 1])
  }

  /** The stack after its deepest directory has listed one more entry. */
  function Popped(stack: seq<Frame>): (r: seq<Frame>)
    requires stack != [] && stack[|stack| - 1].rest != []
    ensures |r| == |stack| && r[|r| - 1].path == stack[|stack| - 1].path
  {
    var top := stack[|stack| - 1];
    stack[..|stack| - 1] + [top.(rest := top.rest[1..])]
  }

  /** One call: ascend, skip, descend or stop at the next file. */
  function NextEntry(stack: seq<Frame>): (r: Advance)
    requires ValidStack(stack)
    ensures r.Entry? ==> ValidStack(r.stack) && StackWeight(r.stack) < StackWeight(stack)
    ensures r.Entry? ==> Fits(r.file.path) && NulFree(r.file.path)
    decreases StackWeight(stack)
  {
    if stack == [] then Exhausted
    else
      var top := stack[|stack| - 1];
      if top.rest == [] then NextEntry(stack[..|stack| - 1])
      else
        var node := top.rest[0];
        var popped := Popped(stack);
        PoppedIsLighter(stack);
        if IsDots(node.name) then NextEntry(popped)
        else
          var p := Join(top.path, node.name);
          JoinedIsNulFree(top.path, node.name);
          if !Fits(p) then Failed
          else if node.FileNode? then Entry(popped, Found(p, node.data))
          else if |stack| >= MAX_TAR_DIR_DEPTH then Failed
          else
            var deeper := popped + [Frame(p, node.children)];
            assert deeper[..|stack|] == popped;
            NextEntry(deeper)
  }

  lemma {:induction false} PoppedIsLighter(stack: seq<Frame>)
    requires ValidStack(stack) && stack != [] && stack[|stack| - 1].rest != []
    ensures ValidStack(Popped(stack))
    ensures var node := stack[|stack| - 1].rest[0];
            StackWeight(stack) == StackWeight(Popped(stack)) + 2
              + (if node.DirNode? then TreeWeight(node.children) else 0)
  {
    assert Popped(stack)[..|stack| - 1] == stack[..|stack| - 1];
  }

  lemma {:induction false} JoinedIsNulFree(path: Bytes, name: Bytes)
    requires path != [] && NulFree(path) && NulFree(name)
    ensures NulFree(Join(path, name))
  {
  }

  lemma {:induction false} DeeperIsLighter(stack: seq<Frame>, frame: Frame)
    ensures StackWeight(stack + [frame]) == StackWeight(stack) + 1 + TreeWeight(frame.rest)
  {
    assert (stack + [frame])[..|stack|] == stack;
  }

  /** One iteration of the loop, from any stack. */
  lemma {:induction false} NextEntryUnfolds(stack: seq<Frame>)
    requires ValidStack(stack)
    ensures stack == [] ==> NextEntry(stack) == Exhausted
    ensures stack != [] ==>
              var top := stack[|stack| - 1];
              if top.rest == [] then
                ValidStack(stack[..|stack| - 1]) && NextEntry(stack) == NextEntry(stack[..|stack| - 1])
                && StackWeight(stack[..|stack| - 1]) < StackWeight(stack)
              else
                var node, popped := top.rest[0], Popped(stack);
                ValidStack(popped) &&
                if IsDots(node.name) then NextEntry(stack) == NextEntry(popped)
                else
                  var p := Join(top.path, node.name);
                  if !Fits(p) then NextEntry(stack) == Failed
                  else if node.FileNode? then NextEntry(stack) == Entry(popped, Found(p, node.data))
                  else if |stack| >= MAX_TAR_DIR_DEPTH then NextEntry(stack) == Failed
                  else
                    var deeper := popped + [Frame(p, node.children)];
                    ValidStack(deeper) && NextEntry(stack) == NextEntry(deeper)
  {
    if stack != [] && stack[|stack| - 1].rest != [] {
      PoppedIsLighter(stack);
      var top := stack[|stack| - 1];
      assert ValidNodes(top.rest);
      JoinedIsNulFree(top.path, top.rest[0].name);
    }
  }

  /** What is left of a path after the source directory and one slash. */
  function RelativeName(source: Bytes, path: Bytes): Bytes
    requires source <= path
  {
    var r := path[|source|..];
    if r != [] && r[0] == SLASH then r[1..] else r
  }

  // ---------------------------------------------------------------------------------------------
  // The cursor object
  // ---------------------------------------------------------------------------------------------

  /** Open directories whose paths are prefixes of one buffer. */
  ghost function StackOf(buffer: Bytes, lens: seq<nat>, dirs: seq<seq<Node>>): (stack: seq<Frame>)
    requires |lens| == |dirs| && forall i :: 0 <= i < |lens| ==> lens[i] <= |buffer|
    ensures |stack| == |lens|
  {
    seq(|lens|, i requires 0 <= i < |lens| => Frame(buffer[..lens[i]], dirs[i]))
  }

  lemma {:induction false} StackTop(buffer: Bytes, lens: seq<nat>, dirs: seq<seq<Node>>)
    requires |lens| == |dirs| > 0 && forall i :: 0 <= i < |lens| ==> lens[i] <= |buffer|
    ensures StackOf(buffer, lens, dirs)[|lens| - 1] == Frame(buffer[..lens[|lens| - 1]], dirs[|lens| - 1])
  {
  }

  /** Only the part of the buffer up to the deepest path matters to the stack. */
  lemma {:induction false} StackOfSharedPrefix(buffer: Bytes, buffer': Bytes, lens: seq<nat>, dirs: seq<seq<Node>>, sourceLen: nat)
    requires NestedLens(lens, dirs, sourceLen) && lens != [] && |buffer| == |buffer'| == MAX_PATH_SIZE
    requires buffer[..lens[|lens| - 1]] == buffer'[..lens[|lens| - 1]]
    ensures StackOf(buffer, lens, dirs) == StackOf(buffer', lens, dirs)
  {
    hide ValidNodes;
    var n := lens[|lens| - 1];
    forall i | 0 <= i < |lens| ensures buffer[..lens[i]] == buffer'[..lens[i]] {
      assert buffer[..lens[i]] == buffer[..n][..lens[i]] && buffer'[..lens[i]] == buffer'[..n][..lens[i]];
    }
  }

  /** Strictly increasing path lengths, starting from that of the source. */
  ghost predicate NestedLens(lens: seq<nat>, dirs: seq<seq<Node>>, sourceLen: nat) {
    && |lens| == |dirs|
    && (forall i :: 0 <= i < |lens| ==> lens[i] < MAX_PATH_SIZE && ValidNodes(dirs[i]))
    && (forall i, j :: 0 <= i < j < |lens| ==> lens[i] < lens[j])
    && (lens != [] ==> lens[0] == sourceLen > 0)
  }

  lemma {:induction false} NestedPush(lens: seq<nat>, dirs: seq<seq<Node>>, sourceLen: nat, len: nat, nodes: seq<Node>)
    requires NestedLens(lens, dirs, sourceLen) && lens != [] && lens[|lens| - 1] < len < MAX_PATH_SIZE && ValidNodes(nodes)
    ensures NestedLens(lens + [len], dirs + [nodes], sourceLen)
  {
    hide ValidNodes;
  }

  lemma {:induction false} NestedFits(lens: seq<nat>, dirs: seq<seq<Node>>, sourceLen: nat)
    requires NestedLens(lens, dirs, sourceLen)
    ensures |lens| == |dirs| && forall i :: 0 <= i < |lens| ==> lens[i] < MAX_PATH_SIZE
  {
  }

  lemma {:induction false} HoldsFits(buffer: Bytes, s: Bytes)
    requires Holds(buffer, s)
    ensures |s| < MAX_PATH_SIZE == |buffer| && buffer[..|s|] == s
  {
  }

  lemma {:induction false} PushOnStack(buffer: Bytes, lens: seq<nat>, dirs: seq<seq<Node>>, len: nat, nodes: seq<Node>)
    requires |lens| == |dirs| && len <= |buffer| && forall i :: 0 <= i < |lens| ==> lens[i] <= |buffer|
    ensures StackOf(buffer, lens + [len], dirs + [nodes])
         == StackOf(buffer, lens, dirs) + [Frame(buffer[..len], nodes)]
  {
  }

  /** The read context of a directory source. */
  class ReadContext {
    const source: Bytes
    const tarDirs: array<seq<Node>>
    const tarPathLens: array<nat>
    var tarDirDepth: nat
    const tarCurrentPath: array<Byte>
    var fileOpen: bool
    var openData: seq<Byte>
    var openAt: nat

    /** Depth within 0..10, and the recorded path lengths strictly increasing from the source's. */
    ghost predicate Nested()
      reads this`tarDirDepth, tarDirs, tarPathLens
    {
      && tarDirs.Length == MAX_TAR_DIR_DEPTH == tarPathLens.Length
      && tarCurrentPath.Length == MAX_PATH_SIZE
      && tarDirDepth <= MAX_TAR_DIR_DEPTH
      && NestedLens(tarPathLens[..tarDirDepth], tarDirs[..tarDirDepth], |source|)
    }

    /** The shared buffer holds `p`, an extension of the deepest open directory's path. */
    ghost predicate Showing(p: Bytes)
      requires Nested()
      reads this`tarDirDepth, tarDirs, tarPathLens, tarCurrentPath
    {
      Holds(tarCurrentPath[..], p) && tarDirDepth > 0 && |source| <= tarPathLens[tarDirDepth - 1] <= |p| && source <= p
    }

    /**
     Between calls, the shared buffer is the NUL-terminated path of the deepest open directory, and
     cutting it at a recorded length gives the path of an enclosing one.
     */
    ghost predicate Valid()
      reads this`tarDirDepth, this`openData, this`openAt, tarDirs, tarPathLens, tarCurrentPath
    {
      && Nested()
      && (tarDirDepth > 0 ==> Showing(tarCurrentPath[..tarPathLens[tarDirDepth - 1]]))
      && openAt <= |openData|
    }

    /** The open directories, outermost first. */
    ghost function Stack(): (stack: seq<Frame>)
      requires Nested()
      reads this`tarDirDepth, tarDirs, tarPathLens, tarCurrentPath
      ensures |stack| == tarDirDepth
    {
      StackOf(tarCurrentPath[..], tarPathLens[..tarDirDepth], tarDirs[..tarDirDepth])
    }

    /** The directory part of `read_init`. */
    constructor (source: Bytes, nodes: seq<Node>)
      requires source != [] && NulFree(source) && Fits(source) && ValidNodes(nodes)
      ensures Valid() && Stack() == [Frame(source, nodes)] && this.source == source && !fileOpen
      ensures fresh(tarDirs) && fresh(tarPathLens) && fresh(tarCurrentPath)
    {
      this.source := source;
      tarDirs := new seq<Node>[MAX_TAR_DIR_DEPTH](i => []);
      tarPathLens := new nat[MAX_TAR_DIR_DEPTH](i => 0);
      tarCurrentPath := new Byte[MAX_PATH_SIZE](i => NUL);
      tarDirDepth := 0;
      fileOpen, openData, openAt := false, [], 0;
      new;
      assert tarCurrentPath[..0] == [];
      StoreName(tarCurrentPath, 0, source);
      tarDirs[0] := nodes;
      tarPathLens[0] := |source|;
      tarDirDepth := 1;
      assert tarCurrentPath[..|source|] == source;
    }

    /** `tar_ascend_directory`: close the deepest directory and cut the path back to its parent. */
    method AscendDirectory()
      requires Valid() && tarDirDepth > 0
      modifies this`tarDirDepth, tarCurrentPath
      ensures Valid() && Stack() == old(Stack())[..old(tarDirDepth) - 1]
      ensures tarDirDepth == old(tarDirDepth) - 1
    {
      hide Fits, ValidNodes;
      tarDirDepth := tarDirDepth - 1;
      if tarDirDepth > 0 {
        CutBack(tarPathLens[tarDirDepth - 1], tarCurrentPath[..tarPathLens[tarDirDepth]]);
      }
    }

    /** Back to the deepest open directory. */
    method CutBack(baseLen: nat, ghost p: Bytes)
      requires Nested() && Showing(p) && baseLen == tarPathLens[tarDirDepth - 1] && openAt <= |openData|
      modifies tarCurrentPath
      ensures Valid() && Stack() == old(Stack())
    {
      hide Fits, ValidNodes, NestedLens, StackOf;
      ghost var before := tarCurrentPath[..];
      assert before[..baseLen] == p[..baseLen];
      NestedFits(tarPathLens[..tarDirDepth], tarDirs[..tarDirDepth], |source|);
      CutPath(tarCurrentPath, baseLen);
      assert tarCurrentPath[..][..baseLen] == before[..baseLen];
      StackOfSharedPrefix(before, tarCurrentPath[..], tarPathLens[..tarDirDepth], tarDirs[..tarDirDepth], |source|);
      assert p[..baseLen][..|source|] == p[..|source|];
    }

    /** `tar_build_entry_path`: extend the shared path, or report that it would not fit. */
    method BuildEntryPath(name: Bytes) returns (ok: bool, baseLen: nat)
      requires Valid() && tarDirDepth > 0 && ValidEntryName(name)
      modifies tarCurrentPath
      ensures baseLen == tarPathLens[tarDirDepth - 1] && Nested() && Stack() == old(Stack())
      ensures var p := Join(Stack()[tarDirDepth - 1].path, name);
              ok == Fits(p) && (if ok then Showing(p) && baseLen < |p| else Valid())
    {
      hide Fits, ValidNodes, StackOf;
      baseLen := tarPathLens[tarDirDepth - 1];
      ghost var before := tarCurrentPath[..];
      ghost var s := tarCurrentPath[..baseLen];
      StackTop(before, tarPathLens[..tarDirDepth], tarDirs[..tarDirDepth]);
      NestedFits(tarPathLens[..tarDirDepth], tarDirs[..tarDirDepth], |source|);
      assert baseLen > 0;
      hide NestedLens, Holds, NulFree, ValidEntryName;
      ok := ExtendPath(tarCurrentPath, s, baseLen, name);
      StackOfSharedPrefix(before, tarCurrentPath[..], tarPathLens[..tarDirDepth], tarDirs[..tarDirDepth], |source|);
      assert Join(s, name)[..baseLen] == s;
      assert s[..|source|] == source;
    }

    /** `tar_handle_dir_entry`: open the directory, unless it is too deep. */
    method HandleDirEntry(baseLen: nat, children: seq<Node>, ghost p: Bytes) returns (ok: bool)
      requires Nested() && Showing(p) && baseLen == tarPathLens[tarDirDepth - 1] < |p| && ValidNodes(children)
      requires openAt <= |openData|
      modifies this`tarDirDepth, tarDirs, tarPathLens, tarCurrentPath
      ensures Valid() && ok == (old(tarDirDepth) < 10)
      ensures ok ==> Stack() == old(Stack()) + [Frame(p, children)]
    {
      hide Fits, ValidNodes;
      if tarDirDepth >= MAX_TAR_DIR_DEPTH {
        CutBack(baseLen, p);
        return false;
      }
      HoldsIsCStr(tarCurrentPath[..], p);
      OpenDirectory(|CStr(tarCurrentPath[..])|, children, p);
      ok := true;
    }

    /** Push a directory whose path the buffer already shows. */
    method OpenDirectory(pathLen: nat, children: seq<Node>, ghost p: Bytes)
      requires Nested() && Showing(p) && tarPathLens[tarDirDepth - 1] < |p| == pathLen && ValidNodes(children)
      requires tarDirDepth < MAX_TAR_DIR_DEPTH && openAt <= |openData|
      modifies this`tarDirDepth, tarDirs, tarPathLens
      ensures Valid() && Stack() == old(Stack()) + [Frame(p, children)]
    {
      hide Fits, ValidNodes, StackOf, Holds, NulFree, NestedLens;
      ghost var buffer, lens, dirs := tarCurrentPath[..], tarPathLens[..tarDirDepth], tarDirs[..tarDirDepth];
      HoldsFits(buffer, p);
      NestedPush(lens, dirs, |source|, pathLen, children);
      NestedFits(lens, dirs, |source|);
      PushOnStack(buffer, lens, dirs, pathLen, children);
      tarDirs[tarDirDepth] := children;
      tarPathLens[tarDirDepth] := pathLen;
      tarDirDepth := tarDirDepth + 1;
      assert tarPathLens[..tarDirDepth] == lens + [pathLen];
      assert tarDirs[..tarDirDepth] == dirs + [children];
    }

    /** `tar_handle_file_entry`: open the file and hand out its path relative to the source. */
    method HandleFileEntry(baseLen: nat, data: Bytes, ghost p: Bytes) returns (name: Bytes)
      requires Nested() && Showing(p) && baseLen == tarPathLens[tarDirDepth - 1] && openAt <= |openData|
      modifies this`fileOpen, this`openData, this`openAt, tarCurrentPath
      ensures Valid() && Stack() == old(Stack())
      ensures name == RelativeName(source, p) && |name| < FILE_NAME_BUFF_SIZE
      ensures fileOpen && openData == data && openAt == 0
    {
      hide Fits, ValidNodes, StackOf;
      HoldsIsCStr(tarCurrentPath[..], p);
      name := RelativeName(source, CStr(tarCurrentPath[..]));
      fileOpen, openData, openAt := true, data, 0;
      CutBack(baseLen, p);
    }

    /** `fs_readdir` on the deepest directory. */
    method ReadDir() returns (entry: Option<Node>)
      requires Valid() && tarDirDepth > 0
      modifies tarDirs
      ensures Valid()
      ensures var top := old(Stack())[tarDirDepth - 1];
              if top.rest == [] then entry == None && Stack() == old(Stack())
              else entry == Some(top.rest[0]) && Stack() == Popped(old(Stack()))
      ensures entry.Some? ==> ValidEntryName(entry.value.name)
                              && (entry.value.DirNode? ==> ValidNodes(entry.value.children))
    {
      hide Fits;
      var idx := tarDirDepth - 1;
      var rest := tarDirs[idx];
      if rest == [] { return None; }
      assert ValidNodes(rest);
      entry := Some(rest[0]);
      tarDirs[idx] := rest[1..];
    }

    /** The body of the search loop. */
    method SearchStep() returns (outcome: Outcome)
      requires Valid() && tarDirDepth > 0 && ValidStack(Stack())
      modifies this, tarDirs, tarPathLens, tarCurrentPath
      ensures Valid() && ValidStack(Stack())
      ensures match outcome
              case Searching =>
                NextEntry(old(Stack())) == NextEntry(Stack()) && StackWeight(Stack()) < StackWeight(old(Stack()))
              case SearchFailed => NextEntry(old(Stack())) == Failed
              case FoundFile(name, size) =>
                var r := NextEntry(old(Stack()));
                && r.Entry? && Stack() == r.stack
                && source <= r.file.path && name == RelativeName(source, r.file.path) && size == |r.file.data|
                && fileOpen && openData == r.file.data && openAt == 0
    {
      hide Fits, ValidNodes, StackOf, Nested, Showing, NextEntry, StackWeight, Popped;
      ghost var stack := Stack();
      assert stack[|stack| - 1].path != [];
      hide ValidStack;
      NextEntryUnfolds(stack);
      var entry := ReadDir();
      StackIsValid();
      if entry.None? {
        AscendDirectory();
        StackIsValid();
        return Searching;
      }
      PoppedIsLighter(stack);
      if IsDots(entry.value.name) { return Searching; }
      var fits, baseLen := BuildEntryPath(entry.value.name);
      if !fits { return SearchFailed; }
      ghost var p := Join(stack[|stack| - 1].path, entry.value.name);
      outcome := HandleEntry(baseLen, entry.value, p);
      StackIsValid();
      if entry.value.DirNode? {
        DeeperIsLighter(Popped(stack), Frame(p, entry.value.children));
      }
    }

    /** Descend into a directory or stop at a file. */
    method HandleEntry(baseLen: nat, entry: Node, ghost p: Bytes) returns (outcome: Outcome)
      requires Nested() && Showing(p) && baseLen == tarPathLens[tarDirDepth - 1] < |p| && openAt <= |openData|
      requires entry.DirNode? ==> ValidNodes(entry.children)
      modifies this, tarDirs, tarPathLens, tarCurrentPath
      ensures Valid()
      ensures match entry
              case DirNode(_, children) =>
                if old(tarDirDepth) >= MAX_TAR_DIR_DEPTH then outcome == SearchFailed
                else outcome == Searching && Stack() == old(Stack()) + [Frame(p, children)]
              case FileNode(_, data) =>
                && Stack() == old(Stack()) && source <= p
                && outcome == FoundFile(RelativeName(source, p), |data|)
                && fileOpen && openData == data && openAt == 0
    {
      hide Fits, ValidNodes, StackOf, Nested, Holds;
      match entry
      case DirNode(_, children) =>
        var entered := HandleDirEntry(baseLen, children, p);
        outcome := if entered then Searching else SearchFailed;
      case FileNode(_, data) =>
        var name := HandleFileEntry(baseLen, data, p);
        outcome := FoundFile(name, |data|);
    }

    /** `read_get_next_entry` on a directory source. */
    method GetNextEntry() returns (ok: bool, hasNext: bool, name: Bytes, size: nat)
      requires Valid()
      modifies this, tarDirs, tarPathLens, tarCurrentPath
      ensures Valid()
      ensures ValidStack(old(Stack()))
      ensures match NextEntry(old(Stack()))
              case Exhausted => ok && !hasNext && Stack() == []
              case Failed => !ok
              case Entry(stack, file) =>
                && ok && hasNext && Stack() == stack
                && source <= file.path && name == RelativeName(source, file.path) && size == |file.data|
                && fileOpen && openData == file.data && openAt == 0
    {
      hide Fits, ValidNodes, ValidStack, StackOf, Nested, Showing, NextEntry, StackWeight;
      StackIsValid();
      ghost var first := Stack();
      fileOpen := false;
      while tarDirDepth > 0
        invariant Valid() && ValidStack(Stack()) && ValidStack(first)
        invariant NextEntry(first) == NextEntry(Stack())
        decreases StackWeight(Stack())
      {
        var outcome := SearchStep();
        match outcome
        case Searching =>
        case SearchFailed => return false, false, [], 0;
        case FoundFile(n, s) => return true, true, n, s;
      }
      NextEntryUnfolds([]);
      return true, false, [], 0;
    }

    /**
     `read_chunk`. `granted` is what `fs_read` returns: an error, or up to the request and up to the
     rest of the open file.
     */
    method ReadChunk(maxLength: nat, granted: Option<nat>) returns (ok: bool, chunk: Bytes, lastChunk: bool)
      requires Valid() && fileOpen
      requires granted.Some? ==> granted.value <= Min(Min(4096, maxLength), |openData| - openAt)
      modifies this`openAt
      ensures Valid() && (ok <==> granted.Some?)
      ensures openAt == old(openAt) + if ok then granted.value else 0
      ensures ok ==> chunk == openData[old(openAt)..openAt]
      ensures ok ==> (lastChunk <==> granted.value < Min(4096, maxLength))
    {
      var bytesToRead := Min(FS_READ_BUFFER_SIZE, maxLength);
      if granted.None? { return false, [], false; }
      chunk := openData[openAt..openAt + granted.value];
      openAt := openAt + granted.value;
      lastChunk := granted.value < bytesToRead;
      ok := true;
    }

    lemma {:induction false} StackIsValid()
      requires Valid()
      ensures ValidStack(Stack())
    {
      if tarDirDepth > 0 { ShownStackIsValid(tarCurrentPath[..tarPathLens[tarDirDepth - 1]]); }
    }

    lemma {:induction false} ShownStackIsValid(p: Bytes)
      requires Nested() && Showing(p)
      ensures ValidStack(Stack())
    {
    }
  }
}
