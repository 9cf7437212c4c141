/** Directory trees as `readdir` lists them, and the recursive walk over them. */
module FileTree {
  import opened CLib
  import opened UstarHeader

  const MAX_PATH_SIZE := 256

  /** A directory entry with everything below it: what `fs_readdir` would list. */
  datatype Node = FileNode(name: Bytes, data: Bytes) | DirNode(name: Bytes, children: seq<Node>)

  /** Entry names are non-empty C strings without slashes (an empty name ends a listing). */
  predicate ValidEntryName(name: Bytes) {
    name != [] && NulFree(name) && forall i :: 0 <= i < |name| ==> name[i] != SLASH
  }

  predicate ValidNodes(nodes: seq<Node>) {
    nodes == [] ||
    (&& ValidEntryName(nodes[0].name)
     && (nodes[0].DirNode? ==> ValidNodes(nodes[0].children))
     && ValidNodes(nodes[1..]))
  }

  predicate IsDots(name: Bytes) { name == [DOT] || name == [DOT, DOT] }

  /** The path of an entry, with a slash added unless the directory's path ends in one. */
  function Join(path: Bytes, name: Bytes): (r: Bytes)
    requires path != []
    ensures path <= r && |r| >= |path| + |name|
  {
    if path[|path| - 1] != SLASH then path + [SLASH] + name else path + name
  }

  predicate Fits(path: Bytes) { |path| < MAX_PATH_SIZE }

  // ---------------------------------------------------------------------------------------------
  // The shared path buffer
  // ---------------------------------------------------------------------------------------------

  /** The buffer holds the C string `s`, and its last byte is NUL in any case. */
  ghost predicate Holds(buffer: Bytes, s: Bytes) {
    && |buffer| == MAX_PATH_SIZE && Fits(s) && NulFree(s)
    && buffer[..|s|] == s && buffer[|s|] == NUL && buffer[MAX_PATH_SIZE - 1] == NUL
  }

  lemma {:induction false} HoldsIsCStr(buffer: Bytes, s: Bytes)
    requires Holds(buffer, s)
    ensures CStr(buffer) == s
  {
    assert buffer == s + buffer[|s|..];
    CStrOfTerminated(s, buffer[|s|..]);
  }

  /** Appends a slash if needed and the name, or reports that there is no room. */
  method ExtendPath(buffer: array<Byte>, ghost s: Bytes, length: nat, name: Bytes) returns (fits: bool)
    requires Holds(buffer[..], s) && s != [] && length == |s| && ValidEntryName(name)
    modifies buffer
    ensures fits <==> Fits(Join(s, name))
    ensures fits ==> Holds(buffer[..], Join(s, name)) && buffer[..length] == s
    ensures !fits ==> buffer[..] == old(buffer[..])
  {
    assert buffer[length - 1] == buffer[..][..length][length - 1] == s[length - 1];
    var needsSlash := buffer[length - 1] != SLASH;
    if length + (if needsSlash then 1 else 0) + |name| >= MAX_PATH_SIZE { return false; }
    var at := length;
    if needsSlash {
      buffer[length] := SLASH;
      at := length + 1;
    }
    assert buffer[..at] + name == Join(s, name);
    StoreName(buffer, at, name);
    assert buffer[..][..at + |name|][..length] == s;
    fits := true;
  }

  /** `strncpy` of the name into what is left of the buffer. */
  method StoreName(buffer: array<Byte>, at: nat, name: Bytes)
    requires buffer.Length == MAX_PATH_SIZE && at + |name| < MAX_PATH_SIZE && NulFree(name)
    requires NulFree(buffer[..at]) && buffer[MAX_PATH_SIZE - 1] == NUL
    modifies buffer
    ensures Holds(buffer[..], old(buffer[..at]) + name)
  {
    ghost var front := buffer[..at];
    ghost var s := front + name;
    var padded := StrNCpyBytes(name, MAX_PATH_SIZE - at - 1);
    CopyInto(buffer, at, padded);
    assert buffer[..at] == front;
    assert buffer[..|s|] == s;
    assert |name| < |padded| ==> padded[|name|] == NUL;
    assert forall i :: 0 <= i < |s| ==> s[i] == if i < at then front[i] else name[i - at];
  }

  /** Cuts the path back to one of its prefixes. */
  method CutPath(buffer: array<Byte>, length: nat)
    requires buffer.Length == MAX_PATH_SIZE && length < MAX_PATH_SIZE && NulFree(buffer[..length])
    requires buffer[MAX_PATH_SIZE - 1] == NUL
    modifies buffer
    ensures Holds(buffer[..], old(buffer[..length]))
    ensures forall i :: 0 <= i < length ==> buffer[i] == old(buffer[i])
  {
    buffer[length] := NUL;
  }

  // ---------------------------------------------------------------------------------------------
  // The recursive walk
  // ---------------------------------------------------------------------------------------------

  datatype Visit = Visit(path: Bytes, entry: Node)
  datatype Walk = Walk(visits: seq<Visit>, tooLong: bool)

  /**
   The callbacks a walk makes: a directory after everything below it; nothing for "." and ".."; and
   the rest of a listing is given up at an entry whose path does not fit.
   */
  function WalkTree(path: Bytes, nodes: seq<Node>): Walk
    requires path != []
    decreases nodes
  {
    if nodes == [] then Walk([], false)
    else if IsDots(nodes[0].name) then WalkTree(path, nodes[1..])
    else
      var p := Join(path, nodes[0].name);
      if !Fits(p) then Walk([], true)
      else
        var below := if nodes[0].DirNode? then WalkTree(p, nodes[0].children).visits else [];
        var rest := WalkTree(path, nodes[1..]);
        Walk(below + [Visit(p, nodes[0])] + rest.visits, rest.tooLong)
  }

  /** The user data after a series of callbacks. */
  function Fold<A>(cbk: (A, Visit) -> A, data: A, visits: seq<Visit>): A {
    if visits == [] then data else Fold(cbk, cbk(data, visits[0]), visits[1..])
  }

  lemma {:induction false} FoldOfConcat<A>(cbk: (A, Visit) -> A, data: A, xs: seq<Visit>, ys: seq<Visit>)
    ensures Fold(cbk, data, xs + ys) == Fold(cbk, Fold(cbk, data, xs), ys)
    decreases |xs|
  {
    if xs == [] {
      assert xs + ys == ys;
    } else {
      FoldOfConcat(cbk, cbk(data, xs[0]), xs[1..], ys);
      assert (xs + ys)[1..] == xs[1..] + ys;
    }
  }

  lemma {:induction false} ValidNodesAt(nodes: seq<Node>, i: nat)
    requires ValidNodes(nodes) && i <= |nodes|
    ensures ValidNodes(nodes[i..])
    ensures i < |nodes| ==> ValidEntryName(nodes[i].name) && (nodes[i].DirNode? ==> ValidNodes(nodes[i].children))
  {
    if i > 0 {
      ValidNodesAt(nodes[1..], i - 1);
      assert nodes[1..][i - 1..] == nodes[i..];
    } else {
      assert nodes[0..] == nodes;
    }
  }

  lemma {:induction false} WalkTreeAt(path: Bytes, nodes: seq<Node>, i: nat)
    requires path != [] && i < |nodes|
    ensures WalkTree(path, nodes[i..]) ==
            if IsDots(nodes[i].name) then WalkTree(path, nodes[i + 1..])
            else
              var p := Join(path, nodes[i].name);
              if !Fits(p) then Walk([], true)
              else
                var below := if nodes[i].DirNode? then WalkTree(p, nodes[i].children).visits else [];
                var rest := WalkTree(path, nodes[i + 1..]);
                Walk(below + [Visit(p, nodes[i])] + rest.visits, rest.tooLong)
  {
    assert nodes[i..][1..] == nodes[i + 1..];
  }

  /** A walk reports a path that is too long exactly for the entries of its own listing, not for those below. */
  lemma {:induction false} TooLongMeaning(path: Bytes, nodes: seq<Node>)
    requires path != []
    ensures WalkTree(path, nodes).tooLong <==>
              exists i :: 0 <= i < |nodes| && nodes[i].name != [46] && nodes[i].name != [46, 46]
                && |Join(path, nodes[i].name)| >= 256
  {
    hide Join;
    if nodes != [] {
      var rest := nodes[1..];
      TooLongMeaning(path, rest);
      assert forall i :: 0 < i < |nodes| ==> nodes[i] == rest[i - 1];
      assert forall i :: 0 <= i < |rest| ==> rest[i] == nodes[i + 1];
    }
  }

  /** The callbacks for a listing without such an entry do not depend on what follows, nor on what is too long below it. */
  lemma {:induction false} WalkOfConcat(path: Bytes, xs: seq<Node>, ys: seq<Node>)
    requires path != [] && !WalkTree(path, xs).tooLong
    ensures WalkTree(path, xs + ys).visits == WalkTree(path, xs).visits + WalkTree(path, ys).visits
    ensures WalkTree(path, xs + ys).tooLong == WalkTree(path, ys).tooLong
  {
    hide Join, Fits, IsDots;
    if xs == [] {
      assert xs + ys == ys;
    } else {
      assert (xs + ys)[1..] == xs[1..] + ys;
      WalkOfConcat(path, xs[1..], ys);
    }
  }

  datatype WalkError = WalkOk | NameTooLong

  /** One walk: the shared buffer, the user data, and the callback that updates it. */
  class Walker<A> {
    const path: array<Byte>
    var userData: A
    const cbk: (A, Visit) -> A

    /** `fs_walk`, up to the recursion: copy the base path. */
    constructor (basePath: Bytes, cbk: (A, Visit) -> A, userData: A)
      requires basePath != [] && NulFree(basePath) && Fits(basePath)
      ensures Holds(path[..], basePath) && fresh(path)
      ensures this.cbk == cbk && this.userData == userData
    {
      this.cbk := cbk;
      this.userData := userData;
      var buffer := new Byte[MAX_PATH_SIZE](i => NUL);
      path := buffer;
      new;
      CopyInto(path, 0, StrNCpyBytes(basePath, MAX_PATH_SIZE - 1));
      path[MAX_PATH_SIZE - 1] := NUL;
      assert path[..|basePath|] == basePath;
    }

    /**
     `walk_recursive` on a directory listing `nodes`. It ends because every level makes the path
     longer while it has to fit the buffer, however deep the directories are.
     */
    method WalkRecursive(nodes: seq<Node>, ghost s: Bytes) returns (err: WalkError)
      requires Holds(path[..], s) && s != [] && ValidNodes(nodes)
      modifies this, path
      ensures Holds(path[..], s)
      ensures userData == Fold(cbk, old(userData), WalkTree(s, nodes).visits)
      ensures err.NameTooLong? <==> WalkTree(s, nodes).tooLong
      decreases MAX_PATH_SIZE - |s|
    {
      HoldsIsCStr(path[..], s);
      var pathLen := |CStr(path[..])|;
      err := WalkOk;
      var i := 0;
      ghost var all := WalkTree(s, nodes);
      assert nodes[0..] == nodes;
      while i < |nodes|
        invariant i <= |nodes| && pathLen == |s| && err == WalkOk
        invariant Holds(path[..], s)
        invariant Fold(cbk, userData, WalkTree(s, nodes[i..]).visits) == Fold(cbk, old(userData), all.visits)
        invariant WalkTree(s, nodes[i..]).tooLong == all.tooLong
        decreases |nodes| - i
      {
        hide ValidNodes, WalkTree, Fold, Fits, Holds;
        ValidNodesAt(nodes, i);
        WalkTreeAt(s, nodes, i);
        var entry := nodes[i];
        ghost var rest := WalkTree(s, nodes[i + 1..]).visits;
        i := i + 1;
        if IsDots(entry.name) { continue; }
        var fits := ExtendPath(path, s, pathLen, entry.name);
        if !fits {
          assert Holds(path[..], s);
          FoldNothing(cbk, userData);
          return NameTooLong;
        }
        ghost var p := Join(s, entry.name);
        ghost var below := if entry.DirNode? then WalkTree(p, entry.children).visits else [];
        ghost var before := userData;
        if entry.DirNode? {
          PathGrows(s, entry.name);
          var subErr := WalkRecursive(entry.children, p);
        } else {
          FoldNothing(cbk, userData);
        }
        assert userData == Fold(cbk, before, below);
        HoldsIsCStr(path[..], p);
        userData := cbk(userData, Visit(CStr(path[..]), entry));
        FoldOfConcat(cbk, before, below + [Visit(p, entry)], rest);
        FoldOfConcat(cbk, before, below, [Visit(p, entry)]);
        FoldOne(cbk, Fold(cbk, before, below), Visit(p, entry));
        CutAfterEntry(pathLen, s, p);
      }
      assert nodes[i..] == [];
    }

    /** Restore the path buffer to the current directory. */
    method CutAfterEntry(pathLen: nat, ghost s: Bytes, ghost p: Bytes)
      requires pathLen == |s| && s <= p && NulFree(s) && Holds(path[..], p)
      modifies path
      ensures Holds(path[..], s)
    {
      assert path[..pathLen] == path[..][..|p|][..pathLen] == s;
      CutPath(path, pathLen);
    }
  }

  lemma {:induction false} FoldNothing<A>(cbk: (A, Visit) -> A, data: A)
    ensures Fold(cbk, data, []) == data
  {
  }

  lemma {:induction false} FoldOne<A>(cbk: (A, Visit) -> A, data: A, v: Visit)
    ensures Fold(cbk, data, [v]) == cbk(data, v)
  {
    assert [v][1..] == [];
  }

  lemma {:induction false} PathGrows(path: Bytes, name: Bytes)
    requires path != [] && ValidEntryName(name)
    ensures |path| < |Join(path, name)|
  {
  }
}
