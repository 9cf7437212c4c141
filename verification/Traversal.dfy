/** The explicit-stack cursor and the recursive walk list the same files in the same order. */
module Traversal {
  import opened CLib
  import opened UstarHeader
  import opened FileTree
  import opened TarCursor

  /** The regular files below a directory, in listing order, depth first. */
  function FilesBelow(path: Bytes, nodes: seq<Node>): seq<Found>
    requires path != []
    decreases nodes, 0
  {
    if nodes == [] then []
    else if IsDots(nodes[0].name) then FilesBelow(path, nodes[1..])
    else FilesAt(path, nodes[0]) + FilesBelow(path, nodes[1..])
  }

  /** What one entry contributes. */
  function FilesAt(path: Bytes, node: Node): seq<Found>
    requires path != []
    decreases node, 1
  {
    var p := Join(path, node.name);
    match node
    case FileNode(_, data) => [Found(p, data)]
    case DirNode(_, children) => FilesBelow(p, children)
  }

  /** Every path fits the buffer, and no directory is nested too deeply for the cursor. */
  predicate Listable(path: Bytes, nodes: seq<Node>, depth: nat)
    requires path != []
    decreases nodes
  {
    nodes == [] ||
    (&& (IsDots(nodes[0].name) ||
         var p := Join(path, nodes[0].name);
         && Fits(p)
         && (nodes[0].DirNode? ==> depth < MAX_TAR_DIR_DEPTH && Listable(p, nodes[0].children, depth + 1)))
     && Listable(path, nodes[1..], depth))
  }

  // ---------------------------------------------------------------------------------------------
  // The walk
  // ---------------------------------------------------------------------------------------------

  /** The regular files among a walk's callbacks. */
  function FileVisits(visits: seq<Visit>): seq<Found> {
    if visits == [] then [] else FileVisit(visits[0]) + FileVisits(visits[1..])
  }

  function FileVisit(v: Visit): seq<Found> {
    match v.entry
    case FileNode(_, data) => [Found(v.path, data)]
    case DirNode(_, _) => []
  }

  lemma {:induction false} FileVisitsOfConcat(xs: seq<Visit>, ys: seq<Visit>)
    ensures FileVisits(xs + ys) == FileVisits(xs) + FileVisits(ys)
  {
    hide FileVisit;
    if xs == [] {
      assert xs + ys == ys;
    } else {
      FileVisitsOfConcat(xs[1..], ys);
      assert (xs + ys)[1..] == xs[1..] + ys;
      Associative(FileVisit(xs[0]), FileVisits(xs[1..]), FileVisits(ys));
    }
  }

  lemma {:induction false} WalkListsFiles(path: Bytes, nodes: seq<Node>, depth: nat)
    requires path != [] && Listable(path, nodes, depth)
    ensures !WalkTree(path, nodes).tooLong
    ensures FileVisits(WalkTree(path, nodes).visits) == FilesBelow(path, nodes)
    decreases nodes
  {
    hide Fits, FileVisits, FilesAt;
    if nodes == [] {
      NoVisits();
    } else {
      WalkListsFiles(path, nodes[1..], depth);
      if !IsDots(nodes[0].name) {
        var node := nodes[0];
        var p := Join(path, node.name);
        var rest := WalkTree(path, nodes[1..]).visits;
        var below := if node.DirNode? then WalkTree(p, node.children).visits else [];
        if node.DirNode? {
          WalkListsFiles(p, node.children, depth + 1);
        }
        EntryVisits(path, node, below);
        FileVisitsOfConcat(below + [Visit(p, node)], rest);
      }
    }
  }

  lemma {:induction false} NoVisits()
    ensures FileVisits([]) == []
  {
  }

  /** The callbacks for one entry: those below it, then its own. */
  lemma {:induction false} EntryVisits(path: Bytes, node: Node, below: seq<Visit>)
    requires path != []
    requires if node.DirNode? then FileVisits(below) == FilesBelow(Join(path, node.name), node.children) else below == []
    ensures FileVisits(below + [Visit(Join(path, node.name), node)]) == FilesAt(path, node)
  {
    hide FilesBelow;
    var own := Visit(Join(path, node.name), node);
    FileVisitsOfConcat(below, [own]);
    assert FileVisits([own]) == FileVisit(own) + FileVisits([own][1..]) && [own][1..] == [];
  }

  // ---------------------------------------------------------------------------------------------
  // The cursor
  // ---------------------------------------------------------------------------------------------

  /** The files a stack of open directories has yet to list. */
  function Unlisted(stack: seq<Frame>): seq<Found>
    requires ValidStack(stack)
  {
    if stack == [] then []
    else
      var top := stack[|stack| - 1];
      FilesBelow(top.path, top.rest) + Unlisted(stack[..|stack| - 1])
  }

  predicate StackListable(stack: seq<Frame>)
    requires ValidStack(stack)
  {
    stack == [] ||
    var top := stack[|stack| - 1];
    Listable(top.path, top.rest, |stack|) && StackListable(stack[..|stack| - 1])
  }

  /** Every open directory is at or below the source. */
  predicate Below(source: Bytes, stack: seq<Frame>) {
    forall i :: 0 <= i < |stack| ==> source <= stack[i].path
  }

  lemma {:induction false} PrefixTransitive(a: Bytes, b: Bytes, c: Bytes)
    requires a <= b <= c
    ensures a <= c
  {
    assert c[..|a|] == c[..|b|][..|a|];
  }

  /** One call hands out exactly the first pending file, or fails exactly when the rest cannot be listed. */
  ghost predicate Produces(source: Bytes, stack: seq<Frame>, r: Advance)
    requires ValidStack(stack) && (r.Entry? ==> ValidStack(r.stack))
  {
    match r
    case Exhausted => Unlisted(stack) == [] && StackListable(stack)
    case Failed => !StackListable(stack)
    case Entry(rest, file) =>
      && Unlisted(stack) == [file] + Unlisted(rest)
      && (StackListable(stack) <==> StackListable(rest))
      && Below(source, rest) && source <= file.path
  }

  lemma {:induction false} NextEntryProduces(source: Bytes, stack: seq<Frame>)
    requires ValidStack(stack) && Below(source, stack)
    ensures Produces(source, stack, NextEntry(stack))
    decreases StackWeight(stack)
  {
    hide Fits, ValidNodes, NextEntry, StackWeight, FilesBelow, FilesAt, Listable, ValidStack, Unlisted, StackListable;
    NextEntryUnfolds(stack);
    if stack == [] {
      NothingUnlisted();
    } else {
      var top := stack[|stack| - 1];
      if top.rest == [] {
        AscendListed(stack);
        NextEntryProduces(source, stack[..|stack| - 1]);
      } else {
        PoppedIsLighter(stack);
        FirstListed(stack);
        FirstListable(stack);
        var node, popped := top.rest[0], Popped(stack);
        assert Below(source, popped);
        if IsDots(node.name) {
          assert [] + Unlisted(popped) == Unlisted(popped);
          NextEntryProduces(source, popped);
        } else {
          var p := Join(top.path, node.name);
          PrefixTransitive(source, top.path, p);
          OneEntry(top.path, node);
          if Fits(p) && node.DirNode? && |stack| < MAX_TAR_DIR_DEPTH {
            var deeper := popped + [Frame(p, node.children)];
            DeeperIsLighter(popped, Frame(p, node.children));
            PushListed(popped, Frame(p, node.children));
            NextEntryProduces(source, deeper);
          }
        }
      }
    }
  }

  lemma {:induction false} NothingUnlisted()
    ensures ValidStack([]) && Unlisted([]) == [] && StackListable([])
  {
  }

  lemma {:induction false} AscendListed(stack: seq<Frame>)
    requires ValidStack(stack) && stack != [] && stack[|stack| - 1].rest == []
    ensures ValidStack(stack[..|stack| - 1])
    ensures Unlisted(stack) == Unlisted(stack[..|stack| - 1])
    ensures StackListable(stack) <==> StackListable(stack[..|stack| - 1])
  {
    hide Fits, ValidNodes;
    assert [] + Unlisted(stack[..|stack| - 1]) == Unlisted(stack[..|stack| - 1]);
  }

  lemma {:induction false} OneEntry(path: Bytes, node: Node)
    requires path != []
    ensures FilesAt(path, node) ==
            match node
            case FileNode(_, data) => [Found(Join(path, node.name), data)]
            case DirNode(_, children) => FilesBelow(Join(path, node.name), children)
  {
  }

  /** What the first entry of the deepest directory contributes. */
  lemma {:induction false} FirstListed(stack: seq<Frame>)
    requires ValidStack(stack) && stack != [] && stack[|stack| - 1].rest != []
    ensures ValidStack(Popped(stack)) && stack[|stack| - 1].path != []
    ensures var top := stack[|stack| - 1];
            Unlisted(stack) == (if IsDots(top.rest[0].name) then [] else FilesAt(top.path, top.rest[0])) + Unlisted(Popped(stack))
  {
    hide Fits, ValidNodes, FilesAt;
    PoppedIsLighter(stack);
    var top, popped := stack[|stack| - 1], Popped(stack);
    var own := if IsDots(top.rest[0].name) then [] else FilesAt(top.path, top.rest[0]);
    var lower := Unlisted(stack[..|stack| - 1]);
    assert popped[..|stack| - 1] == stack[..|stack| - 1];
    assert own + FilesBelow(top.path, top.rest[1..]) == FilesBelow(top.path, top.rest);
    Associative(own, FilesBelow(top.path, top.rest[1..]), lower);
  }

  /** What the first entry of the deepest directory asks for. */
  lemma {:induction false} FirstListable(stack: seq<Frame>)
    requires ValidStack(stack) && stack != [] && stack[|stack| - 1].rest != []
    ensures ValidStack(Popped(stack)) && stack[|stack| - 1].path != []
    ensures var top := stack[|stack| - 1];
            var node := top.rest[0];
            StackListable(stack) <==>
              && StackListable(Popped(stack))
              && (IsDots(node.name) ||
                  var p := Join(top.path, node.name);
                  Fits(p) && (node.DirNode? ==> |stack| < MAX_TAR_DIR_DEPTH && Listable(p, node.children, |stack| + 1)))
  {
    hide Fits, ValidNodes;
    PoppedIsLighter(stack);
    assert Popped(stack)[..|stack| - 1] == stack[..|stack| - 1];
  }

  /** Pushing a directory puts its files in front. */
  lemma {:induction false} PushListed(stack: seq<Frame>, frame: Frame)
    requires ValidStack(stack + [frame])
    ensures ValidStack(stack) && frame.path != []
    ensures Unlisted(stack + [frame]) == FilesBelow(frame.path, frame.rest) + Unlisted(stack)
    ensures StackListable(stack + [frame]) <==> Listable(frame.path, frame.rest, |stack| + 1) && StackListable(stack)
  {
    hide Fits, ValidNodes, FilesBelow, Listable;
    var pushed := stack + [frame];
    assert pushed[..|stack|] == stack && pushed[|stack|] == frame;
    assert forall i :: 0 <= i < |stack| ==> stack[i] == pushed[i];
  }

  // ---------------------------------------------------------------------------------------------
  // Whole listings
  // ---------------------------------------------------------------------------------------------

  datatype Listing = Listing(files: seq<Found>, complete: bool)

  /** All calls until there is no file left or one fails. */
  function Drain(stack: seq<Frame>): Listing
    requires ValidStack(stack)
    decreases StackWeight(stack)
  {
    match NextEntry(stack)
    case Exhausted => Listing([], true)
    case Failed => Listing([], false)
    case Entry(rest, file) =>
      var l := Drain(rest);
      l.(files := [file] + l.files)
  }

  /** A C string below the source that fits the path buffer. */
  predicate ListedPath(source: Bytes, path: Bytes) {
    source <= path && Fits(path) && NulFree(path)
  }

  lemma {:induction false} DrainListsAll(source: Bytes, stack: seq<Frame>)
    requires ValidStack(stack) && Below(source, stack)
    ensures Drain(stack).complete <==> StackListable(stack)
    ensures Drain(stack).files <= Unlisted(stack)
    ensures Drain(stack).complete ==> Drain(stack).files == Unlisted(stack)
    ensures forall i :: 0 <= i < |Drain(stack).files| ==> ListedPath(source, Drain(stack).files[i].path)
    decreases StackWeight(stack)
  {
    hide NextEntry, StackWeight, StackListable, Unlisted, ValidStack;
    NextEntryProduces(source, stack);
    var r := NextEntry(stack);
    if r.Entry? {
      DrainListsAll(source, r.stack);
    }
  }

  /**
   The cursor refines the walk: it lists a directory completely if and only if all paths fit and no
   directory is too deep; and then it hands out, in the same order and under the same full paths,
   exactly the files the recursive walk calls back for. Otherwise it fails after some of them.
   */
  lemma {:induction false} CursorRefinesWalk(source: Bytes, nodes: seq<Node>)
    requires source != [] && NulFree(source) && Fits(source) && ValidNodes(nodes)
    ensures ValidStack([Frame(source, nodes)])
    ensures var l := Drain([Frame(source, nodes)]);
            && (l.complete <==> Listable(source, nodes, 1))
            && l.files <= FilesBelow(source, nodes)
            && (forall i :: 0 <= i < |l.files| ==> ListedPath(source, l.files[i].path))
            && (l.complete ==>
                  && l.files == FilesBelow(source, nodes)
                  && l.files == FileVisits(WalkTree(source, nodes).visits)
                  && !WalkTree(source, nodes).tooLong)
  {
    hide Drain, Fits, ValidNodes, FilesBelow;
    var stack := [Frame(source, nodes)];
    assert stack[..0] == [];
    DrainListsAll(source, stack);
    assert Unlisted(stack) == FilesBelow(source, nodes) + [];
    if Listable(source, nodes, 1) {
      WalkListsFiles(source, nodes, 1);
    }
  }
}
