/** A whole upload: cursor, packer, payload callback and the loop that sends the chunks. */
module UploadSession {
  import opened CLib
  import opened UstarHeader
  import opened TarArchive
  import opened FileTree
  import TarCursor
  import opened Traversal
  import opened ZtarPack
  import opened PackTheorems
  import opened Upload

  const TAR_BUFFER_SIZE := 1024

  // ---------------------------------------------------------------------------------------------
  // The cursor as the packer's callbacks
  // ---------------------------------------------------------------------------------------------

  /** What `fs_read` returns at each read: an error, or how many bytes it would grant. */
  type Grants = (nat, nat, nat, nat) -> Option<nat>

  /** How many bytes a read at an offset of an open file can return: at most one read buffer. */
  function Readable(data: Bytes, at: nat, limit: nat): nat
    requires at <= |data|
  {
    Min(Min(TarCursor.FS_READ_BUFFER_SIZE, limit), |data| - at)
  }

  /** `tar_read_file_data` at an offset of an open file. */
  function ReadPortion(data: Bytes, at: nat, limit: nat, granted: Option<nat>): (r: Read)
    requires at <= |data|
    ensures r.Got? ==> |r.data| <= limit
    ensures at < |data| && limit > 0 ==> ServesPortion(r, data, at) || r in {ReadFailed, Got([])}
    ensures at < |data| && limit > 0 && granted.Some? && granted.value > 0 ==> ServesPortion(r, data, at)
  {
    match granted
    case None => ReadFailed
    case Some(n) => Got(data[at..at + Min(n, Readable(data, at, limit))])
  }

  function ReadFileData(files: seq<TarCursor.Found>, k: nat, at: nat, limit: nat, granted: Option<nat>): Read {
    if k < |files| && at <= |files[k].data| then ReadPortion(files[k].data, at, limit, granted) else ReadFailed
  }

  /**
   `tar_get_next_file` and `tar_read_file_data` over a directory source: the listing's files one by
   one, then its end or its failure; reads of at most a buffer, as short as `grants` makes them.
   */
  function CursorSource(source: Bytes, l: Listing, grants: Grants): Source
    requires AllBelow(source, l)
  {
    Source(
      (k: nat) => NextListed(source, l, k),
      (k: nat, at: nat, limit: nat, call: nat) => ReadFileData(l.files, k, at, limit, grants(k, at, limit, call)))
  }

  predicate AllBelow(source: Bytes, l: Listing) {
    forall i :: 0 <= i < |l.files| ==> source <= l.files[i].path
  }

  function NextListed(source: Bytes, l: Listing, k: nat): Next {
    if k < |l.files| && source <= l.files[k].path then
      HasNext(TarCursor.RelativeName(source, l.files[k].path), |l.files[k].data|)
    else if l.complete then NoMore
    else NextFailed
  }

  /** `fs_read` neither fails nor returns nothing. */
  ghost predicate NeverFails(grants: Grants) {
    forall k: nat, at: nat, limit: nat, call: nat ::
      grants(k, at, limit, call).Some? && grants(k, at, limit, call).value > 0
  }

  /** File sizes are `size_t` values. */
  predicate SizesFit(fs: seq<TarCursor.Found>) {
    forall i :: 0 <= i < |fs| ==> |fs[i].data| < SIZE_MODULUS
  }

  predicate AllListed(source: Bytes, fs: seq<TarCursor.Found>) {
    forall i :: 0 <= i < |fs| ==> ListedPath(source, fs[i].path)
  }

  lemma {:induction false} CursorServes(source: Bytes, l: Listing, grants: Grants)
    requires AllListed(source, l.files) && SizesFit(l.files)
    ensures Serves(CursorSource(source, l, grants), AsFiles(source, l.files), l.complete, false)
    ensures NeverFails(grants) ==> Serves(CursorSource(source, l, grants), AsFiles(source, l.files), l.complete, true)
  {
    var src := CursorSource(source, l, grants);
    var files := AsFiles(source, l.files);
    assert forall k: nat :: src.next(k) == NextListed(source, l, k);
    forall k: nat | src.next(k).HasNext?
      ensures ValidName(src.next(k).name) && src.next(k).size < SIZE_MODULUS
    {
      RelativeNameIsValid(source, l.files[k].path);
    }
    forall k: nat, at: nat, limit: nat, call: nat | src.read(k, at, limit, call).Got?
      ensures |src.read(k, at, limit, call).data| <= limit
    {
      assert src.read(k, at, limit, call) == ReadFileData(l.files, k, at, limit, grants(k, at, limit, call));
    }
    forall k: nat, at: nat, limit: nat, call: nat |
      k < |files| && at < |files[k].data| && 0 < limit <= |files[k].data| - at
      ensures ServesPortion(src.read(k, at, limit, call), files[k].data, at)
              || (!NeverFails(grants) && src.read(k, at, limit, call) in {ReadFailed, Got([])})
    {
      assert src.read(k, at, limit, call) == ReadFileData(l.files, k, at, limit, grants(k, at, limit, call));
    }
  }

  lemma {:induction false} RelativeNameIsValid(source: Bytes, path: Bytes)
    requires ListedPath(source, path)
    ensures ValidName(TarCursor.RelativeName(source, path))
  {
    var r := path[|source|..];
    assert forall i :: 0 <= i < |r| ==> r[i] == path[|source| + i];
  }

  // ---------------------------------------------------------------------------------------------
  // The callbacks as the packer calls them, on a read context
  // ---------------------------------------------------------------------------------------------

  /**
   The upload callbacks on the explicit-stack cursor. They answer as `CursorSource` does: the next
   file by how many have been handed out, and reads at the position of the open file.
   */
  class TarReader {
    const context: TarCursor.ReadContext
    const grants: Grants
    ghost const listing: Listing
    ghost var asked: nat

    ghost predicate Valid()
      reads this, context, context.tarDirs, context.tarPathLens, context.tarCurrentPath
    {
      && context.Valid() && TarCursor.ValidStack(context.Stack())
      && AllBelow(context.source, listing) && asked <= |listing.files|
      && Drain(context.Stack()) == Listing(listing.files[asked..], listing.complete)
    }

    /** The file handed out last is open. */
    ghost predicate Reading()
      reads this, context
    {
      && context.fileOpen && 0 < asked <= |listing.files|
      && context.openData == listing.files[asked - 1].data && context.openAt <= |context.openData|
    }

    constructor (source: Bytes, nodes: seq<Node>, grants: Grants)
      requires source != [] && NulFree(source) && Fits(source) && ValidNodes(nodes)
      ensures Valid() && asked == 0 && context.source == source && this.grants == grants
      ensures listing == Drain(Start(source, nodes))
    {
      hide Drain, Fits, ValidNodes, FilesBelow, Listable, FileVisits, WalkTree;
      CursorRefinesWalk(source, nodes);
      this.grants := grants;
      context := new TarCursor.ReadContext(source, nodes);
      listing := Drain(Start(source, nodes));
      asked := 0;
      new;
      assert listing.files[0..] == listing.files;
    }

    /** `tar_get_next_file`. */
    method GetNextFile() returns (r: Next)
      requires Valid()
      modifies this, context, context.tarDirs, context.tarPathLens, context.tarCurrentPath
      ensures r == CursorSource(context.source, listing, grants).next(old(asked))
      ensures r.HasNext? ==> Valid() && asked == old(asked) + 1 && Reading() && context.openAt == 0
      ensures r.NoMore? ==> Valid() && asked == old(asked)
    {
      hide Drain, TarCursor.ValidStack, TarCursor.NextEntry, TarCursor.RelativeName, CursorSource, NextListed;
      DrainUnfolds(context.Stack());
      hide TarCursor.ReadContext.Valid, TarCursor.ReadContext.Stack;
      AskListing(context.source, listing, grants, asked);
      var ok, hasNext, name, size := context.GetNextEntry();
      DrainNothing();
      if !ok { return NextFailed; }
      if !hasNext { return NoMore; }
      asked := asked + 1;
      r := HasNext(name, size);
    }

    /** `tar_read_file_data`, the `call`-th read. */
    method ReadData(maxSize: nat, ghost call: nat, granted: Option<nat>) returns (r: Read)
      requires Valid() && Reading() && granted == grants(asked - 1, context.openAt, maxSize, call)
      modifies context`openAt
      ensures r == CursorSource(context.source, listing, grants).read(asked - 1, old(context.openAt), maxSize, call)
      ensures Valid() && Reading()
      ensures context.openAt == old(context.openAt) + if r.Got? then |r.data| else 0
    {
      hide Drain, TarCursor.ValidStack;
      var readable := Readable(context.openData, context.openAt, maxSize);
      var returned := if granted.Some? then Some(Min(granted.value, readable)) else None;
      var ok, chunk, lastChunk := context.ReadChunk(maxSize, returned);
      if !ok { return ReadFailed; }
      r := Got(chunk);
    }
  }

  /**
   The packer's own positions move as those of the reader do: a file asked for is the next one, at
   offset zero; a read is of that file at the offset reached, and moves it by what it returned; no
   other step moves them.
   */
  lemma {:induction false} PackerAsksInOrder(src: Source, p: Packer, room: nat)
    requires Honest(src) && ValidPacker(p) && !Paused(p, room) && Step(src, p, room).code == Ok
    ensures var t := Step(src, p, room).next;
            match p.state
            case NextFile => t.asked == p.asked + 1 && (src.next(p.asked).HasNext? ==> t.written == 0)
            case Data =>
              var r := src.read(p.asked - 1, p.written, Min(room, p.size - p.written), p.readCalls);
              r.Got? && Step(src, p, room).out == r.data && t.asked == p.asked && t.written == p.written + |r.data|
            case _ => t.asked == p.asked && t.written == p.written
  {
    hide PackHeader, RequiredPadding;
  }

  /** What the source answers by what is left of the listing. */
  lemma {:induction false} AskListing(source: Bytes, l: Listing, grants: Grants, k: nat)
    requires AllBelow(source, l) && k <= |l.files|
    ensures var rest := l.files[k..];
            && (rest != [] ==>
                  && rest[0] == l.files[k] && rest[1..] == l.files[k + 1..] && source <= rest[0].path
                  && CursorSource(source, l, grants).next(k)
                       == HasNext(TarCursor.RelativeName(source, rest[0].path), |rest[0].data|))
            && (rest == [] ==> CursorSource(source, l, grants).next(k) == if l.complete then NoMore else NextFailed)
  {
    assert CursorSource(source, l, grants).next(k) == NextListed(source, l, k);
  }

  lemma {:induction false} DrainNothing()
    ensures TarCursor.ValidStack([]) && Drain([]) == Listing([], true)
  {
    TarCursor.NextEntryUnfolds([]);
  }

  lemma {:induction false} DrainUnfolds(stack: seq<TarCursor.Frame>)
    requires TarCursor.ValidStack(stack)
    ensures match TarCursor.NextEntry(stack)
            case Exhausted => Drain(stack) == Listing([], true)
            case Failed => Drain(stack) == Listing([], false)
            case Entry(rest, file) =>
              Drain(stack).files != [] && Drain(stack).files[0] == file
              && Drain(rest) == Listing(Drain(stack).files[1..], Drain(stack).complete)
  {
    hide TarCursor.NextEntry;
  }

  // ---------------------------------------------------------------------------------------------
  // The payload callback and the sending loop
  // ---------------------------------------------------------------------------------------------

  /** The TAR part of an upload's callback data. */
  class Session {
    const pack: PackStream
    const tarBuffer: array<Byte>
    var tarExhausted: bool

    /** The packer's state, once the first chunk has initialized it. */
    ghost function Packed(): Packer
      reads this, pack
    {
      if pack.initialized then pack.Value() else FRESH
    }

    ghost predicate Valid()
      reads this, pack
    {
      tarBuffer.Length == TAR_BUFFER_SIZE && pack.Valid()
    }

    constructor (src: Source)
      requires Honest(src)
      ensures Valid() && Packed() == FRESH && !tarExhausted && pack.callbacks == src
      ensures fresh(pack) && fresh(tarBuffer)
    {
      pack := new PackStream(src);
      tarBuffer := new Byte[TAR_BUFFER_SIZE](i => NUL);
      tarExhausted := false;
    }

    /** `process_tar_upload_chunk`. */
    method ProcessTarUploadChunk() returns (ok: bool, chunk: Bytes, last: bool)
      requires Valid()
      modifies this, pack, tarBuffer
      ensures ValidPacker(old(Packed()))
      ensures old(tarExhausted) ==> ok && chunk == [] && last && Valid() && Packed() == old(Packed())
      ensures !old(tarExhausted) ==>
                var s := ReadStream(pack.callbacks, old(Packed()), 1024);
                && ok == (s.code in {Ok, ArchiveExhausted})
                && (ok ==> Valid() && chunk == s.out && last == (s.code == ArchiveExhausted)
                           && Packed() == s.next && tarExhausted == last)
    {
      hide ReadStream, ValidPacker;
      assert ValidPacker(Packed()) by { FreshIsValid(); }
      if !pack.initialized {
        pack.Init();
      }
      var n := 0;
      if !tarExhausted {
        var code;
        code, n := pack.Read(tarBuffer);
        if code == ArchiveExhausted {
          tarExhausted := true;
        } else if code != Ok {
          return false, [], false;
        }
      }
      return true, tarBuffer[..n], tarExhausted;
    }

    /**
     The sending loop of `put_payload_cbk`: ask for chunks until the last one, sending each; `sends`
     says whether the socket takes the k-th one. With callbacks that serve `files` it ends; when it
     succeeds, the files really end, all can be packed, and it has sent exactly their archive. If no
     read and no send fails, it succeeds whenever that is so.
     */
    method PutPayload(ghost files: seq<File>, ghost complete: bool, ghost reliable: bool, sends: nat -> bool)
      returns (ok: bool, sent: Bytes)
      requires Valid() && Packed() == FRESH && !tarExhausted && Serves(pack.callbacks, files, complete, reliable)
      modifies this, pack, tarBuffer
      ensures ok ==> complete && AllPackable(files) && sent == Archive(files)
      ensures reliable && (forall k: nat :: sends(k)) ==> (ok <==> complete && AllPackable(files))
    {
      hide ReadStream, Pending, Tracks, Serves, Stream, FinalCode, CodeAhead;
      ghost var src := pack.callbacks;
      sent := [];
      var last, calls := false, 0;
      assert Tracks(files, FRESH) && Pending(files, complete, FRESH) == Stream(files, complete)
        && CodeAhead(files, complete, FRESH) == FinalCode(files, complete) by { FromTheStart(files, complete); }
      FinalCodeMeaning(files, complete);
      assert sent + Pending(files, complete, Packed()) == Stream(files, complete);
      while !last
        invariant Valid() && ValidPacker(Packed()) && Tracks(files, Packed()) && tarExhausted == last
        invariant CodeAhead(files, complete, Packed()) == FinalCode(files, complete)
        invariant sent + Pending(files, complete, Packed()) == Stream(files, complete)
        invariant last ==> FinalCode(files, complete) == ArchiveExhausted && Pending(files, complete, Packed()) == []
        decreases |Pending(files, complete, Packed())|, if last then 0 else 1
      {
        ghost var p := Packed();
        CallMakesProgress(src, p, TAR_BUFFER_SIZE);
        ReadStreamAdvances(src, files, complete, reliable, p, TAR_BUFFER_SIZE);
        var good, chunk;
        good, chunk, last := ProcessTarUploadChunk();
        if !good { return false, sent; }
        assert sent + (chunk + Pending(files, complete, Packed())) == (sent + chunk) + Pending(files, complete, Packed());
        if |chunk| > 0 {
          if !sends(calls) { return false, sent; }
          calls := calls + 1;
          sent := sent + chunk;
        }
      }
      ok := true;
    }
  }

  lemma {:induction false} FreshIsValid()
    ensures ValidPacker(FRESH)
  {
  }

  lemma {:induction false} FromTheStart(files: seq<File>, complete: bool)
    ensures ValidPacker(FRESH) && Tracks(files, FRESH)
    ensures Pending(files, complete, FRESH) == Stream(files, complete)
    ensures CodeAhead(files, complete, FRESH) == FinalCode(files, complete)
  {
    assert files[0..] == files;
  }

  /**
   `edgehog_ft_handle_device_to_server` for a directory. When it succeeds, the cursor can list the
   directory and every file can be packed; what it sends is the archive of exactly the files the walk
   visits, and the size announced beforehand equals what was sent, provided that is less than `size_t`
   can hold. If no read and no send fails, it succeeds if and only if the directory can be listed and
   every file packed.
   */
  method UploadDirectory(source: Bytes, nodes: seq<Node>, grants: Grants, sends: nat -> bool)
    returns (ok: bool, announced: nat, sent: Bytes)
    requires source != [] && NulFree(source) && Fits(source) && ValidNodes(nodes)
    requires SizesFit(FilesBelow(source, nodes))
    ensures AllListed(source, Drain(Start(source, nodes)).files)
    ensures NeverFails(grants) && (forall k: nat :: sends(k)) ==>
              (ok <==> Listable(source, nodes, 1) && AllPackable(AsFiles(source, Drain(Start(source, nodes)).files)))
    ensures ok ==>
              && Listable(source, nodes, 1) && AllPackable(AsFiles(source, Drain(Start(source, nodes)).files))
              && Drain(Start(source, nodes)).files == FileVisits(WalkTree(source, nodes).visits)
              && sent == Archive(AsFiles(source, Drain(Start(source, nodes)).files))
              && announced == |sent| % SIZE_MODULUS
              && (announced == |sent| <==> |sent| < SIZE_MODULUS)
  {
    hide Fits, ValidNodes, Archive, AllPackable, Drain, FilesBelow, Listable, WalkTree, FileVisits, AnnouncedSize, Serves,
      NeverFails;
    announced := CalculateTarDirectorySize(source, nodes);
    CursorRefinesWalk(source, nodes);
    var l := Drain(Start(source, nodes));
    assert SizesFit(l.files) by { PrefixSizesFit(l.files, FilesBelow(source, nodes)); }
    CursorServes(source, l, grants);
    assert Honest(CursorSource(source, l, grants)) by { ServesHonestly(source, l, grants); }
    var session := new Session(CursorSource(source, l, grants));
    ok, sent := session.PutPayload(AsFiles(source, l.files), l.complete, NeverFails(grants), sends);
    if ok {
      AnnouncedIsArchiveLength(source, nodes);
    }
  }

  function Start(source: Bytes, nodes: seq<Node>): (stack: seq<TarCursor.Frame>)
    requires source != [] && NulFree(source) && Fits(source) && ValidNodes(nodes)
    ensures TarCursor.ValidStack(stack)
  {
    [TarCursor.Frame(source, nodes)]
  }

  lemma {:induction false} PrefixSizesFit(fs: seq<TarCursor.Found>, all: seq<TarCursor.Found>)
    requires fs <= all && SizesFit(all)
    ensures SizesFit(fs)
  {
    assert forall i :: 0 <= i < |fs| ==> fs[i] == all[i];
  }

  lemma {:induction false} ServesHonestly(source: Bytes, l: Listing, grants: Grants)
    requires AllListed(source, l.files)
    requires Serves(CursorSource(source, l, grants), AsFiles(source, l.files), l.complete, false)
    ensures Honest(CursorSource(source, l, grants))
  {
  }
}
