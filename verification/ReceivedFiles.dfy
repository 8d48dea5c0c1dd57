/** The receiver's files: what the handlers do to the download directory. */
module ReceivedFiles {
  import opened Prelude
  import opened FileSystem
  import opened BlobNames
  import opened Receiver

  ghost predicate IsFileEntry(s: State, k: Key) {
    k in s.incoming && s.incoming[k].sink.FileSink?
  }

  ghost predicate LiveTemp(s: State, p: Path) {
    exists k :: IsFileEntry(s, k) && s.incoming[k].sink.tmp == p
  }

  ghost predicate Committed(s: State, p: Path) {
    exists n :: 0 <= n < |s.log| && s.log[n].Commit? && s.log[n].path == p
  }

  /** The temporary file of `e` holds exactly the bytes hashed for it, the
      handle is at its end, and the inode has no other name. */
  ghost predicate OnDisk(fs: Fs, e: Incoming)
    requires e.sink.FileSink?
  {
    var i := e.sink.handle.ino;
    && e.sink.tmp in fs.names && fs.names[e.sink.tmp] == File(i)
    && i in fs.data && fs.data[i] == e.hashed && e.sink.handle.pos == |e.hashed|
    && forall p :: p in fs.names && fs.names[p] == File(i) ==> p == e.sink.tmp
  }

  /** Every file transfer in flight has a file of its own. */
  ghost predicate Exclusive(s: State) {
    && s.fs.Valid()
    && (forall k :: IsFileEntry(s, k) ==> OnDisk(s.fs, s.incoming[k]))
    && (forall j, k :: IsFileEntry(s, j) && IsFileEntry(s, k) && j != k
          ==> s.incoming[j].sink.handle.ino != s.incoming[k].sink.handle.ino)
  }

  /** The file of a commit is where it was put and holds the bytes hashed. */
  ghost predicate InPlace(s: State, e: Event)
    requires e.Commit?
  {
    && e.path in s.fs.names && s.fs.names[e.path] == File(e.ino)
    && e.ino in s.fs.data && s.fs.data[e.ino] == e.bytes == e.hashed
    && !LiveTemp(s, e.path)
  }

  /** What the receiver owes its peers: transfers do not share files, and
      everything committed is still there. */
  ghost predicate Good(s: State) {
    && Exclusive(s)
    && forall n :: 0 <= n < |s.log| && s.log[n].Commit? ==> InPlace(s, s.log[n])
  }

  // ---- which name a frame writes ------------------------------------------

  /** The name a frame may write: the temporary name of a file start, the
      destination of a file's end. */
  function Target(s: State, x: Input): Path {
    var k := x.Transfer();
    if x.frame.BlobStart? && SafeBlobName(x.frame.name).Some?
    then TempPath(x.env, SafeBlobName(x.frame.name).value, k.id)
    else if k in s.incoming && s.incoming[k].sink.FileSink? then Destination(s, s.incoming[k])
    else PENDING_DIR
  }

  /** What lets a file start open its temporary file. */
  predicate Opens(s: State, x: Input) {
    && x.frame.BlobStart? && x.frame.purpose.FileBlob?
    && |s.incoming| < MAX_CONCURRENT_INCOMING && SafeBlobName(x.frame.name).Some?
    && x.env.mkdirOk && (x.env.confirm ==> !s.fs.IsFile(PENDING_DIR))
    && x.env.createOk && !s.fs.IsDirectory(Target(s, x))
  }

  /** What lets a file's end move it into place. */
  predicate Moves(c: Config, s: State, x: Input) {
    && x.frame.BlobEnd? && x.Transfer() in s.incoming
    && var inc := s.incoming[x.Transfer()];
       && inc.sink.FileSink? && c.sha(inc.hashed) == x.frame.sha
       && (inc.declared == 0 || inc.declared == inc.written)
       && x.env.renameOk && s.fs.IsFile(inc.sink.tmp) && !s.fs.IsDirectory(Target(s, x))
  }

  /** The frame does write its target. */
  predicate Places(c: Config, s: State, x: Input) {
    Opens(s, x) || Moves(c, s, x)
  }

  /** These guards are exact: the file start is admitted, the end commits. */
  lemma PlacesExactly(c: Config, s: State, x: Input)
    ensures Opens(s, x) <==> x.frame.BlobStart? && x.frame.purpose.FileBlob? && Admitted(c, s, x)
    ensures Moves(c, s, x) <==>
              && x.frame.BlobEnd? && x.Transfer() in s.incoming && s.incoming[x.Transfer()].sink.FileSink?
              && |Step(c, s, x).log| == |s.log| + 2
  {
    var k := x.Transfer();
    if x.frame.BlobStart? && SafeBlobName(x.frame.name).Some? {
      TempIsNotPending(x.env, SafeBlobName(x.frame.name).value, k.id);
    } else if x.frame.BlobEnd? && k in s.incoming && s.incoming[k].sink.FileSink? {
      assert Destination(s.(incoming := s.incoming - {k}), s.incoming[k]) == Destination(s, s.incoming[k]);
    }
  }

  /** The frame is answered with this refusal and nothing more. */
  predicate Refuses(c: Config, s: State, x: Input, why: Detail) {
    |Step(c, s, x).log| == |s.log| + 1 && Step(c, s, x).log[|s.log|] == Verdict(x.Transfer(), false, why)
  }

  /** Which starts are refused for what: too many, then for an image no use for it or
      its size, for a file its name, its directory or its creation. */
  lemma StartRefusals(c: Config, s: State, x: Input)
    requires x.frame.BlobStart?
    ensures var full, image := |s.incoming| >= 16, x.frame.purpose.ClipboardImage?;
            var named := !full && !image && SafeBlobName(x.frame.name).Some?;
            var noDir := !x.env.mkdirOk || (x.env.confirm && s.fs.IsFile(PENDING_DIR));
            && (Refuses(c, s, x, TooMany) <==> full)
            && (Refuses(c, s, x, NoClipSink) <==> !full && image && !c.hasClipSink)
            && (Refuses(c, s, x, ImageTooLarge) <==> !full && image && c.hasClipSink && x.frame.size > 64 * 1024 * 1024)
            && (Refuses(c, s, x, UnsafeName) <==> !full && !image && !named)
            && (Refuses(c, s, x, MkdirFailed) <==> named && noDir)
            && (Refuses(c, s, x, CreateFailed) <==> named && !noDir && !Opens(s, x))
  {
    if SafeBlobName(x.frame.name).Some? {
      TempIsNotPending(x.env, SafeBlobName(x.frame.name).value, x.frame.id);
    }
  }

  /** Which chunks are refused: a write that fails, an image that grows too large. */
  lemma ChunkRefusals(c: Config, s: State, x: Input)
    requires x.frame.BlobChunk? && x.Transfer() in s.incoming
    ensures var sink := s.incoming[x.Transfer()].sink;
            && (Refuses(c, s, x, WriteFailed) <==> sink.FileSink? && !x.env.writeOk)
            && (Refuses(c, s, x, ImageTooLarge) <==> sink.Memory? && |sink.buf| + |x.frame.data| > 64 * 1024 * 1024)
  {
  }

  /** Which ends are refused for what: first the digest, then the size, then the
      move into place. */
  lemma EndRefusals(c: Config, s: State, x: Input)
    requires x.frame.BlobEnd? && x.Transfer() in s.incoming
    ensures var inc := s.incoming[x.Transfer()];
            var right := c.sha(inc.hashed) == x.frame.sha;
            var whole := inc.declared == 0 || inc.declared == inc.written;
            && (Refuses(c, s, x, ShaMismatch) <==> !right)
            && (Refuses(c, s, x, SizeMismatch) <==> right && !whole)
            && (Refuses(c, s, x, RenameFailed) <==> right && whole && inc.sink.FileSink? && !Moves(c, s, x))
  {
    var k := x.Transfer();
    if s.incoming[k].sink.FileSink? {
      assert Destination(s.(incoming := s.incoming - {k}), s.incoming[k]) == Destination(s, s.incoming[k]);
    }
  }

  /** A file is received under its accepted name, in `pending` exactly if it needs
      confirmation, and is committed in the directory it was received in. */
  lemma DirectoryExact(c: Config, s: State, x: Input)
    ensures Opens(s, x) ==>
              && IsFileEntry(Step(c, s, x), x.Transfer())
              && var e := Step(c, s, x).incoming[x.Transfer()];
                 && (e.sink.tmp.dir == if x.env.confirm then Pending else Downloads)
                 && Some(e.name) == SafeBlobName(x.frame.name) && e.declared == x.frame.size
    ensures Moves(c, s, x) ==>
              && |Step(c, s, x).log| == |s.log| + 2 && Step(c, s, x).log[|s.log|].Commit?
              && Step(c, s, x).log[|s.log|].path.dir == s.incoming[x.Transfer()].sink.tmp.dir
              && Step(c, s, x).log[|s.log| + 1] == Verdict(x.Transfer(), true, FileSaved(s.incoming[x.Transfer()].name))
  {
    PlacesExactly(c, s, x);
  }

  /** The file under this name, if any, has no other name. */
  ghost predicate SoleName(fs: Fs, p: Path) {
    fs.IsFile(p) ==> forall q :: q in fs.names && fs.names[q] == fs.names[p] ==> q == p
  }

  /** No other transfer is being written under this name. */
  ghost predicate Unshared(s: State, k: Key, p: Path) {
    forall j :: IsFileEntry(s, j) && j != k ==> s.incoming[j].sink.tmp != p
  }

  /** The name written is not another transfer's, and truncating the file it may
      already have reaches no other name. Any other file may be there. */
  ghost predicate Separate(c: Config, s: State, x: Input) {
    Places(c, s, x) ==>
      && Unshared(s, x.Transfer(), Target(s, x))
      && (x.frame.BlobStart? ==> SoleName(s.fs, Target(s, x)))
  }

  ghost predicate SeparateRun(c: Config, s: State, xs: seq<Input>) {
    xs != [] ==> SeparateRun(c, s, xs[..|xs| - 1]) && Separate(c, Run(c, s, xs[..|xs| - 1]), xs[|xs| - 1])
  }

  /** ... nor that of a committed file. */
  ghost predicate Undisturbed(c: Config, s: State, x: Input) {
    Separate(c, s, x) && (Places(c, s, x) ==> !Committed(s, Target(s, x)))
  }

  ghost predicate UndisturbedRun(c: Config, s: State, xs: seq<Input>) {
    xs != [] ==> UndisturbedRun(c, s, xs[..|xs| - 1]) && Undisturbed(c, Run(c, s, xs[..|xs| - 1]), xs[|xs| - 1])
  }

  /** A frame that meets no file at all: a file BlobStart finds its temporary
      name unused, and a BlobEnd finds a free destination. */
  ghost predicate Clear(s: State, x: Input) {
    var k := x.Transfer();
    match x.frame
    case BlobStart(_, name, _, FileBlob) => SafeBlobName(name).Some? ==> Target(s, x) !in s.fs.names
    case BlobEnd(_, _) => IsFileEntry(s, k) ==> Target(s, x) !in s.fs.names
    case _ => true
  }

  ghost predicate ClearRun(c: Config, s: State, xs: seq<Input>) {
    xs != [] ==> ClearRun(c, s, xs[..|xs| - 1]) && Clear(Run(c, s, xs[..|xs| - 1]), xs[|xs| - 1])
  }

  lemma PlacedStart(c: Config, s: State, x: Input)
    requires x.frame.BlobStart? && Places(c, s, x)
    ensures SafeBlobName(x.frame.name).Some?
    ensures var s' := Step(c, s, x);
            s'.log == s.log && IsFileEntry(s', x.Transfer()) && s'.incoming[x.Transfer()].sink.tmp == Target(s, x)
    ensures forall q :: s.fs.IsFile(q) ==> Step(c, s, x).fs.IsFile(q) && Step(c, s, x).fs.names[q] == s.fs.names[q]
  {
  }

  lemma ClearIsUndisturbed(c: Config, s: State, x: Input)
    requires Exclusive(s) && Clear(s, x)
    ensures Separate(c, s, x)
    ensures Good(s) ==> Undisturbed(c, s, x)
  {
    if x.frame.BlobStart? && Places(c, s, x) {
      PlacedStart(c, s, x);
    }
    if Places(c, s, x) {
      assert Target(s, x) !in s.fs.names;
      forall j | IsFileEntry(s, j) ensures s.incoming[j].sink.tmp != Target(s, x) {
        assert OnDisk(s.fs, s.incoming[j]);
      }
    }
  }

  /** A finished file that stays as it was. */
  ghost predicate Keeps(s: State, s': State, p: Path) {
    && s.fs.IsFile(p) && s'.fs.IsFile(p) && !LiveTemp(s', p)
    && s'.fs.names[p] == s.fs.names[p] && Contents(s'.fs, p) == Contents(s.fs, p)
  }

  /** Every finished file of `s` is in `s'` with the same inode and bytes. */
  ghost predicate KeepsFiles(s: State, s': State) {
    forall p :: s.fs.IsFile(p) && !LiveTemp(s, p) ==> Keeps(s, s', p)
  }

  ghost predicate KeepsFilesBut(s: State, s': State, q: Path) {
    forall p :: s.fs.IsFile(p) && !LiveTemp(s, p) && p != q ==> Keeps(s, s', p)
  }

  // ---- one file operation at a time ----------------------------------------

  /** Exactly the files of `fs` are in `fs'`, under the same names. */
  ghost predicate SameFileNames(fs: Fs, fs': Fs) {
    forall p :: fs'.IsFile(p) == fs.IsFile(p) && (fs.IsFile(p) ==> fs'.names[p] == fs.names[p])
  }

  /** `fs'` is `fs1` with an empty file under the temporary name: a new one, or
      the one that was there, truncated. */
  ghost predicate Makes(fs1: Fs, fs': Fs, p: Path, i: nat) {
    && (if fs1.IsFile(p) then fs1.names[p].ino == i else i !in fs1.data)
    && fs'.names == fs1.names[p := File(i)] && fs'.data == fs1.data[i := []]
  }

  lemma OpenedInodes(s: State, k: Key, e: Incoming, fs1: Fs, fs': Fs, p: Path)
    requires Exclusive(s) && e.sink.FileSink? && SameFileNames(s.fs, fs1) && fs1.data == s.fs.data
    requires Makes(fs1, fs', e.sink.tmp, e.sink.handle.ino) && SoleName(s.fs, e.sink.tmp)
    requires s.fs.IsFile(p) && p != e.sink.tmp
    ensures fs'.IsFile(p) && fs'.names[p] == s.fs.names[p] && s.fs.names[p].ino != e.sink.handle.ino
  {
    assert fs1.IsFile(p);
  }

  lemma OpenedExclusive(s: State, s': State, k: Key, e: Incoming, fs1: Fs)
    requires Exclusive(s) && e.sink.FileSink? && Fed(e, []) && SameFileNames(s.fs, fs1) && fs1.data == s.fs.data
    requires Unshared(s, k, e.sink.tmp) && SoleName(s.fs, e.sink.tmp)
    requires s'.incoming == s.incoming[k := e] && s'.fs.Valid() && Makes(fs1, s'.fs, e.sink.tmp, e.sink.handle.ino)
    ensures Exclusive(s')
  {
    var i := e.sink.handle.ino;
    forall p | p in s'.fs.names && s'.fs.names[p].File? && p != e.sink.tmp
      ensures s.fs.IsFile(p) && s.fs.names[p] == s'.fs.names[p] && s'.fs.names[p].ino != i
    {
      assert fs1.IsFile(p);
      OpenedInodes(s, k, e, fs1, s'.fs, p);
    }
    forall j | IsFileEntry(s', j) && j != k
      ensures OnDisk(s'.fs, s'.incoming[j]) && s'.incoming[j].sink.handle.ino != i
    {
      assert IsFileEntry(s, j) && OnDisk(s.fs, s.incoming[j]);
      OpenedInodes(s, k, e, fs1, s'.fs, s.incoming[j].sink.tmp);
    }
  }

  lemma OpenedFile(s: State, s': State, k: Key, e: Incoming, fs1: Fs)
    requires Exclusive(s) && e.sink.FileSink? && Fed(e, []) && SameFileNames(s.fs, fs1) && fs1.data == s.fs.data
    requires Unshared(s, k, e.sink.tmp) && SoleName(s.fs, e.sink.tmp)
    requires s'.incoming == s.incoming[k := e] && s'.fs.Valid() && Makes(fs1, s'.fs, e.sink.tmp, e.sink.handle.ino)
    ensures KeepsFilesBut(s, s', e.sink.tmp)
  {
    forall p | s.fs.IsFile(p) && !LiveTemp(s, p) && p != e.sink.tmp ensures Keeps(s, s', p) {
      OpenedInodes(s, k, e, fs1, s'.fs, p);
      forall j | IsFileEntry(s', j) ensures s'.incoming[j].sink.tmp != p {
        assert j != k ==> IsFileEntry(s, j);
      }
    }
  }

  lemma WrittenFile(s: State, s': State, k: Key, data: seq<byte>, env: Env)
    requires Exclusive(s) && IsFileEntry(s, k) && env.writeOk
    requires s' == OnChunk(s, k, data, env)
    ensures Exclusive(s') && KeepsFiles(s, s')
  {
    var e := s.incoming[k];
    var i := e.sink.handle.ino;
    assert OnDisk(s.fs, e);
    assert s'.fs.data[i] == e.hashed + data;
    forall j | IsFileEntry(s', j) ensures OnDisk(s'.fs, s'.incoming[j]) {
      assert IsFileEntry(s, j) && OnDisk(s.fs, s.incoming[j]);
    }
    forall p | s.fs.IsFile(p) && !LiveTemp(s, p) ensures Keeps(s, s', p) {
      assert p != e.sink.tmp;
      forall j | IsFileEntry(s', j) ensures s'.incoming[j].sink.tmp != p {
        assert IsFileEntry(s, j);
      }
    }
  }

  /** A transfer leaves the map and its temporary name goes away; its inode may
      have got another name, which no other transfer uses. */
  lemma ClosedFile(s: State, s': State, k: Key, q: Path)
    requires Exclusive(s) && IsFileEntry(s, k) && Unshared(s, k, q)
    requires s'.incoming == s.incoming - {k} && s'.fs.data == s.fs.data && s'.fs.Valid()
    requires var tmp, i := s.incoming[k].sink.tmp, s.incoming[k].sink.handle.ino;
             || s'.fs.names == s.fs.names - {tmp}
             || s'.fs.names == (s.fs.names - {tmp})[q := File(i)]
    ensures Exclusive(s') && KeepsFilesBut(s, s', q)
    ensures s'.fs.names == s.fs.names - {s.incoming[k].sink.tmp} ==> KeepsFiles(s, s')
  {
    var e := s.incoming[k];
    assert OnDisk(s.fs, e);
    forall j | IsFileEntry(s', j) ensures OnDisk(s'.fs, s'.incoming[j]) {
      assert IsFileEntry(s, j) && OnDisk(s.fs, s.incoming[j]);
    }
    forall p | s.fs.IsFile(p) && !LiveTemp(s, p) ensures !LiveTemp(s', p) && p != e.sink.tmp {
      forall j | IsFileEntry(s', j) ensures s'.incoming[j].sink.tmp != p {
        assert IsFileEntry(s, j);
      }
    }
  }

  lemma UnchangedFiles(s: State, s': State)
    requires Exclusive(s) && SameFileNames(s.fs, s'.fs)
    requires s'.fs.Valid() && s'.fs.data == s.fs.data
    requires forall k :: IsFileEntry(s', k) ==> IsFileEntry(s, k) && s'.incoming[k] == s.incoming[k]
    ensures Exclusive(s') && KeepsFiles(s, s')
  {
  }

  // ---- one frame at a time ------------------------------------------------

  lemma MakeDirKeeps(fs: Fs, dir: Dir)
    requires fs.Valid() && MakeDir(fs, dir).Some?
    ensures var fs1 := MakeDir(fs, dir).value;
            && fs1.Valid() && SameFileNames(fs, fs1) && fs1.data == fs.data
            && forall p :: p in fs1.names ==> p in fs.names || p == PENDING_DIR
  {
  }

  lemma TempIsNotPending(env: Env, name: string, id: nat)
    ensures TempPath(env, name, id) != PENDING_DIR
  {
  }

  lemma CreateOpens(fs1: Fs, p: Path)
    requires fs1.Valid() && Create(fs1, p).Some?
    ensures var (fs2, h) := Create(fs1, p).value;
            fs2.Valid() && Makes(fs1, fs2, p, h.ino)
  {
    var (fs2, h) := Create(fs1, p).value;
    assert fs2.names == fs1.names[p := File(h.ino)];
  }

  lemma OpenTempKeeps(s: State, k: Key, env: Env, safe: string, size: nat)
    requires Exclusive(s)
    requires OpenTemp(s, k, env, safe, size).log == s.log ==>
               Unshared(s, k, TempPath(env, safe, k.id)) && SoleName(s.fs, TempPath(env, safe, k.id))
    ensures var s' := OpenTemp(s, k, env, safe, size);
            && Exclusive(s') && KeepsFilesBut(s, s', TempPath(env, safe, k.id))
            && (s'.log != s.log ==> KeepsFiles(s, s'))
  {
    var s' := OpenTemp(s, k, env, safe, size);
    if MakeDir(s.fs, FinalDir(env)).Some? {
      MakeDirKeeps(s.fs, FinalDir(env));
      if s'.log == s.log {
        var fs1 := MakeDir(s.fs, FinalDir(env)).value;
        CreateOpens(fs1, TempPath(env, safe, k.id));
        OpenedExclusive(s, s', k, s'.incoming[k], fs1);
        OpenedFile(s, s', k, s'.incoming[k], fs1);
        return;
      }
    }
    UnchangedFiles(s, s');
  }

  /** What a frame keeps: every finished file but one under the name it writes. */
  ghost predicate StepKeeps(c: Config, s: State, x: Input, s': State) {
    && Exclusive(s') && KeepsFilesBut(s, s', Target(s, x))
    && (!Places(c, s, x) ==> KeepsFiles(s, s'))
  }

  lemma StartKeeps(c: Config, s: State, x: Input)
    requires Exclusive(s) && Separate(c, s, x) && x.frame.BlobStart?
    ensures StepKeeps(c, s, x, Step(c, s, x))
  {
    var s' := Step(c, s, x);
    if |s.incoming| < MAX_CONCURRENT_INCOMING && x.frame.purpose.FileBlob? && SafeBlobName(x.frame.name).Some? {
      OpenTempKeeps(s, x.Transfer(), x.env, SafeBlobName(x.frame.name).value, x.frame.size);
    } else {
      UnchangedFiles(s, s');
    }
  }

  lemma ChunkKeeps(c: Config, s: State, x: Input)
    requires Exclusive(s) && x.frame.BlobChunk?
    ensures StepKeeps(c, s, x, Step(c, s, x))
  {
    var k := x.Transfer();
    if IsFileEntry(s, k) {
      assert OnDisk(s.fs, s.incoming[k]);
      if x.env.writeOk {
        WrittenFile(s, Step(c, s, x), k, x.frame.data, x.env);
      } else {
        ClosedFile(s, Step(c, s, x), k, s.incoming[k].sink.tmp);
      }
    } else {
      UnchangedFiles(s, Step(c, s, x));
    }
  }

  /** How a file's end leaves the directory. */
  lemma EndNamesExactly(c: Config, s: State, x: Input)
    requires x.frame.BlobEnd? && IsFileEntry(s, x.Transfer()) && OnDisk(s.fs, s.incoming[x.Transfer()]) && s.fs.Valid()
    ensures var s' := Step(c, s, x);
            var e := s.incoming[x.Transfer()];
            && s'.incoming == s.incoming - {x.Transfer()} && s'.fs.data == s.fs.data && s'.fs.Valid()
            && s'.fs.names == if Places(c, s, x)
                                 then (s.fs.names - {e.sink.tmp})[Target(s, x) := File(e.sink.handle.ino)]
                              else s.fs.names - {e.sink.tmp}
  {
    var k := x.Transfer();
    var s1 := s.(incoming := s.incoming - {k});
    assert Destination(s1, s.incoming[k]) == Destination(s, s.incoming[k]);
  }

  lemma EndKeeps(c: Config, s: State, x: Input)
    requires Exclusive(s) && Separate(c, s, x) && x.frame.BlobEnd?
    ensures StepKeeps(c, s, x, Step(c, s, x))
  {
    var k := x.Transfer();
    if IsFileEntry(s, k) {
      assert OnDisk(s.fs, s.incoming[k]);
      EndNamesExactly(c, s, x);
      ClosedFile(s, Step(c, s, x), k, if Places(c, s, x) then Target(s, x) else s.incoming[k].sink.tmp);
    } else {
      UnchangedFiles(s, Step(c, s, x));
    }
  }

  lemma SeparateKeeps(c: Config, s: State, x: Input)
    requires Exclusive(s) && Separate(c, s, x)
    ensures StepKeeps(c, s, x, Step(c, s, x))
  {
    match x.frame
    case BlobStart(_, _, _, _) => StartKeeps(c, s, x);
    case BlobChunk(_, _) => ChunkKeeps(c, s, x);
    case BlobEnd(_, _) => EndKeeps(c, s, x);
  }

  /** A frame that meets no file leaves every finished file alone. */
  lemma StepKeepsFiles(c: Config, s: State, x: Input)
    requires Exclusive(s) && Clear(s, x)
    ensures Exclusive(Step(c, s, x)) && KeepsFiles(s, Step(c, s, x))
  {
    ClearIsUndisturbed(c, s, x);
    SeparateKeeps(c, s, x);
    if x.frame.BlobStart? && Places(c, s, x) {
      PlacedStart(c, s, x);
    }
  }

  // ---- whole runs ---------------------------------------------------------

  /** While every frame meets a clear directory, no file that is not a transfer
      in progress is ever moved, removed or altered: neither what the directory
      held before nor what was received in the meantime. */
  lemma {:induction false} RunKeepsFiles(c: Config, s: State, xs: seq<Input>)
    requires Exclusive(s) && ClearRun(c, s, xs)
    ensures Exclusive(Run(c, s, xs)) && KeepsFiles(s, Run(c, s, xs))
  {
    if xs != [] {
      var pre := xs[..|xs| - 1];
      RunKeepsFiles(c, s, pre);
      StepKeepsFiles(c, Run(c, s, pre), xs[|xs| - 1]);
      var m, t := Run(c, s, pre), Run(c, s, xs);
      assert KeepsFiles(s, m) && KeepsFiles(m, t);
    }
  }

  /** The frame that committed `e`, and why it was allowed to. */
  ghost predicate CommittedBy(c: Config, s: State, x: Input, e: Event)
    requires e.Commit?
  {
    && x.frame.BlobEnd? && x.Transfer() == e.key && IsFileEntry(s, e.key)
    && var inc := s.incoming[e.key];
       && c.sha(inc.hashed) == x.frame.sha
       && (inc.declared == 0 || inc.declared == inc.written)
       && e.hashed == inc.hashed
       && e.path == Destination(s, inc)
  }

  /** Handling a frame appends nothing, one verdict, or at an end two events of
      which only the first can be a commit. */
  predicate Appends(log: seq<Event>, log': seq<Event>, atEnd: bool) {
    || log' == log
    || (|log'| == |log| + 1 && log <= log' && !log'[|log|].Commit?)
    || (|log'| == |log| + 2 && log <= log' && atEnd && !log'[|log| + 1].Commit?)
  }

  lemma StartAppends(c: Config, s: State, k: Key, f: Frame, env: Env)
    requires f.BlobStart?
    ensures Appends(s.log, OnStart(c, s, k, f, env).log, false)
  {
  }

  lemma EndAppends(c: Config, s: State, k: Key, sha: Digest, env: Env)
    ensures Appends(s.log, OnEnd(c, s, k, sha, env).log, true)
  {
  }

  lemma OnlyEndCommits(c: Config, s: State, x: Input)
    ensures Appends(s.log, Step(c, s, x).log, x.frame.BlobEnd?)
  {
    match x.frame
    case BlobStart(_, _, _, _) => StartAppends(c, s, x.Transfer(), x.frame, x.env);
    case BlobChunk(_, _) =>
    case BlobEnd(_, sha) => EndAppends(c, s, x.Transfer(), sha, x.env);
  }

  lemma EndCommits(c: Config, s: State, x: Input)
    requires x.frame.BlobEnd? && |OnEnd(c, s, x.Transfer(), x.frame.sha, x.env).log| == |s.log| + 2
    requires OnEnd(c, s, x.Transfer(), x.frame.sha, x.env).log[|s.log|].Commit?
    ensures CommittedBy(c, s, x, OnEnd(c, s, x.Transfer(), x.frame.sha, x.env).log[|s.log|])
  {
  }

  lemma StepCommits(c: Config, s: State, x: Input, n: nat)
    requires n < |Step(c, s, x).log| && Step(c, s, x).log[n].Commit?
    ensures n < |s.log| ==> s.log[n] == Step(c, s, x).log[n]
    ensures n >= |s.log| ==> CommittedBy(c, s, x, Step(c, s, x).log[n])
  {
    OnlyEndCommits(c, s, x);
    if n >= |s.log| {
      EndCommits(c, s, x);
    }
  }

  lemma StepCommitsBytes(c: Config, s: State, x: Input, n: nat)
    requires Exclusive(s) && Separate(c, s, x)
    requires |s.log| <= n < |Step(c, s, x).log| && Step(c, s, x).log[n].Commit?
    ensures Places(c, s, x) && x.frame.BlobEnd? && n == |s.log|
    ensures var e := Step(c, s, x).log[n];
            && e.key == x.Transfer() && e.path == Target(s, x) && e.ino == s.incoming[e.key].sink.handle.ino
            && e.bytes == s.incoming[e.key].hashed && InPlace(Step(c, s, x), e)
  {
    OnlyEndCommits(c, s, x);
    StepCommits(c, s, x, n);
    var s' := Step(c, s, x);
    var k := x.Transfer();
    assert OnDisk(s.fs, s.incoming[k]);
    forall j | IsFileEntry(s', j) ensures s'.incoming[j].sink.tmp != s'.log[n].path {
      assert IsFileEntry(s, j);
    }
  }

  lemma UndisturbedKeepsGood(c: Config, s: State, x: Input)
    requires Good(s) && Undisturbed(c, s, x)
    ensures Good(Step(c, s, x))
  {
    var s' := Step(c, s, x);
    SeparateKeeps(c, s, x);
    OnlyEndCommits(c, s, x);
    forall n | 0 <= n < |s'.log| && s'.log[n].Commit? ensures InPlace(s', s'.log[n]) {
      if n < |s.log| {
        var e := s.log[n];
        assert s'.log[n] == e && InPlace(s, e) && Committed(s, e.path);
        assert Keeps(s, s', e.path);
      } else {
        StepCommitsBytes(c, s, x, n);
      }
    }
  }

  lemma GoodStartIsUndisturbed(c: Config, s: State, x: Input)
    requires Good(s) && Good(Step(c, s, x)) && Places(c, s, x) && x.frame.BlobStart?
    ensures Undisturbed(c, s, x)
  {
    var s', k, p := Step(c, s, x), x.Transfer(), Target(s, x);
    PlacedStart(c, s, x);
    assert OnDisk(s'.fs, s'.incoming[k]);
    forall j | IsFileEntry(s, j) && j != k ensures s.incoming[j].sink.tmp != p {
      assert s'.incoming[j] == s.incoming[j] && IsFileEntry(s', j) && OnDisk(s'.fs, s'.incoming[j]);
    }
    forall n | 0 <= n < |s.log| && s.log[n].Commit? ensures s.log[n].path != p {
      assert InPlace(s', s'.log[n]);
    }
    forall q | s.fs.IsFile(p) && q in s.fs.names && s.fs.names[q] == s.fs.names[p] ensures q == p {
      assert s.fs.IsFile(q);
    }
  }

  lemma GoodEndIsUndisturbed(c: Config, s: State, x: Input)
    requires Good(s) && Good(Step(c, s, x)) && Places(c, s, x) && x.frame.BlobEnd?
    ensures Undisturbed(c, s, x)
  {
    var s', k, p := Step(c, s, x), x.Transfer(), Target(s, x);
    var i := s.incoming[k].sink.handle.ino;
    OnlyEndCommits(c, s, x);
    assert OnDisk(s.fs, s.incoming[k]);
    EndNamesExactly(c, s, x);
    forall j | IsFileEntry(s, j) && j != k ensures s.incoming[j].sink.tmp != p {
      assert IsFileEntry(s', j) && OnDisk(s'.fs, s'.incoming[j]);
    }
    forall n | 0 <= n < |s.log| && s.log[n].Commit? ensures s.log[n].path != p {
      assert s'.log[n] == s.log[n] && InPlace(s', s'.log[n]) && InPlace(s, s.log[n]);
    }
  }

  /** Exactly which frames the receiver survives: transfers keep their own files
      and commits stay intact if and only if the name the frame writes is not
      being written for another transfer, is no committed file, and (for a
      start, which truncates) is not a second name of some other file. A
      leftover temporary file does no harm. */
  lemma GoodExactly(c: Config, s: State, x: Input)
    requires Good(s)
    ensures Good(Step(c, s, x)) <==> Undisturbed(c, s, x)
  {
    if Undisturbed(c, s, x) {
      UndisturbedKeepsGood(c, s, x);
    }
    if Good(Step(c, s, x)) && Places(c, s, x) {
      if x.frame.BlobStart? {
        GoodStartIsUndisturbed(c, s, x);
      } else {
        GoodEndIsUndisturbed(c, s, x);
      }
    }
  }

  lemma {:induction false} RunKeepsExclusive(c: Config, s: State, xs: seq<Input>)
    requires Exclusive(s) && SeparateRun(c, s, xs)
    ensures Exclusive(Run(c, s, xs))
  {
    if xs != [] {
      RunKeepsExclusive(c, s, xs[..|xs| - 1]);
      SeparateKeeps(c, Run(c, s, xs[..|xs| - 1]), xs[|xs| - 1]);
    }
  }

  lemma {:induction false} RunKeepsGood(c: Config, s: State, xs: seq<Input>)
    requires Good(s) && UndisturbedRun(c, s, xs)
    ensures Good(Run(c, s, xs))
  {
    if xs != [] {
      RunKeepsGood(c, s, xs[..|xs| - 1]);
      UndisturbedKeepsGood(c, Run(c, s, xs[..|xs| - 1]), xs[|xs| - 1]);
    }
  }

  /** Every file in the log of commits was committed by a BlobEnd whose digest
      is that of the chunks collected for that key, with the declared size when
      one was declared; it holds exactly those bytes, and still does at the end
      of the run. */
  lemma {:induction false} CommitSound(c: Config, fs: Fs, xs: seq<Input>, n: nat) returns (i: nat)
    requires fs.Valid() && UndisturbedRun(c, Init(fs), xs)
    requires n < |Run(c, Init(fs), xs).log| && Run(c, Init(fs), xs).log[n].Commit?
    ensures i < |xs|
    ensures var t := Run(c, Init(fs), xs);
            var e := t.log[n];
            && CommittedBy(c, Run(c, Init(fs), xs[..i]), xs[i], e)
            && e.bytes == Collected(c, Init(fs), xs[..i], e.key)
            && t.fs.IsFile(e.path) && !LiveTemp(t, e.path) && Contents(t.fs, e.path) == e.bytes
  {
    RunKeepsGood(c, Init(fs), xs);
    assert InPlace(Run(c, Init(fs), xs), Run(c, Init(fs), xs).log[n]);
    i := CommitBytes(c, fs, xs, n);
  }

  lemma {:induction false} CommitBytes(c: Config, fs: Fs, xs: seq<Input>, n: nat) returns (i: nat)
    requires fs.Valid() && UndisturbedRun(c, Init(fs), xs)
    requires n < |Run(c, Init(fs), xs).log| && Run(c, Init(fs), xs).log[n].Commit?
    ensures i < |xs|
    ensures var e := Run(c, Init(fs), xs).log[n];
            && CommittedBy(c, Run(c, Init(fs), xs[..i]), xs[i], e)
            && e.bytes == Collected(c, Init(fs), xs[..i], e.key)
  {
    var pre, x := xs[..|xs| - 1], xs[|xs| - 1];
    var s := Run(c, Init(fs), pre);
    StepCommits(c, s, x, n);
    if n < |s.log| {
      i := CommitBytes(c, fs, pre, n);
      assert pre[..i] == xs[..i];
    } else {
      i := |xs| - 1;
      RunKeepsGood(c, Init(fs), pre);
      StepCommitsBytes(c, s, x, n);
      Reassembly(c, fs, pre, x.Transfer());
    }
  }

  /** Names in the directory that are accounted for: there before, a commit's
      destination, a transfer in progress, or the `pending` directory. */
  ghost predicate Accounted(fs: Fs, s: State, p: Path) {
    p in fs.names || p == PENDING_DIR || LiveTemp(s, p) || Committed(s, p)
  }

  ghost predicate AllAccounted(fs: Fs, s: State) {
    forall p :: p in s.fs.names ==> Accounted(fs, s, p)
  }

  /** Every name after a frame was there before, is the temporary file of the
      transfer it opened, or the destination it committed to; and the temporary
      name of a transfer it closed is gone. */
  ghost predicate NameFrom(s: State, x: Input, s': State, p: Path) {
    var k := x.Transfer();
    || (p in s.fs.names && (IsFileEntry(s, k) && k !in s'.incoming && s.fs.IsFile(p) ==> s.incoming[k].sink.tmp != p))
    || p == PENDING_DIR
    || (IsFileEntry(s', k) && s'.incoming[k].sink.tmp == p)
    || (|s'.log| == |s.log| + 2 && s'.log[|s.log|].Commit? && s'.log[|s.log|].path == p)
  }

  lemma OpenNames(s: State, k: Key, env: Env, safe: string, size: nat, p: Path)
    requires p in OpenTemp(s, k, env, safe, size).fs.names
    ensures var s' := OpenTemp(s, k, env, safe, size);
            p in s.fs.names || p == PENDING_DIR || (IsFileEntry(s', k) && s'.incoming[k].sink.tmp == p)
    ensures k in s.incoming ==> k in OpenTemp(s, k, env, safe, size).incoming
  {
  }

  lemma StartNames(c: Config, s: State, x: Input, p: Path)
    requires x.frame.BlobStart? && p in OnStart(c, s, x.Transfer(), x.frame, x.env).fs.names
    ensures NameFrom(s, x, OnStart(c, s, x.Transfer(), x.frame, x.env), p)
  {
    if x.frame.purpose.FileBlob? && SafeBlobName(x.frame.name).Some? {
      OpenNames(s, x.Transfer(), x.env, SafeBlobName(x.frame.name).value, x.frame.size, p);
    }
  }

  lemma ChunkNames(c: Config, s: State, x: Input, p: Path)
    requires x.frame.BlobChunk? && p in Step(c, s, x).fs.names
    ensures NameFrom(s, x, Step(c, s, x), p)
  {
  }

  lemma EndNames(c: Config, s: State, x: Input, p: Path)
    requires x.frame.BlobEnd? && p in OnEnd(c, s, x.Transfer(), x.frame.sha, x.env).fs.names
    ensures NameFrom(s, x, OnEnd(c, s, x.Transfer(), x.frame.sha, x.env), p)
  {
  }

  lemma StepNames(c: Config, s: State, x: Input, p: Path)
    requires p in Step(c, s, x).fs.names
    ensures NameFrom(s, x, Step(c, s, x), p)
  {
    match x.frame
    case BlobStart(_, _, _, _) => StartNames(c, s, x, p);
    case BlobChunk(_, _) => ChunkNames(c, s, x, p);
    case BlobEnd(_, _) => EndNames(c, s, x, p);
  }

  lemma StepLogGrows(c: Config, s: State, x: Input)
    ensures s.log <= Step(c, s, x).log
  {
    OnlyEndCommits(c, s, x);
  }

  lemma StillLive(s: State, s': State, x: Input, effect: Effect, p: Path)
    requires Has(s, x, s', effect) && LiveTemp(s, p)
    requires x.frame.BlobStart? ==> x.Transfer() !in s.incoming
    ensures LiveTemp(s', p)
            || (IsFileEntry(s, x.Transfer()) && x.Transfer() !in s'.incoming && s.incoming[x.Transfer()].sink.tmp == p)
  {
    var j :| IsFileEntry(s, j) && s.incoming[j].sink.tmp == p;
    if j in s'.incoming {
      assert IsFileEntry(s', j) && s'.incoming[j].sink.tmp == p;
    }
  }

  lemma StepAccounts(fs: Fs, c: Config, s: State, x: Input)
    requires Exclusive(s) && AllAccounted(fs, s)
    requires x.frame.BlobStart? ==> x.Transfer() !in s.incoming
    ensures AllAccounted(fs, Step(c, s, x))
  {
    var s' := Step(c, s, x);
    var effect := StepEffect(c, s, x);
    StepLogGrows(c, s, x);
    forall p | p in s'.fs.names ensures Accounted(fs, s', p) {
      StepNames(c, s, x, p);
      if p in s.fs.names && LiveTemp(s, p) {
        StillLive(s, s', x, effect, p);
        assert s.fs.IsFile(p);
      } else if p in s.fs.names && !(p in fs.names || p == PENDING_DIR) {
        var n :| 0 <= n < |s.log| && s.log[n].Commit? && s.log[n].path == p;
        assert s'.log[n] == s.log[n];
      }
    }
  }

  /** With every key started at most once, the directory holds exactly what it
      held before, the committed files and one temporary file per file transfer
      in flight; nothing is left behind by transfers that failed. */
  lemma {:induction false} NoStrayFiles(c: Config, fs: Fs, xs: seq<Input>)
    requires fs.Valid() && UndisturbedRun(c, Init(fs), xs)
    requires forall k :: Starts(xs, k) <= 1
    ensures AllAccounted(fs, Run(c, Init(fs), xs))
    ensures forall k :: IsFileEntry(Run(c, Init(fs), xs), k) ==>
              OnDisk(Run(c, Init(fs), xs).fs, Run(c, Init(fs), xs).incoming[k])
  {
    RunKeepsGood(c, Init(fs), xs);
    if xs != [] {
      var pre, x := xs[..|xs| - 1], xs[|xs| - 1];
      assert forall k :: Starts(pre, k) <= Starts(xs, k);
      NoStrayFiles(c, fs, pre);
      RunKeepsGood(c, Init(fs), pre);
      VerdictConservation(c, fs, pre, x.Transfer());
      assert x.frame.BlobStart? ==> Starts(pre, x.Transfer()) == 0;
      StepAccounts(fs, c, Run(c, Init(fs), pre), x);
    }
  }
}
