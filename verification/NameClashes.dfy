/** What goes wrong when a transfer's temporary name is not its own. */
module NameClashes {
  import opened Prelude
  import opened FileSystem
  import opened BlobNames
  import opened Receiver
  import opened ReceivedFiles

  lemma StartMakes(c: Config, s: State, x: Input) returns (i: nat)
    requires s.fs.Valid() && Opens(s, x)
    ensures SafeBlobName(x.frame.name).Some? && Step(c, s, x).fs.data == s.fs.data[i := []]
    ensures if s.fs.IsFile(Target(s, x)) then s.fs.names[Target(s, x)].ino == i else i !in s.fs.data
    ensures forall p :: s.fs.IsFile(p) ==> Step(c, s, x).fs.IsFile(p) && Step(c, s, x).fs.names[p] == s.fs.names[p]
  {
    TempIsNotPending(x.env, SafeBlobName(x.frame.name).value, x.frame.id);
    PlacedStart(c, s, x);
    i := Step(c, s, x).incoming[x.Transfer()].sink.handle.ino;
  }

  /** Opening the temporary file leaves every existing file as it was exactly
      when the temporary name is unused, or names a file that is empty. */
  lemma StartHarmlessExactly(c: Config, s: State, x: Input)
    requires s.fs.Valid() && Opens(s, x)
    ensures (forall p :: s.fs.IsFile(p) ==> Contents(Step(c, s, x).fs, p) == Contents(s.fs, p))
            <==> (!s.fs.IsFile(Target(s, x)) || Contents(s.fs, Target(s, x)) == [])
  {
    var i := StartMakes(c, s, x);
    var fs' := Step(c, s, x).fs;
    assert s.fs.IsFile(Target(s, x)) ==> Contents(fs', Target(s, x)) == [];
    forall p | s.fs.IsFile(p)
      ensures Contents(fs', p) == if s.fs.names[p].ino == i then [] else Contents(s.fs, p)
    {
    }
  }

  /** Names accepted unchanged. */
  predicate Plain(n: string) {
    SingleComponent(n) && '\\' !in n && !IsWhitespace(n[0]) && !IsWhitespace(n[|n| - 1])
  }

  lemma PlainNameIsSafe(n: string)
    requires Plain(n)
    ensures SafeBlobName(n) == Some(n)
  {
    PiecesOfPlain(n);
    SafeBlobNameExact(n, n);
  }

  lemma TempNameIsPlain(n: string, id: nat)
    requires Plain(n)
    ensures Plain(TempName(n, id))
  {
  }

  lemma OpenTruncates(s: State, k: Key, env: Env, safe: string, size: nat)
    requires env == Env(false, true, true, true, true) && s.fs.IsFile(TempPath(env, safe, k.id))
    ensures Contents(OpenTemp(s, k, env, safe, size).fs, TempPath(env, safe, k.id)) == []
  {
  }

  /** Any file whose name looks like a temporary name - one a peer may well have
      sent, since such a name is accepted - is emptied by the transfer that
      uses that temporary name. */
  lemma TempNameCanDestroyAFile(c: Config, s: State, k: Key, n: string)
    requires Plain(n) && |s.incoming| < MAX_CONCURRENT_INCOMING && s.fs.IsFile(Path(Downloads, TempName(n, k.id)))
    ensures var x := Input(k.peer, BlobStart(k.id, n, 1, FileBlob), Env(false, true, true, true, true));
            && SafeBlobName(TempName(n, k.id)) == Some(TempName(n, k.id))
            && Contents(Step(c, s, x).fs, Path(Downloads, TempName(n, k.id))) == []
  {
    TempNameIsPlain(n, k.id);
    PlainNameIsSafe(TempName(n, k.id));
    PlainNameIsSafe(n);
    OpenTruncates(s, k, Env(false, true, true, true, true), n, 1);
  }

  // ---- two peers, one temporary name --------------------------------------

  const AllOk: Env := Env(false, true, true, true, true)

  /** Two peers that send the same name under the same id, as daemons whose ids
      all start at 1 do: `a` and `b` start, each sends one chunk, `a` ends with
      the digest of what it sent. */
  function Clash(c: Config, a: Key, b: Key, n: string, da: seq<byte>, db: seq<byte>): seq<Input> {
    [Input(a.peer, BlobStart(a.id, n, 0, FileBlob), AllOk), Input(b.peer, BlobStart(b.id, n, 0, FileBlob), AllOk),
     Input(a.peer, BlobChunk(a.id, da), AllOk), Input(b.peer, BlobChunk(b.id, db), AllOk),
     Input(a.peer, BlobEnd(a.id, c.sha(da)), AllOk)]
  }

  /** Both transfers are open on the same inode, whose bytes are `bytes`. */
  ghost predicate Shared(s: State, a: Key, b: Key, n: string, fs: Fs, ba: seq<byte>, bb: seq<byte>, bytes: seq<byte>) {
    var tmp := Path(Downloads, TempName(n, a.id));
    && s.log == [] && s.incoming.Keys == {a, b}
    && s.incoming[a] == Incoming(n, FileSink(tmp, Handle(fs.next, |ba|)), ba, |ba|, 0)
    && s.incoming[b] == Incoming(n, FileSink(tmp, Handle(fs.next, |bb|)), bb, |bb|, 0)
    && s.fs == Fs(fs.names[tmp := File(fs.next)], fs.data[fs.next := bytes], fs.next + 1)
  }

  lemma StartOpens(c: Config, s: State, k: Key, n: string)
    requires Plain(n) && |s.incoming| < MAX_CONCURRENT_INCOMING
    requires !s.fs.IsDirectory(Path(Downloads, TempName(n, k.id)))
    ensures var (fs2, h) := Create(s.fs, Path(Downloads, TempName(n, k.id))).value;
            Step(c, s, Input(k.peer, BlobStart(k.id, n, 0, FileBlob), AllOk)) ==
            s.(fs := fs2,
               incoming := s.incoming[k := Incoming(n, FileSink(Path(Downloads, TempName(n, k.id)), h), [], 0, 0)])
  {
    PlainNameIsSafe(n);
  }

  lemma BothStart(c: Config, fs: Fs, a: Key, b: Key, n: string)
    requires a != b && a.id == b.id && Plain(n) && Path(Downloads, TempName(n, a.id)) !in fs.names
    ensures var s1 := Step(c, Init(fs), Input(a.peer, BlobStart(a.id, n, 0, FileBlob), AllOk));
            Shared(Step(c, s1, Input(b.peer, BlobStart(b.id, n, 0, FileBlob), AllOk)), a, b, n, fs, [], [], [])
  {
    StartOpens(c, Init(fs), a, n);
    var s1 := Step(c, Init(fs), Input(a.peer, BlobStart(a.id, n, 0, FileBlob), AllOk));
    assert s1.incoming.Keys == {a};
    StartOpens(c, s1, b, n);
    assert fs.data[fs.next := []][fs.next := []] == fs.data[fs.next := []];
  }

  lemma BothWrite(c: Config, s: State, fs: Fs, a: Key, b: Key, n: string, da: seq<byte>, db: seq<byte>)
    requires a != b && a.id == b.id && Shared(s, a, b, n, fs, [], [], [])
    ensures var s1 := Step(c, s, Input(a.peer, BlobChunk(a.id, da), AllOk));
            Shared(Step(c, s1, Input(b.peer, BlobChunk(b.id, db), AllOk)), a, b, n, fs, da, db, Overwrite(da, 0, db))
  {
    assert Overwrite([], 0, da) == da;
    assert fs.data[fs.next := []][fs.next := da][fs.next := Overwrite(da, 0, db)]
           == fs.data[fs.next := Overwrite(da, 0, db)];
  }

  lemma SharedEnd(c: Config, s: State, fs: Fs, a: Key, b: Key, n: string,
                  da: seq<byte>, db: seq<byte>, bytes: seq<byte>)
    requires Plain(n) && Path(Downloads, n) !in fs.names && n != TempName(n, a.id)
             && Shared(s, a, b, n, fs, da, db, bytes)
    ensures Step(c, s, Input(a.peer, BlobEnd(a.id, c.sha(da)), AllOk)).log ==
            [Commit(a, Path(Downloads, n), fs.next, da, bytes), Verdict(a, true, FileSaved(n))]
  {
    assert !Taken(s.fs, Downloads, n, 0);
  }

  lemma ClashStarts(c: Config, fs: Fs, a: Key, b: Key, n: string, da: seq<byte>, db: seq<byte>)
    requires a != b && a.id == b.id && Plain(n) && Path(Downloads, TempName(n, a.id)) !in fs.names
    ensures Shared(Run(c, Init(fs), Clash(c, a, b, n, da, db)[..2]), a, b, n, fs, [], [], [])
  {
    BothStart(c, fs, a, b, n);
    RunTwo(c, Init(fs), Clash(c, a, b, n, da, db), 0);
  }

  lemma ChunksOfClash(c: Config, s: State, a: Key, b: Key, n: string, da: seq<byte>, db: seq<byte>)
    ensures var xs := Clash(c, a, b, n, da, db);
            var s1 := Step(c, Run(c, s, xs[..2]), Input(a.peer, BlobChunk(a.id, da), AllOk));
            Run(c, s, xs[..4]) == Step(c, s1, Input(b.peer, BlobChunk(b.id, db), AllOk))
  {
    RunTwo(c, s, Clash(c, a, b, n, da, db), 2);
  }

  lemma ClashMixes(c: Config, fs: Fs, a: Key, b: Key, n: string, da: seq<byte>, db: seq<byte>)
    requires a != b && a.id == b.id && Plain(n) && Path(Downloads, TempName(n, a.id)) !in fs.names
    ensures Shared(Run(c, Init(fs), Clash(c, a, b, n, da, db)[..4]), a, b, n, fs, da, db, Overwrite(da, 0, db))
  {
    ClashStarts(c, fs, a, b, n, da, db);
    ChunksOfClash(c, Init(fs), a, b, n, da, db);
    BothWrite(c, Run(c, Init(fs), Clash(c, a, b, n, da, db)[..2]), fs, a, b, n, da, db);
  }

  /** For every pair of peers, every plain name, id and contents: `a`'s transfer
      is acknowledged and its file committed with `b`'s bytes written over its
      own, although the digest `a` sent is that of its own. */
  lemma SharedTempCorrupts(c: Config, fs: Fs, a: Key, b: Key, n: string, da: seq<byte>, db: seq<byte>)
    requires a != b && a.id == b.id && Plain(n)
    requires Path(Downloads, TempName(n, a.id)) !in fs.names && Path(Downloads, n) !in fs.names
    ensures Run(c, Init(fs), Clash(c, a, b, n, da, db)).log ==
            [Commit(a, Path(Downloads, n), fs.next, da, Overwrite(da, 0, db)), Verdict(a, true, FileSaved(n))]
  {
    var xs := Clash(c, a, b, n, da, db);
    ClashMixes(c, fs, a, b, n, da, db);
    assert |TempName(n, a.id)| > |n|;
    SharedEnd(c, Run(c, Init(fs), xs[..4]), fs, a, b, n, da, db, Overwrite(da, 0, db));
  }

  lemma RunStep(c: Config, s: State, xs: seq<Input>, i: nat)
    requires i < |xs|
    ensures Run(c, s, xs[..i + 1]) == Step(c, Run(c, s, xs[..i]), xs[i])
  {
    assert xs[..i + 1][..i] == xs[..i];
  }

  lemma RunTwo(c: Config, s: State, xs: seq<Input>, i: nat)
    requires i + 2 <= |xs|
    ensures Run(c, s, xs[..i + 2]) == Step(c, Step(c, Run(c, s, xs[..i]), xs[i]), xs[i + 1])
  {
    RunStep(c, s, xs, i);
    RunStep(c, s, xs, i + 1);
  }
}
