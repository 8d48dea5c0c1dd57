/** The sender's stream of frames for one blob, and what the receiver makes of
    it when it arrives intact. */
module Transfers {
  import opened Prelude
  import opened FileSystem
  import opened Receiver
  import opened ReceivedFiles

  const BLOB_CHUNK: nat := 64 * 1024

  function Concat(chunks: seq<seq<byte>>): seq<byte> {
    if chunks == [] then [] else Concat(chunks[..|chunks| - 1]) + chunks[|chunks| - 1]
  }

  lemma ConcatAppend(chunks: seq<seq<byte>>, b: seq<byte>)
    ensures Concat(chunks + [b]) == Concat(chunks) + b
  {
  }

  function ChunkFrames(id: nat, chunks: seq<seq<byte>>): seq<Frame> {
    seq(|chunks|, i requires 0 <= i < |chunks| => BlobChunk(id, chunks[i]))
  }

  lemma ChunkFramesAppend(id: nat, chunks: seq<seq<byte>>, b: seq<byte>)
    ensures ChunkFrames(id, chunks + [b]) == ChunkFrames(id, chunks) + [BlobChunk(id, b)]
  {
  }

  /** `stream_blob` from memory: the announcement, the content in pieces of at
      most BLOB_CHUNK bytes, then the digest of everything sent. */
  method StreamBlob(c: Config, id: nat, name: string, purpose: Purpose, b: seq<byte>)
    returns (frames: seq<Frame>, chunks: seq<seq<byte>>)
    ensures frames == [BlobStart(id, name, |b|, purpose)] + ChunkFrames(id, chunks) + [BlobEnd(id, c.sha(b))]
    ensures Concat(chunks) == b
    ensures forall i :: 0 <= i < |chunks| ==> 0 < |chunks[i]| <= 64 * 1024
    ensures forall i :: 0 <= i < |chunks| - 1 ==> |chunks[i]| == 64 * 1024
  {
    frames := [BlobStart(id, name, |b|, purpose)];
    chunks := [];
    var hashed: seq<byte> := [];
    var at := 0;
    while at < |b|
      invariant 0 <= at <= |b|
      invariant hashed == Concat(chunks) == b[..at]
      invariant frames == [BlobStart(id, name, |b|, purpose)] + ChunkFrames(id, chunks)
      invariant forall i :: 0 <= i < |chunks| ==> 0 < |chunks[i]| <= BLOB_CHUNK
      invariant forall i :: 0 <= i < |chunks| && (at < |b| || i < |chunks| - 1) ==> |chunks[i]| == BLOB_CHUNK
    {
      var end := if at + BLOB_CHUNK <= |b| then at + BLOB_CHUNK else |b|;
      var piece := b[at..end];
      hashed := hashed + piece;
      frames := frames + [BlobChunk(id, piece)];
      ConcatAppend(chunks, piece);
      ChunkFramesAppend(id, chunks, piece);
      assert b[..end] == b[..at] + piece;
      chunks := chunks + [piece];
      at := end;
    }
    assert b[..at] == b;
    frames := frames + [BlobEnd(id, c.sha(hashed))];
  }

  // ---- an intact transfer -------------------------------------------------

  /** The frames for `k` among all that arrive. */
  function ForKey(xs: seq<Input>, k: Key): seq<Input> {
    if xs == [] then []
    else
      var x := xs[|xs| - 1];
      ForKey(xs[..|xs| - 1], k) + if x.Transfer() == k then [x] else []
  }

  /** Among arbitrary other traffic, `xs` brings `k` exactly these chunks, and
      every write of them succeeds. */
  ghost predicate Carries(xs: seq<Input>, k: Key, chunks: seq<seq<byte>>) {
    var mine := ForKey(xs, k);
    && |mine| == |chunks|
    && forall i :: 0 <= i < |mine| ==> mine[i].frame == BlobChunk(k.id, chunks[i]) && mine[i].env.writeOk
  }

  lemma CarriesSplit(xs: seq<Input>, k: Key, chunks: seq<seq<byte>>)
    requires xs != [] && Carries(xs, k, chunks)
    ensures var pre, x := xs[..|xs| - 1], xs[|xs| - 1];
            if x.Transfer() != k then Carries(pre, k, chunks)
            else |chunks| > 0 && Carries(pre, k, chunks[..|chunks| - 1])
                 && x.frame == BlobChunk(k.id, chunks[|chunks| - 1]) && x.env.writeOk
  {
  }

  /** The entry of an admitted transfer that has been fed `b`. */
  ghost predicate Carrying(s: State, k: Key, first: Incoming, b: seq<byte>) {
    && k in s.incoming
    && Fed(s.incoming[k], b)
    && s.incoming[k].name == first.name && s.incoming[k].declared == first.declared
    && match first.sink
       case Memory(_) => s.incoming[k].sink.Memory?
       case FileSink(tmp, _) => s.incoming[k].sink.FileSink? && s.incoming[k].sink.tmp == tmp
  }

  lemma OtherFrame(c: Config, s: State, x: Input, k: Key)
    requires x.Transfer() != k
    ensures k in Step(c, s, x).incoming <==> k in s.incoming
    ensures k in s.incoming ==> Step(c, s, x).incoming[k] == s.incoming[k]
  {
  }

  lemma OwnChunk(c: Config, s: State, x: Input, k: Key, first: Incoming, b: seq<byte>)
    requires Carrying(s, k, first, b)
    requires x.Transfer() == k && x.frame.BlobChunk? && x.env.writeOk
    requires first.sink.Memory? ==> |b| + |x.frame.data| <= MAX_MEM_BLOB
    ensures Carrying(Step(c, s, x), k, first, b + x.frame.data)
  {
  }

  lemma {:induction false} ChunksArrive(c: Config, s: State, first: Incoming, k: Key,
                                        xs: seq<Input>, chunks: seq<seq<byte>>)
    requires Carrying(s, k, first, []) && Carries(xs, k, chunks)
    requires first.sink.Memory? ==> |Concat(chunks)| <= MAX_MEM_BLOB
    ensures Carrying(Run(c, s, xs), k, first, Concat(chunks))
  {
    if xs != [] {
      var pre, x := xs[..|xs| - 1], xs[|xs| - 1];
      CarriesSplit(xs, k, chunks);
      if x.Transfer() != k {
        ChunksArrive(c, s, first, k, pre, chunks);
        OtherFrame(c, Run(c, s, pre), x, k);
      } else {
        ChunksArrive(c, s, first, k, pre, chunks[..|chunks| - 1]);
        OwnChunk(c, Run(c, s, pre), x, k, first, Concat(chunks[..|chunks| - 1]));
      }
    }
  }

  lemma AdmittedOpens(c: Config, s: State, start: Input)
    requires Admitted(c, s, start)
    ensures var k := start.Transfer();
            var s1 := Step(c, s, start);
            && k in s1.incoming && Carrying(s1, k, s1.incoming[k], []) && s1.incoming[k].declared == start.frame.size
            && (start.frame.purpose.FileBlob? <==> s1.incoming[k].sink.FileSink?)
  {
  }

  /** An admitted file transfer whose chunks all arrive and are written, and
      whose BlobEnd carries their digest and (if any) their declared length and
      can be renamed, commits exactly the original content, whatever else arrives in between. */
  lemma IntactFileCommits(c: Config, s: State, start: Input, xs: seq<Input>, end: Input, chunks: seq<seq<byte>>)
    requires Exclusive(s) && Opens(s, start)
    requires Separate(c, s, start) && SeparateRun(c, Step(c, s, start), xs)
    requires Separate(c, Run(c, Step(c, s, start), xs), end)
    requires !Run(c, Step(c, s, start), xs).fs.IsDirectory(Target(Run(c, Step(c, s, start), xs), end))
    requires Carries(xs, start.Transfer(), chunks)
    requires end.Transfer() == start.Transfer() && end.env.renameOk
    requires end.frame == BlobEnd(start.frame.id, c.sha(Concat(chunks)))
    requires start.frame.size == 0 || start.frame.size == |Concat(chunks)|
    ensures var t := Run(c, Step(c, s, start), xs);
            var t' := Step(c, t, end);
            && |t'.log| == |t.log| + 2 && t.log <= t'.log
            && t'.log[|t.log|].Commit? && t'.log[|t.log|].key == start.Transfer()
            && t'.log[|t.log|].bytes == Concat(chunks)
            && Contents(t'.fs, t'.log[|t.log|].path) == Concat(chunks)
            && t'.log[|t.log| + 1] == Verdict(start.Transfer(), true,
                                              FileSaved(Step(c, s, start).incoming[start.Transfer()].name))
  {
    var k := start.Transfer();
    var s1 := Step(c, s, start);
    SeparateKeeps(c, s, start);
    PlacesExactly(c, s, start);
    AdmittedOpens(c, s, start);
    ChunksArrive(c, s1, s1.incoming[k], k, xs, chunks);
    RunKeepsExclusive(c, s1, xs);
    EndOfIntactFile(c, Run(c, s1, xs), end, Concat(chunks));
  }

  lemma EndOfIntactFile(c: Config, t: State, end: Input, b: seq<byte>)
    requires Exclusive(t) && IsFileEntry(t, end.Transfer()) && end.env.renameOk && !t.fs.IsDirectory(Target(t, end))
    requires t.incoming[end.Transfer()].hashed == b && t.incoming[end.Transfer()].written == |b|
    requires end.frame == BlobEnd(end.frame.id, c.sha(b))
    requires t.incoming[end.Transfer()].declared == 0 || t.incoming[end.Transfer()].declared == |b|
    ensures var t' := Step(c, t, end);
            && |t'.log| == |t.log| + 2 && t.log <= t'.log
            && t'.log[|t.log|].Commit? && t'.log[|t.log|].key == end.Transfer() && t'.log[|t.log|].bytes == b
            && Contents(t'.fs, t'.log[|t.log|].path) == b
            && t'.log[|t.log| + 1] == Verdict(end.Transfer(), true, FileSaved(t.incoming[end.Transfer()].name))
  {
  }

  /** The same for a clipboard image of at most 64 MiB: the clipboard gets
      exactly the original bytes. No assumption about files is needed. */
  lemma IntactImageArrives(c: Config, s: State, start: Input, xs: seq<Input>, end: Input, chunks: seq<seq<byte>>)
    requires start.frame.BlobStart? && start.frame.purpose.ClipboardImage?
    requires |s.incoming| < 16 && c.hasClipSink && start.frame.size <= 64 * 1024 * 1024
    requires Carries(xs, start.Transfer(), chunks) && |Concat(chunks)| <= MAX_MEM_BLOB
    requires end.Transfer() == start.Transfer()
    requires end.frame == BlobEnd(start.frame.id, c.sha(Concat(chunks)))
    requires start.frame.size == 0 || start.frame.size == |Concat(chunks)|
    ensures var t := Run(c, Step(c, s, start), xs);
            Step(c, t, end).log ==
            t.log + [ClipImage(start.Transfer(), Concat(chunks)), Verdict(start.Transfer(), true, ClipSaved)]
  {
    var k := start.Transfer();
    var s1 := Step(c, s, start);
    ImageAdmittedExactly(c, s, start);
    AdmittedOpens(c, s, start);
    ChunksArrive(c, s1, s1.incoming[k], k, xs, chunks);
  }
}
