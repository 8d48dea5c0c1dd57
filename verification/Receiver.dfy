/** Receiving blobs: `FileXfer`'s map of transfers in flight and the three
    frame handlers, over the file system model. */
module Receiver {
  import opened Prelude
  import opened FileSystem
  import opened BlobNames

  const MAX_MEM_BLOB: nat := 64 * 1024 * 1024
  const MAX_CONCURRENT_INCOMING: nat := 16

  datatype Purpose = FileBlob | ClipboardImage

  datatype Frame =
    | BlobStart(id: nat, name: string, size: nat, purpose: Purpose)
    | BlobChunk(id: nat, data: seq<byte>)
    | BlobEnd(id: nat, sha: Digest)

  datatype Key = Key(peer: string, id: nat)

  datatype Sink = FileSink(tmp: Path, handle: Handle) | Memory(buf: seq<byte>)

  /** `hashed` is what the streaming hasher has been fed so far. */
  datatype Incoming = Incoming(name: string, sink: Sink, hashed: seq<byte>, written: nat, declared: nat)

  datatype Detail =
    | TooMany | NoClipSink | ImageTooLarge | UnsafeName | MkdirFailed | CreateFailed
    | WriteFailed | ShaMismatch | SizeMismatch | RenameFailed | ClipSaved | FileSaved(name: string)

  /** What leaves the receiver: acks on the bus, files moved into place (with
      what was hashed for them and what they hold), images handed to the
      clipboard. */
  datatype Event =
    | Verdict(key: Key, ok: bool, detail: Detail)
    | Commit(key: Key, path: Path, ino: nat, hashed: seq<byte>, bytes: seq<byte>)
    | ClipImage(key: Key, bytes: seq<byte>)

  datatype State = State(incoming: map<Key, Incoming>, fs: Fs, log: seq<Event>)

  datatype Config = Config(hasClipSink: bool, sha: seq<byte> -> Digest)

  /** What the outside decides while one frame is handled: the confirmation
      policy for this peer and whether each file operation goes through. */
  datatype Env = Env(confirm: bool, mkdirOk: bool, createOk: bool, writeOk: bool, renameOk: bool)

  datatype Input = Input(peer: string, frame: Frame, env: Env) {
    function Transfer(): Key {
      Key(peer, frame.id)
    }
  }

  function Init(fs: Fs): State {
    State(map[], fs, [])
  }

  // ---- the handlers as functions of the state -----------------------------

  function Reject(s: State, k: Key, why: Detail): State {
    s.(log := s.log + [Verdict(k, false, why)])
  }

  function FinalDir(env: Env): Dir {
    if env.confirm then Pending else Downloads
  }

  function TempPath(env: Env, name: string, id: nat): Path {
    Path(FinalDir(env), TempName(name, id))
  }

  function OpenTemp(s: State, k: Key, env: Env, safe: string, size: nat): State {
    match if env.mkdirOk then MakeDir(s.fs, FinalDir(env)) else None
    case None => Reject(s, k, MkdirFailed)
    case Some(fs1) =>
      match if env.createOk then Create(fs1, TempPath(env, safe, k.id)) else None
      case None => Reject(s.(fs := fs1), k, CreateFailed)
      case Some((fs2, h)) =>
        s.(fs := fs2, incoming :=
             s.incoming[k := Incoming(safe, FileSink(TempPath(env, safe, k.id), h), [], 0, size)])
  }

  function OnStart(c: Config, s: State, k: Key, f: Frame, env: Env): State
    requires f.BlobStart?
  {
    if |s.incoming| >= MAX_CONCURRENT_INCOMING then Reject(s, k, TooMany)
    else if f.purpose.ClipboardImage? then
      if !c.hasClipSink then Reject(s, k, NoClipSink)
      else if f.size > MAX_MEM_BLOB then Reject(s, k, ImageTooLarge)
      else s.(incoming := s.incoming[k := Incoming("clipboard-image", Memory([]), [], 0, f.size)])
    else
      match SafeBlobName(f.name)
      case None => Reject(s, k, UnsafeName)
      case Some(safe) => OpenTemp(s, k, env, safe, f.size)
  }

  function OnChunk(s: State, k: Key, data: seq<byte>, env: Env): State {
    if k !in s.incoming then s
    else
      var inc := s.incoming[k];
      var fed := inc.(hashed := inc.hashed + data, written := inc.written + |data|);
      match inc.sink
      case FileSink(tmp, h) =>
        if !env.writeOk then Reject(s.(incoming := s.incoming - {k}, fs := Remove(s.fs, tmp)), k, WriteFailed)
        else
          var (fs', h') := Write(s.fs, h, data);
          s.(fs := fs', incoming := s.incoming[k := fed.(sink := FileSink(tmp, h'))])
      case Memory(buf) =>
        if |buf| + |data| > MAX_MEM_BLOB then Reject(s.(incoming := s.incoming - {k}), k, ImageTooLarge)
        else s.(incoming := s.incoming[k := fed.(sink := Memory(buf + data))])
  }

  function Cleanup(s: State, sink: Sink): State {
    if sink.FileSink? then s.(fs := Remove(s.fs, sink.tmp)) else s
  }

  function Destination(s: State, inc: Incoming): Path
    requires inc.sink.FileSink?
  {
    Path(inc.sink.tmp.dir, FirstFree(s.fs, inc.sink.tmp.dir, inc.name, 0))
  }

  function CommitFile(s: State, k: Key, inc: Incoming, env: Env): State
    requires inc.sink.FileSink?
  {
    var dest := Destination(s, inc);
    match if env.renameOk then Rename(s.fs, inc.sink.tmp, dest) else None
    case None => Reject(Cleanup(s, inc.sink), k, RenameFailed)
    case Some(fs') =>
      s.(fs := fs', log := s.log + [Commit(k, dest, fs'.names[dest].ino, inc.hashed, Contents(fs', dest)),
                                    Verdict(k, true, FileSaved(inc.name))])
  }

  function OnEnd(c: Config, s: State, k: Key, sha: Digest, env: Env): State {
    if k !in s.incoming then s
    else
      var inc := s.incoming[k];
      var s1 := s.(incoming := s.incoming - {k});
      if c.sha(inc.hashed) != sha then Reject(Cleanup(s1, inc.sink), k, ShaMismatch)
      else if inc.declared != 0 && inc.written != inc.declared then Reject(Cleanup(s1, inc.sink), k, SizeMismatch)
      else if inc.sink.Memory? then
        s1.(log := s1.log + [ClipImage(k, inc.sink.buf), Verdict(k, true, ClipSaved)])
      else CommitFile(s1, k, inc, env)
  }

  function Step(c: Config, s: State, x: Input): State {
    match x.frame
    case BlobStart(_, _, _, _) => OnStart(c, s, x.Transfer(), x.frame, x.env)
    case BlobChunk(_, data) => OnChunk(s, x.Transfer(), data, x.env)
    case BlobEnd(_, sha) => OnEnd(c, s, x.Transfer(), sha, x.env)
  }

  function Run(c: Config, s: State, xs: seq<Input>): State {
    if xs == [] then s else Step(c, Run(c, s, xs[..|xs| - 1]), xs[|xs| - 1])
  }

  /** A BlobStart is admitted exactly when handling it produced no verdict. */
  predicate Admitted(c: Config, s: State, x: Input) {
    x.frame.BlobStart? && |Step(c, s, x).log| == |s.log|
  }

  /** A clipboard image is admitted exactly when there is a free slot, somewhere to
      put images, and no more than 64 MiB announced. */
  lemma ImageAdmittedExactly(c: Config, s: State, x: Input)
    requires x.frame.BlobStart? && x.frame.purpose.ClipboardImage?
    ensures Admitted(c, s, x) <==> |s.incoming| < 16 && c.hasClipSink && x.frame.size <= 64 * 1024 * 1024
  {
  }

  // ---- reassembly ---------------------------------------------------------

  /** The bytes of `k`'s chunks since its last admitted BlobStart. */
  function Collected(c: Config, s: State, xs: seq<Input>, k: Key): seq<byte> {
    if xs == [] then []
    else
      var pre, x := xs[..|xs| - 1], xs[|xs| - 1];
      var before := Collected(c, s, pre, k);
      if x.Transfer() != k then before
      else if x.frame.BlobChunk? then before + x.frame.data
      else if Admitted(c, Run(c, s, pre), x) then []
      else before
  }

  /** An entry that has been fed exactly `b`: hasher, counter, memory buffer and
      file position all say so. */
  predicate Fed(e: Incoming, b: seq<byte>) {
    && e.hashed == b
    && e.written == |b|
    && match e.sink
       case Memory(buf) => buf == b
       case FileSink(_, h) => h.pos == |b|
  }

  /** `b` has been appended to what the transfer holds; nothing else changed. */
  predicate Extends(e: Incoming, b: seq<byte>, e': Incoming) {
    && e'.name == e.name && e'.declared == e.declared
    && e'.hashed == e.hashed + b
    && e'.written == e.written + |b|
    && match (e.sink, e'.sink)
       case (Memory(buf), Memory(buf')) => buf' == buf + b && |buf'| <= MAX_MEM_BLOB
       case (FileSink(tmp, h), FileSink(tmp', h')) => tmp' == tmp && h' == Handle(h.ino, h.pos + |b|)
       case _ => false
  }

  /** What one frame can do to the map of transfers. */
  datatype Effect = Ignored | Refused | Opened | Extended | Closed

  predicate Has(s: State, x: Input, s': State, effect: Effect) {
    var k := x.Transfer();
    match effect
    case Ignored => !x.frame.BlobStart? && k !in s.incoming && s' == s
    case Refused => x.frame.BlobStart? && s'.incoming == s.incoming && |s'.log| > |s.log|
    case Opened =>
      && x.frame.BlobStart? && |s.incoming| < MAX_CONCURRENT_INCOMING && s'.log == s.log
      && k in s'.incoming && s'.incoming == s.incoming[k := s'.incoming[k]] && Fed(s'.incoming[k], [])
    case Extended =>
      && x.frame.BlobChunk? && k in s.incoming && s'.log == s.log
      && k in s'.incoming && s'.incoming == s.incoming[k := s'.incoming[k]]
      && Extends(s.incoming[k], x.frame.data, s'.incoming[k])
    case Closed => !x.frame.BlobStart? && k in s.incoming && s'.incoming == s.incoming - {k} && |s'.log| > |s.log|
  }

  lemma StartEffect(c: Config, s: State, x: Input)
    requires x.frame.BlobStart?
    ensures exists effect :: Has(s, x, OnStart(c, s, x.Transfer(), x.frame, x.env), effect)
  {
    var s' := OnStart(c, s, x.Transfer(), x.frame, x.env);
    assert Has(s, x, s', Refused) || Has(s, x, s', Opened);
  }

  lemma ChunkEffect(s: State, x: Input)
    requires x.frame.BlobChunk?
    ensures exists effect :: Has(s, x, OnChunk(s, x.Transfer(), x.frame.data, x.env), effect)
  {
    var s' := OnChunk(s, x.Transfer(), x.frame.data, x.env);
    assert Has(s, x, s', Ignored) || Has(s, x, s', Extended) || Has(s, x, s', Closed);
  }

  lemma EndEffect(c: Config, s: State, x: Input)
    requires x.frame.BlobEnd?
    ensures exists effect :: Has(s, x, OnEnd(c, s, x.Transfer(), x.frame.sha, x.env), effect)
  {
    var s' := OnEnd(c, s, x.Transfer(), x.frame.sha, x.env);
    assert Has(s, x, s', Ignored) || Has(s, x, s', Closed);
  }

  lemma StepEffect(c: Config, s: State, x: Input) returns (effect: Effect)
    ensures Has(s, x, Step(c, s, x), effect)
  {
    match x.frame {
      case BlobStart(_, _, _, _) => StartEffect(c, s, x);
      case BlobChunk(_, _) => ChunkEffect(s, x);
      case BlobEnd(_, _) => EndEffect(c, s, x);
    }
    effect :| Has(s, x, Step(c, s, x), effect);
  }

  lemma EffectFeeds(s: State, x: Input, s': State, effect: Effect, k: Key, before: seq<byte>)
    requires Has(s, x, s', effect) && k in s'.incoming
    requires k in s.incoming ==> Fed(s.incoming[k], before)
    ensures Fed(s'.incoming[k], if x.Transfer() != k then before
                                else if x.frame.BlobChunk? then before + x.frame.data
                                else if effect.Opened? then [] else before)
  {
  }

  /** For any interleaving of frames from any number of peers, whatever their
      order and whatever fails, every transfer in flight has been fed exactly
      the chunks received for it since its admitted BlobStart. */
  lemma {:induction false} Reassembly(c: Config, fs: Fs, xs: seq<Input>, k: Key)
    requires k in Run(c, Init(fs), xs).incoming
    ensures Fed(Run(c, Init(fs), xs).incoming[k], Collected(c, Init(fs), xs, k))
  {
    var pre, x := xs[..|xs| - 1], xs[|xs| - 1];
    var s := Run(c, Init(fs), pre);
    if k in s.incoming {
      Reassembly(c, fs, pre, k);
    }
    var effect := StepEffect(c, s, x);
    EffectFeeds(s, x, Step(c, s, x), effect, k, Collected(c, Init(fs), pre, k));
  }

  // ---- bounds -------------------------------------------------------------

  predicate Bounded(s: State) {
    && |s.incoming| <= MAX_CONCURRENT_INCOMING
    && forall k :: k in s.incoming && s.incoming[k].sink.Memory? ==> |s.incoming[k].sink.buf| <= MAX_MEM_BLOB
  }

  lemma EffectKeepsBounds(s: State, x: Input, s': State, effect: Effect)
    requires Bounded(s) && Has(s, x, s', effect)
    ensures Bounded(s')
  {
  }

  lemma {:induction false} RunKeepsBounds(c: Config, fs: Fs, xs: seq<Input>)
    ensures Bounded(Run(c, Init(fs), xs))
  {
    if xs != [] {
      var s := Run(c, Init(fs), xs[..|xs| - 1]);
      RunKeepsBounds(c, fs, xs[..|xs| - 1]);
      var effect := StepEffect(c, s, xs[|xs| - 1]);
      EffectKeepsBounds(s, xs[|xs| - 1], Step(c, s, xs[|xs| - 1]), effect);
    }
  }

  function MemoryOf(e: Incoming): nat {
    if e.sink.Memory? then |e.sink.buf| else 0
  }

  /** Bytes held in memory by the transfers in `keys`. */
  ghost function TotalMemory(m: map<Key, Incoming>, keys: set<Key>): nat
    requires keys <= m.Keys
  {
    if keys == {} then 0
    else
      var k :| k in keys;
      MemoryOf(m[k]) + TotalMemory(m, keys - {k})
  }

  lemma {:induction false} TotalMemoryBound(m: map<Key, Incoming>, keys: set<Key>)
    requires keys <= m.Keys
    requires forall k :: k in m ==> MemoryOf(m[k]) <= MAX_MEM_BLOB
    ensures TotalMemory(m, keys) <= |keys| * MAX_MEM_BLOB
  {
    if keys != {} {
      var k :| k in keys && TotalMemory(m, keys) == MemoryOf(m[k]) + TotalMemory(m, keys - {k});
      TotalMemoryBound(m, keys - {k});
      assert |keys| == |keys - {k}| + 1;
    }
  }

  lemma BoundedMemory(s: State)
    requires Bounded(s)
    ensures |s.incoming| <= 16 && TotalMemory(s.incoming, s.incoming.Keys) <= 16 * 64 * 1024 * 1024
  {
    TotalMemoryBound(s.incoming, s.incoming.Keys);
    assert |s.incoming.Keys| == |s.incoming|;
  }

  /** At every moment of every run at most 16 transfers are in flight and they
      hold at most 16 x 64 MiB in memory. */
  lemma InFlightBounds(c: Config, fs: Fs, xs: seq<Input>)
    ensures var m := Run(c, Init(fs), xs).incoming;
            |m| <= 16 && TotalMemory(m, m.Keys) <= 16 * 64 * 1024 * 1024
  {
    RunKeepsBounds(c, fs, xs);
    BoundedMemory(Run(c, Init(fs), xs));
  }

  // ---- slots --------------------------------------------------------------

  /** The frame ends a transfer in flight: its BlobEnd, or a chunk that cannot be
      taken. Nothing else frees a slot, not even the peer going away. */
  predicate Frees(s: State, x: Input) {
    var k := x.Transfer();
    && k in s.incoming
    && match x.frame
       case BlobStart(_, _, _, _) => false
       case BlobChunk(_, data) =>
         (match s.incoming[k].sink
          case FileSink(_, _) => !x.env.writeOk
          case Memory(buf) => |buf| + |data| > MAX_MEM_BLOB)
       case BlobEnd(_, _) => true
  }

  /** With all slots taken, the transfers in flight stay the same exactly as long
      as none of them ends; a start is refused meanwhile. */
  lemma FullExactly(c: Config, s: State, x: Input)
    requires |s.incoming| >= MAX_CONCURRENT_INCOMING
    ensures Step(c, s, x).incoming.Keys == s.incoming.Keys <==> !Frees(s, x)
    ensures x.frame.BlobStart? ==> Step(c, s, x).log == s.log + [Verdict(x.Transfer(), false, TooMany)]
  {
    if Frees(s, x) {
      assert x.Transfer() !in Step(c, s, x).incoming;
    }
  }

  /** So a full receiver refuses every start, from every peer, until one of those
      transfers gets its end or a failing chunk. */
  lemma {:induction false} FullUntilFreed(c: Config, s: State, xs: seq<Input>, i: nat)
    requires |s.incoming| >= MAX_CONCURRENT_INCOMING && i < |xs|
    requires forall j :: 0 <= j < i ==> !Frees(Run(c, s, xs[..j]), xs[j])
    ensures Run(c, s, xs[..i]).incoming.Keys == s.incoming.Keys
    ensures xs[i].frame.BlobStart? ==>
              Run(c, s, xs[..i + 1]).log == Run(c, s, xs[..i]).log + [Verdict(xs[i].Transfer(), false, TooMany)]
  {
    if i > 0 {
      FullUntilFreed(c, s, xs, i - 1);
      var t := Run(c, s, xs[..i - 1]);
      assert |t.incoming.Keys| == |t.incoming| && |s.incoming.Keys| == |s.incoming|;
      FullExactly(c, t, xs[i - 1]);
      assert xs[..i][..i - 1] == xs[..i - 1];
    }
    var t := Run(c, s, xs[..i]);
    assert |t.incoming.Keys| == |t.incoming| && |s.incoming.Keys| == |s.incoming|;
    FullExactly(c, t, xs[i]);
    assert xs[..i + 1][..i] == xs[..i];
  }

  // ---- verdicts -----------------------------------------------------------

  function Starts(xs: seq<Input>, k: Key): nat {
    if xs == [] then 0
    else
      var x := xs[|xs| - 1];
      Starts(xs[..|xs| - 1], k) + if x.frame.BlobStart? && x.Transfer() == k then 1 else 0
  }

  function Verdicts(log: seq<Event>, k: Key): nat {
    if log == [] then 0
    else
      var e := log[|log| - 1];
      Verdicts(log[..|log| - 1], k) + if e.Verdict? && e.key == k then 1 else 0
  }

  function Commits(log: seq<Event>, k: Key): nat {
    if log == [] then 0
    else
      var e := log[|log| - 1];
      Commits(log[..|log| - 1], k) + if e.Commit? && e.key == k then 1 else 0
  }

  /** Admitted starts that replaced a live transfer with the same key. */
  function Replaced(c: Config, s: State, xs: seq<Input>, k: Key): nat {
    if xs == [] then 0
    else
      var pre, x := xs[..|xs| - 1], xs[|xs| - 1];
      Replaced(c, s, pre, k) +
      if x.Transfer() == k && k in Run(c, s, pre).incoming && Admitted(c, Run(c, s, pre), x) then 1 else 0
  }

  function Live(s: State, k: Key): nat {
    if k in s.incoming then 1 else 0
  }

  lemma AppendCounts(log: seq<Event>, e: Event, k: Key)
    ensures Verdicts(log + [e], k) == Verdicts(log, k) + if e.Verdict? && e.key == k then 1 else 0
    ensures Commits(log + [e], k) == Commits(log, k) + if e.Commit? && e.key == k then 1 else 0
  {
  }

  /** What one frame can append to the log. */
  lemma StepLog(c: Config, s: State, x: Input)
    ensures var s' := Step(c, s, x);
            || s'.log == s.log
            || (exists why :: s'.log == s.log + [Verdict(x.Transfer(), false, why)])
            || (exists b :: s'.log == s.log + [ClipImage(x.Transfer(), b), Verdict(x.Transfer(), true, ClipSaved)])
            || (exists p, i, h, b, n ::
                  s'.log == s.log + [Commit(x.Transfer(), p, i, h, b), Verdict(x.Transfer(), true, FileSaved(n))])
  {
  }

  lemma StepVerdicts(c: Config, s: State, x: Input, k: Key)
    ensures var s' := Step(c, s, x);
            Verdicts(s'.log, k) - Verdicts(s.log, k) ==
            if x.Transfer() == k && |s'.log| > |s.log| then 1 else 0
    ensures Commits(Step(c, s, x).log, k) - Commits(s.log, k) <= Verdicts(Step(c, s, x).log, k) - Verdicts(s.log, k)
  {
    StepLog(c, s, x);
    var s' := Step(c, s, x);
    if s'.log != s.log {
      var e := s'.log[|s.log|];
      AppendCounts(s.log, e, k);
      if |s'.log| == |s.log| + 1 {
        assert s'.log == s.log + [e];
      } else {
        assert s'.log == (s.log + [e]) + [s'.log[|s.log| + 1]];
        AppendCounts(s.log + [e], s'.log[|s.log| + 1], k);
      }
    }
  }

  /** A frame for `k` starts it, ends it, or leaves it alone. */
  lemma EffectOnLife(s: State, x: Input, s': State, effect: Effect, k: Key)
    requires Has(s, x, s', effect)
    ensures var started := if x.frame.BlobStart? && x.Transfer() == k then 1 else 0;
            var answered := if x.Transfer() == k && |s'.log| > |s.log| then 1 else 0;
            var replaced := if x.Transfer() == k && k in s.incoming && effect.Opened? then 1 else 0;
            Live(s, k) + started == Live(s', k) + answered + replaced
  {
  }

  /** Conservation: every BlobStart for a key is answered by a verdict, was
      replaced by a later one, or is still in flight. */
  lemma {:induction false} VerdictConservation(c: Config, fs: Fs, xs: seq<Input>, k: Key)
    ensures var s := Run(c, Init(fs), xs);
            Starts(xs, k) == Verdicts(s.log, k) + Replaced(c, Init(fs), xs, k) + Live(s, k)
    ensures Commits(Run(c, Init(fs), xs).log, k) <= Verdicts(Run(c, Init(fs), xs).log, k)
  {
    if xs != [] {
      var pre, x := xs[..|xs| - 1], xs[|xs| - 1];
      VerdictConservation(c, fs, pre, k);
      var s := Run(c, Init(fs), pre);
      StepVerdicts(c, s, x, k);
      var effect := StepEffect(c, s, x);
      EffectOnLife(s, x, Step(c, s, x), effect, k);
    }
  }

  lemma {:induction false} FreshKeyNeverReplaced(c: Config, fs: Fs, xs: seq<Input>, k: Key)
    requires Starts(xs, k) <= 1
    ensures Replaced(c, Init(fs), xs, k) == 0
  {
    if xs != [] {
      var pre := xs[..|xs| - 1];
      FreshKeyNeverReplaced(c, fs, pre, k);
      VerdictConservation(c, fs, pre, k);
    }
  }

  /** With a key started once: at most one verdict and one commit, and exactly
      one verdict as soon as the transfer is no longer in flight, which is the
      case once its BlobEnd has been handled. */
  lemma OneVerdictPerTransfer(c: Config, fs: Fs, xs: seq<Input>, k: Key)
    requires Starts(xs, k) == 1
    ensures var s := Run(c, Init(fs), xs);
            && Verdicts(s.log, k) == 1 - Live(s, k)
            && Commits(s.log, k) <= 1
            && (xs[|xs| - 1].frame.BlobEnd? && xs[|xs| - 1].Transfer() == k ==> Verdicts(s.log, k) == 1)
  {
    FreshKeyNeverReplaced(c, fs, xs, k);
    VerdictConservation(c, fs, xs, k);
  }
}
