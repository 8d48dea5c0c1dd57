/** `send_one_with_retry` from the other side: it does try again, gives up only for
    a reason, and succeeds when the network and the target's disk let it. */
module Retries {
  import opened Prelude
  import opened FileSystem
  import opened BlobNames
  import opened Receiver
  import opened ReceivedFiles
  import opened Transfers
  import opened Delivery

  // ---- giving up ----------------------------------------------------------

  /** Attempts that have failed in the first `n` moves. */
  function Failures(ms: seq<Move>, n: nat): nat
    requires n <= |ms|
  {
    if n == 0 then 0
    else Failures(ms, n - 1) + if ms[n - 1].Fail? || (ms[n - 1].Acked? && !ms[n - 1].ok) then 1 else 0
  }

  /** A failed attempt is followed by another as long as fewer than three have
      failed and the target is on the bus: the call may begin one, and may not
      give up. */
  lemma TriesAgain(call: Call, s: System, m: Move, name: string, size: nat)
    requires Enabled(call, s, m) && (m.Fail? || (m.Acked? && !m.ok))
    requires s.phase.tried + 1 < 3 && call.target in s.bus
    ensures Enabled(call, Apply(call, s, m), Begin(name, size)) && !Enabled(call, Apply(call, s, m), GiveUp)
  {
  }

  lemma {:induction false} FailuresCounted(call: Call, ss: seq<System>, ms: seq<Move>, n: nat)
    requires Behavior(call, ss, ms) && n < |ss| && !ss[n].phase.Done?
    ensures ss[n].phase.tried == Failures(ms, n)
  {
    if n > 0 {
      FailuresCounted(call, ss, ms, n - 1);
    }
  }

  lemma OnlyGivingUpFails(call: Call, s: System, m: Move)
    requires Enabled(call, s, m) && Apply(call, s, m).phase == Done(false) && s.phase != Done(false)
    ensures m.GiveUp? && s.phase.Idle? && (s.phase.tried == 3 || (s.phase.tried > 0 && call.target !in s.bus))
  {
  }

  lemma GaveUpAt(call: Call, ss: seq<System>, ms: seq<Move>, k: nat)
    requires Behavior(call, ss, ms) && k < |ms| && ss[k + 1].phase == Done(false) && ss[k].phase != Done(false)
    ensures ms[k].GiveUp? && ss[k].phase.Idle?
    ensures Failures(ms, k) == 3 || (Failures(ms, k) > 0 && call.target !in ss[k].bus)
  {
    OnlyGivingUpFails(call, ss[k], ms[k]);
    FailuresCounted(call, ss, ms, k);
  }

  /** In every run: a call that reports failure gave up after three failed attempts,
      or after a failed one with the target off the bus. */
  lemma {:induction false} GivesUpOnlyWhen(call: Call, ss: seq<System>, ms: seq<Move>, n: nat) returns (k: nat)
    requires Behavior(call, ss, ms) && n < |ss| && ss[n].phase == Done(false)
    ensures k < n && ms[k].GiveUp? && ss[k].phase.Idle?
    ensures Failures(ms, k) == 3 || (Failures(ms, k) > 0 && call.target !in ss[k].bus)
  {
    assert ss[0].phase != Done(false);
    if ss[n - 1].phase == Done(false) {
      k := GivesUpOnlyWhen(call, ss, ms, n - 1);
    } else {
      k := n - 1;
      GaveUpAt(call, ss, ms, k);
    }
  }

  // ---- succeeding ---------------------------------------------------------

  /** A stretch of a run. */
  ghost predicate Path(call: Call, ss: seq<System>, ms: seq<Move>) {
    && |ss| == |ms| + 1
    && forall i :: 0 <= i < |ms| ==> Enabled(call, ss[i], ms[i]) && ss[i + 1] == Apply(call, ss[i], ms[i])
  }

  ghost function Last(ss: seq<System>): System
    requires ss != []
  {
    ss[|ss| - 1]
  }

  lemma OneMove(call: Call, ss: seq<System>, ms: seq<Move>, m: Move) returns (ss': seq<System>, ms': seq<Move>)
    requires Path(call, ss, ms) && Enabled(call, Last(ss), m)
    ensures Path(call, ss', ms') && ss <= ss' && Last(ss') == Apply(call, Last(ss), m)
  {
    ss', ms' := ss + [Apply(call, Last(ss), m)], ms + [m];
    forall i | 0 <= i < |ms'| ensures Enabled(call, ss'[i], ms'[i]) && ss'[i + 1] == Apply(call, ss'[i], ms'[i]) {
      assert i < |ms| ==> Enabled(call, ss[i], ms[i]) && ss[i + 1] == Apply(call, ss[i], ms[i]);
    }
  }

  const Fine: Env := Env(false, true, true, true, true)

  /** The call's last attempt has `chunks` sent and handled; its connection is up and
      drained, and the target is in state `t`. */
  ghost predicate InStep(call: Call, s: System, t: State, id: nat, g: nat, chunks: seq<seq<byte>>) {
    && s.phase.Streaming? && s.attempts != [] && Current(s).id == id && Current(s).conn == g
    && Current(s).chunks == chunks && !Current(s).ended
    && g in s.conns && s.conns[g] == Conn(call.target, [], true)
    && call.target in s.receivers && s.receivers[call.target] == t
    && forall i :: 0 <= i < |s.attempts| - 1 ==> s.attempts[i].id != id
  }

  lemma Starts(call: Call, s: System, name: string, size: nat) returns (ss: seq<System>, ms: seq<Move>)
    requires NetInv(call, s) && s.phase.Idle? && s.phase.tried < 3 && call.target in s.bus
    requires s.conns[s.bus[call.target]] == Conn(call.target, [], true)
    requires forall i :: 0 <= i < |s.attempts| ==> s.attempts[i].id < s.nextId
    ensures Path(call, ss, ms) && ss[0] == s
    ensures var start := Input(call.me, BlobStart(s.nextId, name, size, FileBlob), Fine);
            InStep(call, Last(ss), Step(call.config, s.receivers[call.target], start), s.nextId, s.bus[call.target], [])
  {
    ss, ms := OneMove(call, [s], [], Begin(name, size));
    ss, ms := OneMove(call, ss, ms, Deliver(s.bus[call.target], Fine));
  }

  lemma SendsOne(call: Call, ss: seq<System>, ms: seq<Move>, t: State, id: nat, g: nat,
                 chunks: seq<seq<byte>>, b: seq<byte>)
    returns (ss': seq<System>, ms': seq<Move>)
    requires Path(call, ss, ms) && InStep(call, Last(ss), t, id, g, chunks)
    ensures Path(call, ss', ms') && ss <= ss'
    ensures var x := Input(call.me, BlobChunk(id, b), Fine);
            InStep(call, Last(ss'), Step(call.config, t, x), id, g, chunks + [b])
  {
    ss', ms' := OneMove(call, ss, ms, SendChunk(b));
    ss', ms' := OneMove(call, ss', ms', Deliver(g, Fine));
  }

  /** The frames of these chunks, as the target gets them. */
  function Chunks(call: Call, id: nat, chunks: seq<seq<byte>>): (xs: seq<Input>)
    ensures |xs| == |chunks|
    ensures forall i :: 0 <= i < |xs| ==> xs[i] == Input(call.me, BlobChunk(id, chunks[i]), Fine)
  {
    seq(|chunks|, i requires 0 <= i < |chunks| => Input(call.me, BlobChunk(id, chunks[i]), Fine))
  }

  lemma {:induction false} SendsAll(call: Call, ss: seq<System>, ms: seq<Move>, t: State, id: nat, g: nat,
                                         chunks: seq<seq<byte>>)
    returns (ss': seq<System>, ms': seq<Move>)
    requires Path(call, ss, ms) && InStep(call, Last(ss), t, id, g, [])
    ensures Path(call, ss', ms') && ss <= ss'
    ensures InStep(call, Last(ss'), Run(call.config, t, Chunks(call, id, chunks)), id, g, chunks)
  {
    if chunks == [] {
      ss', ms' := ss, ms;
    } else {
      var pre, b := chunks[..|chunks| - 1], chunks[|chunks| - 1];
      ss', ms' := SendsAll(call, ss, ms, t, id, g, pre);
      ss', ms' := SendsOne(call, ss', ms', Run(call.config, t, Chunks(call, id, pre)), id, g, pre, b);
      assert Chunks(call, id, chunks)[..|pre|] == Chunks(call, id, pre) && pre + [b] == chunks;
    }
  }

  lemma Finishes(call: Call, ss: seq<System>, ms: seq<Move>, t: State, id: nat, g: nat,
                 chunks: seq<seq<byte>>, d: Detail)
    returns (ss': seq<System>, ms': seq<Move>)
    requires Path(call, ss, ms) && InStep(call, Last(ss), t, id, g, chunks)
    requires var end := Input(call.me, BlobEnd(id, call.config.sha(Concat(chunks))), Fine);
             Verdict(Key(call.me, id), true, d) in Step(call.config, t, end).log
    ensures Path(call, ss', ms') && ss <= ss' && Last(ss').phase == Done(true)
    ensures var end := Input(call.me, BlobEnd(id, call.config.sha(Concat(chunks))), Fine);
            call.target in Last(ss').receivers && Last(ss').receivers[call.target] == Step(call.config, t, end)
  {
    ss', ms' := OneMove(call, ss, ms, SendEnd);
    ss', ms' := OneMove(call, ss', ms', Deliver(g, Fine));
    ss', ms' := OneMove(call, ss', ms', Acked(call.target, true, d));
  }

  lemma {:induction false} OnlyChunks(call: Call, t: State, id: nat, chunks: seq<seq<byte>>)
    ensures SeparateRun(call.config, t, Chunks(call, id, chunks))
    ensures Carries(Chunks(call, id, chunks), Key(call.me, id), chunks)
  {
    var xs := Chunks(call, id, chunks);
    if chunks != [] {
      var pre := chunks[..|chunks| - 1];
      OnlyChunks(call, t, id, pre);
      assert xs[..|pre|] == Chunks(call, id, pre);
    }
  }

  lemma {:induction false} ChunksKeepNames(call: Call, t: State, id: nat, chunks: seq<seq<byte>>)
    ensures Run(call.config, t, Chunks(call, id, chunks)).fs.names == t.fs.names
  {
    if chunks != [] {
      var pre := chunks[..|chunks| - 1];
      ChunksKeepNames(call, t, id, pre);
      assert Chunks(call, id, chunks)[..|pre|] == Chunks(call, id, pre);
    }
  }

  lemma StartAddsOneName(c: Config, t: State, start: Input)
    requires start.frame.BlobStart? && start.env == Fine && Opens(t, start)
    ensures |DirNames(Step(c, t, start).fs, Downloads)| <= |DirNames(t.fs, Downloads)| + 1
  {
    var fs', tmp := Step(c, t, start).fs, Target(t, start);
    assert forall p :: p in fs'.names ==> p in t.fs.names || p == tmp;
    assert DirNames(fs', Downloads) <= DirNames(t.fs, Downloads) + {tmp.name};
    SubsetSize(DirNames(fs', Downloads), DirNames(t.fs, Downloads) + {tmp.name});
  }

  /** At the end there is still a free name to move the file to. */
  lemma EndIsClear(call: Call, t: State, start: Input, chunks: seq<seq<byte>>, sha: Digest)
    requires Exclusive(t) && Separate(call.config, t, start) && Opens(t, start)
    requires start.peer == call.me && start.env == Fine && |DirNames(t.fs, Downloads)| + 1 < CANDIDATES
    ensures var t1 := Run(call.config, Step(call.config, t, start), Chunks(call, start.frame.id, chunks));
            var end := Input(call.me, BlobEnd(start.frame.id, sha), Fine);
            Separate(call.config, t1, end) && !t1.fs.IsDirectory(Target(t1, end))
  {
    var c, id := call.config, start.frame.id;
    var s1 := Step(c, t, start);
    var t1 := Run(c, s1, Chunks(call, id, chunks));
    var end := Input(call.me, BlobEnd(id, sha), Fine);
    SeparateKeeps(c, t, start);
    OnlyChunks(call, s1, id, chunks);
    RunKeepsExclusive(c, s1, Chunks(call, id, chunks));
    PlacesExactly(c, t, start);
    AdmittedOpens(c, t, start);
    ChunksArrive(c, s1, s1.incoming[start.Transfer()], start.Transfer(), Chunks(call, id, chunks), chunks);
    DirectoryExact(c, t, start);
    StartAddsOneName(c, t, start);
    ChunksKeepNames(call, s1, id, chunks);
    assert DirNames(t1.fs, Downloads) == DirNames(s1.fs, Downloads);
    RoomMeansFresh(t1.fs, Downloads, t1.incoming[start.Transfer()].name);
    ClearIsUndisturbed(c, t1, end);
  }

  /** What the target's disk must allow: a slot, the name and the file operations, a
      temporary name that is nobody else's, and room in the directory. */
  ghost predicate Ready(call: Call, t: State, start: Input) {
    Exclusive(t) && Opens(t, start) && Separate(call.config, t, start) && |DirNames(t.fs, Downloads)| + 1 < CANDIDATES
  }

  /** The whole transfer at the target. */
  lemma TargetCommits(call: Call, t: State, id: nat, name: string, chunks: seq<seq<byte>>) returns (d: Detail)
    requires Ready(call, t, Input(call.me, BlobStart(id, name, |Concat(chunks)|, FileBlob), Fine))
    ensures var start := Input(call.me, BlobStart(id, name, |Concat(chunks)|, FileBlob), Fine);
            var end := Input(call.me, BlobEnd(id, call.config.sha(Concat(chunks))), Fine);
            var t' := Step(call.config, Run(call.config, Step(call.config, t, start), Chunks(call, id, chunks)), end);
            Verdict(Key(call.me, id), true, d) in t'.log && Holds(t', Key(call.me, id), Concat(chunks))
  {
    var c, b := call.config, Concat(chunks);
    var start := Input(call.me, BlobStart(id, name, |b|, FileBlob), Fine);
    var end := Input(call.me, BlobEnd(id, c.sha(b)), Fine);
    var t1 := Run(c, Step(c, t, start), Chunks(call, id, chunks));
    OnlyChunks(call, Step(c, t, start), id, chunks);
    EndIsClear(call, t, start, chunks, c.sha(b));
    IntactFileCommits(c, t, start, Chunks(call, id, chunks), end, chunks);
    d := Logged(Step(c, t1, end), |t1.log|, Key(call.me, id), b);
  }

  lemma Logged(t: State, n: nat, k: Key, b: seq<byte>) returns (d: Detail)
    requires |t.log| == n + 2 && t.log[n].Commit? && t.log[n].key == k && t.log[n].bytes == b
    requires Contents(t.fs, t.log[n].path) == b
    requires t.log[n + 1].Verdict? && t.log[n + 1].ok && t.log[n + 1].key == k
    ensures Verdict(k, true, d) in t.log && Holds(t, k, b)
  {
    d := t.log[n + 1].detail;
    assert t.log[n] in t.log && t.log[n + 1] in t.log;
  }

  /** A file with this content has been committed for the transfer and is there. */
  ghost predicate Holds(t: State, k: Key, b: seq<byte>) {
    exists e :: e in t.log && e.Commit? && e.key == k && e.bytes == b && Contents(t.fs, e.path) == b
  }

  /** Whatever has failed before, as long as an attempt is left: for every content,
      with a connection that is up and a target that is ready, the call can go on
      to report success with exactly that content committed. */
  lemma CallCanSucceed(call: Call, s: System, name: string, chunks: seq<seq<byte>>)
    returns (ss: seq<System>, ms: seq<Move>)
    requires Inv(call, s) && s.phase.Idle? && s.phase.tried < 3 && call.target in s.bus
    requires s.conns[s.bus[call.target]] == Conn(call.target, [], true)
    requires Ready(call, s.receivers[call.target],
                   Input(call.me, BlobStart(s.nextId, name, |Concat(chunks)|, FileBlob), Fine))
    ensures Path(call, ss, ms) && ss[0] == s && Last(ss).phase == Done(true)
    ensures call.target in Last(ss).receivers
    ensures Holds(Last(ss).receivers[call.target], Key(call.me, s.nextId), Concat(chunks))
  {
    forall i | 0 <= i < |s.attempts| ensures s.attempts[i].id < s.nextId {
      assert AttemptInv(call, s, s.attempts[i]);
    }
    var t := s.receivers[call.target];
    var start := Input(call.me, BlobStart(s.nextId, name, |Concat(chunks)|, FileBlob), Fine);
    var t1 := Run(call.config, Step(call.config, t, start), Chunks(call, s.nextId, chunks));
    ss, ms := Delivers(call, s, name, chunks);
    var d := TargetCommits(call, t, s.nextId, name, chunks);
    ss, ms := Finishes(call, ss, ms, t1, s.nextId, s.bus[call.target], chunks, d);
  }

  lemma Delivers(call: Call, s: System, name: string, chunks: seq<seq<byte>>) returns (ss: seq<System>, ms: seq<Move>)
    requires NetInv(call, s) && s.phase.Idle? && s.phase.tried < 3 && call.target in s.bus
    requires s.conns[s.bus[call.target]] == Conn(call.target, [], true)
    requires forall i :: 0 <= i < |s.attempts| ==> s.attempts[i].id < s.nextId
    ensures Path(call, ss, ms) && ss[0] == s
    ensures var start := Input(call.me, BlobStart(s.nextId, name, |Concat(chunks)|, FileBlob), Fine);
            var t1 := Run(call.config, Step(call.config, s.receivers[call.target], start),
                      Chunks(call, s.nextId, chunks));
            InStep(call, Last(ss), t1, s.nextId, s.bus[call.target], chunks)
  {
    var start := Input(call.me, BlobStart(s.nextId, name, |Concat(chunks)|, FileBlob), Fine);
    var s1 := Step(call.config, s.receivers[call.target], start);
    ss, ms := Starts(call, s, name, |Concat(chunks)|);
    ss, ms := SendsAll(call, ss, ms, s1, s.nextId, s.bus[call.target], chunks);
  }

  /** So every run in which an attempt is left can be carried on to success. */
  lemma RunCanSucceed(call: Call, ss: seq<System>, ms: seq<Move>, name: string, chunks: seq<seq<byte>>)
    returns (ss': seq<System>, ms': seq<Move>)
    requires Behavior(call, ss, ms)
    requires var s := Last(ss);
             && s.phase.Idle? && s.phase.tried < 3 && call.target in s.bus && s.bus[call.target] in s.conns
             && s.conns[s.bus[call.target]] == Conn(call.target, [], true) && call.target in s.receivers
             && Ready(call, s.receivers[call.target],
                      Input(call.me, BlobStart(s.nextId, name, |Concat(chunks)|, FileBlob), Fine))
    ensures Behavior(call, ss', ms') && ss <= ss' && Last(ss').phase == Done(true)
    ensures call.target in Last(ss').receivers
    ensures Holds(Last(ss').receivers[call.target], Key(call.me, Last(ss).nextId), Concat(chunks))
  {
    BehaviorInv(call, ss, ms, |ms|);
    var more, moves := CallCanSucceed(call, Last(ss), name, chunks);
    ss', ms' := ss + more[1..], ms + moves;
    forall i | 0 <= i < |ms'| ensures Enabled(call, ss'[i], ms'[i]) && ss'[i + 1] == Apply(call, ss'[i], ms'[i]) {
      if i >= |ms| {
        var j := i - |ms|;
        assert ss'[i] == more[j] && ss'[i + 1] == more[j + 1] && ms'[i] == moves[j];
      }
    }
    assert Last(ss') == Last(more);
  }
}
