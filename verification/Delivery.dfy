/** One call of `send_one_with_retry`, end to end: the sender's attempts, FIFO
    connections that may be cut at any point, and receivers that handle frames from
    anybody. Acks travel back by id and may be lost, late or repeated: the
    sender may learn any verdict a receiver has issued, at any later time. */
module Delivery {
  import opened Prelude
  import opened FileSystem
  import opened Receiver
  import opened ReceivedFiles
  import opened Transfers

  const SEND_ATTEMPTS: nat := 3

  /** One attempt: what has been sent on connection `conn` so far, and how many of
      its frames the target has handled. */
  datatype Attempt = Attempt(id: nat, name: string, size: nat, chunks: seq<seq<byte>>,
                             ended: bool, conn: nat, delivered: nat)

  function Emitted(c: Config, a: Attempt): seq<Frame> {
    [BlobStart(a.id, a.name, a.size, FileBlob)] + ChunkFrames(a.id, a.chunks)
    + if a.ended then [BlobEnd(a.id, c.sha(Concat(a.chunks)))] else []
  }

  /** A connection to `peer`, with the frames its hub has not handled yet. One that
      is down takes no more, but what had got through may still be handled, even
      after newer connections are up. */
  datatype Conn = Conn(peer: string, queue: seq<Frame>, isUp: bool)

  datatype Phase = Idle(tried: nat) | Streaming(tried: nat) | Waiting(tried: nat) | Done(ok: bool)

  /** `bus` maps a connected peer to its latest connection. */
  datatype System = System(phase: Phase, attempts: seq<Attempt>, nextId: nat, conns: map<nat, Conn>, nextConn: nat,
                           bus: map<string, nat>, receivers: map<string, State>)

  datatype Call = Call(me: string, target: string, config: Config)

  datatype Move =
    | Begin(name: string, size: nat)      // peer connected: new id, BlobStart
    | SendChunk(data: seq<byte>)          // next piece read from the file
    | SendEnd
    | Fail                                // not connected, closed, rejected or timed out
    | GiveUp                              // attempts exhausted or peer gone
    | Acked(peer: string, ok: bool, detail: Detail)
    | Allocate                            // another transfer of this daemon takes an id
    | OtherSend(conn: nat, frame: Frame)
    | Deliver(conn: nat, env: Env)        // a hub handles the oldest frame of a connection
    | Foreign(peer: string, input: Input) // a receiver handles somebody else's frame
    | Cut(conn: nat, kept: nat)           // it goes down; so many frames had got through
    | Connect(peer: string)
    | Forget(peer: string)                // the bus learns that the peer is gone

  function Current(s: System): Attempt
    requires s.attempts != []
  {
    s.attempts[|s.attempts| - 1]
  }

  predicate Mine(s: System, id: nat) {
    exists i :: 0 <= i < |s.attempts| && s.attempts[i].id == id
  }

  ghost predicate Enabled(call: Call, s: System, m: Move) {
    match m
    case Begin(_, _) => s.phase.Idle? && s.phase.tried < SEND_ATTEMPTS && call.target in s.bus
    case SendChunk(_) => s.phase.Streaming? && s.attempts != []
    case SendEnd => s.phase.Streaming? && s.attempts != []
    case Fail => s.phase.Streaming? || s.phase.Waiting? || (s.phase.Idle? && s.phase.tried < SEND_ATTEMPTS)
    case GiveUp =>
      s.phase.Idle? && (s.phase.tried == SEND_ATTEMPTS || (s.phase.tried > 0 && call.target !in s.bus))
    case Acked(p, ok, detail) =>
      && s.phase.Waiting? && s.attempts != [] && p in s.receivers
      && Verdict(Key(call.me, Current(s).id), ok, detail) in s.receivers[p].log
    case Allocate => true
    case OtherSend(_, f) => f.id < s.nextId && !Mine(s, f.id)
    case Deliver(g, _) => g in s.conns && s.conns[g].peer in s.receivers && s.conns[g].queue != []
    case Foreign(p, x) => p in s.receivers && x.peer != call.me
    case Cut(g, kept) => g in s.conns && kept <= |s.conns[g].queue|
    case Connect(_) => true
    case Forget(_) => true
  }

  /** Send a frame on a connection; if that is down the frame is lost. */
  function Enqueue(conns: map<nat, Conn>, g: nat, f: Frame): map<nat, Conn> {
    if g in conns && conns[g].isUp then conns[g := conns[g].(queue := conns[g].queue + [f])] else conns
  }

  /** The hub takes the oldest frame of a connection. */
  function Dequeue(conns: map<nat, Conn>, g: nat): map<nat, Conn>
    requires g in conns && conns[g].queue != []
  {
    conns[g := conns[g].(queue := conns[g].queue[1..])]
  }

  function CountDelivery(attempts: seq<Attempt>, id: nat): (r: seq<Attempt>)
    ensures |r| == |attempts|
    ensures forall i :: 0 <= i < |r| ==>
              r[i] == if attempts[i].id == id then attempts[i].(delivered := attempts[i].delivered + 1) else attempts[i]
  {
    seq(|attempts|, i requires 0 <= i < |attempts| =>
      if attempts[i].id == id then attempts[i].(delivered := attempts[i].delivered + 1) else attempts[i])
  }

  ghost function Apply(call: Call, s: System, m: Move): System
    requires Enabled(call, s, m)
  {
    var t := call.target;
    match m
    case Begin(name, size) =>
      var a := Attempt(s.nextId, name, size, [], false, s.bus[t], 0);
      s.(phase := Streaming(s.phase.tried), attempts := s.attempts + [a], nextId := s.nextId + 1,
         conns := Enqueue(s.conns, a.conn, BlobStart(a.id, name, size, FileBlob)))
    case SendChunk(data) =>
      var a := Current(s);
      s.(attempts := s.attempts[|s.attempts| - 1 := a.(chunks := a.chunks + [data])],
         conns := Enqueue(s.conns, a.conn, BlobChunk(a.id, data)))
    case SendEnd =>
      var a := Current(s);
      s.(phase := Waiting(s.phase.tried), attempts := s.attempts[|s.attempts| - 1 := a.(ended := true)],
         conns := Enqueue(s.conns, a.conn, BlobEnd(a.id, call.config.sha(Concat(a.chunks)))))
    case Fail => s.(phase := Idle(s.phase.tried + 1))
    case GiveUp => s.(phase := Done(false))
    case Acked(_, ok, _) => s.(phase := if ok then Done(true) else Idle(s.phase.tried + 1))
    case Allocate => s.(nextId := s.nextId + 1)
    case OtherSend(g, f) => s.(conns := Enqueue(s.conns, g, f))
    case Deliver(g, env) =>
      var p, f := s.conns[g].peer, s.conns[g].queue[0];
      s.(conns := Dequeue(s.conns, g),
         receivers := s.receivers[p := Step(call.config, s.receivers[p], Input(call.me, f, env))],
         attempts := if p == t then CountDelivery(s.attempts, f.id) else s.attempts)
    case Foreign(p, x) => s.(receivers := s.receivers[p := Step(call.config, s.receivers[p], x)])
    case Cut(g, kept) => s.(conns := s.conns[g := s.conns[g].(queue := s.conns[g].queue[..kept], isUp := false)])
    case Connect(p) =>
      s.(conns := s.conns[s.nextConn := Conn(p, [], true)], nextConn := s.nextConn + 1, bus := s.bus[p := s.nextConn])
    case Forget(p) => s.(bus := s.bus - {p})
  }

  /** Ids not given out yet are unknown everywhere. */
  ghost predicate NetInv(call: Call, s: System) {
    && (forall p :: p in s.bus ==> s.bus[p] in s.conns && s.conns[s.bus[p]].peer == p)
    && (forall g :: g in s.conns ==> g < s.nextConn)
    && (forall g, i :: g in s.conns && 0 <= i < |s.conns[g].queue| ==> s.conns[g].queue[i].id < s.nextId)
    && (forall p, id :: p in s.receivers && id >= s.nextId ==> Untouched(s.receivers[p], Key(call.me, id)))
    && call.target in s.receivers
  }

  /** Before the call: anything may be in flight anywhere, but the ids this call
      will use are new to every receiver. A daemon that restarts and counts from
      1 again while a receiver remembers its old ids is not covered. */
  ghost predicate Initial(call: Call, s: System) {
    s.phase == Idle(0) && s.attempts == [] && NetInv(call, s)
  }

  /** A run: every state follows from the one before by an enabled move. */
  ghost predicate Behavior(call: Call, ss: seq<System>, ms: seq<Move>) {
    && |ss| == |ms| + 1 && Initial(call, ss[0])
    && forall i :: 0 <= i < |ms| ==> Enabled(call, ss[i], ms[i]) && ss[i + 1] == Apply(call, ss[i], ms[i])
  }

  // ---- what the target has made of one attempt ----------------------------

  function EventsFor(log: seq<Event>, k: Key): seq<Event> {
    if log == [] then []
    else EventsFor(log[..|log| - 1], k) + if log[|log| - 1].key == k then [log[|log| - 1]] else []
  }

  lemma EventsForAppend(log: seq<Event>, e: Event, k: Key)
    ensures EventsFor(log + [e], k) == EventsFor(log, k) + if e.key == k then [e] else []
  {
  }

  lemma {:induction false} EventIn(log: seq<Event>, e: Event)
    requires e in log
    ensures e in EventsFor(log, e.key)
  {
    if log[|log| - 1] != e {
      EventIn(log[..|log| - 1], e);
    }
  }

  lemma {:induction false} EventsForIn(log: seq<Event>, k: Key, e: Event)
    requires e in EventsFor(log, k)
    ensures e in log && e.key == k
  {
    if !(log[|log| - 1] == e && e.key == k) {
      EventsForIn(log[..|log| - 1], k, e);
    }
  }

  lemma StepEvents(c: Config, s: State, x: Input, k: Key)
    ensures s.log <= Step(c, s, x).log
    ensures EventsFor(Step(c, s, x).log, k) ==
            EventsFor(s.log, k) + if x.Transfer() == k then Step(c, s, x).log[|s.log|..] else []
  {
    StepLog(c, s, x);
    var s' := Step(c, s, x);
    if s'.log != s.log {
      var e := s'.log[|s.log|];
      EventsForAppend(s.log, e, k);
      if |s'.log| == |s.log| + 1 {
        assert s'.log == s.log + [e];
      } else {
        var e2 := s'.log[|s.log| + 1];
        assert s'.log == (s.log + [e]) + [e2];
        EventsForAppend(s.log + [e], e2, k);
      }
    }
  }

  /** Nothing known of `k`. */
  ghost predicate Untouched(s: State, k: Key) {
    k !in s.incoming && EventsFor(s.log, k) == []
  }

  ghost predicate InProgress(s: State, k: Key, a: Attempt) {
    && EventsFor(s.log, k) == []
    && IsFileEntry(s, k)
    && 0 < a.delivered <= 1 + |a.chunks|
    && s.incoming[k].hashed == Concat(a.chunks[..a.delivered - 1])
  }

  ghost predicate Refusal(s: State, k: Key) {
    && k !in s.incoming
    && exists why :: EventsFor(s.log, k) == [Verdict(k, false, why)]
  }

  /** The target has committed a file after hashing exactly the bytes streamed. */
  ghost predicate Saved(s: State, k: Key, a: Attempt) {
    && k !in s.incoming && a.ended
    && var evs := EventsFor(s.log, k);
       && |evs| == 2 && evs[0].Commit? && evs[0].hashed == Concat(a.chunks)
       && evs[1].Verdict? && evs[1].ok
  }

  ghost predicate Status(c: Config, s: State, k: Key, a: Attempt) {
    if a.delivered == 0 then Untouched(s, k)
    else InProgress(s, k, a) || Refusal(s, k) || (Saved(s, k, a) && a.delivered == |Emitted(c, a)|)
  }

  lemma StatusOther(c: Config, s: State, x: Input, k: Key, a: Attempt)
    requires x.Transfer() != k && Status(c, s, k, a)
    ensures Status(c, Step(c, s, x), k, a)
  {
    StepEvents(c, s, x, k);
    OtherFrame(c, s, x, k);
    assert EventsFor(Step(c, s, x).log, k) == EventsFor(s.log, k);
  }

  lemma UntouchedOther(c: Config, s: State, x: Input, k: Key)
    requires x.Transfer() != k && Untouched(s, k)
    ensures Untouched(Step(c, s, x), k)
  {
    StepEvents(c, s, x, k);
    OtherFrame(c, s, x, k);
  }

  /** A frame for a live file transfer: fed, or closed with a refusal, or
      committed. */
  lemma OwnStart(c: Config, s: State, x: Input, a: Attempt)
    requires Untouched(s, x.Transfer()) && x.frame.BlobStart? && x.frame.purpose.FileBlob? && a.delivered == 0
    ensures var s' := Step(c, s, x);
            InProgress(s', x.Transfer(), a.(delivered := 1)) || Refusal(s', x.Transfer())
  {
  }

  lemma ChunkRefusal(c: Config, s: State, x: Input)
    requires IsFileEntry(s, x.Transfer()) && x.frame.BlobChunk? && !x.env.writeOk
    ensures x.Transfer() !in Step(c, s, x).incoming
    ensures Step(c, s, x).log[|s.log|..] == [Verdict(x.Transfer(), false, WriteFailed)]
  {
  }

  lemma OwnChunkStatus(c: Config, s: State, x: Input, a: Attempt)
    requires InProgress(s, x.Transfer(), a) && a.delivered <= |a.chunks|
    requires x.frame == BlobChunk(x.frame.id, a.chunks[a.delivered - 1])
    ensures var s' := Step(c, s, x);
            InProgress(s', x.Transfer(), a.(delivered := a.delivered + 1)) || Refusal(s', x.Transfer())
  {
    var k := x.Transfer();
    StepEvents(c, s, x, k);
    if x.env.writeOk {
      ConcatAppend(a.chunks[..a.delivered - 1], a.chunks[a.delivered - 1]);
      assert a.chunks[..a.delivered] == a.chunks[..a.delivered - 1] + [a.chunks[a.delivered - 1]];
      assert Step(c, s, x).log[|s.log|..] == [];
    } else {
      ChunkRefusal(c, s, x);
    }
  }

  lemma EndOutcome(c: Config, s: State, x: Input)
    requires IsFileEntry(s, x.Transfer()) && x.frame.BlobEnd?
    ensures var s' := Step(c, s, x);
            && x.Transfer() !in s'.incoming && s.log <= s'.log
            && (|s'.log| == |s.log| + 1 ==>
                  s'.log[|s.log|].Verdict? && !s'.log[|s.log|].ok && s'.log[|s.log|].key == x.Transfer())
            && (|s'.log| != |s.log| + 1 ==>
                  |s'.log| == |s.log| + 2 && s'.log[|s.log|].Commit? && s'.log[|s.log| + 1].Verdict?
                  && s'.log[|s.log|].hashed == s.incoming[x.Transfer()].hashed && s'.log[|s.log| + 1].ok)
  {
  }

  lemma OwnEndStatus(c: Config, s: State, x: Input, a: Attempt)
    requires InProgress(s, x.Transfer(), a) && a.delivered == 1 + |a.chunks| && a.ended && x.frame.BlobEnd?
    ensures Saved(Step(c, s, x), x.Transfer(), a) || Refusal(Step(c, s, x), x.Transfer())
  {
    var k := x.Transfer();
    var s' := Step(c, s, x);
    StepEvents(c, s, x, k);
    EndOutcome(c, s, x);
    var news := s'.log[|s.log|..];
    assert EventsFor(s'.log, k) == news;
    if |news| == 1 {
      assert news == [Verdict(k, false, s'.log[|s.log|].detail)];
    } else {
      assert a.chunks[..|a.chunks|] == a.chunks;
      assert news[0] == s'.log[|s.log|] && news[1] == s'.log[|s.log| + 1];
    }
  }

  lemma DeadKey(c: Config, s: State, x: Input)
    requires x.Transfer() !in s.incoming && !x.frame.BlobStart?
    ensures Step(c, s, x) == s
  {
  }

  /** Handling the next frame of an attempt moves its status along. */
  lemma StatusOwn(c: Config, s: State, x: Input, a: Attempt)
    requires Status(c, s, x.Transfer(), a) && x.frame.id == a.id
    requires a.delivered < |Emitted(c, a)| && x.frame == Emitted(c, a)[a.delivered]
    ensures Status(c, Step(c, s, x), x.Transfer(), a.(delivered := a.delivered + 1))
  {
    var d := a.delivered;
    assert Emitted(c, a.(delivered := d + 1)) == Emitted(c, a);
    if d == 0 {
      OwnStart(c, s, x, a);
    } else if Refusal(s, x.Transfer()) {
      DeadKey(c, s, x);
    } else if d <= |a.chunks| {
      OwnChunkStatus(c, s, x, a);
    } else {
      OwnEndStatus(c, s, x, a);
    }
  }

  /** Emitting more does not change what has been delivered. */
  lemma StatusGrows(c: Config, s: State, k: Key, a: Attempt, a': Attempt)
    requires Status(c, s, k, a) && !a.ended && a' == a.(chunks := a'.chunks, ended := a'.ended) && a.chunks <= a'.chunks
    ensures Status(c, s, k, a')
  {
    if a.delivered > 0 && InProgress(s, k, a) {
      assert a'.chunks[..a.delivered - 1] == a.chunks[..a.delivered - 1];
    }
  }

  // ---- the connections ----------------------------------------------------

  /** The frames of transfer `id` in a queue. */
  function Only(q: seq<Frame>, id: nat): seq<Frame> {
    if q == [] then [] else (if q[0].id == id then [q[0]] else []) + Only(q[1..], id)
  }

  lemma {:induction false} OnlyAppend(q: seq<Frame>, f: Frame, id: nat)
    ensures Only(q + [f], id) == Only(q, id) + if f.id == id then [f] else []
  {
    if q == [] {
      assert q + [f] == [f] && [f][1..] == [];
    } else {
      assert (q + [f])[1..] == q[1..] + [f];
      OnlyAppend(q[1..], f, id);
    }
  }

  lemma {:induction false} OnlyNone(q: seq<Frame>, id: nat)
    requires forall i :: 0 <= i < |q| ==> q[i].id != id
    ensures Only(q, id) == []
  {
    if q != [] {
      OnlyNone(q[1..], id);
    }
  }

  lemma {:induction false} OnlyPrefix(q: seq<Frame>, k: nat, id: nat)
    requires k <= |q|
    ensures Only(q[..k], id) <= Only(q, id)
  {
    if k > 0 {
      OnlyPrefix(q[1..], k - 1, id);
      assert q[..k][1..] == q[1..][..k - 1];
    }
  }

  /** What is under way of an attempt is what comes next of it, on its own
      connection only; all of it, if that is up. */
  ghost predicate Queued(call: Call, s: System, a: Attempt) {
    var frames := Emitted(call.config, a);
    && a.delivered <= |frames|
    && a.conn in s.conns && s.conns[a.conn].peer == call.target
    && Only(s.conns[a.conn].queue, a.id) <= frames[a.delivered..]
    && (s.conns[a.conn].isUp ==> Only(s.conns[a.conn].queue, a.id) == frames[a.delivered..])
    && forall g :: g in s.conns && g != a.conn ==> Only(s.conns[g].queue, a.id) == []
  }

  ghost predicate AttemptInv(call: Call, s: System, a: Attempt) {
    var k := Key(call.me, a.id);
    && a.id < s.nextId
    && Queued(call, s, a)
    && call.target in s.receivers && Status(call.config, s.receivers[call.target], k, a)
    && forall p :: p in s.receivers && p != call.target ==> Untouched(s.receivers[p], k)
  }

  ghost predicate AttemptsInv(call: Call, s: System) {
    && (forall i :: 0 <= i < |s.attempts| ==> AttemptInv(call, s, s.attempts[i]))
    && (forall i, j :: 0 <= i < j < |s.attempts| ==> s.attempts[i].id < s.attempts[j].id)
  }

  /** The attempt with this index has been received and committed. */
  ghost predicate Arrived(call: Call, s: System, i: nat) {
    && i < |s.attempts| && call.target in s.receivers
    && Saved(s.receivers[call.target], Key(call.me, s.attempts[i].id), s.attempts[i])
  }

  ghost predicate PhaseInv(call: Call, s: System) {
    match s.phase
    case Idle(n) => |s.attempts| <= n <= SEND_ATTEMPTS
    case Streaming(n) => 0 < |s.attempts| <= n + 1 <= SEND_ATTEMPTS && !Current(s).ended
    case Waiting(n) => 0 < |s.attempts| <= n + 1 <= SEND_ATTEMPTS && Current(s).ended
    case Done(ok) => |s.attempts| <= SEND_ATTEMPTS && (ok ==> s.attempts != [] && Arrived(call, s, |s.attempts| - 1))
  }

  ghost predicate Inv(call: Call, s: System) {
    NetInv(call, s) && AttemptsInv(call, s) && PhaseInv(call, s)
  }

  lemma InitialInv(call: Call, s: System)
    requires Initial(call, s)
    ensures Inv(call, s)
  {
  }

  lemma CarryOver(call: Call, s: System, s': System, a: Attempt)
    requires AttemptInv(call, s, a) && Queued(call, s', a)
    requires s'.receivers == s.receivers && s.nextId <= s'.nextId
    ensures AttemptInv(call, s', a)
  {
  }

  /** Attempts that have arrived stay that way, so the phase stays justified. */
  lemma KeepPhase(call: Call, s: System, s': System)
    requires PhaseInv(call, s) && s'.phase == s.phase && |s'.attempts| == |s.attempts|
    requires forall i :: 0 <= i < |s.attempts| ==> s'.attempts[i].ended == s.attempts[i].ended
    requires forall i: nat :: Arrived(call, s, i) ==> Arrived(call, s', i)
    ensures PhaseInv(call, s')
  {
  }

  /** A frame of another transfer on any connection. */
  lemma QueuedOther(call: Call, s: System, s': System, g: nat, f: Frame, a: Attempt)
    requires Queued(call, s, a) && f.id != a.id && s'.conns == Enqueue(s.conns, g, f)
    ensures Queued(call, s', a)
  {
    if g in s.conns {
      OnlyAppend(s.conns[g].queue, f, a.id);
    }
  }

  lemma EnqueueNet(call: Call, s: System, s': System, g: nat, f: Frame)
    requires NetInv(call, s)
             && s' == s.(phase := s'.phase, attempts := s'.attempts, nextId := s'.nextId,
                         conns := Enqueue(s.conns, g, f))
    requires f.id < s'.nextId && s.nextId <= s'.nextId
    ensures NetInv(call, s')
  {
  }

  // ---- moves of the sender ------------------------------------------------

  lemma NewAttempt(call: Call, s: System, s': System, a: Attempt)
    requires NetInv(call, s) && call.target in s.bus
    requires a == Attempt(s.nextId, a.name, a.size, [], false, s.bus[call.target], 0)
    requires s' == s.(phase := s'.phase, attempts := s'.attempts, nextId := s.nextId + 1,
                      conns := Enqueue(s.conns, a.conn, BlobStart(a.id, a.name, a.size, FileBlob)))
    ensures AttemptInv(call, s', a)
  {
    NewQueued(call, s, s', a);
    assert Untouched(s.receivers[call.target], Key(call.me, a.id));
  }

  lemma NewQueued(call: Call, s: System, s': System, a: Attempt)
    requires a == Attempt(a.id, a.name, a.size, [], false, a.conn, 0)
    requires a.conn in s.conns && s.conns[a.conn].peer == call.target
    requires forall g, i :: g in s.conns && 0 <= i < |s.conns[g].queue| ==> s.conns[g].queue[i].id < a.id
    requires s'.conns == Enqueue(s.conns, a.conn, BlobStart(a.id, a.name, a.size, FileBlob))
    ensures Queued(call, s', a)
  {
    var f := BlobStart(a.id, a.name, a.size, FileBlob);
    forall g | g in s.conns ensures Only(s.conns[g].queue, a.id) == [] {
      OnlyNone(s.conns[g].queue, a.id);
    }
    OnlyAppend(s.conns[a.conn].queue, f, a.id);
    assert Emitted(call.config, a) == [f];
  }

  lemma BeginInv(call: Call, s: System, name: string, size: nat)
    requires Inv(call, s) && Enabled(call, s, Begin(name, size))
    ensures Inv(call, Apply(call, s, Begin(name, size)))
  {
    var s' := Apply(call, s, Begin(name, size));
    var a := s'.attempts[|s.attempts|];
    var f := BlobStart(a.id, name, size, FileBlob);
    EnqueueNet(call, s, s', a.conn, f);
    NewAttempt(call, s, s', a);
    forall i | 0 <= i < |s.attempts| ensures AttemptInv(call, s', s.attempts[i]) && s.attempts[i].id < a.id {
      EarlierAttempt(call, s, s', a.conn, f, i);
    }
  }

  lemma EarlierAttempt(call: Call, s: System, s': System, g: nat, f: Frame, i: nat)
    requires AttemptsInv(call, s) && i < |s.attempts| && f.id == s.nextId < s'.nextId
    requires s'.conns == Enqueue(s.conns, g, f) && s'.receivers == s.receivers
    ensures AttemptInv(call, s', s.attempts[i]) && s.attempts[i].id < f.id
  {
    assert AttemptInv(call, s, s.attempts[i]);
    QueuedOther(call, s, s', g, f, s.attempts[i]);
    CarryOver(call, s, s', s.attempts[i]);
  }

  /** The current attempt puts one more frame on its connection. */
  lemma EmitQueued(call: Call, s: System, s': System, a: Attempt, a': Attempt, f: Frame)
    requires Queued(call, s, a) && a' == a.(chunks := a'.chunks, ended := a'.ended)
    requires Emitted(call.config, a') == Emitted(call.config, a) + [f] && f.id == a.id
    requires s'.conns == Enqueue(s.conns, a.conn, f)
    ensures Queued(call, s', a')
  {
    OnlyAppend(s.conns[a.conn].queue, f, a.id);
    assert (Emitted(call.config, a) + [f])[a.delivered..] == Emitted(call.config, a)[a.delivered..] + [f];
  }

  lemma EmitInv(call: Call, s: System, s': System, a': Attempt, f: Frame)
    requires NetInv(call, s) && AttemptsInv(call, s) && s.attempts != [] && !Current(s).ended
    requires a' == Current(s).(chunks := a'.chunks, ended := a'.ended) && Current(s).chunks <= a'.chunks
    requires Emitted(call.config, a') == Emitted(call.config, Current(s)) + [f] && f.id == a'.id
    requires s' == s.(phase := s'.phase, attempts := s.attempts[|s.attempts| - 1 := a'],
                      conns := Enqueue(s.conns, a'.conn, f))
    ensures NetInv(call, s') && AttemptsInv(call, s')
  {
    var a := Current(s);
    assert AttemptInv(call, s, a);
    EnqueueNet(call, s, s', a.conn, f);
    forall i | 0 <= i < |s.attempts| - 1 ensures AttemptInv(call, s', s.attempts[i]) {
      assert AttemptInv(call, s, s.attempts[i]);
      QueuedOther(call, s, s', a.conn, f, s.attempts[i]);
      CarryOver(call, s, s', s.attempts[i]);
    }
    EmitQueued(call, s, s', a, a', f);
    StatusGrows(call.config, s.receivers[call.target], Key(call.me, a.id), a, a');
    assert AttemptInv(call, s', a');
  }

  lemma SendInv(call: Call, s: System, m: Move)
    requires Inv(call, s) && Enabled(call, s, m) && (m.SendChunk? || m.SendEnd?)
    ensures Inv(call, Apply(call, s, m))
  {
    var s' := Apply(call, s, m);
    var a, a' := Current(s), Current(s');
    if m.SendChunk? {
      assert ChunkFrames(a.id, a.chunks + [m.data]) == ChunkFrames(a.id, a.chunks) + [BlobChunk(a.id, m.data)];
      EmitInv(call, s, s', a', BlobChunk(a.id, m.data));
    } else {
      EmitInv(call, s, s', a', BlobEnd(a.id, call.config.sha(Concat(a.chunks))));
    }
  }

  /** A verdict for an attempt's id can only come from the target, and a positive
      one only once the file is there. */
  lemma VerdictMeansSaved(call: Call, s: System, i: nat, p: string, ok: bool, detail: Detail)
    requires i < |s.attempts| && AttemptInv(call, s, s.attempts[i]) && p in s.receivers
    requires Verdict(Key(call.me, s.attempts[i].id), ok, detail) in s.receivers[p].log
    ensures p == call.target && (ok ==> Arrived(call, s, i))
  {
    EventIn(s.receivers[p].log, Verdict(Key(call.me, s.attempts[i].id), ok, detail));
  }

  /** Moves that leave the connections, the receivers and the attempts alone. */
  lemma QuietInv(call: Call, s: System, s': System)
    requires Inv(call, s) && s' == s.(phase := s'.phase, nextId := s'.nextId) && s.nextId <= s'.nextId
    ensures NetInv(call, s') && AttemptsInv(call, s')
  {
  }

  lemma AckInv(call: Call, s: System, p: string, ok: bool, detail: Detail)
    requires Inv(call, s) && Enabled(call, s, Acked(p, ok, detail))
    ensures Inv(call, Apply(call, s, Acked(p, ok, detail)))
  {
    var s' := Apply(call, s, Acked(p, ok, detail));
    QuietInv(call, s, s');
    if ok {
      VerdictMeansSaved(call, s, |s.attempts| - 1, p, ok, detail);
      assert Arrived(call, s', |s.attempts| - 1);
    }
  }

  lemma BookkeepingInv(call: Call, s: System, m: Move)
    requires Inv(call, s) && Enabled(call, s, m) && (m.Fail? || m.GiveUp? || m.Allocate?)
    ensures Inv(call, Apply(call, s, m))
  {
    QuietInv(call, s, Apply(call, s, m));
    if m.Allocate? {
      KeepPhase(call, s, Apply(call, s, m));
    }
  }

  // ---- moves of the network -----------------------------------------------

  lemma CutQueued(call: Call, s: System, s': System, g: nat, kept: nat, a: Attempt)
    requires Queued(call, s, a) && g in s.conns && kept <= |s.conns[g].queue|
    requires s'.conns == s.conns[g := s.conns[g].(queue := s.conns[g].queue[..kept], isUp := false)]
    ensures Queued(call, s', a)
  {
    OnlyPrefix(s.conns[g].queue, kept, a.id);
  }

  lemma LinkNet(call: Call, s: System, m: Move)
    requires NetInv(call, s) && Enabled(call, s, m) && (m.Cut? || m.Connect? || m.Forget?)
    ensures NetInv(call, Apply(call, s, m))
  {
  }

  lemma LinkQueued(call: Call, s: System, m: Move, a: Attempt)
    requires NetInv(call, s) && Enabled(call, s, m) && Queued(call, s, a)
    requires m.Cut? || m.Connect? || m.Forget? || (m.OtherSend? && m.frame.id != a.id)
    ensures Queued(call, Apply(call, s, m), a)
  {
    var s' := Apply(call, s, m);
    if m.OtherSend? {
      QueuedOther(call, s, s', m.conn, m.frame, a);
    } else if m.Cut? {
      CutQueued(call, s, s', m.conn, m.kept, a);
    }
  }

  lemma LinkInv(call: Call, s: System, m: Move)
    requires Inv(call, s) && Enabled(call, s, m) && (m.OtherSend? || m.Cut? || m.Connect? || m.Forget?)
    ensures Inv(call, Apply(call, s, m))
  {
    var s' := Apply(call, s, m);
    KeepPhase(call, s, s');
    if m.OtherSend? {
      EnqueueNet(call, s, s', m.conn, m.frame);
    } else {
      LinkNet(call, s, m);
    }
    forall i | 0 <= i < |s.attempts| ensures AttemptInv(call, s', s'.attempts[i]) {
      assert AttemptInv(call, s, s.attempts[i]);
      LinkQueued(call, s, m, s.attempts[i]);
      CarryOver(call, s, s', s.attempts[i]);
    }
  }

  /** A receiver handles a frame that is not part of attempt `a`. */
  lemma ReceiveOther(call: Call, s: System, s': System, p: string, x: Input, a: Attempt)
    requires AttemptInv(call, s, a) && p in s.receivers && Queued(call, s', a)
    requires x.Transfer() != Key(call.me, a.id)
    requires s'.receivers == s.receivers[p := Step(call.config, s.receivers[p], x)]
    requires s'.nextId == s.nextId
    ensures AttemptInv(call, s', a)
    ensures Saved(s.receivers[call.target], Key(call.me, a.id), a) ==>
              Saved(s'.receivers[call.target], Key(call.me, a.id), a)
  {
    var k := Key(call.me, a.id);
    if p == call.target {
      StatusOther(call.config, s.receivers[p], x, k, a);
      StepEvents(call.config, s.receivers[p], x, k);
      OtherFrame(call.config, s.receivers[p], x, k);
    } else {
      UntouchedOther(call.config, s.receivers[p], x, k);
    }
  }

  lemma ReceiveNet(call: Call, s: System, s': System, p: string, x: Input)
    requires NetInv(call, s) && p in s.receivers
    requires x.peer != call.me || x.frame.id < s.nextId
    requires s'.receivers == s.receivers[p := Step(call.config, s.receivers[p], x)]
    requires s'.nextId == s.nextId && s'.nextConn == s.nextConn && s'.bus == s.bus
    requires
      || s'.conns == s.conns
      || exists g :: g in s.conns && s.conns[g].queue != [] && s'.conns == Dequeue(s.conns, g)
    ensures NetInv(call, s')
  {
    forall id | id >= s.nextId ensures Untouched(s'.receivers[p], Key(call.me, id)) {
      assert Untouched(s.receivers[p], Key(call.me, id));
      UntouchedOther(call.config, s.receivers[p], x, Key(call.me, id));
    }
  }

  lemma ForeignInv(call: Call, s: System, p: string, x: Input)
    requires Inv(call, s) && Enabled(call, s, Foreign(p, x))
    ensures Inv(call, Apply(call, s, Foreign(p, x)))
  {
    var s' := Apply(call, s, Foreign(p, x));
    ReceiveNet(call, s, s', p, x);
    forall i | 0 <= i < |s.attempts|
      ensures AttemptInv(call, s', s.attempts[i]) && (Arrived(call, s, i) ==> Arrived(call, s', i))
    {
      assert AttemptInv(call, s, s.attempts[i]);
      ReceiveOther(call, s, s', p, x, s.attempts[i]);
    }
    KeepPhase(call, s, s');
  }

  lemma DequeueOther(call: Call, s: System, s': System, g: nat, a: Attempt)
    requires Queued(call, s, a) && g in s.conns && s.conns[g].queue != [] && s.conns[g].queue[0].id != a.id
    requires s'.conns == Dequeue(s.conns, g)
    ensures Queued(call, s', a)
  {
  }

  /** A frame of the attempt comes from its own connection, and is the next. */
  lemma DequeueOwn(call: Call, s: System, s': System, g: nat, a: Attempt)
    requires Queued(call, s, a) && g in s.conns && s.conns[g].queue != [] && s.conns[g].queue[0].id == a.id
    requires s'.conns == Dequeue(s.conns, g)
    ensures s.conns[g].peer == call.target && a.delivered < |Emitted(call.config, a)|
    ensures s.conns[g].queue[0] == Emitted(call.config, a)[a.delivered]
    ensures Queued(call, s', a.(delivered := a.delivered + 1))
  {
    assert Only(s.conns[g].queue, a.id)[0] == s.conns[g].queue[0];
    assert g == a.conn;
  }

  lemma DeliverOwn(call: Call, s: System, s': System, g: nat, env: Env, a: Attempt)
    requires AttemptInv(call, s, a) && Enabled(call, s, Deliver(g, env)) && s' == Apply(call, s, Deliver(g, env))
    requires s.conns[g].queue[0].id == a.id
    ensures s.conns[g].peer == call.target && AttemptInv(call, s', a.(delivered := a.delivered + 1))
    ensures !Saved(s.receivers[call.target], Key(call.me, a.id), a)
  {
    DequeueOwn(call, s, s', g, a);
    StatusOwn(call.config, s.receivers[call.target], Input(call.me, s.conns[g].queue[0], env), a);
  }

  lemma DeliverAttempt(call: Call, s: System, s': System, g: nat, env: Env, i: nat)
    requires Inv(call, s) && Enabled(call, s, Deliver(g, env)) && s' == Apply(call, s, Deliver(g, env))
    requires i < |s.attempts|
    ensures AttemptInv(call, s', s'.attempts[i]) && s'.attempts[i].id == s.attempts[i].id
    ensures Arrived(call, s, i) ==> Arrived(call, s', i)
  {
    var a, f := s.attempts[i], s.conns[g].queue[0];
    assert AttemptInv(call, s, a);
    if f.id != a.id {
      DequeueOther(call, s, s', g, a);
      ReceiveOther(call, s, s', s.conns[g].peer, Input(call.me, f, env), a);
    } else {
      DeliverOwn(call, s, s', g, env, a);
    }
  }

  lemma DeliverNet(call: Call, s: System, g: nat, env: Env)
    requires NetInv(call, s) && Enabled(call, s, Deliver(g, env))
    ensures NetInv(call, Apply(call, s, Deliver(g, env)))
  {
    ReceiveNet(call, s, Apply(call, s, Deliver(g, env)), s.conns[g].peer, Input(call.me, s.conns[g].queue[0], env));
  }

  lemma DeliverAttempts(call: Call, s: System, s': System, g: nat, env: Env)
    requires Inv(call, s) && Enabled(call, s, Deliver(g, env)) && s' == Apply(call, s, Deliver(g, env))
    ensures AttemptsInv(call, s')
    ensures forall i: nat :: Arrived(call, s, i) ==> Arrived(call, s', i)
  {
    forall i | 0 <= i < |s.attempts|
      ensures AttemptInv(call, s', s'.attempts[i]) && s'.attempts[i].id == s.attempts[i].id
      ensures Arrived(call, s, i) ==> Arrived(call, s', i)
    {
      DeliverAttempt(call, s, s', g, env, i);
    }
  }

  lemma DeliverInv(call: Call, s: System, g: nat, env: Env)
    requires Inv(call, s) && Enabled(call, s, Deliver(g, env))
    ensures Inv(call, Apply(call, s, Deliver(g, env)))
  {
    var s' := Apply(call, s, Deliver(g, env));
    DeliverNet(call, s, g, env);
    DeliverAttempts(call, s, s', g, env);
    KeepPhase(call, s, s');
  }

  lemma MoveInv(call: Call, s: System, m: Move)
    requires Inv(call, s) && Enabled(call, s, m)
    ensures Inv(call, Apply(call, s, m))
  {
    match m
    case Begin(name, size) => BeginInv(call, s, name, size);
    case SendChunk(_) => SendInv(call, s, m);
    case SendEnd => SendInv(call, s, m);
    case Fail => BookkeepingInv(call, s, m);
    case GiveUp => BookkeepingInv(call, s, m);
    case Acked(p, ok, detail) => AckInv(call, s, p, ok, detail);
    case Allocate => BookkeepingInv(call, s, m);
    case OtherSend(_, _) => LinkInv(call, s, m);
    case Deliver(g, env) => DeliverInv(call, s, g, env);
    case Foreign(p, x) => ForeignInv(call, s, p, x);
    case Cut(_, _) => LinkInv(call, s, m);
    case Connect(_) => LinkInv(call, s, m);
    case Forget(_) => LinkInv(call, s, m);
  }

  lemma {:induction false} BehaviorInv(call: Call, ss: seq<System>, ms: seq<Move>, n: nat)
    requires Behavior(call, ss, ms) && n < |ss|
    ensures Inv(call, ss[n])
  {
    if n == 0 {
      InitialInv(call, ss[0]);
    } else {
      BehaviorInv(call, ss, ms, n - 1);
      MoveInv(call, ss[n - 1], ms[n - 1]);
    }
  }

  // ---- the promise --------------------------------------------------------

  /** In every run, whatever happens on disk: if the call reports success, the
      target has committed a file for the last attempt, after hashing exactly the
      bytes that attempt streamed. */
  lemma SuccessMeansCommitted(call: Call, ss: seq<System>, ms: seq<Move>, n: nat) returns (i: nat, e: Event)
    requires Behavior(call, ss, ms) && n < |ss| && ss[n].phase == Done(true)
    ensures i + 1 == |ss[n].attempts| && ss[n].attempts[i].ended
    ensures call.target in ss[n].receivers && e in ss[n].receivers[call.target].log
    ensures e.Commit? && e.key == Key(call.me, ss[n].attempts[i].id) && e.hashed == Concat(ss[n].attempts[i].chunks)
  {
    BehaviorInv(call, ss, ms, n);
    var s := ss[n];
    i := |s.attempts| - 1;
    var k := Key(call.me, s.attempts[i].id);
    e := EventsFor(s.receivers[call.target].log, k)[0];
    EventsForIn(s.receivers[call.target].log, k, e);
  }

  /** The frame a move makes receiver `p` handle. */
  ghost predicate Handles(call: Call, s: System, m: Move, p: string, x: Input) {
    match m
    case Deliver(g, env) =>
      g in s.conns && s.conns[g].peer == p && s.conns[g].queue != [] && x == Input(call.me, s.conns[g].queue[0], env)
    case Foreign(q, y) => q == p && x == y
    case _ => false
  }

  /** Up to state `n` the target's transfers do not get into each other's files. */
  ghost predicate Calm(call: Call, ss: seq<System>, ms: seq<Move>, n: nat)
    requires Behavior(call, ss, ms) && n < |ss|
  {
    && call.target in ss[0].receivers && Good(ss[0].receivers[call.target])
    && forall i, x :: 0 <= i < n && call.target in ss[i].receivers && Handles(call, ss[i], ms[i], call.target, x)
         ==> Undisturbed(call.config, ss[i].receivers[call.target], x)
  }

  lemma MoveAtTarget(call: Call, s: System, m: Move, p: string)
    requires Enabled(call, s, m) && p in s.receivers && Good(s.receivers[p])
    requires forall x :: Handles(call, s, m, p, x) ==> Undisturbed(call.config, s.receivers[p], x)
    ensures p in Apply(call, s, m).receivers && Good(Apply(call, s, m).receivers[p])
  {
    if m.Deliver? && s.conns[m.conn].peer == p {
      var x := Input(call.me, s.conns[m.conn].queue[0], m.env);
      assert Handles(call, s, m, p, x);
      UndisturbedKeepsGood(call.config, s.receivers[p], x);
    } else if m.Foreign? && m.peer == p {
      assert Handles(call, s, m, p, m.input);
      UndisturbedKeepsGood(call.config, s.receivers[p], m.input);
    }
  }

  lemma {:induction false} TargetStaysGood(call: Call, ss: seq<System>, ms: seq<Move>, n: nat)
    requires Behavior(call, ss, ms) && n < |ss| && Calm(call, ss, ms, n)
    ensures call.target in ss[n].receivers && Good(ss[n].receivers[call.target])
  {
    if n > 0 {
      TargetStaysGood(call, ss, ms, n - 1);
      MoveAtTarget(call, ss[n - 1], ms[n - 1], call.target);
    }
  }

  /** ... and as long as no other transfer writes into its files, which may well
      find leftovers of earlier ones, the file holds exactly the bytes streamed
      and is still there. */
  lemma SuccessMeansDelivered(call: Call, ss: seq<System>, ms: seq<Move>, n: nat)
    requires Behavior(call, ss, ms) && n < |ss| && ss[n].phase == Done(true) && Calm(call, ss, ms, n)
    ensures ss[n].attempts != [] && Current(ss[n]).ended && call.target in ss[n].receivers
    ensures exists e ::
              && e in ss[n].receivers[call.target].log
              && e.Commit? && e.key == Key(call.me, Current(ss[n]).id)
              && e.bytes == Concat(Current(ss[n]).chunks)
              && Contents(ss[n].receivers[call.target].fs, e.path) == Concat(Current(ss[n]).chunks)
  {
    var i, e := SuccessMeansCommitted(call, ss, ms, n);
    TargetStaysGood(call, ss, ms, n);
    var t := ss[n].receivers[call.target];
    var j :| 0 <= j < |t.log| && t.log[j] == e;
    assert InPlace(t, t.log[j]);
  }

  lemma {:induction false} CommitsInEvents(log: seq<Event>, k: Key)
    ensures Commits(log, k) == Commits(EventsFor(log, k), k)
  {
    if log != [] {
      CommitsInEvents(log[..|log| - 1], k);
      var before, e := EventsFor(log[..|log| - 1], k), log[|log| - 1];
      if e.key == k {
        AppendCounts(before, e, k);
      } else {
        assert EventsFor(log, k) == before;
      }
    }
  }

  lemma StatusCommits(c: Config, s: State, k: Key, a: Attempt)
    requires Status(c, s, k, a)
    ensures Commits(s.log, k) <= 1
  {
    CommitsInEvents(s.log, k);
    var evs := EventsFor(s.log, k);
    if |evs| == 2 {
      AppendCounts([], evs[0], k);
      AppendCounts([evs[0]], evs[1], k);
      assert evs == [evs[0]] + [evs[1]];
    } else if |evs| == 1 {
      AppendCounts([], evs[0], k);
      assert evs == [] + [evs[0]];
    }
  }

  /** Whatever the outcome, a call makes at most three attempts, and each leaves
      at most one copy at the target and none anywhere else. */
  lemma AtMostThreeCopies(call: Call, ss: seq<System>, ms: seq<Move>, n: nat)
    requires Behavior(call, ss, ms) && n < |ss|
    ensures |ss[n].attempts| <= SEND_ATTEMPTS
    ensures forall i, p :: 0 <= i < |ss[n].attempts| && p in ss[n].receivers ==>
              Commits(ss[n].receivers[p].log, Key(call.me, ss[n].attempts[i].id)) <= if p == call.target then 1 else 0
  {
    BehaviorInv(call, ss, ms, n);
    var s := ss[n];
    forall i, p | 0 <= i < |s.attempts| && p in s.receivers
      ensures Commits(s.receivers[p].log, Key(call.me, s.attempts[i].id)) <= if p == call.target then 1 else 0
    {
      assert AttemptInv(call, s, s.attempts[i]);
      if p == call.target {
        StatusCommits(call.config, s.receivers[p], Key(call.me, s.attempts[i].id), s.attempts[i]);
      } else {
        CommitsInEvents(s.receivers[p].log, Key(call.me, s.attempts[i].id));
      }
    }
  }

  /** Why the ids must be new: any receiver that still holds a positive verdict for
      the id a call is about to use - say, from before the sender restarted and
      counted from 1 again - can make the call report success at once, with none
      of its frames handled by anybody. */
  lemma OldVerdictFakesSuccess(call: Call, s: System, name: string, p: string, detail: Detail)
    returns (s1: System, s2: System, s3: System)
    requires s.phase == Idle(0) && s.attempts == [] && call.target in s.bus && p in s.receivers
    requires Verdict(Key(call.me, s.nextId), true, detail) in s.receivers[p].log
    ensures Enabled(call, s, Begin(name, 0)) && s1 == Apply(call, s, Begin(name, 0))
    ensures Enabled(call, s1, SendEnd) && s2 == Apply(call, s1, SendEnd)
    ensures Enabled(call, s2, Acked(p, true, detail)) && s3 == Apply(call, s2, Acked(p, true, detail))
    ensures s3.phase == Done(true) && s3.receivers == s.receivers && s3.attempts[0].delivered == 0
  {
    s1 := Apply(call, s, Begin(name, 0));
    s2 := Apply(call, s1, SendEnd);
    s3 := Apply(call, s2, Acked(p, true, detail));
  }
}
