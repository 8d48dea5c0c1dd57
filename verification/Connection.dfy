/** One connection: the select loop of `run`, the relay of application frames
    from one end's channel to the other end's hub, and the keepalive timing. */
module Connection {
  import opened Prelude
  import opened Framing

  datatype Msg<+A> = Hello | Ping(n: nat) | Pong(n: nat) | App(a: A)

  /** What the loop changes: the ping counter, the idle deadline, the messages
      written so far and those handed to the hub. */
  datatype Loop<+A> = Loop(seqNo: nat, idleDeadline: int, written: seq<Msg<A>>, hub: seq<A>)

  function OnPingTick<A>(l: Loop<A>): Loop<A> {
    l.(seqNo := l.seqNo + 1, written := l.written + [Ping(l.seqNo + 1)])
  }

  function OnOutbound<A>(l: Loop<A>, a: A): Loop<A> {
    l.(written := l.written + [App(a)])
  }

  /** Any frame moves the idle deadline; a ping is answered, an application frame
      goes to the hub. */
  function OnFrame<A>(l: Loop<A>, m: Msg<A>, now: int, idleTimeout: nat): Loop<A> {
    var l1 := l.(idleDeadline := now + idleTimeout);
    match m
    case Ping(n) => l1.(written := l.written + [Pong(n)])
    case App(a) => l1.(hub := l.hub + [a])
    case _ => l1
  }

  // ---- the select loop ----------------------------------------------------

  /** What wakes the loop besides its idle timer. */
  datatype What<+A> =
    | Quiet
    | PingDue
    | FromApp(a: A)
    | AppGone
    | FrameCame(m: Msg<A>)
    | ReaderClosed
    | ReaderFailed

  /** One turn of the loop: when, why, and whether writing to the peer and handing
      to the hub go through. */
  datatype Wake<+A> = Wake(now: int, what: What<A>, writeOk: bool, hubOk: bool)

  datatype Reason = PeerClosed | IdleTimeout | WriteError | ProtocolError

  predicate Writes<A>(what: What<A>) {
    what.PingDue? || what.FromApp? || (what.FrameCame? && what.m.Ping?)
  }

  /** Why a turn ends the loop, if it does. The idle timer is looked at first. */
  function Ends<A>(w: Wake<A>, deadline: int): Option<Reason> {
    if deadline <= w.now then Some(IdleTimeout)
    else if Writes(w.what) && !w.writeOk then Some(WriteError)
    else if w.what.AppGone? || w.what.ReaderClosed? then Some(PeerClosed)
    else if w.what.ReaderFailed? then Some(ProtocolError)
    else if w.what.FrameCame? && w.what.m.App? && !w.hubOk then Some(PeerClosed)
    else None
  }

  /** Something has to be written in this turn: a ping that is due, a message of the
      application, the pong to a ping. */
  ghost predicate MustWrite<A(!new)>(what: What<A>) {
    || what == PingDue
    || (exists a :: what == FromApp(a))
    || (exists n :: what == FrameCame(Ping(n)))
  }

  /** The message in this turn goes to the hub. */
  ghost predicate MustHandOn<A(!new)>(what: What<A>) {
    exists a :: what == FrameCame(App(a))
  }

  /** Which turn ends the loop for what reason, before the idle deadline: a failed
      write; a failed hand-off to the hub, the reader or the application gone; a
      reader that failed. And no other turn ends it. */
  lemma EndsExactly<A(!new)>(w: Wake<A>, deadline: int)
    ensures Ends(w, deadline) == Some(IdleTimeout) <==> w.now >= deadline
    ensures Ends(w, deadline) == Some(WriteError) <==> w.now < deadline && MustWrite(w.what) && !w.writeOk
    ensures Ends(w, deadline) == Some(PeerClosed) <==>
              w.now < deadline && (w.what == AppGone || w.what == ReaderClosed || (MustHandOn(w.what) && !w.hubOk))
    ensures Ends(w, deadline) == Some(ProtocolError) <==> w.now < deadline && w.what == ReaderFailed
  {
    match w.what
    case FromApp(a) => assert w.what == FromApp(a);
    case FrameCame(m) =>
      if m.Ping? {
        assert w.what == FrameCame(Ping(m.n));
      } else if m.App? {
        assert w.what == FrameCame(App(m.a));
      }
    case _ =>
  }

  function Turn<A>(l: Loop<A>, w: Wake<A>, idleTimeout: nat): Loop<A> {
    match w.what
    case PingDue => OnPingTick(l)
    case FromApp(a) => OnOutbound(l, a)
    case FrameCame(m) => OnFrame(l, m, w.now, idleTimeout)
    case _ => l
  }

  function After<A>(l: Loop<A>, ws: seq<Wake<A>>, idleTimeout: nat): Loop<A> {
    if ws == [] then l else Turn(After(l, ws[..|ws| - 1], idleTimeout), ws[|ws| - 1], idleTimeout)
  }

  /** When a frame was last received in these turns; `heard` if none was. */
  function LastHeard<A>(heard: int, ws: seq<Wake<A>>): int {
    if ws == [] then heard
    else if ws[|ws| - 1].what.FrameCame? then ws[|ws| - 1].now
    else LastHeard(heard, ws[..|ws| - 1])
  }

  /** None of these turns ends the loop. */
  predicate GoesOn<A>(heard: int, ws: seq<Wake<A>>, idleTimeout: nat) {
    ws != [] ==>
      var n := |ws| - 1;
      GoesOn(heard, ws[..n], idleTimeout) && Ends(ws[n], LastHeard(heard, ws[..n]) + idleTimeout) == None
  }

  /** What these turns brought: application messages received, messages taken from
      the channel, numbers of pings received, pings of ours that fell due. */
  datatype Tally<+A> = Tally(received: seq<A>, offered: seq<A>, pinged: seq<nat>, ticks: nat)

  function Add<A>(t: Tally<A>, what: What<A>): Tally<A> {
    match what
    case PingDue => t.(ticks := t.ticks + 1)
    case FromApp(a) => t.(offered := t.offered + [a])
    case FrameCame(m) =>
      if m.App? then t.(received := t.received + [m.a])
      else if m.Ping? then t.(pinged := t.pinged + [m.n])
      else t
    case _ => t
  }

  function Summary<A>(ws: seq<Wake<A>>): Tally<A> {
    if ws == [] then Tally([], [], [], 0) else Add(Summary(ws[..|ws| - 1]), ws[|ws| - 1].what)
  }

  function Pongs<A>(ms: seq<Msg<A>>): seq<nat> {
    if ms == [] then [] else Pongs(ms[..|ms| - 1]) + if ms[|ms| - 1].Pong? then [ms[|ms| - 1].n] else []
  }

  function Pings<A>(ms: seq<Msg<A>>): seq<nat> {
    if ms == [] then [] else Pings(ms[..|ms| - 1]) + if ms[|ms| - 1].Ping? then [ms[|ms| - 1].n] else []
  }

  /** `n` numbers from `lo` on. */
  function Count(lo: nat, n: nat): (r: seq<nat>)
    ensures |r| == n && forall i :: 0 <= i < n ==> r[i] == lo + i
  {
    seq(n, i requires 0 <= i < n => lo + i)
  }

  /** The application messages among these. */
  function Apps<A>(ms: seq<Msg<A>>): seq<A> {
    if ms == [] then [] else Apps(ms[..|ms| - 1]) + if ms[|ms| - 1].App? then [ms[|ms| - 1].a] else []
  }

  lemma OneMore<A>(ms: seq<Msg<A>>, m: Msg<A>)
    ensures Apps(ms + [m]) == Apps(ms) + if m.App? then [m.a] else []
    ensures Pongs(ms + [m]) == Pongs(ms) + if m.Pong? then [m.n] else []
    ensures Pings(ms + [m]) == Pings(ms) + if m.Ping? then [m.n] else []
  {
    assert (ms + [m])[..|ms|] == ms;
  }

  /** What the wire and the hub have got: each channel message and each pong once
      and in order, pings numbered on without a gap, nothing else; and the hub
      exactly the application messages received. */
  ghost predicate Accounted<A>(l: Loop<A>, t: Tally<A>, written: seq<Msg<A>>, hub: seq<A>) {
    && hub == l.hub + t.received
    && Apps(written) == Apps(l.written) + t.offered
    && Pongs(written) == Pongs(l.written) + t.pinged
    && Pings(written) == Pings(l.written) + Count(l.seqNo + 1, t.ticks)
    && |written| == |l.written| + |t.offered| + |t.pinged| + t.ticks
  }

  lemma TickAccounted<A>(l: Loop<A>, t: Tally<A>, m: Loop<A>)
    requires Accounted(l, t, m.written, m.hub) && m.seqNo == l.seqNo + t.ticks
    ensures Accounted(l, Add(t, PingDue), OnPingTick(m).written, m.hub)
  {
    OneMore(m.written, Ping(m.seqNo + 1));
    assert Count(l.seqNo + 1, t.ticks + 1) == Count(l.seqNo + 1, t.ticks) + [m.seqNo + 1];
  }

  lemma OfferAccounted<A>(l: Loop<A>, t: Tally<A>, m: Loop<A>, a: A)
    requires Accounted(l, t, m.written, m.hub)
    ensures Accounted(l, Add(t, FromApp(a)), m.written + [App(a)], m.hub)
  {
    OneMore(m.written, App(a));
    assert Apps(l.written) + (t.offered + [a]) == (Apps(l.written) + t.offered) + [a];
  }

  lemma FrameAccounted<A>(l: Loop<A>, t: Tally<A>, m: Loop<A>, x: Msg<A>, now: int, idleTimeout: nat)
    requires Accounted(l, t, m.written, m.hub)
    ensures var m' := OnFrame(m, x, now, idleTimeout);
            Accounted(l, Add(t, FrameCame(x)), m'.written, m'.hub)
  {
    if x.Ping? {
      OneMore(m.written, Pong(x.n));
      assert Pongs(l.written) + (t.pinged + [x.n]) == (Pongs(l.written) + t.pinged) + [x.n];
    } else if x.App? {
      assert l.hub + (t.received + [x.a]) == (l.hub + t.received) + [x.a];
    }
  }

  lemma TurnAccounted<A>(l: Loop<A>, t: Tally<A>, m: Loop<A>, w: Wake<A>, idleTimeout: nat)
    requires Accounted(l, t, m.written, m.hub) && m.seqNo == l.seqNo + t.ticks
    ensures var m' := Turn(m, w, idleTimeout);
            Accounted(l, Add(t, w.what), m'.written, m'.hub) && m'.seqNo == l.seqNo + Add(t, w.what).ticks
  {
    match w.what
    case PingDue => TickAccounted(l, t, m);
    case FromApp(a) => OfferAccounted(l, t, m, a);
    case FrameCame(x) => FrameAccounted(l, t, m, x, w.now, idleTimeout);
    case _ =>
  }

  lemma {:induction false} TurnsAccounted<A>(l: Loop<A>, ws: seq<Wake<A>>, idleTimeout: nat)
    ensures var l' := After(l, ws, idleTimeout);
            Accounted(l, Summary(ws), l'.written, l'.hub) && l'.seqNo == l.seqNo + Summary(ws).ticks
  {
    if ws == [] {
      assert Count(l.seqNo + 1, 0) == [];
    } else {
      var n := |ws| - 1;
      TurnsAccounted(l, ws[..n], idleTimeout);
      TurnAccounted(l, Summary(ws[..n]), After(l, ws[..n], idleTimeout), ws[n], idleTimeout);
    }
  }

  /** Over any turns the idle deadline is one timeout after the last frame received,
      however many pings, pongs and messages were sent in the meantime; so a turn
      idles out exactly when there has been silence for that long. */
  lemma {:induction false} IdleMeansSilence<A>(l: Loop<A>, ws: seq<Wake<A>>, heard: int, idleTimeout: nat, w: Wake<A>)
    requires l.idleDeadline == heard + idleTimeout
    ensures var l' := After(l, ws, idleTimeout);
            && l'.idleDeadline == LastHeard(heard, ws) + idleTimeout
            && (Ends(w, l'.idleDeadline) == Some(IdleTimeout) <==> w.now - LastHeard(heard, ws) >= idleTimeout)
  {
    if ws != [] {
      IdleMeansSilence(l, ws[..|ws| - 1], heard, idleTimeout, w);
    }
  }

  class Runner<A> {
    const idleTimeout: nat
    var seqNo: nat
    var idleDeadline: int
    var written: seq<Msg<A>>
    var hub: seq<A>
    ghost var heard: int

    function View(): Loop<A>
      reads this
    {
      Loop(seqNo, idleDeadline, written, hub)
    }

    ghost predicate Valid()
      reads this
    {
      idleDeadline == heard + idleTimeout
    }

    constructor (now: int, idleTimeout: nat)
      ensures View() == Loop(0, now + idleTimeout, [], []) && this.idleTimeout == idleTimeout
      ensures Valid() && heard == now
    {
      this.idleTimeout := idleTimeout;
      seqNo, idleDeadline, written, hub := 0, now + idleTimeout, [], [];
      heard := now;
    }

    /** One turn: done, or the reason to stop, with nothing more written or handed
        on. */
    method Serve(w: Wake<A>) returns (reason: Option<Reason>)
      requires Valid()
      modifies this
      ensures Valid() && reason == Ends(w, old(idleDeadline))
      ensures reason.None? ==> View() == Turn(old(View()), w, idleTimeout)
      ensures reason.Some? ==> written == old(written) && hub == old(hub)
      ensures reason.None? ==> heard == if w.what.FrameCame? then w.now else old(heard)
    {
      if idleDeadline <= w.now {
        return Some(IdleTimeout);
      }
      match w.what
      case Quiet => return None;
      case PingDue =>
        seqNo := seqNo + 1;
        if !w.writeOk {
          return Some(WriteError);
        }
        written := written + [Ping(seqNo)];
        return None;
      case FromApp(a) =>
        if !w.writeOk {
          return Some(WriteError);
        }
        written := written + [App(a)];
        return None;
      case AppGone => return Some(PeerClosed);
      case ReaderClosed => return Some(PeerClosed);
      case ReaderFailed => return Some(ProtocolError);
      case FrameCame(m) =>
        idleDeadline := w.now + idleTimeout;
        heard := w.now;
        match m {
          case Ping(n) =>
            if !w.writeOk {
              return Some(WriteError);
            }
            written := written + [Pong(n)];
          case Pong(_) =>
          case Hello =>
          case App(a) =>
            if !w.hubOk {
              return Some(PeerClosed);
            }
            hub := hub + [a];
        }
        return None;
    }

    /** The loop of `run` over the turns it is woken for: `used` turns are handled,
        then it is out of turns or the next one ends it. It ends for the reason
        given by that turn and the time since the last frame; in particular it
        idles out exactly when that time has reached the timeout. The peer and
        the hub have got exactly what the handled turns brought. */
    method Run(wakes: seq<Wake<A>>) returns (used: nat, reason: Option<Reason>)
      requires Valid()
      modifies this
      ensures Valid() && used <= |wakes|
      ensures GoesOn(old(heard), wakes[..used], idleTimeout)
      ensures used == |wakes| ==> reason == None
      ensures used < |wakes| ==>
                reason.Some? && reason == Ends(wakes[used], LastHeard(old(heard), wakes[..used]) + idleTimeout)
      ensures Accounted(old(View()), Summary(wakes[..used]), written, hub)
    {
      used, reason := 0, None;
      while used < |wakes|
        invariant used <= |wakes| && reason == None && Valid() && heard == LastHeard(old(heard), wakes[..used])
        invariant GoesOn(old(heard), wakes[..used], idleTimeout)
        invariant View() == After(old(View()), wakes[..used], idleTimeout)
      {
        reason := Serve(wakes[used]);
        if reason.Some? {
          TurnsAccounted(old(View()), wakes[..used], idleTimeout);
          return;
        }
        assert wakes[..used + 1][..used] == wakes[..used];
        used := used + 1;
      }
      TurnsAccounted(old(View()), wakes[..used], idleTimeout);
    }
  }

  // ---- the relay ----------------------------------------------------------

  /** One direction: `accepted` went into the sender's channel, of which `pending`
      is still there; `arrived` bytes of what the sender wrote have reached the
      receiver, whose reader task has decoded `decoded` frames (`consumed`
      bytes) into its channel `frames`. */
  datatype Relay<A> = Relay(accepted: seq<A>, pending: seq<A>, sender: Loop<A>,
                            arrived: nat, consumed: nat, decoded: nat,
                            frames: seq<Msg<A>>, receiver: Loop<A>)

  datatype Move<A> =
    | Offer(a: A)
    | SendNext
    | SendPing
    | Hear(m: Msg<A>, now: int)   // the sender's loop hears anything from the other direction
    | Arrive(n: nat)
    | DecodeNext
    | Handle(now: int)
    | OtherEndSends(a: A)         // the receiver's own traffic
    | OtherEndPings

  function Slice(b: seq<byte>, lo: nat, hi: nat): seq<byte> {
    if lo <= hi <= |b| then b[lo..hi] else []
  }

  ghost predicate Enabled<A>(c: Codec<Msg<A>>, s: Relay<A>, m: Move<A>) {
    && AllWritable(c, s.sender.written)
    && match m
       case SendNext => s.pending != [] && Writable(c, App(s.pending[0]))
       case SendPing => Writable(c, Ping(s.sender.seqNo + 1))
       case Hear(x, _) => x.Ping? ==> Writable(c, Pong(x.n))
       case Arrive(n) => s.arrived <= n <= |Frames(c, s.sender.written)|
       case DecodeNext => ReadMessage(c, Slice(Frames(c, s.sender.written), s.consumed, s.arrived)).Got?
       case Handle(_) => s.frames != []
       case _ => true
  }

  ghost function Do<A>(c: Codec<Msg<A>>, s: Relay<A>, m: Move<A>, idleTimeout: nat): Relay<A>
    requires Enabled(c, s, m)
  {
    match m
    case Offer(a) => s.(accepted := s.accepted + [a], pending := s.pending + [a])
    case SendNext => s.(pending := s.pending[1..], sender := OnOutbound(s.sender, s.pending[0]))
    case SendPing => s.(sender := OnPingTick(s.sender))
    case Hear(x, now) => s.(sender := OnFrame(s.sender, x, now, idleTimeout))
    case Arrive(n) => s.(arrived := n)
    case DecodeNext =>
      var r := ReadMessage(c, Slice(Frames(c, s.sender.written), s.consumed, s.arrived));
      s.(frames := s.frames + [r.msg], decoded := s.decoded + 1, consumed := s.arrived - |r.rest|)
    case Handle(now) => s.(frames := s.frames[1..], receiver := OnFrame(s.receiver, s.frames[0], now, idleTimeout))
    case OtherEndSends(a) => s.(receiver := OnOutbound(s.receiver, a))
    case OtherEndPings => s.(receiver := OnPingTick(s.receiver))
  }

  lemma {:induction false} AppsFront<A>(ms: seq<Msg<A>>)
    requires ms != []
    ensures Apps(ms) == (if ms[0].App? then [ms[0].a] else []) + Apps(ms[1..])
  {
    if |ms| == 1 {
      assert ms[..0] == [] && ms[1..] == [];
    } else {
      AppsFront(ms[..|ms| - 1]);
      assert ms[1..][..|ms| - 2] == ms[..|ms| - 1][1..];
    }
  }

  lemma {:induction false} AppsPrefix<A>(ms: seq<Msg<A>>, k: nat)
    requires k <= |ms|
    ensures Apps(ms[..k]) <= Apps(ms)
  {
    if k == |ms| {
      assert ms[..k] == ms;
    } else {
      AppsPrefix(ms[..|ms| - 1], k);
      assert ms[..|ms| - 1][..k] == ms[..k];
    }
  }

  ghost predicate Inv<A>(c: Codec<Msg<A>>, s: Relay<A>) {
    && AllWritable(c, s.sender.written)
    && Apps(s.sender.written) + s.pending == s.accepted
    && s.decoded <= |s.sender.written|
    && s.consumed == |Frames(c, s.sender.written[..s.decoded])|
    && s.consumed <= s.arrived <= |Frames(c, s.sender.written)|
    && s.receiver.hub + Apps(s.frames) == Apps(s.sender.written[..s.decoded])
  }

  lemma {:induction false} FramesSplit<M>(c: Codec<M>, ms: seq<M>, k: nat)
    requires AllWritable(c, ms) && k <= |ms|
    ensures Frames(c, ms) == Frames(c, ms[..k]) + Frames(c, ms[k..])
  {
    if k == 0 {
      assert ms[..k] == [] && ms[k..] == ms;
    } else {
      FramesOfPrefix(c, ms, k);
      FramesSplit(c, ms[1..], k - 1);
      assert ms[1..][k - 1..] == ms[k..];
    }
  }

  /** A frame decoded at a frame boundary is the next message written. */
  lemma DecodesNext<M(!new)>(c: Codec<M>, ms: seq<M>, b: seq<byte>)
    requires Faithful(c) && AllWritable(c, ms) && b <= Frames(c, ms) && ReadMessage(c, b).Got?
    ensures ms != [] && ReadMessage(c, b).msg == ms[0] && |b| - |ReadMessage(c, b).rest| == |FrameOf(c, ms[0])|
  {
    assert ms != [];
    var first := FrameOf(c, ms[0]);
    WholeFrame(c, ms, b);
    ReadOneFrame(c, ms[0], b[|first|..]);
  }

  lemma WholeFrame<M>(c: Codec<M>, ms: seq<M>, b: seq<byte>)
    requires AllWritable(c, ms) && ms != [] && b <= Frames(c, ms) && ReadMessage(c, b).Got?
    ensures |b| >= |FrameOf(c, ms[0])| && b == FrameOf(c, ms[0]) + b[|FrameOf(c, ms[0])|..]
  {
    Be32RoundTrip(|c.enc(ms[0])|);
    assert b[..4] == Frames(c, ms)[..4] == Be32(|c.enc(ms[0])|);
  }

  lemma WrittenFrames<M>(c: Codec<M>, ms: seq<M>, m: M, k: nat)
    requires AllWritable(c, ms) && Writable(c, m) && k <= |ms|
    ensures AllWritable(c, ms + [m]) && (ms + [m])[..k] == ms[..k]
    ensures |Frames(c, ms)| <= |Frames(c, ms + [m])|
  {
    FramesAppend(c, ms, m);
  }

  lemma WrittenApps<A>(ms: seq<Msg<A>>, m: Msg<A>, pending: seq<A>, pending': seq<A>)
    requires pending == (if m.App? then [m.a] else []) + pending'
    ensures Apps(ms + [m]) + pending' == Apps(ms) + pending
  {
    OneMore(ms, m);
  }

  lemma WriteKeeps<A>(c: Codec<Msg<A>>, s: Relay<A>, s': Relay<A>, m: Msg<A>)
    requires Inv(c, s) && Writable(c, m) && s'.sender.written == s.sender.written + [m]
    requires s' == s.(sender := s'.sender, pending := s'.pending)
    requires s.pending == (if m.App? then [m.a] else []) + s'.pending
    ensures Inv(c, s')
  {
    WrittenFrames(c, s.sender.written, m, s.decoded);
    WrittenApps(s.sender.written, m, s.pending, s'.pending);
  }

  lemma DecodedIs<M(!new)>(c: Codec<M>, ms: seq<M>, k: nat, arrived: nat)
    requires Faithful(c) && AllWritable(c, ms) && k <= |ms| && |Frames(c, ms[..k])| <= arrived <= |Frames(c, ms)|
    requires ReadMessage(c, Slice(Frames(c, ms), |Frames(c, ms[..k])|, arrived)).Got?
    ensures var r := ReadMessage(c, Slice(Frames(c, ms), |Frames(c, ms[..k])|, arrived));
            k < |ms| && r.msg == ms[k] && |Frames(c, ms[..k + 1])| == arrived - |r.rest| <= arrived
  {
    var b := Slice(Frames(c, ms), |Frames(c, ms[..k])|, arrived);
    FramesSplit(c, ms, k);
    assert b <= Frames(c, ms[k..]);
    DecodesNext(c, ms[k..], b);
    assert ms[..k + 1] == ms[..k] + [ms[k]];
    FramesAppend(c, ms[..k], ms[k]);
  }

  lemma DecodeKeeps<A(!new)>(c: Codec<Msg<A>>, s: Relay<A>)
    requires Faithful(c) && Inv(c, s) && Enabled(c, s, DecodeNext)
    ensures Inv(c, Do(c, s, DecodeNext, 0))
  {
    var ms := s.sender.written;
    DecodedIs(c, ms, s.decoded, s.arrived);
    assert ms[..s.decoded + 1] == ms[..s.decoded] + [ms[s.decoded]];
    OneMore(ms[..s.decoded], ms[s.decoded]);
    OneMore(s.frames, ms[s.decoded]);
  }

  lemma HandleKeeps<A>(c: Codec<Msg<A>>, s: Relay<A>, now: int, idleTimeout: nat)
    requires Inv(c, s) && Enabled(c, s, Handle(now))
    ensures Inv(c, Do(c, s, Handle(now), idleTimeout))
  {
    AppsFront(s.frames);
    var s' := Do(c, s, Handle(now), idleTimeout);
    assert s'.receiver.hub + Apps(s'.frames) == s.receiver.hub + Apps(s.frames);
  }

  lemma SenderKeeps<A>(c: Codec<Msg<A>>, s: Relay<A>, m: Move<A>, idleTimeout: nat, s': Relay<A>)
    requires Inv(c, s) && Enabled(c, s, m) && (m.SendNext? || m.SendPing? || m.Hear?) && s' == Do(c, s, m, idleTimeout)
    ensures Inv(c, s')
  {
    match m
    case SendNext => WriteKeeps(c, s, s', App(s.pending[0]));
    case SendPing => WriteKeeps(c, s, s', Ping(s.sender.seqNo + 1));
    case Hear(x, _) =>
      if x.Ping? {
        WriteKeeps(c, s, s', Pong(x.n));
      }
  }

  lemma OfferKeeps<A>(c: Codec<Msg<A>>, s: Relay<A>, a: A)
    requires Inv(c, s)
    ensures Inv(c, s.(accepted := s.accepted + [a], pending := s.pending + [a]))
  {
    assert Apps(s.sender.written) + (s.pending + [a]) == s.accepted + [a];
  }

  lemma MoveKeeps<A(!new)>(c: Codec<Msg<A>>, s: Relay<A>, m: Move<A>, idleTimeout: nat)
    requires Faithful(c) && Inv(c, s) && Enabled(c, s, m)
    ensures Inv(c, Do(c, s, m, idleTimeout))
  {
    if m.SendNext? || m.SendPing? || m.Hear? {
      SenderKeeps(c, s, m, idleTimeout, Do(c, s, m, idleTimeout));
    } else if m.Offer? {
      OfferKeeps(c, s, m.a);
    } else if m.DecodeNext? {
      DecodeKeeps(c, s);
    } else if m.Handle? {
      HandleKeeps(c, s, m.now, idleTimeout);
    }
  }

  ghost predicate Behavior<A>(c: Codec<Msg<A>>, ss: seq<Relay<A>>, ms: seq<Move<A>>, idleTimeout: nat) {
    && |ss| == |ms| + 1
    && ss[0].accepted == ss[0].pending == [] && ss[0].sender.written == []
    && ss[0].frames == [] && ss[0].receiver.hub == []
    && ss[0].arrived == ss[0].consumed == ss[0].decoded == 0
    && forall i :: 0 <= i < |ms| ==> Enabled(c, ss[i], ms[i]) && ss[i + 1] == Do(c, ss[i], ms[i], idleTimeout)
  }

  lemma {:induction false} BehaviorKeeps<A(!new)>(c: Codec<Msg<A>>, ss: seq<Relay<A>>, ms: seq<Move<A>>,
                                          idleTimeout: nat, i: nat)
    requires Faithful(c) && Behavior(c, ss, ms, idleTimeout) && i < |ss|
    ensures Inv(c, ss[i])
  {
    if i > 0 {
      BehaviorKeeps(c, ss, ms, idleTimeout, i - 1);
      MoveKeeps(c, ss[i - 1], ms[i - 1], idleTimeout);
    }
  }

  /** In every run, wherever the bytes stop, what one daemon's hub has received is
      a prefix, in order, of what the other's outbound channel accepted. */
  lemma HubGetsAPrefix<A(!new)>(c: Codec<Msg<A>>, ss: seq<Relay<A>>, ms: seq<Move<A>>, idleTimeout: nat, i: nat)
    requires Faithful(c) && Behavior(c, ss, ms, idleTimeout) && i < |ss|
    ensures ss[i].receiver.hub <= ss[i].accepted
  {
    BehaviorKeeps(c, ss, ms, idleTimeout, i);
    var s := ss[i];
    AppsPrefix(s.sender.written, s.decoded);
    assert s.receiver.hub <= Apps(s.sender.written[..s.decoded]);
    assert Apps(s.sender.written) <= s.accepted;
  }

  // ---- keepalive timing ---------------------------------------------------

  /** The tuning, and bounds on the network: a frame is received at most `delay`
      after it is sent (or after the receiver has started), and the two ends
      start at most `skew` apart. */
  datatype Timing = Timing(interval: nat, idleTimeout: nat, delay: nat, skew: nat)

  /** One end: its loop (`Loop`, above), when its ping timer fires next, and when
      each frame on its way to it must have been received. */
  datatype End<+A> = End(start: int, loop: Loop<A>, nextPing: int, due: seq<int>)

  datatype Clock<+A> = Clock(now: int, left: End<A>, right: End<A>)

  datatype TimedMove<+A> =
    | Wait(ms: nat)                  // time passes; timers and frames are served on time
    | PingFires(isLeft: bool)
    | SendApp(isLeft: bool, a: A)    // an application message, at any time
    | Receive(isLeft: bool)          // the oldest frame on the way, whatever it is

  function TheEnd<A>(w: Clock<A>, isLeft: bool): End<A> {
    if isLeft then w.left else w.right
  }

  function WithEnd<A>(w: Clock<A>, isLeft: bool, e: End<A>): Clock<A> {
    if isLeft then w.(left := e) else w.(right := e)
  }

  predicate OnTime<A>(e: End<A>, now: int) {
    now <= e.nextPing && forall i :: 0 <= i < |e.due| ==> now <= e.due[i]
  }

  predicate TimedEnabled<A>(w: Clock<A>, m: TimedMove<A>) {
    match m
    case Wait(d) => OnTime(w.left, w.now + d) && OnTime(w.right, w.now + d)
    case PingFires(x) => w.now == TheEnd(w, x).nextPing && TheEnd(w, x).start <= w.now
    case SendApp(x, _) => TheEnd(w, x).start <= w.now
    case Receive(x) => TheEnd(w, x).start <= w.now && 0 < |TheEnd(w, x).due| <= |TheEnd(w, !x).loop.written|
  }

  function Max(a: int, b: int): int {
    if a < b then b else a
  }

  /** End `x` has taken a turn; what it wrote, if anything, is on the wire. */
  function Took<A>(t: Timing, w: Clock<A>, x: bool, l: Loop<A>): Clock<A> {
    var e, peer := TheEnd(w, x), TheEnd(w, !x);
    var sent := if |e.loop.written| < |l.written| then [Max(w.now, peer.start) + t.delay] else [];
    WithEnd(WithEnd(w, x, e.(loop := l)), !x, peer.(due := peer.due + sent))
  }

  function TimedDo<A>(t: Timing, w: Clock<A>, m: TimedMove<A>): Clock<A>
    requires TimedEnabled(w, m)
  {
    match m
    case Wait(d) => w.(now := w.now + d)
    case PingFires(x) =>
      var w1 := Took(t, w, x, OnPingTick(TheEnd(w, x).loop));
      WithEnd(w1, x, TheEnd(w1, x).(nextPing := w.now + t.interval))
    case SendApp(x, a) => Took(t, w, x, OnOutbound(TheEnd(w, x).loop, a))
    case Receive(x) =>
      var e, sent := TheEnd(w, x), TheEnd(w, !x).loop.written;
      var w1 := WithEnd(w, x, e.(due := e.due[1..]));
      Took(t, w1, x, OnFrame(e.loop, sent[|sent| - |e.due|], w.now, t.idleTimeout))
  }

  /** The idle timer of this end would fire. */
  predicate IdlesOut<A>(w: Clock<A>, x: bool) {
    TheEnd(w, x).start <= w.now && TheEnd(w, x).loop.idleDeadline <= w.now
  }

  predicate Started<A>(t: Timing, e: End<A>) {
    e.loop.idleDeadline == e.start + t.idleTimeout && e.nextPing == e.start + t.interval && e.due == []
  }

  ghost predicate TimedBehavior<A>(t: Timing, ws: seq<Clock<A>>, ms: seq<TimedMove<A>>) {
    && |ws| == |ms| + 1 && Started(t, ws[0].left) && Started(t, ws[0].right)
    && ws[0].now <= ws[0].left.start <= ws[0].right.start + t.skew
    && ws[0].now <= ws[0].right.start <= ws[0].left.start + t.skew
    && forall i :: 0 <= i < |ms| ==> TimedEnabled(ws[i], ms[i]) && ws[i + 1] == TimedDo(t, ws[i], ms[i])
  }

  /** A frame that will come in time: on its way, or to be sent by the peer's next
      ping. */
  ghost predicate Expects<A>(t: Timing, e: End<A>, peer: End<A>) {
    || (exists i :: 0 <= i < |e.due| && e.due[i] < e.loop.idleDeadline)
    || peer.nextPing + t.delay < e.loop.idleDeadline
  }

  ghost predicate TimedInv<A>(t: Timing, w: Clock<A>, x: bool) {
    var e, peer := TheEnd(w, x), TheEnd(w, !x);
    && e.start + t.idleTimeout <= e.loop.idleDeadline && OnTime(e, w.now)
    && e.nextPing <= Max(w.now, e.start) + t.interval
    && (e.due != [] ==> peer.start <= w.now)
    && Expects(t, e, peer)
  }

  lemma ExpectsMore<A>(t: Timing, e: End<A>, peer: End<A>, more: seq<int>, peer': End<A>)
    requires Expects(t, e, peer) && peer'.nextPing == peer.nextPing
    ensures Expects(t, e.(due := e.due + more), peer')
  {
    if i :| 0 <= i < |e.due| && e.due[i] < e.loop.idleDeadline {
      assert (e.due + more)[i] == e.due[i];
    }
  }

  /** After the peer's ping has been sent, the ping itself is expected. */
  lemma PingExpected<A>(t: Timing, e: End<A>, peer: End<A>, now: int, peer': End<A>)
    requires Expects(t, e, peer) && peer.nextPing == now
    requires e.start + t.idleTimeout <= e.loop.idleDeadline && t.delay < t.idleTimeout
    ensures Expects(t, e.(due := e.due + [Max(now, e.start) + t.delay]), peer')
  {
    var d := Max(now, e.start) + t.delay;
    if i :| 0 <= i < |e.due| && e.due[i] < e.loop.idleDeadline {
      assert (e.due + [d])[i] == e.due[i];
    } else {
      assert (e.due + [d])[|e.due|] == d;
    }
  }

  ghost predicate InTime(t: Timing) {
    t.interval + t.delay + t.skew < t.idleTimeout
  }

  lemma WaitStep<A>(t: Timing, w: Clock<A>, d: nat, x: bool)
    requires TimedEnabled(w, Wait(d)) && TimedInv(t, w, true) && TimedInv(t, w, false)
    ensures TimedInv(t, TimedDo(t, w, Wait(d)), x)
  {
  }

  lemma SendStep<A>(t: Timing, w: Clock<A>, y: bool, a: A, x: bool)
    requires TimedEnabled(w, SendApp(y, a)) && TimedInv(t, w, true) && TimedInv(t, w, false)
    ensures TimedInv(t, TimedDo(t, w, SendApp(y, a)), x)
  {
    if y != x {
      var w' := TimedDo(t, w, SendApp(y, a));
      ExpectsMore(t, TheEnd(w, x), TheEnd(w, y), [Max(w.now, TheEnd(w, x).start) + t.delay], TheEnd(w', y));
    }
  }

  lemma PingStep<A>(t: Timing, w: Clock<A>, y: bool, x: bool)
    requires TimedEnabled(w, PingFires(y)) && TimedInv(t, w, true) && TimedInv(t, w, false) && InTime(t)
    ensures TimedInv(t, TimedDo(t, w, PingFires(y)), x)
  {
    if y != x {
      var w' := TimedDo(t, w, PingFires(y));
      PingExpected(t, TheEnd(w, x), TheEnd(w, y), w.now, TheEnd(w', y));
    }
  }

  /** The end that receives has a whole timeout before it again; its peer may have
      a pong on the way. */
  lemma ReceiveStep<A>(t: Timing, w: Clock<A>, y: bool, x: bool)
    requires TimedEnabled(w, Receive(y)) && TimedInv(t, w, true) && TimedInv(t, w, false) && InTime(t)
    ensures TimedInv(t, TimedDo(t, w, Receive(y)), x)
  {
    if y != x {
      var w' := TimedDo(t, w, Receive(y));
      var e, e' := TheEnd(w, x), TheEnd(w', x);
      ExpectsMore(t, e, TheEnd(w, y), e'.due[|e.due|..], TheEnd(w', y));
      assert e' == e.(due := e.due + e'.due[|e.due|..]);
    }
  }

  lemma TimedStep<A>(t: Timing, w: Clock<A>, m: TimedMove<A>, x: bool)
    requires TimedEnabled(w, m) && TimedInv(t, w, true) && TimedInv(t, w, false) && InTime(t)
    ensures TimedInv(t, TimedDo(t, w, m), x)
  {
    match m
    case Wait(d) => WaitStep(t, w, d, x);
    case PingFires(y) => PingStep(t, w, y, x);
    case SendApp(y, a) => SendStep(t, w, y, a, x);
    case Receive(y) => ReceiveStep(t, w, y, x);
  }

  lemma {:induction false} TimedBehaviorInv<A>(t: Timing, ws: seq<Clock<A>>, ms: seq<TimedMove<A>>, i: nat, x: bool)
    requires TimedBehavior(t, ws, ms) && i < |ws| && InTime(t)
    ensures TimedInv(t, ws[i], x)
  {
    if i > 0 {
      TimedBehaviorInv(t, ws, ms, i - 1, true);
      TimedBehaviorInv(t, ws, ms, i - 1, false);
      TimedStep(t, ws[i - 1], ms[i - 1], x);
    }
  }

  /** Two ends whose ping interval plus worst delay plus start skew stays below the
      idle timeout never idle out, in any run. */
  lemma NeverIdlesOut<A>(t: Timing, ws: seq<Clock<A>>, ms: seq<TimedMove<A>>, i: nat, x: bool)
    requires TimedBehavior(t, ws, ms) && i < |ws| && InTime(t)
    ensures !IdlesOut(ws[i], x)
  {
    TimedBehaviorInv(t, ws, ms, i, x);
    TimedBehaviorInv(t, ws, ms, i, !x);
  }
}
