/** The PIN-keyed pairing exchange: two sides, each a straight-line program, over
    two first-in first-out channels. Keys and tags are symbolic: two of them are
    equal only when they were computed from equal inputs. */
module Pairing {
  import opened Prelude
  import opened Framing

  const MAX_PAIR_FRAME: nat := 4096
  const U16_LIMIT: nat := 0x1_0000
  const PUBLIC_KEY_LEN: nat := 32

  datatype Role = Offerer | Requester

  function Other(r: Role): Role {
    if r.Offerer? then Requester else Offerer
  }

  datatype Payload = Payload(deviceId: string, deviceName: string, publicKey: seq<byte>)

  datatype Element = Element(role: Role, pin: string, nonce: nat)

  /** What SPAKE2 leaves a side with: the shared key when both sides used the same
      PIN, and otherwise a key only this side has. */
  datatype Key = Shared(pin: string, offerer: nat, requester: nat)
    | Private(role: Role, pin: string, nonce: nat, theirs: Element)

  datatype Direction = A2B | B2A

  /** `derive`: one subkey for each direction. */
  datatype Subkey = Subkey(direction: Direction, key: Key)

  datatype Mac = Mac(key: Subkey, data: seq<byte>)

  datatype Item = Spake(element: Element) | Chunk(data: seq<byte>) | Tag(mac: Mac) | Ack(value: nat)

  datatype Error = BadPin | PeerAborted | Protocol | IoError

  datatype Outcome = Ok(info: Payload) | Err(error: Error)

  datatype Pc = SendSpake | RecvSpake | SendPayload | SendTag | RecvPayload | RecvTag
    | SendAck | RecvAck | Done(outcome: Outcome)

  /** The inputs of one side. */
  datatype Party = Party(pin: string, nonce: nat, info: Payload)

  /** One side in mid-run: everything it has written, how many items it has read,
      and what it has learned. */
  datatype Side = Side(pc: Pc, sent: seq<Item>, got: nat, key: Option<Key>, theirs: seq<byte>, verified: bool)

  const Fresh: Side := Side(SendSpake, [], 0, None, [], false)

  /** SPAKE2's `finish` refuses an element of its own side. */
  function Finish(r: Role, p: Party, e: Element): Option<Key> {
    if e.role == r then None
    else if e.pin != p.pin then Some(Private(r, p.pin, p.nonce, e))
    else if r.Offerer? then Some(Shared(p.pin, p.nonce, e.nonce))
    else Some(Shared(p.pin, e.nonce, p.nonce))
  }

  function SendKey(r: Role, k: Key): Subkey {
    Subkey(if r.Offerer? then A2B else B2A, k)
  }

  function RecvKey(r: Role, k: Key): Subkey {
    Subkey(if r.Offerer? then B2A else A2B, k)
  }

  predicate Readable(data: seq<byte>) {
    1 <= |data| <= MAX_PAIR_FRAME
  }

  // ---- the steps of one side ----------------------------------------------

  function Stop(s: Side, o: Outcome): Side {
    s.(pc := Done(o))
  }

  function Put(s: Side, x: Item, next: Pc): Side {
    s.(sent := s.sent + [x], pc := next)
  }

  function Sends(c: Codec<Payload>, r: Role, p: Party, s: Side): Side {
    match s.pc
    case SendSpake => Put(s, Spake(Element(r, p.pin, p.nonce)), RecvSpake)
    case SendPayload =>
      if |c.enc(p.info)| >= U16_LIMIT then Stop(s, Err(Protocol)) else Put(s, Chunk(c.enc(p.info)), SendTag)
    case SendTag =>
      if s.key.None? then s else Put(s, Tag(Mac(SendKey(r, s.key.value), c.enc(p.info))), RecvPayload)
    case SendAck => Put(s, Ack(1), RecvAck)
    case _ => s
  }

  function OnSpake(r: Role, p: Party, s: Side, e: Element): Side {
    match Finish(r, p, e)
    case None => Stop(s, Err(Protocol))
    case Some(k) => s.(key := Some(k), pc := SendPayload)
  }

  function OnPayload(s: Side, data: seq<byte>): Side {
    if Readable(data) then s.(theirs := data, pc := RecvTag) else Stop(s, Err(Protocol))
  }

  /** A tag that does not check is answered with a 0, whether or not that write
      goes through. */
  function OnTag(r: Role, s: Side, mac: Mac): Side {
    if s.key.Some? && mac == Mac(RecvKey(r, s.key.value), s.theirs) then s.(verified := true, pc := SendAck)
    else Put(s, Ack(0), Done(Err(BadPin)))
  }

  function OnAck(c: Codec<Payload>, s: Side, v: nat): Side {
    if v != 1 then Stop(s, Err(PeerAborted))
    else
      match c.dec(s.theirs)
      case None => Stop(s, Err(Protocol))
      case Some(i) => Stop(s, if |i.publicKey| == PUBLIC_KEY_LEN then Ok(i) else Err(Protocol))
  }

  predicate Sending(pc: Pc) {
    pc.SendSpake? || pc.SendPayload? || pc.SendTag? || pc.SendAck?
  }

  predicate Reading(pc: Pc) {
    pc.RecvSpake? || pc.RecvPayload? || pc.RecvTag? || pc.RecvAck?
  }

  /** The item is of the kind the program reads next. */
  predicate Expected(pc: Pc, x: Item) {
    || (pc.RecvSpake? && x.Spake?) || (pc.RecvPayload? && x.Chunk?)
    || (pc.RecvTag? && x.Tag?) || (pc.RecvAck? && x.Ack?)
  }

  function Reads(c: Codec<Payload>, r: Role, p: Party, s: Side, x: Item): Side
    requires Expected(s.pc, x)
  {
    var s1 := s.(got := s.got + 1);
    match x
    case Spake(e) => OnSpake(r, p, s1, e)
    case Chunk(d) => OnPayload(s1, d)
    case Tag(m) => OnTag(r, s1, m)
    case Ack(v) => OnAck(c, s1, v)
  }

  // ---- two sides ----------------------------------------------------------

  datatype World = World(offerer: Side, requester: Side)

  datatype Config = Config(c: Codec<Payload>, offerer: Party, requester: Party)

  function SideOf(w: World, r: Role): Side {
    if r.Offerer? then w.offerer else w.requester
  }

  function PartyOf(g: Config, r: Role): Party {
    if r.Offerer? then g.offerer else g.requester
  }

  function With(w: World, r: Role, s: Side): World {
    if r.Offerer? then w.(offerer := s) else w.(requester := s)
  }

  datatype Move = Send(r: Role) | Read(r: Role) | Fail(r: Role, error: Error)

  /** Without faults, a read fails only at the end of a closed channel and a write
      only when the other side is gone. With faults (the link is cut, the
      acknowledgement times out) any pending read or write may fail. */
  predicate Enabled(g: Config, w: World, m: Move, faults: bool) {
    var s, peer := SideOf(w, m.r), SideOf(w, Other(m.r));
    match m
    case Send(_) => Sending(s.pc)
    case Read(_) => Reading(s.pc) && s.got < |peer.sent| && Expected(s.pc, peer.sent[s.got])
    case Fail(_, e) =>
      && (e.PeerAborted? || e.IoError?)
      && if faults then !s.pc.Done?
         else peer.pc.Done? && (Sending(s.pc) || (Reading(s.pc) && s.got == |peer.sent|))
  }

  predicate MayMove(g: Config, w: World, m: Move) {
    Enabled(g, w, m, true) || Enabled(g, w, m, false)
  }

  /** The side that moves, after the move. */
  function Moved(g: Config, w: World, m: Move): Side
    requires MayMove(g, w, m)
  {
    var s, peer := SideOf(w, m.r), SideOf(w, Other(m.r));
    match m
    case Send(r) => Sends(g.c, r, PartyOf(g, r), s)
    case Read(r) => Reads(g.c, r, PartyOf(g, r), s, peer.sent[s.got])
    case Fail(_, e) => Stop(s, Err(e))
  }

  function Do(g: Config, w: World, m: Move): World
    requires MayMove(g, w, m)
  {
    With(w, m.r, Moved(g, w, m))
  }

  ghost predicate Behavior(g: Config, ws: seq<World>, ms: seq<Move>, faults: bool) {
    && |ws| == |ms| + 1 && ws[0] == World(Fresh, Fresh)
    && forall i :: 0 <= i < |ms| ==> Enabled(g, ws[i], ms[i], faults) && ws[i + 1] == Do(g, ws[i], ms[i])
  }

  /** The public keys are 32 bytes long by type. */
  ghost predicate Honest(g: Config) {
    Faithful(g.c) && |g.offerer.info.publicKey| == |g.requester.info.publicKey| == PUBLIC_KEY_LEN
  }

  predicate SamePin(g: Config) {
    g.offerer.pin == g.requester.pin
  }

  predicate Fits(g: Config, r: Role) {
    Readable(g.c.enc(PartyOf(g, r).info))
  }

  predicate BothFit(g: Config) {
    Fits(g, Offerer) && Fits(g, Requester)
  }

  // ---- what every step keeps ----------------------------------------------

  function ElementOf(g: Config, r: Role): Element {
    Element(r, PartyOf(g, r).pin, PartyOf(g, r).nonce)
  }

  function KeyOf(g: Config, r: Role): Key {
    Finish(r, PartyOf(g, r), ElementOf(g, Other(r))).value
  }

  /** The `i`-th item a side writes, given whether it has verified its peer. */
  function Script(g: Config, r: Role, i: nat, verified: bool): Item {
    var data := g.c.enc(PartyOf(g, r).info);
    if i == 0 then Spake(ElementOf(g, r))
    else if i == 1 then Chunk(data)
    else if i == 2 then Tag(Mac(SendKey(r, KeyOf(g, r)), data))
    else Ack(if verified then 1 else 0)
  }

  /** How many items have been written and read at each point of the program. */
  predicate Counts(s: Side) {
    match s.pc
    case SendSpake => |s.sent| == 0 && s.got == 0
    case RecvSpake => |s.sent| == 1 && s.got == 0
    case SendPayload => |s.sent| == 1 && s.got == 1
    case SendTag => |s.sent| == 2 && s.got == 1
    case RecvPayload => |s.sent| == 3 && s.got == 1
    case RecvTag => |s.sent| == 3 && s.got == 2
    case SendAck => |s.sent| == 3 && s.got == 3 && s.verified
    case RecvAck => |s.sent| == 4 && s.got == 3 && s.verified
    case Done(o) =>
      && |s.sent| <= 4 && s.got <= 4
      && (o.Ok? ==> |s.sent| == 4 && s.got == 4 && s.verified)
      && (o == Err(BadPin) ==> |s.sent| == 4 && s.got == 3 && !s.verified)
  }

  ghost predicate SideInv(g: Config, r: Role, s: Side, peer: Side) {
    && Counts(s) && s.got <= |peer.sent|
    && (s.got >= 1 ==> s.key == Some(KeyOf(g, r)))
    && (s.pc.RecvTag? || s.verified ==> s.theirs == g.c.enc(PartyOf(g, Other(r)).info) && Fits(g, Other(r)))
    && (forall i :: 0 <= i < |s.sent| ==> s.sent[i] == Script(g, r, i, s.verified))
    && (|s.sent| >= 2 ==> |g.c.enc(PartyOf(g, r).info)| < U16_LIMIT)
    && (s.verified ==> SamePin(g) && s.got >= 3)
    && (!s.verified && |s.sent| == 4 ==> s.pc == Done(Err(BadPin)) && !SamePin(g))
    && (s.pc.Done? && s.pc.outcome.Ok? ==> peer.verified && s.pc.outcome.info == PartyOf(g, Other(r)).info)
  }

  ghost predicate Inv(g: Config, w: World) {
    SideInv(g, Offerer, w.offerer, w.requester) && SideInv(g, Requester, w.requester, w.offerer)
  }

  /** The same PIN is exactly what makes the two keys, and with them the tags,
      agree. */
  lemma KeysAgreeExactly(g: Config, r: Role)
    ensures KeyOf(g, r) == KeyOf(g, Other(r)) <==> SamePin(g)
    ensures SendKey(r, KeyOf(g, r)) == RecvKey(Other(r), KeyOf(g, Other(r))) <==> SamePin(g)
    ensures SendKey(r, KeyOf(g, r)) != RecvKey(r, KeyOf(g, r))
  {
  }

  /** What a peer relies on: nothing written or verified is taken back. */
  predicate Grows(s: Side, s': Side) {
    s.sent <= s'.sent && (s.verified ==> s'.verified)
  }

  lemma SendKeeps(g: Config, r: Role, s: Side, peer: Side, s': Side)
    requires Sending(s.pc) && SideInv(g, r, s, peer) && s' == Sends(g.c, r, PartyOf(g, r), s)
    ensures SideInv(g, r, s', peer) && Grows(s, s')
  {
  }

  lemma ReadKeeps(g: Config, r: Role, s: Side, peer: Side, s': Side)
    requires Honest(g) && SideInv(g, r, s, peer) && SideInv(g, Other(r), peer, s)
    requires s.got < |peer.sent| && Expected(s.pc, peer.sent[s.got])
    requires s' == Reads(g.c, r, PartyOf(g, r), s, peer.sent[s.got])
    ensures SideInv(g, r, s', peer) && Grows(s, s')
  {
    KeysAgreeExactly(g, Other(r));
    assert peer.sent[s.got] == Script(g, Other(r), s.got, peer.verified);
  }

  lemma FailKeeps(g: Config, r: Role, s: Side, peer: Side, e: Error)
    requires SideInv(g, r, s, peer) && !s.pc.Done? && e != BadPin
    ensures SideInv(g, r, Stop(s, Err(e)), peer)
  {
  }

  lemma SideKeeps(g: Config, w: World, m: Move, faults: bool, s': Side)
    requires Honest(g) && Inv(g, w) && Enabled(g, w, m, faults) && s' == Moved(g, w, m)
    ensures SideInv(g, m.r, s', SideOf(w, Other(m.r))) && Grows(SideOf(w, m.r), s')
  {
    var s, peer := SideOf(w, m.r), SideOf(w, Other(m.r));
    match m
    case Send(r) => SendKeeps(g, r, s, peer, s');
    case Read(r) => ReadKeeps(g, r, s, peer, s');
    case Fail(r, e) => FailKeeps(g, r, s, peer, e);
  }

  lemma WithKeeps(g: Config, w: World, r: Role, s': Side)
    requires Inv(g, w) && SideInv(g, r, s', SideOf(w, Other(r))) && Grows(SideOf(w, r), s')
    ensures Inv(g, With(w, r, s'))
  {
  }

  lemma MoveKeeps(g: Config, w: World, m: Move, faults: bool)
    requires Honest(g) && Inv(g, w) && Enabled(g, w, m, faults)
    ensures Inv(g, Do(g, w, m))
  {
    var s' := Moved(g, w, m);
    SideKeeps(g, w, m, faults, s');
    WithKeeps(g, w, m.r, s');
  }

  lemma {:induction false} BehaviorInv(g: Config, ws: seq<World>, ms: seq<Move>, faults: bool, n: nat)
    requires Honest(g) && Behavior(g, ws, ms, faults) && n < |ws|
    ensures Inv(g, ws[n])
  {
    if n > 0 {
      BehaviorInv(g, ws, ms, faults, n - 1);
      MoveKeeps(g, ws[n - 1], ms[n - 1], faults);
    }
  }

  predicate Succeeded(s: Side) {
    s.pc.Done? && s.pc.outcome.Ok?
  }

  predicate Failed(s: Side) {
    s.pc.Done? && s.pc.outcome.Err?
  }

  /** Wherever the link is cut and whenever the acknowledgement times out: a side
      that succeeded holds exactly its peer's info, and that peer had already
      verified this side's payload; the PINs were equal and both payloads fit. */
  lemma OkMeansPeerVerified(g: Config, ws: seq<World>, ms: seq<Move>, faults: bool, n: nat, r: Role)
    requires Honest(g) && Behavior(g, ws, ms, faults) && n < |ws| && Succeeded(SideOf(ws[n], r))
    ensures SideOf(ws[n], r).pc.outcome.info == PartyOf(g, Other(r)).info
    ensures SideOf(ws[n], Other(r)).verified && SideOf(ws[n], Other(r)).theirs == g.c.enc(PartyOf(g, r).info)
    ensures SamePin(g) && BothFit(g)
  {
    BehaviorInv(g, ws, ms, faults, n);
  }

  // ---- runs without faults ------------------------------------------------

  /** How far the program has come. */
  function Progress(pc: Pc): nat {
    match pc
    case SendSpake => 0
    case RecvSpake => 1
    case SendPayload => 2
    case SendTag => 3
    case RecvPayload => 4
    case RecvTag => 5
    case SendAck => 6
    case RecvAck => 7
    case Done(_) => 8
  }

  lemma MoveAdvances(g: Config, w: World, m: Move, faults: bool)
    requires Inv(g, w) && Enabled(g, w, m, faults)
    ensures Progress(Moved(g, w, m).pc) > Progress(SideOf(w, m.r).pc)
  {
    assert SideInv(g, m.r, SideOf(w, m.r), SideOf(w, Other(m.r)));
  }

  lemma {:induction false} StepsAreBounded(g: Config, ws: seq<World>, ms: seq<Move>, faults: bool, n: nat)
    requires Honest(g) && Behavior(g, ws, ms, faults) && n < |ws|
    ensures n <= Progress(ws[n].offerer.pc) + Progress(ws[n].requester.pc)
  {
    if n > 0 {
      StepsAreBounded(g, ws, ms, faults, n - 1);
      BehaviorInv(g, ws, ms, faults, n - 1);
      MoveAdvances(g, ws[n - 1], ms[n - 1], faults);
    }
  }

  ghost predicate Stuck(g: Config, w: World) {
    forall m: Move :: !Enabled(g, w, m, false)
  }

  /** Reads always find the kind of item the program expects. */
  lemma NextItemIsExpected(g: Config, w: World, r: Role)
    requires Inv(g, w) && Reading(SideOf(w, r).pc) && SideOf(w, r).got < |SideOf(w, Other(r)).sent|
    ensures Enabled(g, w, Read(r), false)
  {
  }

  lemma SideMoves(g: Config, w: World, r: Role)
    requires Inv(g, w) && Stuck(g, w) && !SideOf(w, r).pc.Done?
    ensures Reading(SideOf(w, r).pc) && SideOf(w, r).got == |SideOf(w, Other(r)).sent|
    ensures !SideOf(w, Other(r)).pc.Done?
  {
    var s, peer := SideOf(w, r), SideOf(w, Other(r));
    assert !Enabled(g, w, Send(r), false);
    assert !Enabled(g, w, Fail(r, PeerAborted), false);
    assert !Enabled(g, w, Read(r), false);
    if s.got < |peer.sent| {
      NextItemIsExpected(g, w, r);
    }
  }

  /** The two sides never wait for each other. */
  lemma NoDeadlock(g: Config, w: World)
    requires Inv(g, w) && Stuck(g, w)
    ensures w.offerer.pc.Done? && w.requester.pc.Done?
  {
    if !w.offerer.pc.Done? {
      SideMoves(g, w, Offerer);
      SideMoves(g, w, Requester);
    } else if !w.requester.pc.Done? {
      SideMoves(g, w, Requester);
    }
  }

  /** What the inputs alone decide about a finished side. */
  ghost predicate Decided(g: Config, s: Side) {
    s.pc.Done? ==>
      && (SamePin(g) && BothFit(g) ==> s.pc.outcome.Ok?)
      && (!SamePin(g) && BothFit(g) ==> s.pc.outcome == Err(BadPin))
  }

  lemma MoveDecides(g: Config, w: World, m: Move)
    requires Honest(g) && Inv(g, w) && Enabled(g, w, m, false) && Decided(g, w.offerer) && Decided(g, w.requester)
    ensures Decided(g, Moved(g, w, m))
  {
    KeysAgreeExactly(g, Other(m.r));
    var s, peer := SideOf(w, m.r), SideOf(w, Other(m.r));
    if m.Read? {
      assert peer.sent[s.got] == Script(g, Other(m.r), s.got, peer.verified);
    }
  }

  lemma {:induction false} BehaviorDecides(g: Config, ws: seq<World>, ms: seq<Move>, n: nat)
    requires Honest(g) && Behavior(g, ws, ms, false) && n < |ws|
    ensures Decided(g, ws[n].offerer) && Decided(g, ws[n].requester)
  {
    if n > 0 {
      BehaviorDecides(g, ws, ms, n - 1);
      BehaviorInv(g, ws, ms, false, n - 1);
      MoveDecides(g, ws[n - 1], ms[n - 1]);
    }
  }

  /** On lossless channels every run ends within sixteen steps with both sides
      finished, and both return the other's exact info when the PINs are equal
      and both payloads fit; otherwise both fail, and with payloads that fit
      both report the wrong PIN. */
  lemma Agreement(g: Config, ws: seq<World>, ms: seq<Move>)
    requires Honest(g) && Behavior(g, ws, ms, false)
    ensures |ms| <= 16
    ensures Stuck(g, ws[|ms|]) ==>
              && var w := ws[|ms|];
              && (SamePin(g) && BothFit(g) ==>
                    w.offerer.pc == Done(Ok(g.requester.info)) && w.requester.pc == Done(Ok(g.offerer.info)))
              && (!(SamePin(g) && BothFit(g)) ==> Failed(w.offerer) && Failed(w.requester))
              && (!SamePin(g) && BothFit(g) ==> w.offerer.pc == w.requester.pc == Done(Err(BadPin)))
  {
    StepsAreBounded(g, ws, ms, false, |ms|);
    BehaviorInv(g, ws, ms, false, |ms|);
    BehaviorDecides(g, ws, ms, |ms|);
    if Stuck(g, ws[|ms|]) {
      NoDeadlock(g, ws[|ms|]);
    }
  }

  // ---- what faults can do -------------------------------------------------

  /** Every run can be carried on until both sides have finished. */
  lemma {:induction false} RunsToTheEnd(g: Config, ws: seq<World>, ms: seq<Move>)
    returns (ws': seq<World>, ms': seq<Move>)
    requires Honest(g) && Behavior(g, ws, ms, false)
    ensures Behavior(g, ws', ms', false) && ms <= ms' && ws <= ws' && Stuck(g, ws'[|ms'|])
    decreases 16 - |ms|
  {
    StepsAreBounded(g, ws, ms, false, |ms|);
    if Stuck(g, ws[|ms|]) {
      ws', ms' := ws, ms;
    } else {
      var m: Move :| Enabled(g, ws[|ms|], m, false);
      var ws1, ms1 := ws + [Do(g, ws[|ms|], m)], ms + [m];
      assert Behavior(g, ws1, ms1, false);
      StepsAreBounded(g, ws1, ms1, false, |ms1|);
      ws', ms' := RunsToTheEnd(g, ws1, ms1);
    }
  }

  /** Mutual confirmation cannot rule out a one-sided success: whenever pairing
      would succeed there is a run with a fault in its last step that leaves one
      side trusting the other and the other side with an error. */
  lemma OneSideMayBeLeft(g: Config) returns (ws: seq<World>, ms: seq<Move>, r: Role)
    requires Honest(g) && SamePin(g) && BothFit(g)
    ensures Behavior(g, ws, ms, true)
    ensures Succeeded(SideOf(ws[|ms|], r)) && Failed(SideOf(ws[|ms|], Other(r)))
  {
    var full, moves := RunsToTheEnd(g, [World(Fresh, Fresh)], []);
    Agreement(g, full, moves);
    var n := |moves| - 1;
    assert Enabled(g, full[n], moves[n], false) && full[n + 1] == Do(g, full[n], moves[n]);
    r := Other(moves[n].r);
    var cut := Fail(moves[n].r, PeerAborted);
    ws, ms := full[..n + 1] + [Do(g, full[n], cut)], moves[..n] + [cut];
    forall i | 0 <= i < |ms| ensures Enabled(g, ws[i], ms[i], true) && ws[i + 1] == Do(g, ws[i], ms[i]) {
      assert i < n ==> Enabled(g, full[i], moves[i], false);
    }
  }

  /** A read or write of this side failed during the run. */
  ghost predicate HadFault(ms: seq<Move>, n: nat, r: Role)
    requires n <= |ms|
  {
    exists i :: 0 <= i < n && ms[i].Fail? && ms[i].r == r
  }

  lemma FailsByFault(g: Config, w: World, m: Move)
    requires Honest(g) && Inv(g, w) && Enabled(g, w, m, true) && SamePin(g) && BothFit(g)
    ensures Failed(Moved(g, w, m)) <==> m.Fail?
    ensures !SideOf(w, m.r).pc.Done?
  {
    var s, peer := SideOf(w, m.r), SideOf(w, Other(m.r));
    KeysAgreeExactly(g, Other(m.r));
    if m.Read? {
      assert peer.sent[s.got] == Script(g, Other(m.r), s.got, peer.verified);
    }
  }

  lemma {:induction false} FailedExactly(g: Config, ws: seq<World>, ms: seq<Move>, n: nat, r: Role)
    requires Honest(g) && Behavior(g, ws, ms, true) && SamePin(g) && BothFit(g) && n < |ws|
    ensures Failed(SideOf(ws[n], r)) <==> HadFault(ms, n, r)
  {
    if n > 0 {
      var w, m := ws[n - 1], ms[n - 1];
      FailedExactly(g, ws, ms, n - 1, r);
      BehaviorInv(g, ws, ms, true, n - 1);
      FailsByFault(g, w, m);
      assert HadFault(ms, n, r) <==> HadFault(ms, n - 1, r) || (m.Fail? && m.r == r);
      assert Enabled(g, w, m, true) && ws[n] == Do(g, w, m);
    }
  }

  /** Exactly when a run with faults ends well: if the PINs are equal and both
      payloads fit, a side succeeds if and only if none of its own reads and
      writes failed, whatever happened to the other; otherwise no side does. So
      the two outcomes agree if and only if both had a failure or neither. */
  lemma FaultsDecide(g: Config, ws: seq<World>, ms: seq<Move>)
    requires Honest(g) && Behavior(g, ws, ms, true)
    requires ws[|ms|].offerer.pc.Done? && ws[|ms|].requester.pc.Done?
    ensures forall r :: Succeeded(SideOf(ws[|ms|], r)) <==> SamePin(g) && BothFit(g) && !HadFault(ms, |ms|, r)
    ensures Succeeded(ws[|ms|].offerer) == Succeeded(ws[|ms|].requester) <==>
              (SamePin(g) && BothFit(g) ==> HadFault(ms, |ms|, Offerer) == HadFault(ms, |ms|, Requester))
  {
    var w := ws[|ms|];
    forall r ensures Succeeded(SideOf(w, r)) <==> SamePin(g) && BothFit(g) && !HadFault(ms, |ms|, r) {
      if SamePin(g) && BothFit(g) {
        FailedExactly(g, ws, ms, |ms|, r);
      } else if Succeeded(SideOf(w, r)) {
        OkMeansPeerVerified(g, ws, ms, true, |ms|, r);
      }
    }
    assert SideOf(w, Offerer) == w.offerer && SideOf(w, Requester) == w.requester;
  }

  // ---- which error --------------------------------------------------------

  /** The last step: success exactly on an acknowledgement of 1 with a payload that
      decodes to a key of 32 bytes; otherwise the peer aborted, or said something
      malformed. */
  lemma AckExactly(c: Codec<Payload>, s: Side, v: nat, info: Payload)
    ensures OnAck(c, s, v).pc == Done(Ok(info)) <==> v == 1 && c.dec(s.theirs) == Some(info) && |info.publicKey| == 32
    ensures OnAck(c, s, v).pc == Done(Err(PeerAborted)) <==> v != 1
    ensures OnAck(c, s, v).pc == Done(Err(Protocol)) <==>
              v == 1 && (c.dec(s.theirs).None? || |c.dec(s.theirs).value.publicKey| != 32)
  {
  }

  /** Side `r` fits and its peer's payload can be written but not read. */
  ghost predicate PeerUnfit(g: Config, r: Role) {
    Fits(g, r) && !Fits(g, Other(r)) && |g.c.enc(PartyOf(g, Other(r)).info)| < 65536
  }

  /** Side `r` stops at the payload; its peer does not stop before it with less than
      its tag written and ours read. */
  ghost predicate UnfitInv(s: Side, peer: Side) {
    && s.got < 3 && (s.pc.Done? ==> s.pc == Done(Err(Protocol)))
    && (peer.pc.Done? ==> s.pc.Done? || (|peer.sent| >= 3 && peer.got >= 3))
  }

  lemma MoveUnfit(g: Config, w: World, m: Move, r: Role)
    requires Honest(g) && Inv(g, w) && Enabled(g, w, m, false) && PeerUnfit(g, r)
    requires UnfitInv(SideOf(w, r), SideOf(w, Other(r)))
    ensures m.r == r ==> UnfitInv(Moved(g, w, m), SideOf(w, Other(r)))
    ensures m.r == Other(r) ==> UnfitInv(SideOf(w, r), Moved(g, w, m))
  {
    var s, peer := SideOf(w, m.r), SideOf(w, Other(m.r));
    if m.Read? {
      assert peer.sent[s.got] == Script(g, Other(m.r), s.got, peer.verified);
    }
  }

  lemma {:induction false} BehaviorUnfit(g: Config, ws: seq<World>, ms: seq<Move>, n: nat, r: Role)
    requires Honest(g) && Behavior(g, ws, ms, false) && n < |ws| && PeerUnfit(g, r)
    ensures UnfitInv(SideOf(ws[n], r), SideOf(ws[n], Other(r)))
  {
    if n > 0 {
      BehaviorUnfit(g, ws, ms, n - 1, r);
      BehaviorInv(g, ws, ms, false, n - 1);
      MoveUnfit(g, ws[n - 1], ms[n - 1], r);
    }
  }

  /** On lossless channels a side whose peer sends a payload it cannot read reports a
      protocol error, whatever the PINs. */
  lemma UnfitIsProtocolError(g: Config, ws: seq<World>, ms: seq<Move>, n: nat, r: Role)
    requires Honest(g) && Behavior(g, ws, ms, false) && n < |ws| && PeerUnfit(g, r) && SideOf(ws[n], r).pc.Done?
    ensures SideOf(ws[n], r).pc == Done(Err(Protocol))
  {
    BehaviorUnfit(g, ws, ms, n, r);
  }
}
