/** Clipboard sync: the polling thread, the sync loop, and any number of daemons
    running them against clipboards that users write to. */
module ClipSync {
  import opened Prelude

  const MIN_GAP_MS: int := 300
  const CLIP_IMAGE_INLINE_MAX: nat := 256 * 1024

  datatype Clip = Text(bytes: seq<byte>) | Image(bytes: seq<byte>)

  /** The system clipboard: a change token and what a snapshot would read. */
  datatype Cell = Cell(token: int, concealed: bool, text: Option<seq<byte>>, image: Option<seq<byte>>)

  datatype Config = Config(sha: seq<byte> -> Digest, images: bool, maxText: nat, own: string)

  // ---- the clipboard thread -----------------------------------------------

  datatype Thread = Thread(lastToken: Option<int>, suppress: Option<Digest>)

  datatype Seen = Unchanged | Concealed | Empty | Suppressed | Emitted(clip: Clip)

  /** An apply: remember the digest, write (`cell` is the clipboard afterwards,
      whether or not the write went through), take the new token. */
  function ApplyClip(c: Config, t: Thread, clip: Clip, cell: Cell): Thread {
    Thread(Some(cell.token), Some(c.sha(clip.bytes)))
  }

  /** The clip a snapshot yields: an image (when synced) before text. */
  function ClipOf(c: Config, cell: Cell): Option<Clip> {
    if c.images && cell.image.Some? then Some(Image(cell.image.value))
    else if cell.text.Some? then Some(Text(cell.text.value))
    else None
  }

  function PollSees(c: Config, t: Thread, cell: Cell): Seen {
    if Some(cell.token) == t.lastToken then Unchanged
    else if cell.concealed then Concealed
    else if ClipOf(c, cell).None? then Empty
    else if Some(c.sha(ClipOf(c, cell).value.bytes)) == t.suppress then Suppressed
    else Emitted(ClipOf(c, cell).value)
  }

  function PollThread(c: Config, t: Thread, cell: Cell): Thread {
    var seen := PollSees(c, t, cell);
    if seen.Unchanged? then t
    else Thread(Some(cell.token), if seen.Suppressed? then None else t.suppress)
  }

  // ---- the sync loop ------------------------------------------------------

  datatype Sync = Sync(seqNo: nat, lastSynced: Option<Digest>, lastBroadcast: int)

  /** A clipboard frame: the first text entry and the first image entry. */
  datatype Frame = Frame(origin: string, text: Option<seq<byte>>, image: Option<seq<byte>>)

  /** A local clip gets past the pause switch and the rate limit. */
  predicate Accepted(s: Sync, now: int, paused: bool) {
    !paused && now - s.lastBroadcast >= MIN_GAP_MS
  }

  /** ... and is new and sendable: it goes out, inline or as a blob. */
  predicate Broadcasts(c: Config, s: Sync, now: int, paused: bool, clip: Clip) {
    && Accepted(s, now, paused)
    && (match clip
        case Text(b) => |b| <= c.maxText
        case Image(_) => c.images)
    && Some(c.sha(clip.bytes)) != s.lastSynced
  }

  predicate Inline(clip: Clip) {
    clip.Image? ==> |clip.bytes| <= CLIP_IMAGE_INLINE_MAX
  }

  function LocalSync(c: Config, s: Sync, now: int, paused: bool, clip: Clip): Sync {
    if !Accepted(s, now, paused) then s
    else if !Broadcasts(c, s, now, paused, clip) then s.(lastBroadcast := now)
    else Sync(if Inline(clip) then s.seqNo + 1 else s.seqNo, Some(c.sha(clip.bytes)), now)
  }

  /** What a remote frame makes us apply, if anything. */
  function ToApply(c: Config, s: Sync, paused: bool, f: Frame): Option<Clip> {
    if paused || f.origin == c.own then None
    else
      match f.text
      case Some(b) => if |b| > c.maxText || Some(c.sha(b)) == s.lastSynced then None else Some(Text(b))
      case None =>
        if !c.images || f.image.None? || Some(c.sha(f.image.value)) == s.lastSynced then None
        else Some(Image(f.image.value))
  }

  function RemoteSync(c: Config, s: Sync, paused: bool, f: Frame): Sync {
    match ToApply(c, s, paused, f)
    case None => s
    case Some(clip) => s.(lastSynced := Some(c.sha(clip.bytes)))
  }

  // ---- the two loops as objects -------------------------------------------

  class ClipboardThread {
    const c: Config
    var lastToken: Option<int>
    var suppress: Option<Digest>

    function View(): Thread
      reads this
    {
      Thread(lastToken, suppress)
    }

    constructor (c: Config, cell: Cell)
      ensures View() == Thread(Some(cell.token), None) && this.c == c
    {
      this.c := c;
      lastToken, suppress := Some(cell.token), None;
    }

    /** What the apply leaves on the clipboard is not news to the next poll, and
        the same content coming back later is not sent on. */
    method Apply(clip: Clip, cell: Cell)
      modifies this
      ensures View() == ApplyClip(c, old(View()), clip, cell)
      ensures PollSees(c, View(), cell) == Unchanged
      ensures forall later: Cell :: ClipOf(c, later) == Some(clip) ==> !PollSees(c, View(), later).Emitted?
    {
      suppress := Some(c.sha(clip.bytes));
      lastToken := Some(cell.token);
    }

    method Poll(cell: Cell) returns (r: Seen)
      modifies this
      ensures r == PollSees(c, old(View()), cell)
      ensures View() == PollThread(c, old(View()), cell)
    {
      if Some(cell.token) == lastToken {
        return Unchanged;
      }
      lastToken := Some(cell.token);
      if cell.concealed {
        return Concealed;
      }
      var clip: Clip;
      if c.images && cell.image.Some? {
        clip := Image(cell.image.value);
      } else if cell.text.Some? {
        clip := Text(cell.text.value);
      } else {
        return Empty;
      }
      if Some(c.sha(clip.bytes)) == suppress {
        suppress := None;
        return Suppressed;
      }
      return Emitted(clip);
    }
  }

  class SyncLoop {
    const c: Config
    var seqNo: nat
    var lastSynced: Option<Digest>
    var lastBroadcast: int

    function View(): Sync
      reads this
    {
      Sync(seqNo, lastSynced, lastBroadcast)
    }

    constructor (c: Config, now: int)
      ensures View() == Sync(0, None, now - MIN_GAP_MS) && this.c == c
    {
      this.c := c;
      seqNo, lastSynced, lastBroadcast := 0, None, now - MIN_GAP_MS;
    }

    method OnLocal(clip: Clip, now: int, paused: bool) returns (sent: bool)
      modifies this
      ensures sent <==> Broadcasts(c, old(View()), now, paused, clip)
      ensures View() == LocalSync(c, old(View()), now, paused, clip)
    {
      if paused || now - lastBroadcast < MIN_GAP_MS {
        return false;
      }
      lastBroadcast := now;
      match clip
      case Text(b) =>
        if |b| > c.maxText {
          return false;
        }
        var h := c.sha(b);
        if Some(h) == lastSynced {
          return false;
        }
        lastSynced := Some(h);
        seqNo := seqNo + 1;
        return true;
      case Image(b) =>
        if !c.images {
          return false;
        }
        var h := c.sha(b);
        if Some(h) == lastSynced {
          return false;
        }
        lastSynced := Some(h);
        if |b| <= CLIP_IMAGE_INLINE_MAX {
          seqNo := seqNo + 1;
        }
        return true;
    }

    method OnFrame(f: Frame, paused: bool) returns (apply: Option<Clip>)
      modifies this
      ensures apply == ToApply(c, old(View()), paused, f)
      ensures View() == RemoteSync(c, old(View()), paused, f)
    {
      if paused || f.origin == c.own {
        return None;
      }
      if f.text.Some? {
        var b := f.text.value;
        if |b| > c.maxText || Some(c.sha(b)) == lastSynced {
          return None;
        }
        lastSynced := Some(c.sha(b));
        return Some(Text(b));
      }
      if c.images && f.image.Some? {
        var b := f.image.value;
        if Some(c.sha(b)) == lastSynced {
          return None;
        }
        lastSynced := Some(c.sha(b));
        return Some(Image(b));
      }
      return None;
    }
  }

  // ---- a daemon -----------------------------------------------------------

  /** Things counted about one daemon since it started. */
  datatype Tally = Tally(userWrites: nat, applies: nat, observed: nat, emitted: nat, concealed: nat, empty: nat,
                         suppressed: nat, broadcasts: nat)

  /** `commands` and `local` are the queues between the two loops; `placed` is
      every clip a user put on this clipboard, `sent` what was broadcast and
      `times` when local clips were accepted. */
  datatype Node = Node(c: Config, cell: Cell, thread: Thread, sync: Sync, commands: seq<Clip>, local: seq<Clip>,
                       tally: Tally, placed: set<Clip>, sent: seq<Clip>, times: seq<int>)

  datatype Move =
    | UserCopy(cell: Cell)                      // somebody writes the clipboard
    | Poll                                      // the thread's timeout fires
    | RunApply(cell: Cell)                      // the thread takes the next command
    | TakeLocal(now: int, paused: bool)         // the loop takes the next local clip
    | Receive(frame: Frame, paused: bool)       // a frame from a peer, whatever it says
    | Command(clip: Clip)                       // a blob image, `qdrop copy` or a restore

  predicate Enabled(n: Node, m: Move) {
    match m
    case RunApply(_) => n.commands != []
    case TakeLocal(_, _) => n.local != []
    case _ => true
  }

  function ClipsOf(cell: Cell): set<Clip> {
    (if cell.text.Some? then {Text(cell.text.value)} else {})
    + (if cell.image.Some? then {Image(cell.image.value)} else {})
  }

  function Count(t: Tally, seen: Seen): Tally {
    match seen
    case Unchanged => t
    case Concealed => t.(observed := t.observed + 1, concealed := t.concealed + 1)
    case Empty => t.(observed := t.observed + 1, empty := t.empty + 1)
    case Suppressed => t.(observed := t.observed + 1, suppressed := t.suppressed + 1)
    case Emitted(_) => t.(observed := t.observed + 1, emitted := t.emitted + 1)
  }

  function Do(n: Node, m: Move): Node
    requires Enabled(n, m)
  {
    match m
    case UserCopy(cell) =>
      n.(cell := cell, placed := if cell.concealed then n.placed else n.placed + ClipsOf(cell),
         tally := n.tally.(userWrites := n.tally.userWrites + 1))
    case Poll =>
      var seen := PollSees(n.c, n.thread, n.cell);
      n.(thread := PollThread(n.c, n.thread, n.cell), tally := Count(n.tally, seen),
         local := if seen.Emitted? then n.local + [seen.clip] else n.local)
    case RunApply(cell) =>
      n.(commands := n.commands[1..], cell := cell, thread := ApplyClip(n.c, n.thread, n.commands[0], cell),
         tally := n.tally.(applies := n.tally.applies + 1))
    case TakeLocal(now, paused) =>
      var clip := n.local[0];
      var out := Broadcasts(n.c, n.sync, now, paused, clip);
      n.(local := n.local[1..], sync := LocalSync(n.c, n.sync, now, paused, clip),
         sent := if out then n.sent + [clip] else n.sent,
         times := if Accepted(n.sync, now, paused) then n.times + [now] else n.times,
         tally := if out then n.tally.(broadcasts := n.tally.broadcasts + 1) else n.tally)
    case Receive(f, paused) =>
      n.(sync := RemoteSync(n.c, n.sync, paused, f),
         commands := match ToApply(n.c, n.sync, paused, f)
                     case None => n.commands
                     case Some(clip) => n.commands + [clip])
    case Command(clip) => n.(commands := n.commands + [clip])
  }

  predicate Fresh(n: Node, now: int) {
    && n.thread == Thread(Some(n.cell.token), None) && n.sync == Sync(0, None, now - MIN_GAP_MS)
    && n.commands == [] && n.local == [] && n.sent == [] && n.times == [] && n.placed == {}
    && n.tally == Tally(0, 0, 0, 0, 0, 0, 0, 0)
  }

  // ---- what every step keeps ----------------------------------------------

  /** A change on the clipboard the thread has not seen yet. */
  predicate Unseen(n: Node) {
    n.thread.lastToken != Some(n.cell.token)
  }

  /** Broadcasts made and broadcasts still possible without a new user copy. */
  function Credit(n: Node): nat {
    n.tally.broadcasts + |n.local| + if Unseen(n) then 1 else 0
  }

  lemma StepCredit(n: Node, m: Move)
    requires Enabled(n, m)
    ensures Credit(Do(n, m)) <= Credit(n) + if m.UserCopy? then 1 else 0
  {
  }

  /** An unseen change is a user's; so is everything queued, sent or pending, and
      none of it was concealed when it was copied. */
  ghost predicate Provenance(n: Node) {
    && (Unseen(n) && !n.cell.concealed ==> ClipsOf(n.cell) <= n.placed)
    && (forall i :: 0 <= i < |n.local| ==> n.local[i] in n.placed)
    && (forall i :: 0 <= i < |n.sent| ==> n.sent[i] in n.placed)
  }

  lemma StepProvenance(n: Node, m: Move)
    requires Enabled(n, m) && Provenance(n)
    ensures Provenance(Do(n, m))
  {
  }

  /** Every observed change is accounted for once, and a suppression needs an
      apply of its own. */
  predicate Accounts(n: Node) {
    var t := n.tally;
    && t.observed == t.emitted + t.concealed + t.empty + t.suppressed
    && t.suppressed + (if n.thread.suppress.Some? then 1 else 0) <= t.applies
    && t.broadcasts == |n.sent|
  }

  lemma StepAccounts(n: Node, m: Move)
    requires Enabled(n, m) && Accounts(n)
    ensures Accounts(Do(n, m))
  {
  }

  /** Accepted clips are at least 300 ms apart. */
  predicate Spaced(ts: seq<int>) {
    forall i :: 0 <= i < |ts| - 1 ==> ts[i + 1] - ts[i] >= MIN_GAP_MS
  }

  predicate RateInv(n: Node) {
    Spaced(n.times) && (n.times != [] ==> n.times[|n.times| - 1] == n.sync.lastBroadcast)
  }

  lemma StepRate(n: Node, m: Move)
    requires Enabled(n, m) && RateInv(n)
    ensures RateInv(Do(n, m))
  {
  }

  // ---- any number of daemons ----------------------------------------------

  ghost predicate Behavior(ss: seq<seq<Node>>, who: seq<nat>, ms: seq<Move>, now: int) {
    && |ss| == |ms| + 1 == |who| + 1
    && (forall i :: 0 <= i < |ss[0]| ==> Fresh(ss[0][i], now))
    && forall k :: 0 <= k < |ms| ==> Steps(ss[k], who[k], ms[k], ss[k + 1])
  }

  ghost predicate Steps(s: seq<Node>, i: nat, m: Move, s': seq<Node>) {
    i < |s| && Enabled(s[i], m) && s' == s[i := Do(s[i], m)]
  }

  ghost predicate NodeInv(n: Node) {
    Credit(n) <= n.tally.userWrites && Provenance(n) && Accounts(n) && RateInv(n)
  }

  lemma StepNode(n: Node, m: Move)
    requires Enabled(n, m) && NodeInv(n)
    ensures NodeInv(Do(n, m))
  {
    StepCredit(n, m);
    StepProvenance(n, m);
    StepAccounts(n, m);
    StepRate(n, m);
  }

  lemma {:induction false} BehaviorInv(ss: seq<seq<Node>>, who: seq<nat>, ms: seq<Move>, now: int, k: nat)
    requires Behavior(ss, who, ms, now) && k < |ss|
    ensures forall i :: 0 <= i < |ss[k]| ==> NodeInv(ss[k][i])
  {
    if k > 0 {
      BehaviorInv(ss, who, ms, now, k - 1);
      assert Steps(ss[k - 1], who[k - 1], ms[k - 1], ss[k]);
      StepNode(ss[k - 1][who[k - 1]], ms[k - 1]);
    }
  }

  function TotalBroadcasts(s: seq<Node>): nat {
    if s == [] then 0 else TotalBroadcasts(s[..|s| - 1]) + s[|s| - 1].tally.broadcasts
  }

  function TotalUserWrites(s: seq<Node>): nat {
    if s == [] then 0 else TotalUserWrites(s[..|s| - 1]) + s[|s| - 1].tally.userWrites
  }

  lemma {:induction false} SumBound(s: seq<Node>)
    requires forall i :: 0 <= i < |s| ==> s[i].tally.broadcasts <= s[i].tally.userWrites
    ensures TotalBroadcasts(s) <= TotalUserWrites(s)
  {
    if s != [] {
      SumBound(s[..|s| - 1]);
    }
  }

  /** No echo storm: however many daemons, however copies, polls, applies and
      deliveries interleave, there are never more broadcasts than user copies,
      and everything a daemon's loop broadcast was put on its own clipboard by
      a user, in a copy not marked as concealed. */
  lemma NoEchoStorm(ss: seq<seq<Node>>, who: seq<nat>, ms: seq<Move>, now: int, k: nat)
    requires Behavior(ss, who, ms, now) && k < |ss|
    ensures TotalBroadcasts(ss[k]) <= TotalUserWrites(ss[k])
    ensures forall i, j :: 0 <= i < |ss[k]| && 0 <= j < |ss[k][i].sent| ==> ss[k][i].sent[j] in ss[k][i].placed
  {
    BehaviorInv(ss, who, ms, now, k);
    forall i | 0 <= i < |ss[k]| ensures ss[k][i].tally.broadcasts <= ss[k][i].tally.userWrites {
      assert NodeInv(ss[k][i]);
    }
    SumBound(ss[k]);
  }

  /** Every change a daemon observed was emitted, concealed, empty or suppressed,
      and it suppressed at most as many as it applied. */
  lemma ObservationsAddUp(ss: seq<seq<Node>>, who: seq<nat>, ms: seq<Move>, now: int, k: nat, i: nat)
    requires Behavior(ss, who, ms, now) && k < |ss| && i < |ss[k]|
    ensures var t := ss[k][i].tally;
            t.observed == t.emitted + t.concealed + t.empty + t.suppressed && t.suppressed <= t.applies
  {
    BehaviorInv(ss, who, ms, now, k);
    assert NodeInv(ss[k][i]);
  }

  /** A frame from the network was broadcast by the daemon it names. */
  ghost predicate FromABroadcast(s: seq<Node>, f: Frame) {
    exists o :: 0 <= o < |s| && s[o].c.own == f.origin
                && (f.text.Some? ==> Text(f.text.value) in s[o].sent)
                && (f.image.Some? ==> Image(f.image.value) in s[o].sent)
  }

  /** So what a frame makes a daemon apply was copied by a user on another one. */
  lemma AppliesComeFromUsers(ss: seq<seq<Node>>, who: seq<nat>, ms: seq<Move>, now: int, k: nat)
    requires Behavior(ss, who, ms, now) && k < |ms| && ms[k].Receive? && FromABroadcast(ss[k], ms[k].frame)
    ensures who[k] < |ss[k]|
    ensures var n := ss[k][who[k]];
            var clip := ToApply(n.c, n.sync, ms[k].paused, ms[k].frame);
            clip.Some? ==> exists o :: 0 <= o < |ss[k]| && ss[k][o].c.own != n.c.own && clip.value in ss[k][o].placed
  {
    assert Steps(ss[k], who[k], ms[k], ss[k + 1]);
    BehaviorInv(ss, who, ms, now, k);
    var f := ms[k].frame;
    var o :| 0 <= o < |ss[k]| && ss[k][o].c.own == f.origin
             && (f.text.Some? ==> Text(f.text.value) in ss[k][o].sent)
             && (f.image.Some? ==> Image(f.image.value) in ss[k][o].sent);
    assert NodeInv(ss[k][o]);
  }

  function TotalCredit(s: seq<Node>): nat {
    if s == [] then 0 else TotalCredit(s[..|s| - 1]) + Credit(s[|s| - 1])
  }

  lemma {:induction false} CreditUpdate(s: seq<Node>, i: nat, n: Node)
    requires i < |s|
    ensures TotalCredit(s[i := n]) == TotalCredit(s) - Credit(s[i]) + Credit(n)
  {
    if i == |s| - 1 {
      assert s[i := n][..|s| - 1] == s[..|s| - 1];
    } else {
      assert s[i := n][..|s| - 1] == s[..|s| - 1][i := n];
      CreditUpdate(s[..|s| - 1], i, n);
    }
  }

  lemma {:induction false} BroadcastsWithinCredit(s: seq<Node>)
    ensures TotalBroadcasts(s) <= TotalCredit(s)
  {
    if s != [] {
      BroadcastsWithinCredit(s[..|s| - 1]);
    }
  }

  /** When users stop copying, the traffic dies out: from any moment on, with no
      further copies, there are at most as many broadcasts as clips were still
      queued or unseen at that moment. */
  lemma {:induction false} TrafficDiesOut(ss: seq<seq<Node>>, who: seq<nat>, ms: seq<Move>, now: int, j: nat, k: nat)
    requires Behavior(ss, who, ms, now) && j <= k < |ss|
    requires forall i :: j <= i < k ==> !ms[i].UserCopy?
    ensures TotalBroadcasts(ss[k]) <= TotalCredit(ss[k]) <= TotalCredit(ss[j])
  {
    BroadcastsWithinCredit(ss[k]);
    if j < k {
      TrafficDiesOut(ss, who, ms, now, j, k - 1);
      assert Steps(ss[k - 1], who[k - 1], ms[k - 1], ss[k]);
      StepCredit(ss[k - 1][who[k - 1]], ms[k - 1]);
      CreditUpdate(ss[k - 1], who[k - 1], Do(ss[k - 1][who[k - 1]], ms[k - 1]));
    }
  }

  // ---- `qdrop copy` -------------------------------------------------------

  lemma {:induction false} FreshCredit(s: seq<Node>, now: int)
    requires forall i :: 0 <= i < |s| ==> Fresh(s[i], now)
    ensures TotalCredit(s) == 0
  {
    if s != [] {
      FreshCredit(s[..|s| - 1], now);
    }
  }

  /** Whatever `qdrop copy`, restores, blob images and peers make daemons apply:
      as long as no user copies, nothing is broadcast by anybody. */
  lemma NothingWithoutACopy(ss: seq<seq<Node>>, who: seq<nat>, ms: seq<Move>, now: int, k: nat)
    requires Behavior(ss, who, ms, now) && k < |ss| && forall i :: 0 <= i < k ==> !ms[i].UserCopy?
    ensures TotalBroadcasts(ss[k]) == 0
  {
    FreshCredit(ss[0], now);
    TrafficDiesOut(ss, who, ms, now, 0, k);
  }

  /** Every clip copied with `qdrop copy` on a daemon that is otherwise idle: it is
      applied, whatever is then on the clipboard is polled, and nothing goes to
      the sync loop; nor does it when the same content is seen again later. */
  lemma CopyCommandStaysHere(n: Node, now: int, clip: Clip, cell: Cell, later: Cell)
    requires Fresh(n, now) && ClipOf(n.c, later) == Some(clip)
    ensures var applied := Do(Do(n, Command(clip)), RunApply(cell));
            var polled := Do(applied, Poll);
            var again := Do(polled.(cell := later), Poll);
            && polled.cell == cell && polled.local == [] && polled.sent == []
            && again.local == [] && again.sent == []
  {
  }

  /** When a clip on the clipboard does go to the sync loop, in any run: exactly at
      a poll that finds a change, not concealed, whose digest is not the one the
      last apply left to be suppressed; and then a user has copied it here. */
  lemma PollSendsExactly(ss: seq<seq<Node>>, who: seq<nat>, ms: seq<Move>, now: int, k: nat, i: nat, clip: Clip)
    requires Behavior(ss, who, ms, now) && k < |ss| && i < |ss[k]|
    ensures var n := ss[k][i];
            && (Do(n, Poll).local == n.local + [clip] <==>
                  && n.thread.lastToken != Some(n.cell.token) && !n.cell.concealed
                  && ClipOf(n.c, n.cell) == Some(clip) && n.thread.suppress != Some(n.c.sha(clip.bytes)))
            && (Do(n, Poll).local == n.local + [clip] ==> clip in n.placed)
            && (Do(n, Poll).local == n.local || exists c :: Do(n, Poll).local == n.local + [c])
  {
    BehaviorInv(ss, who, ms, now, k);
    var n := ss[k][i];
    assert NodeInv(n);
    if Do(n, Poll).local == n.local + [clip] {
      assert (n.local + [clip])[|n.local|] == clip;
    }
  }

  // ---- the rate limit -----------------------------------------------------

  lemma {:induction false} SpacedApart(ts: seq<int>, i: nat, j: nat)
    requires Spaced(ts) && i <= j < |ts|
    ensures ts[j] - ts[i] >= MIN_GAP_MS * (j - i)
  {
    if i < j {
      SpacedApart(ts, i, j - 1);
    }
  }

  function Interval(lo: nat, n: nat): (r: set<nat>)
    ensures |r| == n && forall i: nat :: i in r <==> lo <= i < lo + n
  {
    if n == 0 then {} else Interval(lo, n - 1) + {lo + n - 1}
  }

  ghost function InWindow(ts: seq<int>, lo: int, len: nat): set<nat> {
    set i: nat | i < |ts| && lo <= ts[i] <= lo + len
  }

  lemma {:induction false} FirstOf(s: set<nat>, lo: nat, bound: nat) returns (m: nat)
    requires s != {} && forall i :: i in s ==> lo <= i < bound
    ensures m in s && forall i :: i in s ==> m <= i
    decreases bound - lo
  {
    if lo in s {
      m := lo;
    } else {
      assert forall i :: i in s ==> lo + 1 <= i;
      var j :| j in s;
      m := FirstOf(s, lo + 1, bound);
    }
  }

  /** Any window of length `len` ms holds at most len/300 + 1 of them. */
  lemma WindowBound(ts: seq<int>, lo: int, len: nat)
    requires Spaced(ts)
    ensures |InWindow(ts, lo, len)| <= len / 300 + 1
  {
    var w := InWindow(ts, lo, len);
    if w != {} {
      var m := FirstOf(w, 0, |ts|);
      forall i | i in w ensures i in Interval(m, len / 300 + 1) {
        SpacedApart(ts, m, i);
      }
      assert w <= Interval(m, len / 300 + 1);
      assert Interval(m, len / 300 + 1) == w + (Interval(m, len / 300 + 1) - w);
    }
  }

  lemma BroadcastRate(ss: seq<seq<Node>>, who: seq<nat>, ms: seq<Move>, now: int, k: nat, i: nat, lo: int, len: nat)
    requires Behavior(ss, who, ms, now) && k < |ss| && i < |ss[k]|
    ensures |InWindow(ss[k][i].times, lo, len)| <= len / 300 + 1
  {
    BehaviorInv(ss, who, ms, now, k);
    assert NodeInv(ss[k][i]);
    WindowBound(ss[k][i].times, lo, len);
  }
}
