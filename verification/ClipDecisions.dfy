/** Exactly what a daemon sends, applies and passes on, in any run, told from the
    moves alone. */
module ClipDecisions {
  import opened Prelude
  import opened ClipSync

  /** A run of any number of daemons, started at `now`. */
  datatype Trace = Trace(ss: seq<seq<Node>>, who: seq<nat>, ms: seq<Move>, now: int)

  ghost predicate Valid(t: Trace) {
    Behavior(t.ss, t.who, t.ms, t.now)
  }

  /** Daemon `i` after `k` moves. */
  function At(t: Trace, k: nat, i: nat): Node
    requires k < |t.ss| && i < |t.ss[k]|
  {
    t.ss[k][i]
  }

  lemma {:induction false} SameDaemons(t: Trace, k: nat)
    requires Valid(t) && k < |t.ss|
    ensures |t.ss[k]| == |t.ss[0]|
  {
    if k > 0 {
      SameDaemons(t, k - 1);
      assert Steps(t.ss[k - 1], t.who[k - 1], t.ms[k - 1], t.ss[k]);
    }
  }

  lemma StepAt(t: Trace, k: nat, i: nat)
    requires Valid(t) && 0 < k < |t.ss| && i < |t.ss[0]|
    ensures i < |t.ss[k - 1]| && i < |t.ss[k]|
    ensures t.who[k - 1] != i ==> At(t, k, i) == At(t, k - 1, i)
    ensures t.who[k - 1] == i ==>
              Enabled(At(t, k - 1, i), t.ms[k - 1]) && At(t, k, i) == Do(At(t, k - 1, i), t.ms[k - 1])
  {
    SameDaemons(t, k - 1);
    SameDaemons(t, k);
    assert Steps(t.ss[k - 1], t.who[k - 1], t.ms[k - 1], t.ss[k]);
  }

  // ---- what the moves say -------------------------------------------------

  /** The last clip daemon `i` sent, or took from a peer to apply. */
  ghost function LastClip(t: Trace, k: nat, i: nat): Option<Clip>
    requires Valid(t) && k < |t.ss| && i < |t.ss[0]|
  {
    if k == 0 then None
    else
      StepAt(t, k, i);
      var before, after := At(t, k - 1, i), At(t, k, i);
      if |after.sent| > |before.sent| then Some(after.sent[|after.sent| - 1])
      else if t.who[k - 1] == i && t.ms[k - 1].Receive? && |after.commands| > |before.commands|
      then Some(after.commands[|after.commands| - 1])
      else LastClip(t, k - 1, i)
  }

  /** When it last took a local clip in hand: not paused, and 300 ms after the one
      before. */
  ghost function LastTaken(t: Trace, k: nat, i: nat): Option<int>
    requires Valid(t) && k < |t.ss| && i < |t.ss[0]|
  {
    if k == 0 then None
    else
      var prev, m := LastTaken(t, k - 1, i), t.ms[k - 1];
      if t.who[k - 1] == i && m.TakeLocal? && !m.paused && InTurn(t, prev, m.now) then Some(m.now) else prev
  }

  predicate InTurn(t: Trace, last: Option<int>, now: int) {
    if last.Some? then now - last.value >= 300 else now >= t.now
  }

  /** The last clip it put on its clipboard whose echo has not been seen. */
  ghost function LastApplied(t: Trace, k: nat, i: nat): Option<Clip>
    requires Valid(t) && k < |t.ss| && i < |t.ss[0]|
  {
    if k == 0 then None
    else
      StepAt(t, k, i);
      var before, after := At(t, k - 1, i), At(t, k, i);
      if t.who[k - 1] == i && t.ms[k - 1].RunApply? then Some(before.commands[0])
      else if after.tally.suppressed > before.tally.suppressed then None
      else LastApplied(t, k - 1, i)
  }

  /** The token of the clipboard it last looked at. */
  ghost function LastToken(t: Trace, k: nat, i: nat): int
    requires Valid(t) && k < |t.ss| && i < |t.ss[0]|
  {
    if k == 0 then t.ss[0][i].cell.token
    else
      StepAt(t, k, i);
      if t.who[k - 1] == i && t.ms[k - 1].RunApply? then t.ms[k - 1].cell.token
      else if t.who[k - 1] == i && t.ms[k - 1].Poll? then At(t, k - 1, i).cell.token
      else LastToken(t, k - 1, i)
  }

  function DigestOf(c: Config, clip: Option<Clip>): Option<Digest> {
    if clip.Some? then Some(c.sha(clip.value.bytes)) else None
  }

  // ---- the daemon remembers just that --------------------------------------

  lemma {:induction false} RemembersClip(t: Trace, k: nat, i: nat)
    requires Valid(t) && k < |t.ss| && i < |t.ss[0]|
    ensures i < |t.ss[k]| && At(t, k, i).sync.lastSynced == DigestOf(At(t, k, i).c, LastClip(t, k, i))
  {
    if k > 0 {
      RemembersClip(t, k - 1, i);
      StepAt(t, k, i);
    }
  }

  lemma {:induction false} RemembersTime(t: Trace, k: nat, i: nat)
    requires Valid(t) && k < |t.ss| && i < |t.ss[0]|
    ensures i < |t.ss[k]|
    ensures var last := LastTaken(t, k, i);
            At(t, k, i).sync.lastBroadcast == if last.Some? then last.value else t.now - 300
  {
    if k > 0 {
      RemembersTime(t, k - 1, i);
      StepAt(t, k, i);
    }
  }

  lemma {:induction false} RemembersApply(t: Trace, k: nat, i: nat)
    requires Valid(t) && k < |t.ss| && i < |t.ss[0]|
    ensures i < |t.ss[k]| &&
              At(t, k, i).thread == Thread(Some(LastToken(t, k, i)), DigestOf(At(t, k, i).c, LastApplied(t, k, i)))
  {
    if k > 0 {
      RemembersApply(t, k - 1, i);
      StepAt(t, k, i);
    }
  }

  // ---- what it does -------------------------------------------------------

  /** A clip that is not the one last sent or applied, going by digests. */
  ghost predicate IsNew(t: Trace, k: nat, i: nat, clip: Clip)
    requires Valid(t) && k < |t.ss| && i < |t.ss[0]| && i < |t.ss[k]|
  {
    var last := LastClip(t, k, i);
    last.None? || At(t, k, i).c.sha(last.value.bytes) != At(t, k, i).c.sha(clip.bytes)
  }

  /** In any run: the next local clip is sent if and only if the loop is not paused,
      300 ms have passed since the last one it took in hand, a text is no longer
      than the limit, images are on for an image, and it is not the clip last
      sent or applied. */
  lemma SendsExactly(t: Trace, k: nat, i: nat, now: int, paused: bool)
    requires Valid(t) && k < |t.ss| && i < |t.ss[0]| && i < |t.ss[k]| && At(t, k, i).local != []
    ensures var n, n' := At(t, k, i), Do(At(t, k, i), TakeLocal(now, paused));
            var clip := n.local[0];
            && n'.local == n.local[1..]
            && (n'.sent == n.sent || n'.sent == n.sent + [clip])
            && (n'.sent == n.sent + [clip] <==>
                  && !paused && InTurn(t, LastTaken(t, k, i), now)
                  && (clip.Text? ==> |clip.bytes| <= n.c.maxText) && (clip.Image? ==> n.c.images)
                  && IsNew(t, k, i, clip))
  {
    RemembersClip(t, k, i);
    RemembersTime(t, k, i);
    var n := At(t, k, i);
    assert |n.sent + [n.local[0]]| == |n.sent| + 1;
  }

  /** In any run: a frame makes it apply this clip if and only if it is not paused,
      the frame is not its own, the clip is the frame's text and no longer than
      the limit, or the frame has no text and images are on and it is the frame's
      image; and it is not the clip last sent or applied. */
  lemma AppliesExactly(t: Trace, k: nat, i: nat, f: Frame, paused: bool, clip: Clip)
    requires Valid(t) && k < |t.ss| && i < |t.ss[0]| && i < |t.ss[k]|
    ensures var n, n' := At(t, k, i), Do(At(t, k, i), Receive(f, paused));
            n'.commands == n.commands + [clip] <==>
              && !paused && f.origin != n.c.own && IsNew(t, k, i, clip)
              && (|| (clip.Text? && f.text == Some(clip.bytes) && |clip.bytes| <= n.c.maxText)
                  || (clip.Image? && f.text == None && n.c.images && f.image == Some(clip.bytes)))
  {
    RemembersClip(t, k, i);
    var n := At(t, k, i);
    var n' := Do(n, Receive(f, paused));
    if n'.commands == n.commands + [clip] {
      assert n'.commands[|n.commands|] == clip;
    }
  }

  /** In any run: a poll passes this clip on if and only if the clipboard has changed
      since it last looked, is not concealed, and shows this clip - an image, when
      they are on, before text - and its digest is not that of a clip applied
      whose echo is still to come. */
  lemma PassesOnExactly(t: Trace, k: nat, i: nat, clip: Clip)
    requires Valid(t) && k < |t.ss| && i < |t.ss[0]| && i < |t.ss[k]|
    ensures var n, n', applied := At(t, k, i), Do(At(t, k, i), Poll), LastApplied(t, k, i);
            n'.local == n.local + [clip] <==>
              && n.cell.token != LastToken(t, k, i) && !n.cell.concealed
              && (|| (clip.Image? && n.c.images && n.cell.image == Some(clip.bytes))
                  || (clip.Text? && n.cell.text == Some(clip.bytes) && !(n.c.images && n.cell.image.Some?)))
              && (applied.Some? ==> n.c.sha(applied.value.bytes) != n.c.sha(clip.bytes))
  {
    RemembersApply(t, k, i);
    var n := At(t, k, i);
    if Do(n, Poll).local == n.local + [clip] {
      assert Do(n, Poll).local[|n.local|] == clip;
    }
  }

  /** The ordinary case: a text within the limit, or an image when they are on, that a
      user copies on an idle daemon is sent. */
  lemma CopyGoesOut(n: Node, start: int, cell: Cell, clip: Clip, now: int)
    requires Fresh(n, start) && cell.token != n.cell.token && !cell.concealed && now >= start
    requires
      || (clip.Image? && n.c.images && cell.image == Some(clip.bytes))
      || (clip.Text? && cell.text == Some(clip.bytes) && !(n.c.images && cell.image.Some?)
          && |clip.bytes| <= n.c.maxText)
    ensures var polled := Do(Do(n, UserCopy(cell)), Poll);
            polled.local == [clip] && Do(polled, TakeLocal(now, false)).sent == [clip]
  {
  }

  // ---- sequence numbers ---------------------------------------------------

  /** How many of these went out as clipboard frames: texts, and images of at most
      256 KiB; larger ones go as blobs. */
  function Inlined(sent: seq<Clip>): nat {
    if sent == [] then 0
    else
      var clip := sent[|sent| - 1];
      Inlined(sent[..|sent| - 1]) + if clip.Text? || |clip.bytes| <= 256 * 1024 then 1 else 0
  }

  /** Clipboard frames are numbered without a gap. */
  lemma {:induction false} NumberedExactly(t: Trace, k: nat, i: nat)
    requires Valid(t) && k < |t.ss| && i < |t.ss[0]|
    ensures i < |t.ss[k]| && At(t, k, i).sync.seqNo == Inlined(At(t, k, i).sent)
  {
    if k > 0 {
      NumberedExactly(t, k - 1, i);
      StepAt(t, k, i);
      var n, m := At(t, k - 1, i), t.ms[k - 1];
      if t.who[k - 1] == i && m.TakeLocal? {
        assert (n.sent + [n.local[0]])[..|n.sent|] == n.sent;
      }
    }
  }
}
