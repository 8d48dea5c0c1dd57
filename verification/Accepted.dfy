/** Connections the manager accepts: whether it still holds the handle of each, and
    whom it accepts them from. */
module Accepted {
  import opened Prelude
  import opened Registry
  import opened Manager

  /** A connection with this peer is being driven. */
  ghost predicate Busy(s: State, id: string) {
    exists t :: t in s.running && s.running[t] == Connection(id)
  }

  ghost predicate IsHandle(s: State, id: string, t: nat) {
    id in s.peers && s.peers[id].task == Some(t)
  }

  /** Every accepted connection of this peer is the one its entry holds. */
  ghost predicate Held(s: State, id: string) {
    forall t :: t in s.running && s.running[t] == Connection(id) ==> IsHandle(s, id, t)
  }

  ghost predicate AllHeld(s: State) {
    forall id :: Held(s, id)
  }

  ghost predicate AtMostOne(s: State, id: string) {
    forall t, u :: t in s.running && u in s.running && s.running[t] == Connection(id) == s.running[u] ==> t == u
  }

  /** A newer stream replaces the older one, so that at most one is driven, exactly
      when the entry holds the older one. */
  lemma InboundReplacesExactly(own: string, s: State, id: string, name: string)
    requires Inv(own, s) && RoleFor(own, id).Acceptor?
    ensures AtMostOne(OnInbound(own, s, id, name), id) <==> Held(s, id)
  {
    var s' := OnInbound(own, s, id, name);
    assert s.nextTask !in s.running by {
      assert s.nextTask in s.running ==> LoopInv(s, s.nextTask);
    }
    assert s'.running[s.nextTask] == Connection(id);
    assert forall t :: t in s.running && !IsHandle(s, id, t) ==> t in s'.running && s'.running[t] == s.running[t];
  }

  lemma InboundHeld(own: string, s: State, id: string, name: string)
    requires Inv(own, s) && AllHeld(s)
    ensures AllHeld(OnInbound(own, s, id, name))
  {
    var s' := OnInbound(own, s, id, name);
    forall j, t | t in s'.running && s'.running[t] == Connection(j) ensures IsHandle(s', j, t) {
      if t in s.running && s'.running[t] == s.running[t] {
        assert Held(s, j) && LoopInv(s, t);
      }
    }
  }

  lemma DroppedHeld(s: State, ids: set<string>, m: State)
    requires AllHeld(s) && Dropped(s, ids, m)
    ensures AllHeld(m)
  {
    forall j, t | t in m.running && m.running[t] == Connection(j) ensures IsHandle(m, j, t) {
      assert Held(s, j) && IsHandle(s, j, t) && !OwnedBy(s, t, ids);
    }
  }

  lemma SeededHeld(own: string, m: State, newcomers: set<string>, s': State)
    requires AllHeld(m) && Seeded(own, m, newcomers, s')
    ensures AllHeld(s')
  {
    forall j, t | t in s'.running && s'.running[t] == Connection(j) ensures IsHandle(s', j, t) {
      assert t in m.running ==> Held(m, j) && IsHandle(m, j, t) && Survives(m.peers[j], s'.peers[j]);
    }
  }

  /** Entries keep their tasks and no task starts. */
  lemma SameHandles(s: State, s': State)
    requires AllHeld(s) && (forall t :: t in s'.running ==> t in s.running && s'.running[t] == s.running[t])
    requires forall id :: id in s.peers ==> id in s'.peers && s'.peers[id].task == s.peers[id].task
    ensures AllHeld(s')
  {
    forall j, t | t in s'.running && s'.running[t] == Connection(j) ensures IsHandle(s', j, t) {
      assert Held(s, j) && IsHandle(s, j, t);
    }
  }

  lemma ConnDownHeldExactly(own: string, s: State, id: string)
    requires Inv(own, s) && AllHeld(s)
    ensures AllHeld(OnConnDown(s, id)) <==> !Busy(s, id)
  {
    var s' := OnConnDown(s, id);
    if Busy(s, id) {
      var t :| t in s.running && s.running[t] == Connection(id);
      assert Held(s, id) && IsHandle(s, id, t) && EntryInv(own, s, id);
      assert !IsHandle(s', id, t) && !Held(s', id);
    } else {
      forall j, t | t in s'.running && s'.running[t] == Connection(j) ensures IsHandle(s', j, t) {
        assert Held(s, j) && IsHandle(s, j, t);
      }
    }
  }

  /** Exactly one event loses a handle: a ConnDown handled while a connection with
      that peer is being driven, that is, the report of an older one. */
  lemma HeldExactly(own: string, r: Roster, s: State, x: Input, s': State)
    requires Inv(own, s) && AllHeld(s) && Next(own, r, s, x, s')
    ensures AllHeld(s') <==> !(x.ConnDown? && Busy(s, x.id))
  {
    match x
    case FoundPeer(p) => FoundHeld(own, r, s, p);
    case LostPeer(_) => SameHandles(s, s');
    case RosterChanged =>
      var m :| Dropped(s, Untrusted(r, s), m) && Seeded(own, m, Known(r, s), s');
      DroppedHeld(s, Untrusted(r, s), m);
      SeededHeld(own, m, Known(r, s), s');
    case InboundReady(id, name) => InboundHeld(own, s, id, name);
    case ConnUp(_, _, _) => SameHandles(s, s');
    case ConnDown(id) => ConnDownHeldExactly(own, s, id);
    case TaskEnds(_) => SameHandles(s, s');
  }

  lemma FoundHeld(own: string, r: Roster, s: State, p: Found)
    requires Inv(own, s) && AllHeld(s)
    ensures AllHeld(OnFound(own, r, s, p))
  {
    var s1 := s.(discovered := s.discovered[p.id := p]);
    SameHandles(s, s1);
    if p.id in r.byId {
      FlagsInv(own, s, s1);
      EnsurePeerSeeds(own, r, s1, p);
      SeededHeld(own, s1, {p.id}, OnFound(own, r, s, p));
    }
  }

  /** So in every run whose ConnDowns are handled after their connection, and before
      the next with that peer, at most one accepted connection per peer is driven
      and the manager can always abort it. */
  lemma {:induction false} OneConnectionPerPeer(own: string, rs: seq<Roster>, ss: seq<State>, xs: seq<Input>, n: nat)
    requires Behavior(own, rs, ss, xs) && n < |ss|
    requires forall i :: 0 <= i < n && xs[i].ConnDown? ==> !Busy(ss[i], xs[i].id)
    ensures AllHeld(ss[n]) && forall id :: AtMostOne(ss[n], id)
  {
    if n == 0 {
      var m :| Dropped(Empty(), Untrusted(rs[0], Empty()), m) && Seeded(own, m, Known(rs[0], Empty()), ss[0]);
      DroppedHeld(Empty(), Untrusted(rs[0], Empty()), m);
      SeededHeld(own, m, Known(rs[0], Empty()), ss[0]);
    } else {
      OneConnectionPerPeer(own, rs, ss, xs, n - 1);
      BehaviorInv(own, rs, ss, xs, n - 1);
      HeldExactly(own, rs[n], ss[n - 1], xs[n - 1], ss[n]);
    }
    forall id ensures AtMostOne(ss[n], id) {
      assert Held(ss[n], id);
    }
  }

  lemma HandleIsLost(own: string, s: State, id: string, name: string, chan: nat)
    requires RoleFor(own, id).Acceptor? && s.running == map[] && (id in s.peers ==> s.peers[id].role.Acceptor?)
    ensures var up := OnConnUp(OnConnDown(OnInbound(own, s, id, name), id), id, name, chan);
            var t, again := s.nextTask, OnInbound(own, up, id, name).running;
            && t in again && again[t] == Connection(id)
            && t + 1 in again && again[t + 1] == Connection(id)
  {
  }

  /** For every peer we accept, a run in which the report of a finished connection is
      handled after the next stream of that peer: the handle of the new connection
      is lost, and one more stream leaves two connections driven. */
  lemma StaleConnDownLeaks(own: string, r: Roster, id: string, name: string, chan: nat)
    returns (rs: seq<Roster>, ss: seq<State>, xs: seq<Input>)
    requires RoleFor(own, id).Acceptor? && id in r.byId && StaticIds(r) == {}
    ensures Behavior(own, rs, ss, xs)
    ensures xs == [InboundReady(id, name), TaskEnds(0), InboundReady(id, name), ConnDown(id),
                   ConnUp(id, name, chan), InboundReady(id, name)]
    ensures forall t :: t == 1 || t == 2 ==> t in ss[6].running && ss[6].running[t] == Connection(id)
  {
    var s1 := OnInbound(own, Empty(), id, name);
    var s2 := s1.(running := s1.running - {0});
    var s3 := OnInbound(own, s2, id, name);
    var s4 := OnConnDown(s3, id);
    var s5 := OnConnUp(s4, id, name, chan);
    EmptyReload(own, r, Empty());
    HandleIsLost(own, s2, id, name, chan);
    rs := [r, r, r, r, r, r, r];
    ss := [Empty(), s1, s2, s3, s4, s5, OnInbound(own, s5, id, name)];
    xs := [InboundReady(id, name), TaskEnds(0), InboundReady(id, name), ConnDown(id),
           ConnUp(id, name, chan), InboundReady(id, name)];
    assert Next(own, r, ss[0], xs[0], ss[1]) && Next(own, r, ss[1], xs[1], ss[2]);
    assert Next(own, r, ss[2], xs[2], ss[3]) && Next(own, r, ss[3], xs[3], ss[4]);
    assert Next(own, r, ss[4], xs[4], ss[5]) && Next(own, r, ss[5], xs[5], ss[6]);
  }

  // ---- whom streams are accepted from -------------------------------------

  /** The manager does not look at the roster when a stream is handed to it. With
      only trusted peers before, it has only trusted peers afterwards exactly when
      it is not the one to accept this peer, or the peer is still trusted. */
  lemma InboundTrustExactly(own: string, r: Roster, s: State, id: string, name: string)
    requires s.peers.Keys <= r.byId.Keys
    ensures OnInbound(own, s, id, name).peers.Keys <= r.byId.Keys <==> RoleFor(own, id).Dialer? || id in r.byId
  {
    if RoleFor(own, id).Acceptor? {
      assert id in OnInbound(own, s, id, name).peers;
    }
  }

  /** For every peer we accept, a run in which its stream waits in the queue while it
      is unpaired and is accepted afterwards. */
  lemma LateStreamIsAccepted(own: string, r: Roster, id: string, name: string)
    returns (rs: seq<Roster>, ss: seq<State>, xs: seq<Input>)
    requires RoleFor(own, id).Acceptor? && id in r.byId && StaticIds(r) == {}
    ensures Behavior(own, rs, ss, xs) && xs == [RosterChanged, InboundReady(id, name)]
    ensures rs[0] == r && id !in rs[1].byId && id !in rs[2].byId && Busy(ss[2], id)
  {
    var none := Roster(map[], map[]);
    var s2 := OnInbound(own, Empty(), id, name);
    EmptyReload(own, r, Empty());
    EmptyReload(own, none, Empty());
    rs, ss, xs := [r, none, none], [Empty(), Empty(), s2], [RosterChanged, InboundReady(id, name)];
    assert s2.running[0] == Connection(id);
    assert Next(own, rs[1], ss[0], xs[0], ss[1]) && Next(own, rs[2], ss[1], xs[1], ss[2]);
  }
}
