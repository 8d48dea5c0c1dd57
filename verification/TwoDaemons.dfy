/** Two daemons that know each other: their managers, run side by side, and the
    connections between them. */
module TwoDaemons {
  import opened Registry
  import opened Manager

  datatype Side = Left | Right

  function Other(x: Side): Side {
    if x.Left? then Right else Left
  }

  /** A connection opened by the dial loop `task` of `opener`; the loop waits for
      it to end before it dials again. */
  datatype Conn = Conn(opener: Side, task: nat, isOpen: bool)

  datatype World = World(left: State, right: State, conns: map<nat, Conn>, accepted: set<nat>)

  datatype Names = Names(left: string, right: string)

  function Own(n: Names, x: Side): string {
    if x.Left? then n.left else n.right
  }

  function At(w: World, x: Side): State {
    if x.Left? then w.left else w.right
  }

  function SetSide(w: World, x: Side, s: State): World {
    if x.Left? then w.(left := s) else w.(right := s)
  }

  /** The connection is up and the dial loop that drives it is still running. */
  predicate Driven(w: World, c: nat) {
    c in w.conns && w.conns[c].isOpen && w.conns[c].task in At(w, w.conns[c].opener).running
  }

  ghost predicate Step(n: Names, w: World, w': World) {
    || (exists x, r, input, s' :: Handles(n, w, x, r, input, s') && w' == SetSide(w, x, s'))
    || (exists x, t, c :: Dials(n, w, x, t, c) && w' == w.(conns := w.conns[c := Conn(x, t, true)]))
    || (exists c :: c in w.conns && w' == w.(conns := w.conns[c := w.conns[c].(isOpen := false)]))
    || (exists c, name :: c in w.conns && w' == Accepts(n, w, c, name))
  }

  /** A manager handles any input; an inbound stream from the other daemon comes
      with a connection (below), its id vouched for by the pinned key. */
  ghost predicate Handles(n: Names, w: World, x: Side, r: Roster, input: Input, s': State) {
    && Next(Own(n, x), r, At(w, x), input, s')
    && !(input.InboundReady? && input.id == Own(n, Other(x)))
  }

  /** A running dial loop for the other daemon, not busy, opens a connection. */
  ghost predicate Dials(n: Names, w: World, x: Side, t: nat, c: nat) {
    && t in At(w, x).running && At(w, x).running[t] == DialLoop(Own(n, Other(x)))
    && c !in w.conns
    && forall d :: d in w.conns && w.conns[d].opener == x && w.conns[d].task == t ==> !w.conns[d].isOpen
  }

  /** The stream of `c` reaches the other manager, which keeps or rejects it. */
  function Accepts(n: Names, w: World, c: nat, name: string): World
    requires c in w.conns
  {
    var x := Other(w.conns[c].opener);
    var peer := Own(n, w.conns[c].opener);
    var w1 := SetSide(w, x, OnInbound(Own(n, x), At(w, x), peer, name));
    if RoleFor(Own(n, x), peer).Acceptor? then w1.(accepted := w.accepted + {c}) else w1
  }

  ghost predicate Behavior(n: Names, ws: seq<World>) {
    && |ws| > 0 && ws[0].conns == map[] && ws[0].accepted == {}
    && (exists r :: Reloaded(n.left, r, Empty(), ws[0].left))
    && (exists r :: Reloaded(n.right, r, Empty(), ws[0].right))
    && forall i :: 0 <= i < |ws| - 1 ==> Step(n, ws[i], ws[i + 1])
  }

  // ---- tasks keep their numbers -------------------------------------------

  /** A step starts tasks only under new numbers. */
  ghost predicate NoReuse(s: State, s': State) {
    && s.nextTask <= s'.nextTask
    && forall t :: t in s'.running && t < s.nextTask ==> t in s.running && s'.running[t] == s.running[t]
  }

  lemma NextNoReuse(own: string, r: Roster, s: State, x: Input, s': State)
    requires Next(own, r, s, x, s')
    ensures NoReuse(s, s')
  {
  }

  // ---- the invariant ------------------------------------------------------

  ghost predicate ConnInv(n: Names, w: World, c: nat)
    requires c in w.conns
  {
    var x, t := w.conns[c].opener, w.conns[c].task;
    && Less(Own(n, x), Own(n, Other(x)))
    && t < At(w, x).nextTask
    && (t in At(w, x).running ==> At(w, x).running[t] == DialLoop(Own(n, Other(x))))
  }

  predicate SameLoop(c: Conn, d: Conn) {
    c.isOpen && d.isOpen && c.opener == d.opener && c.task == d.task
  }

  ghost predicate WorldInv(n: Names, w: World) {
    && Inv(n.left, w.left) && Inv(n.right, w.right)
    && (forall c :: c in w.conns ==> ConnInv(n, w, c))
    && (forall c, d :: c in w.conns && d in w.conns && SameLoop(w.conns[c], w.conns[d]) ==> c == d)
    && w.accepted <= w.conns.Keys
  }

  lemma SideMoves(n: Names, w: World, x: Side, s': State)
    requires WorldInv(n, w) && Inv(Own(n, x), s') && NoReuse(At(w, x), s')
    ensures WorldInv(n, SetSide(w, x, s'))
  {
  }

  lemma DialKeeps(n: Names, w: World, x: Side, t: nat, c: nat)
    requires WorldInv(n, w) && Dials(n, w, x, t, c)
    ensures WorldInv(n, w.(conns := w.conns[c := Conn(x, t, true)]))
  {
  }

  lemma CloseKeeps(n: Names, w: World, c: nat)
    requires WorldInv(n, w) && c in w.conns
    ensures WorldInv(n, w.(conns := w.conns[c := w.conns[c].(isOpen := false)]))
  {
  }

  lemma AcceptKeeps(n: Names, w: World, c: nat, name: string)
    requires WorldInv(n, w) && c in w.conns
    ensures WorldInv(n, Accepts(n, w, c, name))
  {
    var x := Other(w.conns[c].opener);
    var peer := Own(n, w.conns[c].opener);
    InboundInv(Own(n, x), At(w, x), peer, name);
    SideMoves(n, w, x, OnInbound(Own(n, x), At(w, x), peer, name));
  }

  lemma StepKeeps(n: Names, w: World, w': World)
    requires WorldInv(n, w) && Step(n, w, w')
    ensures WorldInv(n, w')
  {
    if x, r, input, s' :| Handles(n, w, x, r, input, s') && w' == SetSide(w, x, s') {
      NextInv(Own(n, x), r, At(w, x), input, s');
      NextNoReuse(Own(n, x), r, At(w, x), input, s');
      SideMoves(n, w, x, s');
    } else if x, t, c :| Dials(n, w, x, t, c) && w' == w.(conns := w.conns[c := Conn(x, t, true)]) {
      DialKeeps(n, w, x, t, c);
    } else if c :| c in w.conns && w' == w.(conns := w.conns[c := w.conns[c].(isOpen := false)]) {
      CloseKeeps(n, w, c);
    } else {
      var c, name :| c in w.conns && w' == Accepts(n, w, c, name);
      AcceptKeeps(n, w, c, name);
    }
  }

  lemma {:induction false} BehaviorKeeps(n: Names, ws: seq<World>, i: nat)
    requires Behavior(n, ws) && i < |ws|
    ensures WorldInv(n, ws[i])
  {
    if i == 0 {
      var r :| Reloaded(n.left, r, Empty(), ws[0].left);
      ReloadedInv(n.left, r, Empty(), ws[0].left);
      var q :| Reloaded(n.right, q, Empty(), ws[0].right);
      ReloadedInv(n.right, q, Empty(), ws[0].right);
    } else {
      BehaviorKeeps(n, ws, i - 1);
      StepKeeps(n, ws[i - 1], ws[i]);
    }
  }

  /** Arbitration: in every state of every joint run only the daemon with the
      lower id has a dial loop for the other; every connection that was opened,
      and so every one that was accepted, was opened by the lower id; and its
      dialer drives at most one live connection at a time. */
  lemma Arbitration(n: Names, ws: seq<World>, i: nat)
    requires Behavior(n, ws) && i < |ws|
    ensures forall x, t :: t in At(ws[i], x).running && At(ws[i], x).running[t] == DialLoop(Own(n, Other(x)))
              ==> Less(Own(n, x), Own(n, Other(x)))
    ensures forall c :: c in ws[i].accepted ==>
              c in ws[i].conns && Less(Own(n, ws[i].conns[c].opener), Own(n, Other(ws[i].conns[c].opener)))
    ensures forall c, d :: Driven(ws[i], c) && Driven(ws[i], d) ==> c == d
  {
    BehaviorKeeps(n, ws, i);
    var w := ws[i];
    forall x, t | t in At(w, x).running && At(w, x).running[t] == DialLoop(Own(n, Other(x)))
      ensures Less(Own(n, x), Own(n, Other(x)))
    {
      assert LoopInv(At(w, x), t) && EntryInv(Own(n, x), At(w, x), Own(n, Other(x)));
    }
    forall c | c in w.accepted ensures Less(Own(n, w.conns[c].opener), Own(n, Other(w.conns[c].opener))) {
      assert ConnInv(n, w, c);
    }
    forall c, d | Driven(w, c) && Driven(w, d) ensures c == d {
      OneDriven(n, w, c, d);
    }
  }

  lemma OneDriven(n: Names, w: World, c: nat, d: nat)
    requires WorldInv(n, w) && Driven(w, c) && Driven(w, d)
    ensures c == d
  {
    assert ConnInv(n, w, c) && ConnInv(n, w, d);
    var x := w.conns[c].opener;
    LessIsAsymmetric(n.left, n.right);
    assert w.conns[d].opener == x;
    assert LoopInv(At(w, x), w.conns[c].task) && LoopInv(At(w, x), w.conns[d].task);
  }
}
