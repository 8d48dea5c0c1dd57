/** Candidate addresses for pairing, filtered and put best-first. */
module Addresses {
  type u16 = n: nat | n < 0x1_0000
  type u32 = n: nat | n < 0x1_0000_0000
  type u128 = n: nat | n < 0x1_0000_0000_0000_0000_0000_0000_0000_0000

  datatype SocketAddr = V4(ip4: u32, port: u16) | V6(ip6: u128, port: u16, flow: u32, scope: u32)

  /** The first of the eight 16-bit groups. */
  function FirstSegment(ip: u128): u16 {
    ip / 0x1_0000_0000_0000_0000_0000_0000_0000
  }

  /** `& 0xffc0`: the lowest six bits cleared. */
  function Masked(seg: u16): u16 {
    seg / 64 * 64
  }

  /** Neither the unspecified address nor IPv6 link-local, fe80::/10. */
  predicate IsDialable(a: SocketAddr) {
    match a
    case V4(ip, _) => ip != 0
    case V6(ip, _, _, _) => ip != 0 && Masked(FirstSegment(ip)) != 0xfe80
  }

  function Rank(a: SocketAddr): nat {
    match a
    case V4(ip, _) => if ip / 0x100_0000 == 127 then 2 else 0
    case V6(ip, _, _, _) => if ip == 1 then 3 else 1
  }

  /** The derived order on socket addresses compares these left to right. */
  function Fields(a: SocketAddr): seq<nat> {
    match a
    case V4(ip, port) => [0, ip, port, 0, 0]
    case V6(ip, port, flow, scope) => [1, ip, port, flow, scope]
  }

  predicate LexLess(s: seq<nat>, t: seq<nat>)
    requires |s| == |t|
  {
    s != [] && (s[0] < t[0] || (s[0] == t[0] && LexLess(s[1..], t[1..])))
  }

  lemma {:induction false} LexTotal(s: seq<nat>, t: seq<nat>)
    requires |s| == |t|
    ensures s != t ==> LexLess(s, t) || LexLess(t, s)
    ensures !(LexLess(s, t) && LexLess(t, s)) && !LexLess(s, s)
  {
    if s != [] {
      LexTotal(s[1..], t[1..]);
      assert s == [s[0]] + s[1..] && t == [t[0]] + t[1..];
      LexTotal(s[1..], s[1..]);
    }
  }

  lemma {:induction false} LexTransitive(s: seq<nat>, t: seq<nat>, u: seq<nat>)
    requires |s| == |t| == |u| && LexLess(s, t) && LexLess(t, u)
    ensures LexLess(s, u)
  {
    if s[0] == t[0] == u[0] {
      LexTransitive(s[1..], t[1..], u[1..]);
    }
  }

  /** The order of addresses, and the order by rank first. */
  predicate Less(a: SocketAddr, b: SocketAddr) {
    LexLess(Fields(a), Fields(b))
  }

  predicate Better(a: SocketAddr, b: SocketAddr) {
    Rank(a) < Rank(b) || (Rank(a) == Rank(b) && Less(a, b))
  }

  lemma LessIsTotal(a: SocketAddr, b: SocketAddr)
    ensures a != b ==> Less(a, b) || Less(b, a)
    ensures !(Less(a, b) && Less(b, a)) && !Less(a, a)
  {
    LexTotal(Fields(a), Fields(b));
    LexTotal(Fields(a), Fields(a));
    if Fields(a) == Fields(b) {
      assert Fields(a)[0] == Fields(b)[0] && Fields(a)[1] == Fields(b)[1] && Fields(a)[2] == Fields(b)[2]
          && Fields(a)[3] == Fields(b)[3] && Fields(a)[4] == Fields(b)[4];
    }
  }

  /** IPv4 addresses come before IPv6 ones; within each, the address decides, then the
      port, then for IPv6 the flow label and the scope. */
  lemma LessExactly(a: SocketAddr, b: SocketAddr)
    ensures a.V4? && b.V6? ==> Less(a, b)
    ensures a.V4? && b.V4? ==> (Less(a, b) <==> a.ip4 < b.ip4 || (a.ip4 == b.ip4 && a.port < b.port))
    ensures a.V6? && b.V6? ==>
              (Less(a, b) <==>
                 || a.ip6 < b.ip6 || (a.ip6 == b.ip6 && a.port < b.port)
                 || (a.ip6 == b.ip6 && a.port == b.port && a.flow < b.flow)
                 || (a.ip6 == b.ip6 && a.port == b.port && a.flow == b.flow && a.scope < b.scope))
  {
    var s, t := Fields(a), Fields(b);
    LexStep(s, t);
    LexStep(s[1..], t[1..]);
    LexStep(s[1..][1..], t[1..][1..]);
    LexStep(s[1..][1..][1..], t[1..][1..][1..]);
    LexStep(s[1..][1..][1..][1..], t[1..][1..][1..][1..]);
  }

  lemma LexStep(s: seq<nat>, t: seq<nat>)
    requires |s| == |t| > 0
    ensures LexLess(s, t) <==> s[0] < t[0] || (s[0] == t[0] && LexLess(s[1..], t[1..]))
  {
  }

  lemma LessIsTransitive(a: SocketAddr, b: SocketAddr, c: SocketAddr)
    requires Less(a, b) && Less(b, c)
    ensures Less(a, c)
  {
    LexTransitive(Fields(a), Fields(b), Fields(c));
  }

  // ---- sorting ------------------------------------------------------------

  /** What the two sorts compare: the whole address, or its rank alone. */
  predicate Leq(byRank: bool, a: SocketAddr, b: SocketAddr) {
    if byRank then Rank(a) <= Rank(b) else a == b || Less(a, b)
  }

  function Insert(byRank: bool, x: SocketAddr, ys: seq<SocketAddr>): seq<SocketAddr> {
    if ys == [] || Leq(byRank, x, ys[0]) then [x] + ys else [ys[0]] + Insert(byRank, x, ys[1..])
  }

  /** The standard library's stable sort: equal elements keep their order. */
  function StableSort(byRank: bool, xs: seq<SocketAddr>): seq<SocketAddr> {
    if xs == [] then [] else Insert(byRank, xs[0], StableSort(byRank, xs[1..]))
  }

  predicate Sorted(xs: seq<SocketAddr>) {
    forall i, j :: 0 <= i < j < |xs| ==> Leq(false, xs[i], xs[j])
  }

  predicate Increasing(xs: seq<SocketAddr>) {
    forall i, j :: 0 <= i < j < |xs| ==> Less(xs[i], xs[j])
  }

  /** Strictly best-first. */
  predicate Canonical(xs: seq<SocketAddr>) {
    forall i, j :: 0 <= i < j < |xs| ==> Better(xs[i], xs[j])
  }

  predicate SameElements(xs: seq<SocketAddr>, ys: seq<SocketAddr>) {
    (forall a :: a in xs ==> a in ys) && (forall a :: a in ys ==> a in xs)
  }

  lemma {:induction false} InsertElements(byRank: bool, x: SocketAddr, ys: seq<SocketAddr>)
    ensures SameElements(Insert(byRank, x, ys), [x] + ys)
  {
    if ys != [] && !Leq(byRank, x, ys[0]) {
      InsertElements(byRank, x, ys[1..]);
    }
  }

  lemma {:induction false} SortElements(byRank: bool, xs: seq<SocketAddr>)
    ensures SameElements(StableSort(byRank, xs), xs)
  {
    if xs != [] {
      SortElements(byRank, xs[1..]);
      InsertElements(byRank, xs[0], StableSort(byRank, xs[1..]));
    }
  }

  lemma {:induction false} InsertSorted(x: SocketAddr, ys: seq<SocketAddr>)
    requires Sorted(ys)
    ensures Sorted(Insert(false, x, ys))
  {
    if ys == [] {
    } else if Leq(false, x, ys[0]) {
      forall j | 0 <= j < |ys| ensures Leq(false, x, ys[j]) {
        if j > 0 && x != ys[0] && ys[0] != ys[j] {
          LessIsTransitive(x, ys[0], ys[j]);
        }
      }
    } else {
      InsertSorted(x, ys[1..]);
      InsertElements(false, x, ys[1..]);
      LessIsTotal(x, ys[0]);
      assert forall a :: a in ys[1..] ==> Leq(false, ys[0], a);
      assert forall a :: a in Insert(false, x, ys[1..]) ==> Leq(false, ys[0], a);
    }
  }

  lemma {:induction false} SortSorts(xs: seq<SocketAddr>)
    ensures Sorted(StableSort(false, xs))
  {
    if xs != [] {
      SortSorts(xs[1..]);
      InsertSorted(xs[0], StableSort(false, xs[1..]));
    }
  }

  /** Inserting by rank, in front of equal ranks, an address below all others. */
  lemma {:induction false} InsertByRank(x: SocketAddr, ys: seq<SocketAddr>)
    requires Canonical(ys) && forall a :: a in ys ==> Less(x, a)
    ensures Canonical(Insert(true, x, ys))
  {
    if ys == [] {
    } else if Leq(true, x, ys[0]) {
      forall j | 0 <= j < |ys| ensures Better(x, ys[j]) {
        assert ys[j] in ys;
      }
    } else {
      InsertByRank(x, ys[1..]);
      InsertElements(true, x, ys[1..]);
      assert forall a :: a in ys[1..] ==> Better(ys[0], a);
      assert forall a :: a in Insert(true, x, ys[1..]) ==> Better(ys[0], a);
    }
  }

  /** Because the sort by rank is stable, addresses in increasing order come out
      in the combined order. */
  lemma {:induction false} StableByRank(xs: seq<SocketAddr>)
    requires Increasing(xs)
    ensures Canonical(StableSort(true, xs))
  {
    if xs != [] {
      StableByRank(xs[1..]);
      SortElements(true, xs[1..]);
      assert forall a :: a in xs[1..] ==> Less(xs[0], a);
      InsertByRank(xs[0], StableSort(true, xs[1..]));
    }
  }

  // ---- the pipeline -------------------------------------------------------

  method Retain(addrs: seq<SocketAddr>) returns (kept: seq<SocketAddr>)
    ensures forall a :: a in kept <==> a in addrs && IsDialable(a)
  {
    kept := [];
    for i := 0 to |addrs|
      invariant forall a :: a in kept <==> a in addrs[..i] && IsDialable(a)
    {
      if IsDialable(addrs[i]) {
        kept := kept + [addrs[i]];
      }
      assert addrs[..i + 1] == addrs[..i] + [addrs[i]];
    }
    assert addrs[..|addrs|] == addrs;
  }

  /** Drops an element equal to the one kept before it. */
  method Dedup(xs: seq<SocketAddr>) returns (kept: seq<SocketAddr>)
    ensures SameElements(kept, xs)
    ensures Sorted(xs) ==> Increasing(kept)
  {
    kept := [];
    for i := 0 to |xs|
      invariant SameElements(kept, xs[..i])
      invariant Sorted(xs) ==> Increasing(kept)
      invariant if i == 0 then kept == [] else kept != [] && kept[|kept| - 1] == xs[i - 1]
    {
      assert xs[..i + 1] == xs[..i] + [xs[i]];
      if i == 0 || kept[|kept| - 1] != xs[i] {
        if Sorted(xs) {
          assert i > 0 ==> Leq(false, xs[i - 1], xs[i]);
          StrictlyMore(kept, xs[i]);
        }
        kept := kept + [xs[i]];
      }
    }
    assert xs[..|xs|] == xs;
  }

  lemma StrictlyMore(kept: seq<SocketAddr>, x: SocketAddr)
    requires Increasing(kept) && (kept != [] ==> Less(kept[|kept| - 1], x))
    ensures Increasing(kept + [x])
  {
    forall i | 0 <= i < |kept| - 1 ensures Less(kept[i], x) {
      LessIsTransitive(kept[i], kept[|kept| - 1], x);
    }
  }

  /** `sorted_dialable`: exactly the dialable addresses, each once, strictly
      best-first. */
  method SortedDialable(addrs: seq<SocketAddr>) returns (out: seq<SocketAddr>)
    ensures Canonical(out)
    ensures forall a :: a in out <==> a in addrs && IsDialable(a)
  {
    out := Retain(addrs);
    SortSorts(out);
    SortElements(false, out);
    out := StableSort(false, out);
    out := Dedup(out);
    StableByRank(out);
    SortElements(true, out);
    out := StableSort(true, out);
  }

  /** 127.0.0.0/8 and ::1. */
  predicate IsLoopback(a: SocketAddr) {
    match a
    case V4(ip, _) => 127 * 0x100_0000 <= ip < 128 * 0x100_0000
    case V6(ip, _, _, _) => ip == 1
  }

  /** In the result routable addresses come before loopback ones, IPv4 before IPv6
      within each kind, and equal kinds in address order. */
  lemma BestFirst(out: seq<SocketAddr>, i: nat, j: nat)
    requires Canonical(out) && i < j < |out|
    ensures IsLoopback(out[i]) ==> IsLoopback(out[j])
    ensures IsLoopback(out[i]) == IsLoopback(out[j]) ==>
              (out[i].V6? ==> out[j].V6?) && (out[i].V4? == out[j].V4? ==> Less(out[i], out[j]))
  {
    assert Better(out[i], out[j]);
  }

  /** fe80::/10 as a range of addresses. */
  predicate IsLinkLocal(ip: u128) {
    0xfe80_0000_0000_0000_0000_0000_0000_0000 <= ip < 0xfec0_0000_0000_0000_0000_0000_0000_0000
  }

  /** Exactly the unspecified addresses and IPv6 link-local ones are left out. */
  lemma DialableExactly(a: SocketAddr)
    ensures IsDialable(a) <==> match a
                               case V4(ip, _) => ip != 0
                               case V6(ip, _, _, _) => ip != 0 && !IsLinkLocal(ip)
  {
    if a.V6? {
      assert Masked(FirstSegment(a.ip6)) == 0xfe80 <==> 0xfe80 <= FirstSegment(a.ip6) < 0xfec0;
    }
  }

  lemma BetterIsAsymmetric(a: SocketAddr, b: SocketAddr)
    requires Better(a, b)
    ensures a != b && !Better(b, a)
  {
    LessIsTotal(a, b);
  }

  lemma SameHead(xs: seq<SocketAddr>, ys: seq<SocketAddr>)
    requires Canonical(xs) && Canonical(ys) && SameElements(xs, ys) && xs != [] && ys != []
    ensures xs[0] == ys[0]
  {
    assert xs[0] in ys && ys[0] in xs;
    if xs[0] != ys[0] {
      var j :| 0 <= j < |ys| && ys[j] == xs[0];
      BetterIsAsymmetric(ys[0], xs[0]);
    }
  }

  lemma HeadOnce(xs: seq<SocketAddr>)
    requires Canonical(xs) && xs != []
    ensures forall a :: a in xs[1..] <==> a in xs && a != xs[0]
  {
    forall a | a in xs[1..] ensures a != xs[0] {
      var j :| 0 <= j < |xs| - 1 && xs[1..][j] == a;
      BetterIsAsymmetric(xs[0], xs[j + 1]);
    }
  }

  /** There is only one such list: any two calls whose inputs hold the same
      dialable addresses, in whatever order and however often, return the same
      list. */
  lemma {:induction false} CanonicalUnique(xs: seq<SocketAddr>, ys: seq<SocketAddr>)
    requires Canonical(xs) && Canonical(ys) && SameElements(xs, ys)
    ensures xs == ys
  {
    assert xs != [] ==> xs[0] in xs;
    assert ys != [] ==> ys[0] in ys;
    if xs != [] {
      SameHead(xs, ys);
      HeadOnce(xs);
      HeadOnce(ys);
      CanonicalUnique(xs[1..], ys[1..]);
      assert xs == [xs[0]] + xs[1..] && ys == [ys[0]] + ys[1..];
    }
  }
}
