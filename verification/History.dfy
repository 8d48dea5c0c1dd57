/** The clipboard history: a ring of entries newest first, one PNG file per image
    entry, an index rewritten on every change, and reloads. */
module History {
  import opened Prelude
  import opened Decimal

  datatype Body = Text(text: seq<byte>) | Image(file: string)

  datatype Entry = Entry(body: Body, when: nat, origin: string, hash: Digest)

  /** What an entry stands for. */
  datatype Content = TextContent(text: seq<byte>) | ImageContent(png: seq<byte>)

  datatype Item = Item(content: Content, when: nat, origin: string)

  function Bytes(c: Content): seq<byte> {
    match c
    case TextContent(t) => t
    case ImageContent(p) => p
  }

  function HashOf(sha: seq<byte> -> Digest, x: Item): Digest {
    sha(Bytes(x.content))
  }

  /** The directory: PNG files by name, and `index.json` if it was ever written. */
  datatype Disk = Disk(files: map<string, seq<byte>>, index: Option<seq<Entry>>)

  datatype State = State(max: nat, entries: seq<Entry>, nextFile: nat, disk: Disk)

  function PngName(n: nat): string {
    Print(n) + ".png"
  }

  /** `strip_suffix(".png")` then `parse::<u64>()`. */
  function FileNumber(file: string): Option<nat> {
    if |file| >= 4 && file[|file| - 4..] == ".png" then ParseU64(file[..|file| - 4]) else None
  }

  lemma FileNumberOfPngName(n: nat)
    requires n < U64_LIMIT
    ensures FileNumber(PngName(n)) == Some(n)
  {
    var f := PngName(n);
    assert f[|f| - 4..] == ".png" && f[..|f| - 4] == Print(n);
    PrintParse(n);
  }

  lemma PngNameInjective(m: nat, n: nat)
    requires PngName(m) == PngName(n)
    ensures m == n
  {
    assert PngName(m)[..|PngName(m)| - 4] == Print(m) && PngName(n)[..|PngName(n)| - 4] == Print(n);
    PrintInjective(m, n);
  }

  // ---- the operations -----------------------------------------------------

  function Take<T>(s: seq<T>, n: nat): seq<T> {
    if n <= |s| then s[..n] else s
  }

  /** One more than the largest number of an image entry; 0 without images. */
  function NextFile(es: seq<Entry>): nat {
    if es == [] then 0
    else
      var rest := NextFile(es[..|es| - 1]);
      var e := es[|es| - 1];
      if e.body.Image? && FileNumber(e.body.file).Some? && FileNumber(e.body.file).value >= rest
      then FileNumber(e.body.file).value + 1 else rest
  }

  function Indexed(d: Disk): seq<Entry> {
    if d.index.Some? then d.index.value else []
  }

  function Load(d: Disk, max: nat): State {
    var es := Take(Indexed(d), max);
    State(max, es, NextFile(es), d)
  }

  function RemoveFileOf(files: map<string, seq<byte>>, e: Entry): map<string, seq<byte>> {
    if e.body.Image? then files - {e.body.file} else files
  }

  /** Files left after popping entries from the back until `max` remain. */
  function Evict(es: seq<Entry>, files: map<string, seq<byte>>, max: nat): map<string, seq<byte>> {
    if |es| <= max then files else Evict(es[..|es| - 1], RemoveFileOf(files, es[|es| - 1]), max)
  }

  predicate FrontHas(s: State, h: Digest) {
    s.entries != [] && s.entries[0].hash == h
  }

  function Push(s: State, e: Entry): State {
    if FrontHas(s, e.hash) then s
    else
      var es := Take([e] + s.entries, s.max);
      s.(entries := es, disk := Disk(Evict([e] + s.entries, s.disk.files, s.max), Some(es)))
  }

  function RecordText(sha: seq<byte> -> Digest, s: State, text: seq<byte>, when: nat, origin: string): State {
    if s.max == 0 || text == [] then s else Push(s, Entry(Text(text), when, origin, sha(text)))
  }

  function Bump(n: nat): nat {
    (n + 1) % U64_LIMIT
  }

  /** `writeOk` is the outcome of writing the PNG file; a failed write leaves the
      directory alone. */
  function RecordImage(sha: seq<byte> -> Digest, s: State, png: seq<byte>, when: nat,
                       origin: string, writeOk: bool): State {
    if s.max == 0 || FrontHas(s, sha(png)) then s
    else if !writeOk then s.(nextFile := Bump(s.nextFile))
    else
      var file := PngName(s.nextFile);
      var s1 := s.(nextFile := Bump(s.nextFile), disk := s.disk.(files := s.disk.files[file := png]));
      Push(s1, Entry(Image(file), when, origin, sha(png)))
  }

  function Get(s: State, i: nat): Option<Content> {
    if i >= |s.entries| then None
    else
      match s.entries[i].body
      case Text(t) => Some(TextContent(t))
      case Image(f) => if f in s.disk.files then Some(ImageContent(s.disk.files[f])) else None
  }

  datatype Op =
    | AddText(text: seq<byte>, when: nat, origin: string)
    | AddImage(png: seq<byte>, when: nat, origin: string, writeOk: bool)
    | Reload(max: nat)

  function Apply(sha: seq<byte> -> Digest, s: State, op: Op): State {
    match op
    case AddText(t, w, o) => RecordText(sha, s, t, w, o)
    case AddImage(p, w, o, ok) => RecordImage(sha, s, p, w, o, ok)
    case Reload(max) => Load(s.disk, max)
  }

  function Run(sha: seq<byte> -> Digest, s: State, ops: seq<Op>): State {
    if ops == [] then s else Apply(sha, Run(sha, s, ops[..|ops| - 1]), ops[|ops| - 1])
  }

  function Empty(max: nat): State {
    State(max, [], 0, Disk(map[], None))
  }

  // ---- who owns which file ------------------------------------------------

  predicate IsImageAt(es: seq<Entry>, i: int) {
    0 <= i < |es| && es[i].body.Image?
  }

  /** Image entry `e` names the file of some number below `bound`, and the file
      holds what was recorded. */
  ghost predicate Owns(sha: seq<byte> -> Digest, e: Entry, files: map<string, seq<byte>>, bound: nat) {
    match e.body
    case Text(t) => sha(t) == e.hash
    case Image(f) =>
      && f in files && sha(files[f]) == e.hash
      && exists n: nat :: n < bound && f == PngName(n)
  }

  ghost predicate Sound(sha: seq<byte> -> Digest, es: seq<Entry>, files: map<string, seq<byte>>, bound: nat) {
    && (forall i :: 0 <= i < |es| ==> Owns(sha, es[i], files, bound))
    && (forall i, j :: IsImageAt(es, i) && IsImageAt(es, j) && i != j ==> es[i].body.file != es[j].body.file)
  }

  /** Every number used by a live entry is below the counter. */
  ghost predicate Ahead(es: seq<Entry>, next: nat) {
    forall i, n: nat :: IsImageAt(es, i) && es[i].body.file == PngName(n) ==> n < next
  }

  /** `bound` limits every file number in sight; it keeps the 64-bit counter from
      wrapping. */
  ghost predicate Inv(sha: seq<byte> -> Digest, s: State, bound: nat) {
    && s.entries == Take(Indexed(s.disk), s.max)
    && Sound(sha, Indexed(s.disk), s.disk.files, bound)
    && Ahead(s.entries, s.nextFile)
    && s.nextFile <= bound
  }

  lemma SoundPrefix(sha: seq<byte> -> Digest, es: seq<Entry>, files: map<string, seq<byte>>, bound: nat, n: nat)
    requires Sound(sha, es, files, bound)
    ensures Sound(sha, Take(es, n), files, bound)
  {
  }

  lemma AheadBack(es: seq<Entry>, e: Entry, next: nat, next': nat)
    requires Ahead(es, next) && next <= next'
    requires e.body.Image? ==> exists n: nat :: n < next' && e.body.file == PngName(n)
    ensures Ahead(es + [e], next')
  {
    forall i, m: nat | IsImageAt(es + [e], i) && (es + [e])[i].body.file == PngName(m) ensures m < next' {
      if i < |es| {
        assert IsImageAt(es, i) && es[i].body.file == PngName(m);
      } else {
        var n: nat :| n < next' && e.body.file == PngName(n);
        PngNameInjective(m, n);
      }
    }
  }

  lemma {:induction false} NextFileAhead(sha: seq<byte> -> Digest, es: seq<Entry>, files: map<string, seq<byte>>,
                                         bound: nat)
    requires Sound(sha, es, files, bound) && bound <= U64_LIMIT
    ensures Ahead(es, NextFile(es)) && NextFile(es) <= bound
  {
    if es != [] {
      var pre, e := es[..|es| - 1], es[|es| - 1];
      SoundPrefix(sha, es, files, bound, |es| - 1);
      NextFileAhead(sha, pre, files, bound);
      assert Owns(sha, e, files, bound);
      if e.body.Image? {
        var n: nat :| n < bound && e.body.file == PngName(n);
        FileNumberOfPngName(n);
        assert n < NextFile(es) && e.body.file == PngName(n);
      }
      AheadBack(pre, e, NextFile(pre), NextFile(es));
      assert es == pre + [e];
    }
  }

  lemma LoadInv(sha: seq<byte> -> Digest, d: Disk, max: nat, bound: nat)
    requires Sound(sha, Indexed(d), d.files, bound) && bound <= U64_LIMIT
    ensures Inv(sha, Load(d, max), bound)
  {
    SoundPrefix(sha, Indexed(d), d.files, bound, max);
    NextFileAhead(sha, Take(Indexed(d), max), d.files, bound);
  }

  /** Evicting removes only files of entries that go, so what stays is intact. */
  lemma {:induction false} EvictSound(sha: seq<byte> -> Digest, es: seq<Entry>, files: map<string, seq<byte>>,
                                      bound: nat, max: nat)
    requires Sound(sha, es, files, bound)
    ensures Sound(sha, Take(es, max), Evict(es, files, max), bound)
    ensures forall i :: IsImageAt(Take(es, max), i) ==>
              es[i].body.file in files && es[i].body.file in Evict(es, files, max)
              && Evict(es, files, max)[es[i].body.file] == files[es[i].body.file]
  {
    if |es| > max {
      var pre, e := es[..|es| - 1], es[|es| - 1];
      var files' := RemoveFileOf(files, e);
      forall i | 0 <= i < |pre| ensures Owns(sha, pre[i], files', bound) {
        assert Owns(sha, es[i], files, bound);
        assert IsImageAt(es, i) && IsImageAt(es, |es| - 1) ==> es[i].body.file != e.body.file;
      }
      assert forall i :: IsImageAt(pre, i) ==> IsImageAt(es, i) && pre[i] == es[i];
      EvictSound(sha, pre, files', bound, max);
      assert Take(pre, max) == Take(es, max);
      forall i | IsImageAt(Take(es, max), i)
        ensures es[i].body.file in files && files'[es[i].body.file] == files[es[i].body.file]
      {
        assert IsImageAt(pre, i) && pre[i] == es[i] && IsImageAt(es, i);
      }
    } else {
      forall i | IsImageAt(es, i) ensures es[i].body.file in files {
        assert Owns(sha, es[i], files, bound);
      }
    }
  }

  /** A new entry in front: its text, or its freshly written file. */
  lemma FrontSound(sha: seq<byte> -> Digest, s: State, e: Entry, files: map<string, seq<byte>>, bound: nat)
    requires Sound(sha, s.entries, s.disk.files, bound) && Ahead(s.entries, s.nextFile) && s.nextFile <= bound
    requires match e.body
             case Text(t) => files == s.disk.files && e.hash == sha(t)
             case Image(f) =>
               && f == PngName(s.nextFile) && f in files && files == s.disk.files[f := files[f]]
               && e.hash == sha(files[f])
    ensures Sound(sha, [e] + s.entries, files, bound + 1)
  {
  }

  lemma PushInv(sha: seq<byte> -> Digest, s: State, e: Entry, bound: nat)
    requires Sound(sha, [e] + s.entries, s.disk.files, bound) && !FrontHas(s, e.hash) && s.nextFile <= bound
    requires Ahead([e] + s.entries, s.nextFile)
    ensures Inv(sha, Push(s, e), bound)
  {
    var es := [e] + s.entries;
    EvictSound(sha, es, s.disk.files, bound, s.max);
    assert forall i :: IsImageAt(Take(es, s.max), i) ==> IsImageAt(es, i) && es[i] == Take(es, s.max)[i];
  }

  lemma AheadFront(es: seq<Entry>, e: Entry, next: nat)
    requires Ahead(es, next) && (e.body.Image? ==> exists n: nat :: n < next && e.body.file == PngName(n))
    ensures Ahead([e] + es, next)
  {
    forall i, m: nat | IsImageAt([e] + es, i) && ([e] + es)[i].body.file == PngName(m) ensures m < next {
      if i == 0 {
        var n: nat :| n < next && e.body.file == PngName(n);
        PngNameInjective(m, n);
      } else {
        assert IsImageAt(es, i - 1) && es[i - 1].body.file == PngName(m);
      }
    }
  }

  lemma SoundGrows(sha: seq<byte> -> Digest, es: seq<Entry>, files: map<string, seq<byte>>, bound: nat, bound': nat)
    requires Sound(sha, es, files, bound) && bound <= bound'
    ensures Sound(sha, es, files, bound')
  {
  }

  lemma TextInv(sha: seq<byte> -> Digest, s: State, text: seq<byte>, when: nat, origin: string, bound: nat)
    requires Inv(sha, s, bound)
    ensures Inv(sha, RecordText(sha, s, text, when, origin), bound + 1)
  {
    SoundGrows(sha, Indexed(s.disk), s.disk.files, bound, bound + 1);
    if s.max > 0 && text != [] && !FrontHas(s, sha(text)) {
      var e := Entry(Text(text), when, origin, sha(text));
      SoundPrefix(sha, Indexed(s.disk), s.disk.files, bound, s.max);
      FrontSound(sha, s, e, s.disk.files, bound);
      AheadFront(s.entries, e, s.nextFile);
      PushInv(sha, s, e, bound + 1);
    }
  }

  lemma NewImageInv(sha: seq<byte> -> Digest, s: State, s1: State, e: Entry, png: seq<byte>, bound: nat)
    requires Inv(sha, s, bound) && !FrontHas(s, e.hash) && e.body == Image(PngName(s.nextFile)) && e.hash == sha(png)
    requires s1 == s.(nextFile := s.nextFile + 1, disk := s.disk.(files := s.disk.files[PngName(s.nextFile) := png]))
    ensures Inv(sha, Push(s1, e), bound + 1)
  {
    SoundPrefix(sha, Indexed(s.disk), s.disk.files, bound, s.max);
    FrontSound(sha, s, e, s1.disk.files, bound);
    assert Ahead(s.entries, s1.nextFile);
    AheadFront(s.entries, e, s1.nextFile);
    PushInv(sha, s1, e, bound + 1);
  }

  lemma ImageInv(sha: seq<byte> -> Digest, s: State, png: seq<byte>, when: nat, origin: string, ok: bool, bound: nat)
    requires Inv(sha, s, bound) && bound + 1 < U64_LIMIT
    ensures Inv(sha, RecordImage(sha, s, png, when, origin, ok), bound + 1)
  {
    if s.max == 0 || FrontHas(s, sha(png)) || !ok {
      SoundGrows(sha, Indexed(s.disk), s.disk.files, bound, bound + 1);
    } else {
      var file := PngName(s.nextFile);
      var s1 := s.(nextFile := s.nextFile + 1, disk := s.disk.(files := s.disk.files[file := png]));
      NewImageInv(sha, s, s1, Entry(Image(file), when, origin, sha(png)), png, bound);
    }
  }

  lemma ApplyInv(sha: seq<byte> -> Digest, s: State, op: Op, bound: nat)
    requires Inv(sha, s, bound) && bound + 1 < U64_LIMIT
    ensures Inv(sha, Apply(sha, s, op), bound + 1)
  {
    match op
    case AddText(t, w, o) => TextInv(sha, s, t, w, o, bound);
    case AddImage(p, w, o, ok) => ImageInv(sha, s, p, w, o, ok, bound);
    case Reload(max) =>
      SoundGrows(sha, Indexed(s.disk), s.disk.files, bound, bound + 1);
      LoadInv(sha, s.disk, max, bound + 1);
  }

  /** In every reachable state, whatever the sizes used at each reload: live image
      entries name distinct files that exist and hold what was recorded, and the
      counter is ahead of all of them. */
  lemma {:induction false} Ownership(sha: seq<byte> -> Digest, max: nat, ops: seq<Op>)
    requires |ops| + 1 < U64_LIMIT
    ensures Inv(sha, Run(sha, Empty(max), ops), |ops|)
  {
    if ops != [] {
      Ownership(sha, max, ops[..|ops| - 1]);
      ApplyInv(sha, Run(sha, Empty(max), ops[..|ops| - 1]), ops[|ops| - 1], |ops| - 1);
    }
  }

  /** So a new image never overwrites the file of a live entry. */
  lemma NewImageIsNew(sha: seq<byte> -> Digest, max: nat, ops: seq<Op>, i: nat)
    requires |ops| + 1 < U64_LIMIT && IsImageAt(Run(sha, Empty(max), ops).entries, i)
    ensures Run(sha, Empty(max), ops).entries[i].body.file != PngName(Run(sha, Empty(max), ops).nextFile)
  {
    Ownership(sha, max, ops);
  }

  // ---- the ring against its specification ---------------------------------

  function ItemOf(e: Entry, files: map<string, seq<byte>>): Item {
    match e.body
    case Text(t) => Item(TextContent(t), e.when, e.origin)
    case Image(f) => Item(ImageContent(if f in files then files[f] else []), e.when, e.origin)
  }

  /** What the ring holds, newest first. */
  function Items(s: State): (r: seq<Item>)
    ensures |r| == |s.entries|
    ensures forall i :: 0 <= i < |r| ==> r[i] == ItemOf(s.entries[i], s.disk.files)
  {
    seq(|s.entries|, i requires 0 <= i < |s.entries| => ItemOf(s.entries[i], s.disk.files))
  }

  /** The records that count: non-empty texts and images whose file was written. */
  function Recorded(ops: seq<Op>): seq<Item> {
    if ops == [] then []
    else
      Recorded(ops[..|ops| - 1]) +
      match ops[|ops| - 1]
      case AddText(t, w, o) => if t == [] then [] else [Item(TextContent(t), w, o)]
      case AddImage(p, w, o, ok) => if ok then [Item(ImageContent(p), w, o)] else []
      case Reload(_) => []
  }

  /** Without the records whose digest repeats that of the record just before. */
  function Dedup(sha: seq<byte> -> Digest, xs: seq<Item>): seq<Item> {
    if xs == [] then []
    else
      var n := |xs|;
      Dedup(sha, xs[..n - 1]) + if n == 1 || HashOf(sha, xs[n - 1]) != HashOf(sha, xs[n - 2]) then [xs[n - 1]] else []
  }

  function Reverse<T>(xs: seq<T>): (r: seq<T>)
    ensures |r| == |xs|
    ensures forall i :: 0 <= i < |xs| ==> r[i] == xs[|xs| - 1 - i]
  {
    seq(|xs|, i requires 0 <= i < |xs| => xs[|xs| - 1 - i])
  }

  /** The whole specification of the history. */
  function Ring(sha: seq<byte> -> Digest, xs: seq<Item>, max: nat): seq<Item> {
    Take(Reverse(Dedup(sha, xs)), max)
  }

  lemma {:induction false} DedupLast(sha: seq<byte> -> Digest, xs: seq<Item>)
    requires xs != []
    ensures Dedup(sha, xs) != []
    ensures HashOf(sha, Dedup(sha, xs)[|Dedup(sha, xs)| - 1]) == HashOf(sha, xs[|xs| - 1])
  {
    if |xs| > 1 {
      DedupLast(sha, xs[..|xs| - 1]);
    }
  }

  /** One more item in front, unless it repeats the newest. */
  function RingPush(sha: seq<byte> -> Digest, r: seq<Item>, x: Item, max: nat): seq<Item> {
    if r != [] && HashOf(sha, r[0]) == HashOf(sha, x) then r else Take([x] + r, max)
  }

  /** How the specification changes when one more item is recorded. */
  lemma RingStep(sha: seq<byte> -> Digest, xs: seq<Item>, x: Item, max: nat)
    requires max > 0
    ensures Ring(sha, xs + [x], max) == RingPush(sha, Ring(sha, xs, max), x, max)
  {
    var d := Dedup(sha, xs);
    assert (xs + [x])[..|xs|] == xs;
    if xs != [] {
      DedupLast(sha, xs);
      assert (xs + [x])[|xs| - 1] == xs[|xs| - 1];
      assert Reverse(d)[0] == d[|d| - 1];
    }
    if xs == [] || HashOf(sha, x) != HashOf(sha, xs[|xs| - 1]) {
      assert Dedup(sha, xs + [x]) == d + [x];
      assert Reverse(d + [x]) == [x] + Reverse(d);
      assert Take([x] + Reverse(d), max) == Take([x] + Take(Reverse(d), max), max);
    } else {
      assert Dedup(sha, xs + [x]) == d;
    }
  }

  lemma ItemHash(sha: seq<byte> -> Digest, e: Entry, files: map<string, seq<byte>>, bound: nat)
    requires Owns(sha, e, files, bound)
    ensures HashOf(sha, ItemOf(e, files)) == e.hash
  {
  }

  /** Pushing an entry is recording the item it stands for. */
  lemma PushItems(sha: seq<byte> -> Digest, s: State, e: Entry, bound: nat)
    requires Sound(sha, [e] + s.entries, s.disk.files, bound) && s.max > 0 && |s.entries| <= s.max
    ensures var r, x := Items(s), ItemOf(e, s.disk.files);
            Items(Push(s, e)) == if r != [] && HashOf(sha, r[0]) == HashOf(sha, x) then r else Take([x] + r, s.max)
  {
    var es := [e] + s.entries;
    assert Owns(sha, es[0], s.disk.files, bound);
    ItemHash(sha, e, s.disk.files, bound);
    if s.entries != [] {
      assert Owns(sha, es[1], s.disk.files, bound);
      ItemHash(sha, es[1], s.disk.files, bound);
    }
    if !FrontHas(s, e.hash) {
      EvictSound(sha, es, s.disk.files, bound, s.max);
      var s' := Push(s, e);
      forall i | 0 <= i < |s'.entries|
        ensures Items(s')[i] == ([ItemOf(e, s.disk.files)] + Items(s))[i]
      {
        assert s'.entries[i] == es[i];
        assert es[i].body.Image? ==> IsImageAt(Take(es, s.max), i);
      }
      assert Items(s') == Take([ItemOf(e, s.disk.files)] + Items(s), s.max);
    }
  }

  lemma TextItems(sha: seq<byte> -> Digest, s: State, text: seq<byte>, when: nat, origin: string, bound: nat)
    requires Inv(sha, s, bound) && s.max > 0 && text != []
    ensures var r, x := Items(s), Item(TextContent(text), when, origin);
            Items(RecordText(sha, s, text, when, origin)) ==
            if r != [] && HashOf(sha, r[0]) == HashOf(sha, x) then r else Take([x] + r, s.max)
  {
    var e := Entry(Text(text), when, origin, sha(text));
    SoundPrefix(sha, Indexed(s.disk), s.disk.files, bound, s.max);
    FrontSound(sha, s, e, s.disk.files, bound);
    PushItems(sha, s, e, bound + 1);
  }

  /** Writing the new file leaves every item of the ring as it was. */
  lemma NewFileKeepsItems(s: State, s1: State, png: seq<byte>)
    requires s1 == s.(nextFile := s1.nextFile, disk := s.disk.(files := s.disk.files[PngName(s.nextFile) := png]))
    requires Ahead(s.entries, s.nextFile)
    ensures Items(s1) == Items(s)
  {
  }

  lemma ImageItems(sha: seq<byte> -> Digest, s: State, png: seq<byte>, when: nat, origin: string, bound: nat)
    requires Inv(sha, s, bound) && s.max > 0
    ensures var r, x := Items(s), Item(ImageContent(png), when, origin);
            Items(RecordImage(sha, s, png, when, origin, true)) ==
            if r != [] && HashOf(sha, r[0]) == HashOf(sha, x) then r else Take([x] + r, s.max)
  {
    SoundPrefix(sha, Indexed(s.disk), s.disk.files, bound, s.max);
    if s.entries != [] {
      assert Owns(sha, s.entries[0], s.disk.files, bound);
      ItemHash(sha, s.entries[0], s.disk.files, bound);
    }
    if !FrontHas(s, sha(png)) {
      var file := PngName(s.nextFile);
      var e := Entry(Image(file), when, origin, sha(png));
      var s1 := s.(nextFile := Bump(s.nextFile), disk := s.disk.(files := s.disk.files[file := png]));
      FrontSound(sha, s, e, s1.disk.files, bound);
      PushItems(sha, s1, e, bound + 1);
      NewFileKeepsItems(s, s1, png);
    }
  }

  /** Every reload uses the same size. */
  predicate SameMax(ops: seq<Op>, max: nat) {
    forall i :: 0 <= i < |ops| && ops[i].Reload? ==> ops[i].max == max
  }

  lemma ApplyRing(sha: seq<byte> -> Digest, s: State, ops: seq<Op>, bound: nat)
    requires ops != [] && s.max > 0 && Inv(sha, s, bound)
    requires Items(s) == Ring(sha, Recorded(ops[..|ops| - 1]), s.max) && SameMax(ops, s.max)
    ensures Items(Apply(sha, s, ops[|ops| - 1])) == Ring(sha, Recorded(ops), s.max)
  {
    var xs := Recorded(ops[..|ops| - 1]);
    match ops[|ops| - 1]
    case AddText(t, w, o) =>
      if t != [] {
        TextItems(sha, s, t, w, o, bound);
        RingStep(sha, xs, Item(TextContent(t), w, o), s.max);
      } else {
        assert Recorded(ops) == xs;
      }
    case AddImage(p, w, o, ok) =>
      if ok {
        ImageItems(sha, s, p, w, o, bound);
        RingStep(sha, xs, Item(ImageContent(p), w, o), s.max);
      } else {
        assert Recorded(ops) == xs;
        assert Items(Apply(sha, s, ops[|ops| - 1])) == Items(s);
      }
    case Reload(_) =>
      assert Recorded(ops) == xs;
      assert Items(Apply(sha, s, ops[|ops| - 1])) == Items(s);
  }

  lemma {:induction false} RunMax(sha: seq<byte> -> Digest, max: nat, ops: seq<Op>)
    requires SameMax(ops, max)
    ensures Run(sha, Empty(max), ops).max == max
  {
    if ops != [] {
      RunMax(sha, max, ops[..|ops| - 1]);
    }
  }

  /** After any records and any restarts with the same size, the ring is the
      first `max` of the reversed, deduplicated stream of records. */
  lemma {:induction false} RingRefinement(sha: seq<byte> -> Digest, max: nat, ops: seq<Op>)
    requires max > 0 && SameMax(ops, max) && |ops| + 1 < U64_LIMIT
    ensures Items(Run(sha, Empty(max), ops)) == Ring(sha, Recorded(ops), max)
  {
    if ops != [] {
      var pre := ops[..|ops| - 1];
      RingRefinement(sha, max, pre);
      Ownership(sha, max, pre);
      RunMax(sha, max, pre);
      ApplyRing(sha, Run(sha, Empty(max), pre), ops, |pre|);
    }
  }

  /** ... and `get(i)` returns the exact text or PNG bytes of its i-th item. */
  lemma GetExact(sha: seq<byte> -> Digest, max: nat, ops: seq<Op>, i: nat)
    requires max > 0 && SameMax(ops, max) && |ops| + 1 < U64_LIMIT
    ensures var ring := Ring(sha, Recorded(ops), max);
            Get(Run(sha, Empty(max), ops), i) == if i < |ring| then Some(ring[i].content) else None
  {
    RingRefinement(sha, max, ops);
    Ownership(sha, max, ops);
    var s := Run(sha, Empty(max), ops);
    SoundPrefix(sha, Indexed(s.disk), s.disk.files, |ops|, s.max);
    if i < |s.entries| {
      assert Owns(sha, s.entries[i], s.disk.files, |ops|);
      assert Items(s)[i] == ItemOf(s.entries[i], s.disk.files);
    }
  }

  // ---- "distinct" entries -------------------------------------------------

  ghost predicate DistinctItems(sha: seq<byte> -> Digest, r: seq<Item>) {
    forall i, j :: 0 <= i < j < |r| ==> HashOf(sha, r[i]) != HashOf(sha, r[j])
  }

  ghost predicate Present(sha: seq<byte> -> Digest, r: seq<Item>, x: Item) {
    exists i :: 0 <= i < |r| && HashOf(sha, r[i]) == HashOf(sha, x)
  }

  lemma DistinctFront(sha: seq<byte> -> Digest, x: Item, r: seq<Item>)
    requires DistinctItems(sha, r)
    ensures DistinctItems(sha, [x] + r) <==> !Present(sha, r, x)
  {
    var r' := [x] + r;
    assert r'[0] == x && forall i :: 0 <= i < |r| ==> r'[i + 1] == r[i];
  }

  lemma PushKeepsDistinctExactly(sha: seq<byte> -> Digest, r: seq<Item>, x: Item, max: nat)
    requires max > 0 && DistinctItems(sha, r)
    ensures DistinctItems(sha, RingPush(sha, r, x, max)) <==>
            (r != [] && HashOf(sha, r[0]) == HashOf(sha, x)) || !Present(sha, Take(r, max - 1), x)
  {
    DistinctFront(sha, x, Take(r, max - 1));
    assert Take([x] + r, max) == [x] + Take(r, max - 1);
  }

  /** The ring compares a record with the newest entry only. Recording `x` keeps
      the entries distinct exactly when it repeats the newest entry or none of
      the entries that stay. */
  lemma RecordKeepsDistinctExactly(sha: seq<byte> -> Digest, xs: seq<Item>, x: Item, max: nat)
    requires max > 0 && DistinctItems(sha, Ring(sha, xs, max))
    ensures var r := Ring(sha, xs, max);
            DistinctItems(sha, Ring(sha, xs + [x], max)) <==>
            (r != [] && HashOf(sha, r[0]) == HashOf(sha, x)) || !Present(sha, Take(r, max - 1), x)
  {
    RingStep(sha, xs, x, max);
    PushKeepsDistinctExactly(sha, Ring(sha, xs, max), x, max);
  }

  lemma PushThreeRepeats(sha: seq<byte> -> Digest, r: seq<Item>, a: Item, b: Item, max: nat)
    requires HashOf(sha, a) != HashOf(sha, b) && max >= 3
    ensures var r3 := RingPush(sha, RingPush(sha, RingPush(sha, r, a, max), b, max), a, max);
            |r3| >= 3 && HashOf(sha, r3[0]) == HashOf(sha, r3[2])
  {
  }

  /** Copying a, then b, then a again, at any time, leaves a twice in a history of
      at least three entries. */
  lemma HistoryCanRepeat(sha: seq<byte> -> Digest, xs: seq<Item>, a: Item, b: Item, max: nat)
    requires HashOf(sha, a) != HashOf(sha, b) && max >= 3
    ensures !DistinctItems(sha, Ring(sha, xs + [a] + [b] + [a], max))
  {
    RingStep(sha, xs, a, max);
    RingStep(sha, xs + [a], b, max);
    RingStep(sha, xs + [a] + [b], a, max);
    PushThreeRepeats(sha, Ring(sha, xs, max), a, b, max);
  }

  // ---- the files on disk --------------------------------------------------

  function FileOf(e: Entry): set<string> {
    if e.body.Image? then {e.body.file} else {}
  }

  function FilesOf(es: seq<Entry>): set<string> {
    if es == [] then {} else FilesOf(es[..|es| - 1]) + FileOf(es[|es| - 1])
  }

  lemma {:induction false} FilesOfFront(e: Entry, es: seq<Entry>)
    ensures FilesOf([e] + es) == FileOf(e) + FilesOf(es)
  {
    if es == [] {
      assert [e] + es == [e] && [e][..0] == [];
    } else {
      assert ([e] + es)[..|es|] == [e] + es[..|es| - 1];
      FilesOfFront(e, es[..|es| - 1]);
    }
  }

  lemma {:induction false} FileAbsent(es: seq<Entry>, f: string)
    requires forall i :: IsImageAt(es, i) ==> es[i].body.file != f
    ensures f !in FilesOf(es)
  {
    if es != [] {
      assert forall i :: IsImageAt(es[..|es| - 1], i) ==> IsImageAt(es, i);
      FileAbsent(es[..|es| - 1], f);
      assert IsImageAt(es, |es| - 1) ==> es[|es| - 1].body.file != f;
    }
  }

  /** No two image entries name the same file. */
  predicate DistinctFiles(es: seq<Entry>) {
    forall i, j :: 0 <= i < |es| && 0 <= j < |es| && IsImageAt(es, i) && IsImageAt(es, j) && i != j
      ==> es[i].body.file != es[j].body.file
  }

  lemma {:induction false} EvictKeys(es: seq<Entry>, files: map<string, seq<byte>>, max: nat)
    requires DistinctFiles(es) && files.Keys == FilesOf(es)
    ensures Evict(es, files, max).Keys == FilesOf(Take(es, max))
  {
    if |es| > max {
      var pre, e := es[..|es| - 1], es[|es| - 1];
      assert forall i :: IsImageAt(pre, i) ==> IsImageAt(es, i) && pre[i] == es[i];
      if e.body.Image? {
        assert IsImageAt(es, |es| - 1);
        FileAbsent(pre, e.body.file);
      }
      EvictKeys(pre, RemoveFileOf(files, e), max);
      assert Take(pre, max) == Take(es, max);
    } else {
      assert Take(es, max) == es;
    }
  }

  lemma PushKeys(sha: seq<byte> -> Digest, s: State, e: Entry, bound: nat)
    requires Sound(sha, [e] + s.entries, s.disk.files, bound) && !FrontHas(s, e.hash)
    requires s.disk.files.Keys == FileOf(e) + FilesOf(s.entries)
    ensures Push(s, e).disk.files.Keys == FilesOf(Push(s, e).entries)
  {
    FilesOfFront(e, s.entries);
    EvictKeys([e] + s.entries, s.disk.files, s.max);
  }

  lemma ApplyKeys(sha: seq<byte> -> Digest, s: State, op: Op, bound: nat)
    requires Inv(sha, s, bound) && s.disk.files.Keys == FilesOf(s.entries) && s.entries == Indexed(s.disk)
    requires op.Reload? ==> op.max == s.max
    ensures var s' := Apply(sha, s, op);
            s'.disk.files.Keys == FilesOf(s'.entries) && s'.entries == Indexed(s'.disk)
  {
    SoundPrefix(sha, Indexed(s.disk), s.disk.files, bound, s.max);
    if op.AddText? && s.max > 0 && op.text != [] && !FrontHas(s, sha(op.text)) {
      var e := Entry(Text(op.text), op.when, op.origin, sha(op.text));
      FrontSound(sha, s, e, s.disk.files, bound);
      PushKeys(sha, s, e, bound + 1);
    } else if op.AddImage? && s.max > 0 && op.writeOk && !FrontHas(s, sha(op.png)) {
      var file := PngName(s.nextFile);
      var e := Entry(Image(file), op.when, op.origin, sha(op.png));
      var s1 := s.(nextFile := Bump(s.nextFile), disk := s.disk.(files := s.disk.files[file := op.png]));
      FrontSound(sha, s, e, s1.disk.files, bound);
      PushKeys(sha, s1, e, bound + 1);
    }
  }

  /** With an unchanged size, the PNG files on disk are exactly those of the live
      entries: nothing leaks and nothing is missing. */
  lemma {:induction false} FilesAreExactlyTheLiveOnes(sha: seq<byte> -> Digest, max: nat, ops: seq<Op>)
    requires SameMax(ops, max) && |ops| + 1 < U64_LIMIT
    ensures var s := Run(sha, Empty(max), ops);
            s.disk.files.Keys == FilesOf(s.entries) && s.entries == Indexed(s.disk)
  {
    if ops != [] {
      var pre := ops[..|ops| - 1];
      FilesAreExactlyTheLiveOnes(sha, max, pre);
      Ownership(sha, max, pre);
      RunMax(sha, max, pre);
      ApplyKeys(sha, Run(sha, Empty(max), pre), ops[|ops| - 1], |pre|);
    }
  }

  // ---- switched off; numbers ----------------------------------------------

  /** With size 0 nothing is ever recorded or written. */
  lemma {:induction false} SizeZeroRecordsNothing(sha: seq<byte> -> Digest, ops: seq<Op>)
    requires SameMax(ops, 0)
    ensures Run(sha, Empty(0), ops) == Empty(0)
  {
    if ops != [] {
      SizeZeroRecordsNothing(sha, ops[..|ops| - 1]);
    }
  }

  /** Every image that is not a repeat uses up a number, written or not. */
  lemma NumbersAreUsedUp(sha: seq<byte> -> Digest, s: State, png: seq<byte>, when: nat, origin: string, ok: bool)
    requires s.max > 0 && s.nextFile + 1 < U64_LIMIT
    ensures RecordImage(sha, s, png, when, origin, ok).nextFile ==
            if s.entries != [] && s.entries[0].hash == sha(png) then s.nextFile else s.nextFile + 1
  {
  }
}
