/** Names of received files: what a peer may ask for (`safe_blob_name`), the
    temporary name a transfer is written under, and the search for a free
    final name (`unique_dest`). */
module BlobNames {
  import opened Prelude
  import opened Decimal
  import opened FileSystem

  /** `char::is_whitespace`. */
  predicate IsWhitespace(c: char) {
    || '\U{0009}' <= c <= '\U{000D}' || c == ' ' || c == '\U{0085}' || c == '\U{00A0}' || c == '\U{1680}'
    || '\U{2000}' <= c <= '\U{200A}' || c == '\U{2028}' || c == '\U{2029}' || c == '\U{202F}'
    || c == '\U{205F}' || c == '\U{3000}'
  }

  function TrimStart(s: string): string {
    if s != [] && IsWhitespace(s[0]) then TrimStart(s[1..]) else s
  }

  function TrimEnd(s: string): string {
    if s != [] && IsWhitespace(s[|s| - 1]) then TrimEnd(s[..|s| - 1]) else s
  }

  function Trim(s: string): string {
    TrimEnd(TrimStart(s))
  }

  /** The pieces between separators; always at least one. */
  function Pieces(s: string): (r: seq<string>)
    ensures |r| > 0
    ensures forall i :: 0 <= i < |r| ==> '/' !in r[i]
  {
    if s == [] then [[]]
    else
      var rest := Pieces(s[1..]);
      if s[0] == '/' then [[]] + rest else [[s[0]] + rest[0]] + rest[1..]
  }

  datatype Component = RootDir | CurDir | ParentDir | Normal(name: string)

  function PieceComponents(piece: string, leading: bool): (r: seq<Component>)
    ensures forall c :: c in r && c.Normal? ==> c.name == piece && piece != "" && piece != "." && piece != ".."
  {
    if piece == "" then []
    else if piece == "." then (if leading then [CurDir] else [])
    else if piece == ".." then [ParentDir]
    else [Normal(piece)]
  }

  function TailComponents(pieces: seq<string>): seq<Component> {
    if pieces == [] then [] else PieceComponents(pieces[0], false) + TailComponents(pieces[1..])
  }

  /** `Path::components` on Unix: empty pieces vanish, a `.` counts only when it
      is the first piece, a leading separator is the root. */
  function Components(s: string): seq<Component> {
    var p := Pieces(s);
    if s == [] then []
    else if s[0] == '/' then [RootDir] + TailComponents(p)
    else PieceComponents(p[0], true) + TailComponents(p[1..])
  }

  function SafeBlobName(name: string): Option<string> {
    var t := Trim(name);
    if t == "" || t == "." || t == ".." then None
    else
      var comps := Components(t);
      if |comps| != 1 then None
      else
        match comps[0]
        case Normal(s) => if s == ".." || '/' in s || '\\' in s then None else Some(s)
        case _ => None
  }

  /** A name that denotes an entry of the directory it is joined to. */
  predicate SingleComponent(s: string) {
    s != "" && s != "." && s != ".." && '/' !in s
  }

  predicate Vanishing(pieces: seq<string>) {
    forall i :: 0 <= i < |pieces| ==> pieces[i] == "" || pieces[i] == "."
  }

  lemma {:induction false} TailVanishes(pieces: seq<string>)
    ensures TailComponents(pieces) == [] <==> Vanishing(pieces)
  {
    if pieces != [] {
      TailVanishes(pieces[1..]);
      if Vanishing(pieces[1..]) && (pieces[0] == "" || pieces[0] == ".") {
        assert forall i :: 0 <= i < |pieces| ==> pieces[i] == if i == 0 then pieces[0] else pieces[1..][i - 1];
      }
    }
  }

  lemma {:induction false} FirstPieceOfAbsolute(s: string)
    requires s != [] && s[0] == '/'
    ensures Pieces(s)[0] == ""
  {
  }

  lemma {:induction false} PiecesOfPlain(s: string)
    requires '/' !in s
    ensures Pieces(s) == [s]
  {
    if s != [] {
      PiecesOfPlain(s[1..]);
      assert s == [s[0]] + s[1..];
    }
  }

  /** Strings joined with separators between them. */
  function Joined(pieces: seq<string>): string {
    if pieces == [] then [] else if |pieces| == 1 then pieces[0] else pieces[0] + "/" + Joined(pieces[1..])
  }

  /** The pieces, none of which has a separator, make up the string. */
  lemma {:induction false} PiecesJoin(s: string)
    ensures Joined(Pieces(s)) == s
  {
    if s != [] {
      PiecesJoin(s[1..]);
      var rest := Pieces(s[1..]);
      if s[0] == '/' {
        assert Pieces(s)[1..] == rest;
      } else if |rest| == 1 {
        assert Pieces(s) == [[s[0]] + rest[0]];
      } else {
        assert Pieces(s)[1..] == rest[1..];
      }
      assert s == [s[0]] + s[1..];
    }
  }

  predicate AllWhite(s: string) {
    forall i :: 0 <= i < |s| ==> IsWhitespace(s[i])
  }

  lemma {:induction false} TrimStartDrops(before: string, s: string)
    requires AllWhite(before) && (s != [] ==> !IsWhitespace(s[0]))
    ensures TrimStart(before + s) == s
  {
    if before == [] {
      assert before + s == s;
    } else {
      assert (before + s)[0] == before[0] && (before + s)[1..] == before[1..] + s;
      TrimStartDrops(before[1..], s);
    }
  }

  lemma {:induction false} TrimEndDrops(s: string, after: string)
    requires AllWhite(after) && (s != [] ==> !IsWhitespace(s[|s| - 1]))
    ensures TrimEnd(s + after) == s
  {
    if after == [] {
      assert s + after == s;
    } else {
      var n := |after| - 1;
      assert (s + after)[|s| + n] == after[n] && (s + after)[..|s| + n] == s + after[..n];
      TrimEndDrops(s, after[..n]);
    }
  }

  /** Trimming takes off white space at both ends and nothing else. */
  lemma TrimExact(before: string, middle: string, after: string)
    requires AllWhite(before) && AllWhite(after)
    requires middle != [] ==> !IsWhitespace(middle[0]) && !IsWhitespace(middle[|middle| - 1])
    ensures Trim(before + middle + after) == middle
  {
    if middle == [] {
      TrimStartDrops(before + after, []);
      assert before + middle + after == before + after + [];
    } else {
      TrimStartDrops(before, middle + after);
      assert before + middle + after == before + (middle + after);
      TrimEndDrops(middle, after);
    }
  }

  /** Exactly which names are accepted, and as what: the trimmed name must start
      with an ordinary piece that has no backslash, followed only by pieces
      that name nothing (`""`, `"."`). The result is that first piece. */
  lemma SafeBlobNameExact(name: string, s: string)
    ensures SafeBlobName(name) == Some(s) <==>
              var p := Pieces(Trim(name));
              p[0] == s && SingleComponent(s) && '\\' !in s && Vanishing(p[1..])
  {
    var t := Trim(name);
    var p := Pieces(t);
    TailVanishes(p[1..]);
    if t != [] && t[0] == '/' {
      FirstPieceOfAbsolute(t);
    } else if t == "." || t == ".." {
      assert Pieces(t[1..])[0] == t[1..];
    }
    if p[0] == s && SingleComponent(s) && Vanishing(p[1..]) {
      assert Components(t) == [Normal(s)];
    }
  }

  /** Whatever the peer sends, an accepted name stays inside the directory. */
  lemma SafeBlobNameStaysInside(name: string)
    ensures SafeBlobName(name).Some? ==> SingleComponent(SafeBlobName(name).value)
  {
  }

  // ---- the temporary name -------------------------------------------------

  function TempName(name: string, id: nat): string {
    "." + name + "." + Print(id) + ".part"
  }

  lemma {:induction false} LastDot(a: string, d: string, b: string, e: string)
    requires a + "." + d == b + "." + e && '.' !in d && '.' !in e
    ensures a == b && d == e
  {
    var s := a + "." + d;
    var t := b + "." + e;
    assert s[|a|] == '.' && t[|b|] == '.';
    assert |a| == |b|;
    assert a == s[..|a|] && b == t[..|b|] && d == s[|a| + 1..] && e == t[|b| + 1..];
  }

  lemma DigitsHaveNoDot(n: nat)
    ensures '.' !in Print(n)
  {
  }

  /** Different (name, id) pairs never share a temporary file name. */
  lemma TempNameInjective(n1: string, id1: nat, n2: string, id2: nat)
    requires TempName(n1, id1) == TempName(n2, id2)
    ensures n1 == n2 && id1 == id2
  {
    var a := "." + n1 + "." + Print(id1);
    var b := "." + n2 + "." + Print(id2);
    assert a == TempName(n1, id1)[..|TempName(n1, id1)| - 5];
    assert b == TempName(n2, id2)[..|TempName(n2, id2)| - 5];
    DigitsHaveNoDot(id1);
    DigitsHaveNoDot(id2);
    LastDot("." + n1, Print(id1), "." + n2, Print(id2));
    assert n1 == ("." + n1)[1..] && n2 == ("." + n2)[1..];
    PrintInjective(id1, id2);
  }

  // ---- the final name -----------------------------------------------------

  const CANDIDATES: nat := 10_000

  /** Position of the last dot, or the length when there is none. */
  function LastDotIndex(s: string): (r: nat)
    ensures r <= |s|
    ensures r < |s| ==> s[r] == '.'
  {
    if s == [] then 0
    else if s[|s| - 1] == '.' then |s| - 1
    else
      var r := LastDotIndex(s[..|s| - 1]);
      if r == |s| - 1 then |s| else r
  }

  /** The k-th name tried: the name itself, then `stem (k).ext`. */
  function Candidate(name: string, k: nat): string {
    var d := LastDotIndex(name);
    if k == 0 then name else name[..d] + " (" + Print(k) + ")" + name[d..]
  }

  /** Where a name splits into stem and extension: at its last dot, if it has one. */
  predicate Splits(name: string, stem: string, ext: string) {
    && name == stem + ext
    && if '.' in name then ext != [] && ext[0] == '.' && '.' !in ext[1..] else ext == []
  }

  lemma {:induction false} LastDotIsLast(s: string)
    ensures '.' !in s[if LastDotIndex(s) < |s| then LastDotIndex(s) + 1 else |s|..]
  {
    if s != [] && s[|s| - 1] != '.' {
      LastDotIsLast(s[..|s| - 1]);
    }
  }

  lemma {:induction false} NoDotNoIndex(s: string)
    ensures LastDotIndex(s) == |s| <==> '.' !in s
  {
    if s != [] && s[|s| - 1] != '.' {
      NoDotNoIndex(s[..|s| - 1]);
      assert s == s[..|s| - 1] + [s[|s| - 1]];
    }
  }

  /** Every name splits, in one way. */
  lemma EveryNameSplits(name: string) returns (stem: string, ext: string)
    ensures Splits(name, stem, ext)
  {
    var d := LastDotIndex(name);
    LastDotIsLast(name);
    NoDotNoIndex(name);
    stem, ext := name[..d], name[d..];
    if d < |name| {
      assert name[d] == '.' && ext[1..] == name[d + 1..];
    }
  }

  lemma {:induction false} LastDotIndexExact(name: string, stem: string, ext: string)
    requires Splits(name, stem, ext)
    ensures LastDotIndex(name) == |stem|
  {
    if name != [] && name[|name| - 1] != '.' {
      var n := |name| - 1;
      if ext == [] {
        assert Splits(name[..n], name[..n], []);
        LastDotIndexExact(name[..n], name[..n], []);
      } else {
        var shorter := ext[..|ext| - 1];
        assert name[..n] == stem + shorter && name[|stem|] == '.';
        LastDotIndexExact(name[..n], stem, shorter);
      }
    }
  }

  /** The k-th name tried is the stem, a blank, k in parentheses and the extension. */
  lemma CandidateForm(name: string, stem: string, ext: string, k: nat)
    requires Splits(name, stem, ext) && k > 0
    ensures Candidate(name, k) == stem + " (" + Print(k) + ")" + ext
  {
    LastDotIndexExact(name, stem, ext);
  }

  /** In particular `stem.ext` becomes `stem (k).ext`. */
  lemma CandidateKeepsExtension(stem: string, ext: string, k: nat)
    requires '.' !in ext && k > 0
    ensures Candidate(stem + "." + ext, k) == stem + " (" + Print(k) + ")." + ext
  {
    assert ("." + ext)[1..] == ext && (stem + "." + ext)[|stem|] == '.';
    assert Splits(stem + "." + ext, stem, "." + ext);
    CandidateForm(stem + "." + ext, stem, "." + ext, k);
    assert ")" + ("." + ext) == ")." + ext;
  }

  lemma CandidateInjective(name: string, j: nat, k: nat)
    requires Candidate(name, j) == Candidate(name, k)
    ensures j == k
  {
    var d := LastDotIndex(name);
    assert name == name[..d] + name[d..];
    if j != 0 && k != 0 {
      var s, t := Candidate(name, j), Candidate(name, k);
      assert |Print(j)| == |Print(k)|;
      assert Print(j) == s[d + 2..d + 2 + |Print(j)|];
      assert Print(k) == t[d + 2..d + 2 + |Print(k)|];
      PrintInjective(j, k);
    }
  }

  lemma CandidateStaysInside(name: string, k: nat)
    requires SingleComponent(name)
    ensures SingleComponent(Candidate(name, k))
  {
  }

  function DirNames(fs: Fs, dir: Dir): set<string> {
    set p | p in fs.names && p.dir == dir :: p.name
  }

  predicate Taken(fs: Fs, dir: Dir, name: string, k: nat) {
    Path(dir, Candidate(name, k)) in fs.names
  }

  /** The search as a specification: the first candidate from `k` on that is
      not taken; the plain name when there is none. */
  function FirstFree(fs: Fs, dir: Dir, name: string, k: nat): string
    decreases CANDIDATES - k
  {
    if k >= CANDIDATES then name
    else if !Taken(fs, dir, name, k) then Candidate(name, k)
    else FirstFree(fs, dir, name, k + 1)
  }

  lemma {:induction false} FirstFreeIsFree(fs: Fs, dir: Dir, name: string, k: nat)
    requires exists j :: k <= j < CANDIDATES && !Taken(fs, dir, name, j)
    ensures Path(dir, FirstFree(fs, dir, name, k)) !in fs.names
    ensures exists j: nat :: j < CANDIDATES && FirstFree(fs, dir, name, k) == Candidate(name, j)
    decreases CANDIDATES - k
  {
    if Taken(fs, dir, name, k) {
      FirstFreeIsFree(fs, dir, name, k + 1);
    } else {
      assert FirstFree(fs, dir, name, k) == Candidate(name, k);
    }
  }

  lemma {:induction false} FirstFreeFallsBack(fs: Fs, dir: Dir, name: string, k: nat)
    requires forall j :: k <= j < CANDIDATES ==> Taken(fs, dir, name, j)
    ensures FirstFree(fs, dir, name, k) == name
    decreases CANDIDATES - k
  {
    if k < CANDIDATES {
      assert Taken(fs, dir, name, k);
      FirstFreeFallsBack(fs, dir, name, k + 1);
    }
  }

  function CandidateSet(name: string, n: nat): set<string> {
    if n == 0 then {} else CandidateSet(name, n - 1) + {Candidate(name, n - 1)}
  }

  lemma {:induction false} CandidateSetSize(name: string, n: nat)
    ensures |CandidateSet(name, n)| == n
    ensures forall s :: s in CandidateSet(name, n) ==> exists k: nat :: k < n && s == Candidate(name, k)
  {
    if n > 0 {
      CandidateSetSize(name, n - 1);
      if Candidate(name, n - 1) in CandidateSet(name, n - 1) {
        var k: nat :| k < n - 1 && Candidate(name, n - 1) == Candidate(name, k);
        CandidateInjective(name, n - 1, k);
      }
    }
  }

  lemma SubsetSize<T>(a: set<T>, b: set<T>)
    requires a <= b
    ensures |a| <= |b|
  {
    assert b == a + (b - a);
  }

  lemma AllTakenMeansCrowded(fs: Fs, dir: Dir, name: string)
    requires forall k :: 0 <= k < CANDIDATES ==> Taken(fs, dir, name, k)
    ensures |DirNames(fs, dir)| >= CANDIDATES
  {
    CandidateSetSize(name, CANDIDATES);
    forall s | s in CandidateSet(name, CANDIDATES)
      ensures s in DirNames(fs, dir)
    {
      var k: nat :| k < CANDIDATES && s == Candidate(name, k);
      assert Taken(fs, dir, name, k);
      assert Path(dir, s).name == s;
    }
    SubsetSize(CandidateSet(name, CANDIDATES), DirNames(fs, dir));
  }

  lemma RoomMeansFresh(fs: Fs, dir: Dir, name: string)
    requires |DirNames(fs, dir)| < CANDIDATES
    ensures Path(dir, FirstFree(fs, dir, name, 0)) !in fs.names
    ensures exists j: nat :: j < CANDIDATES && FirstFree(fs, dir, name, 0) == Candidate(name, j)
  {
    if forall k :: 0 <= k < CANDIDATES ==> Taken(fs, dir, name, k) {
      AllTakenMeansCrowded(fs, dir, name);
    }
    FirstFreeIsFree(fs, dir, name, 0);
  }

  /** A directory with fewer than 10,000 names always has room: the destination
      chosen for an accepted name is unused and directly in the directory. */
  lemma DestinationIsFresh(fs: Fs, dir: Dir, raw: string)
    requires SafeBlobName(raw).Some?
    requires |DirNames(fs, dir)| < CANDIDATES
    ensures var dest := FirstFree(fs, dir, SafeBlobName(raw).value, 0);
            SingleComponent(dest) && Path(dir, dest) !in fs.names
  {
    var name := SafeBlobName(raw).value;
    RoomMeansFresh(fs, dir, name);
    var j: nat :| j < CANDIDATES && FirstFree(fs, dir, name, 0) == Candidate(name, j);
    SafeBlobNameStaysInside(raw);
    CandidateStaysInside(name, j);
  }

  /** Exactly when the destination is a name already in use: all 10,000
      candidates are taken. */
  lemma DestinationTakenExactly(fs: Fs, dir: Dir, name: string)
    ensures Path(dir, FirstFree(fs, dir, name, 0)) in fs.names
            <==> forall k :: 0 <= k < CANDIDATES ==> Taken(fs, dir, name, k)
  {
    if forall k :: 0 <= k < CANDIDATES ==> Taken(fs, dir, name, k) {
      FirstFreeFallsBack(fs, dir, name, 0);
      assert Taken(fs, dir, name, 0);
    } else {
      FirstFreeIsFree(fs, dir, name, 0);
    }
  }

  /** `dest` is the name with the smallest number from 1 to 9999 that is free, or the
      name itself if none is. */
  ghost predicate FirstFreeNumber(fs: Fs, dir: Dir, name: string, stem: string, ext: string, dest: string) {
    if exists k :: 1 <= k < 10_000 && Path(dir, stem + " (" + Print(k) + ")" + ext) !in fs.names then
      exists k ::
        && 1 <= k < 10_000 && dest == stem + " (" + Print(k) + ")" + ext && Path(dir, dest) !in fs.names
        && forall j :: 1 <= j < k ==> Path(dir, stem + " (" + Print(j) + ")" + ext) in fs.names
    else dest == name
  }

  /** The search stops at `j`: everything before is taken, and `j` is free or past the
      last number. */
  lemma {:induction false} FirstFreeFrom(fs: Fs, dir: Dir, name: string, k: nat) returns (j: nat)
    requires k <= CANDIDATES
    ensures k <= j <= CANDIDATES && forall i :: k <= i < j ==> Taken(fs, dir, name, i)
    ensures j < CANDIDATES ==> !Taken(fs, dir, name, j) && FirstFree(fs, dir, name, k) == Candidate(name, j)
    ensures j == CANDIDATES ==> FirstFree(fs, dir, name, k) == name
    decreases CANDIDATES - k
  {
    if k < CANDIDATES && Taken(fs, dir, name, k) {
      j := FirstFreeFrom(fs, dir, name, k + 1);
    } else {
      j := k;
    }
  }

  lemma FirstFreeExact(fs: Fs, dir: Dir, name: string, stem: string, ext: string)
    requires Splits(name, stem, ext)
    ensures FirstFree(fs, dir, name, 0) == name || Path(dir, name) in fs.names
    ensures Path(dir, name) in fs.names ==> FirstFreeNumber(fs, dir, name, stem, ext, FirstFree(fs, dir, name, 0))
  {
    if Taken(fs, dir, name, 0) {
      var j := FirstFreeFrom(fs, dir, name, 1);
      forall k: nat | k >= 1
        ensures Taken(fs, dir, name, k) <==> Path(dir, stem + " (" + Print(k) + ")" + ext) in fs.names
      {
        CandidateForm(name, stem, ext, k);
      }
      if j < CANDIDATES {
        CandidateForm(name, stem, ext, j);
      }
    }
  }

  /** `unique_dest`: try the name, then the numbered names, then give up and
      return the name itself. */
  method UniqueDest(fs: Fs, dir: Dir, name: string) returns (dest: string)
    ensures dest == FirstFree(fs, dir, name, 0)
    ensures Path(dir, name) !in fs.names ==> dest == name
    ensures Path(dir, name) in fs.names ==>
              forall stem, ext :: Splits(name, stem, ext) ==> FirstFreeNumber(fs, dir, name, stem, ext, dest)
  {
    forall stem, ext | Splits(name, stem, ext)
      ensures FirstFree(fs, dir, name, 0) == name || Path(dir, name) in fs.names
      ensures Path(dir, name) in fs.names ==> FirstFreeNumber(fs, dir, name, stem, ext, FirstFree(fs, dir, name, 0))
    {
      FirstFreeExact(fs, dir, name, stem, ext);
    }
    if Path(dir, name) !in fs.names {
      assert !Taken(fs, dir, name, 0);
      return name;
    }
    assert Taken(fs, dir, name, 0);
    var d := LastDotIndex(name);
    var stem, ext := name[..d], name[d..];
    for i := 1 to CANDIDATES
      invariant FirstFree(fs, dir, name, 0) == FirstFree(fs, dir, name, i)
    {
      var cand := stem + " (" + Print(i) + ")" + ext;
      if Path(dir, cand) !in fs.names {
        assert !Taken(fs, dir, name, i);
        return cand;
      }
      assert Taken(fs, dir, name, i);
    }
    return name;
  }
}
