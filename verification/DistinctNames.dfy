/** When the download directory stays clear: nothing in it is named like a
    temporary file, no peer asks for such a name, and transfers in flight differ
    in directory, name or id. */
module DistinctNames {
  import opened Decimal
  import opened FileSystem
  import opened BlobNames
  import opened Receiver
  import opened ReceivedFiles

  ghost predicate TempLike(s: string) {
    exists n, id: nat :: s == TempName(n, id)
  }

  /** No transfer in flight has this directory, name and id. */
  ghost predicate Unused(s: State, dir: Dir, name: string, id: nat) {
    forall k :: IsFileEntry(s, k) && s.incoming[k].name == name && k.id == id ==> s.incoming[k].sink.tmp.dir != dir
  }

  /** A frame that gives the receiver no reason to reuse a name. */
  ghost predicate Proper(s: State, x: Input) {
    match x.frame
    case BlobStart(id, raw, _, purpose) =>
      && x.Transfer() !in s.incoming
      && (purpose.FileBlob? && SafeBlobName(raw).Some? ==>
            !TempLike(SafeBlobName(raw).value) && Unused(s, FinalDir(x.env), SafeBlobName(raw).value, id))
    case BlobChunk(_, _) => true
    case BlobEnd(_, _) =>
      IsFileEntry(s, x.Transfer()) ==> |DirNames(s.fs, s.incoming[x.Transfer()].sink.tmp.dir)| < CANDIDATES
  }

  ghost predicate ProperRun(c: Config, s: State, xs: seq<Input>) {
    xs != [] ==> ProperRun(c, s, xs[..|xs| - 1]) && Proper(Run(c, s, xs[..|xs| - 1]), xs[|xs| - 1])
  }

  /** Temporary files are named after their transfer. */
  ghost predicate NamedAfter(s: State, k: Key)
    requires IsFileEntry(s, k)
  {
    !TempLike(s.incoming[k].name) && s.incoming[k].sink.tmp.name == TempName(s.incoming[k].name, k.id)
  }

  ghost predicate Ordinary(s: State) {
    && (forall k :: IsFileEntry(s, k) ==> NamedAfter(s, k))
    && (forall p :: p in s.fs.names && TempLike(p.name) ==> LiveTemp(s, p))
  }

  lemma StartIsClear(s: State, x: Input)
    requires Ordinary(s) && Proper(s, x) && x.frame.BlobStart?
    ensures Clear(s, x)
  {
    if x.frame.purpose.FileBlob? && SafeBlobName(x.frame.name).Some? {
      var safe := SafeBlobName(x.frame.name).value;
      var tmp := TempPath(x.env, safe, x.frame.id);
      assert TempLike(tmp.name);
      forall k | IsFileEntry(s, k) ensures s.incoming[k].sink.tmp != tmp {
        assert NamedAfter(s, k);
        if s.incoming[k].sink.tmp.name == tmp.name {
          TempNameInjective(s.incoming[k].name, k.id, safe, x.frame.id);
        }
      }
    }
  }

  lemma ProperIsClear(s: State, x: Input)
    requires Ordinary(s) && Proper(s, x)
    ensures Clear(s, x)
  {
    if x.frame.BlobStart? {
      StartIsClear(s, x);
    } else if x.frame.BlobEnd? && IsFileEntry(s, x.Transfer()) {
      RoomMeansFresh(s.fs, s.incoming[x.Transfer()].sink.tmp.dir, s.incoming[x.Transfer()].name);
    }
  }

  /** A numbered name never looks like a temporary one: a parenthesis stands
      where the id would. */
  lemma NumberedIsNotTempLike(name: string, j: nat)
    requires j > 0
    ensures !TempLike(Candidate(name, j))
  {
    var d := LastDotIndex(name);
    var cand := Candidate(name, j);
    LastDotIsLast(name);
    forall n, id: nat ensures cand != TempName(n, id) {
      if cand == TempName(n, id) {
        var a := "." + n + "." + Print(id);
        var b := name[..d] + " (" + Print(j) + ")";
        assert IsDigit(a[|a| - 1]) by {
          assert AllDigits(Print(id)) && a[|a| - 1] == Print(id)[|Print(id)| - 1];
        }
        assert cand == a + "." + "part" && b[|b| - 1] == ')' && cand == b + name[d..];
        assert cand[|cand| - 1] == 't';
        assert d < |name| && name[d..] == "." + name[d + 1..];
        LastDot(a, "part", b, name[d + 1..]);
      }
    }
  }

  /** Where a file goes is not a temporary name either. */
  lemma DestinationIsOrdinary(fs: Fs, dir: Dir, name: string)
    requires !TempLike(name)
    ensures !TempLike(FirstFree(fs, dir, name, 0))
  {
    var j := FirstFreeIsCandidate(fs, dir, name, 0);
    if j > 0 {
      NumberedIsNotTempLike(name, j);
    }
  }

  lemma {:induction false} FirstFreeIsCandidate(fs: Fs, dir: Dir, name: string, k: nat) returns (j: nat)
    ensures FirstFree(fs, dir, name, k) == Candidate(name, j)
    decreases CANDIDATES - k
  {
    if k >= CANDIDATES {
      j := 0;
    } else if !Taken(fs, dir, name, k) {
      j := k;
    } else {
      j := FirstFreeIsCandidate(fs, dir, name, k + 1);
    }
  }

  // ---- what every proper frame keeps --------------------------------------

  lemma StartNamesAfter(c: Config, s: State, x: Input)
    requires x.frame.BlobStart? && Proper(s, x)
             && IsFileEntry(OnStart(c, s, x.Transfer(), x.frame, x.env), x.Transfer())
    ensures NamedAfter(OnStart(c, s, x.Transfer(), x.frame, x.env), x.Transfer())
  {
  }

  lemma KeepsNamedAfter(c: Config, s: State, x: Input, k: Key)
    requires Ordinary(s) && Proper(s, x) && IsFileEntry(Step(c, s, x), k)
    ensures NamedAfter(Step(c, s, x), k)
  {
    if x.Transfer() == k && x.frame.BlobStart? {
      StartNamesAfter(c, s, x);
    } else {
      var effect := StepEffect(c, s, x);
      assert IsFileEntry(s, k) && NamedAfter(s, k);
    }
  }

  lemma PendingIsNotTempLike()
    ensures !TempLike(PENDING_DIR.name)
  {
  }

  lemma CommitIsOrdinary(c: Config, s: State, x: Input)
    requires Ordinary(s) && |Step(c, s, x).log| == |s.log| + 2 && Step(c, s, x).log[|s.log|].Commit?
    ensures !TempLike(Step(c, s, x).log[|s.log|].path.name)
  {
    StepCommits(c, s, x, |s.log|);
    var e := s.incoming[x.Transfer()];
    assert NamedAfter(s, x.Transfer());
    DestinationIsOrdinary(s.fs, e.sink.tmp.dir, e.name);
  }

  lemma KeepsTempsLive(c: Config, s: State, x: Input, p: Path)
    requires Exclusive(s) && Ordinary(s) && Proper(s, x) && p in Step(c, s, x).fs.names && TempLike(p.name)
    ensures LiveTemp(Step(c, s, x), p)
  {
    var s' := Step(c, s, x);
    var effect := StepEffect(c, s, x);
    StepNames(c, s, x, p);
    PendingIsNotTempLike();
    if |s'.log| == |s.log| + 2 && s'.log[|s.log|].Commit? {
      CommitIsOrdinary(c, s, x);
    }
    if p in s.fs.names {
      StillLive(s, s', x, effect, p);
      LiveIsFile(s, p);
    }
  }

  lemma LiveIsFile(s: State, p: Path)
    requires Exclusive(s) && LiveTemp(s, p)
    ensures s.fs.IsFile(p)
  {
  }

  lemma StepOrdinary(c: Config, s: State, x: Input)
    requires Exclusive(s) && Ordinary(s) && Proper(s, x)
    ensures Ordinary(Step(c, s, x))
  {
    var s' := Step(c, s, x);
    forall k | IsFileEntry(s', k) ensures NamedAfter(s', k) {
      KeepsNamedAfter(c, s, x, k);
    }
    forall p | p in s'.fs.names && TempLike(p.name) ensures LiveTemp(s', p) {
      KeepsTempsLive(c, s, x, p);
    }
  }

  lemma ProperStep(c: Config, s: State, x: Input)
    requires Good(s) && Ordinary(s) && Proper(s, x)
    ensures var s' := Step(c, s, x);
            Clear(s, x) && Undisturbed(c, s, x) && Good(s') && Ordinary(s') && KeepsFiles(s, s')
  {
    ProperIsClear(s, x);
    StepOrdinary(c, s, x);
    StepKeepsFiles(c, s, x);
    ClearIsUndisturbed(c, s, x);
    UndisturbedKeepsGood(c, s, x);
  }

  /** From a directory without temporary-looking names, any run of proper frames
      finds the directory clear at every step; so no file is ever clobbered, and
      the temporary files on disk are exactly those of transfers in flight. */
  lemma {:induction false} ProperRunIsClear(c: Config, fs: Fs, xs: seq<Input>)
    requires fs.Valid() && (forall p :: p in fs.names ==> !TempLike(p.name)) && ProperRun(c, Init(fs), xs)
    ensures ClearRun(c, Init(fs), xs) && KeepsFiles(Init(fs), Run(c, Init(fs), xs))
    ensures UndisturbedRun(c, Init(fs), xs)
    ensures Ordinary(Run(c, Init(fs), xs)) && Good(Run(c, Init(fs), xs))
    ensures forall p :: (p in Run(c, Init(fs), xs).fs.names && TempLike(p.name)) <==> LiveTemp(Run(c, Init(fs), xs), p)
  {
    if xs != [] {
      var pre, x := xs[..|xs| - 1], xs[|xs| - 1];
      var s := Run(c, Init(fs), pre);
      ProperRunIsClear(c, fs, pre);
      ProperStep(c, s, x);
    }
    RunKeepsFiles(c, Init(fs), xs);
    var t := Run(c, Init(fs), xs);
    forall p | LiveTemp(t, p) ensures p in t.fs.names && TempLike(p.name) {
      LiveIsFile(t, p);
      var k :| IsFileEntry(t, k) && t.incoming[k].sink.tmp == p;
      assert NamedAfter(t, k);
    }
  }
}
