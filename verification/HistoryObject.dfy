/** `History`, the object the daemon keeps, against the specification in
    `History`: the deque, the counter and the directory, changed in place. */
module HistoryObject {
  import opened Prelude
  import opened Decimal
  import H = History

  class History {
    const sha: seq<byte> -> Digest
    const max: nat
    var entries: seq<H.Entry>
    var nextFile: nat
    var files: map<string, seq<byte>>
    var index: Option<seq<H.Entry>>

    function View(): H.State
      reads this
    {
      H.State(max, entries, nextFile, H.Disk(files, index))
    }

    /** `History::load`: the index, truncated, and the next free number found by
        scanning it. */
    constructor (sha: seq<byte> -> Digest, disk: H.Disk, max: nat)
      ensures View() == H.Load(disk, max) && this.sha == sha
    {
      var es := if disk.index.Some? then disk.index.value else [];
      if max < |es| {
        es := es[..max];
      }
      var next := 0;
      for i := 0 to |es|
        invariant next == H.NextFile(es[..i])
      {
        assert es[..i + 1][..i] == es[..i] && es[..i + 1][i] == es[i];
        if es[i].body.Image? {
          var n := H.FileNumber(es[i].body.file);
          if n.Some? && n.value >= next {
            next := n.value + 1;
          }
        }
      }
      assert es[..|es|] == es;
      this.sha := sha;
      this.max := max;
      this.entries := es;
      this.nextFile := next;
      this.files := disk.files;
      this.index := disk.index;
    }

    method Push(e: H.Entry)
      modifies this`entries, this`files, this`index
      ensures View() == H.Push(old(View()), e)
    {
      if |entries| > 0 && entries[0].hash == e.hash {
        return;
      }
      entries := [e] + entries;
      ghost var all := entries;
      while |entries| > max
        invariant |entries| <= |all| && entries == all[..|entries|]
        invariant max <= |entries| || entries == all
        invariant H.Evict(entries, files, max) == H.Evict(all, old(files), max)
      {
        var last := entries[|entries| - 1];
        assert all[..|entries| - 1] == entries[..|entries| - 1];
        entries := entries[..|entries| - 1];
        if last.body.Image? {
          files := files - {last.body.file};
        }
      }
      assert entries == H.Take(all, max);
      index := Some(entries);
    }

    method RecordText(text: seq<byte>, when: nat, origin: string)
      modifies this`entries, this`files, this`index
      ensures View() == H.RecordText(sha, old(View()), text, when, origin)
    {
      if max == 0 || text == [] {
        return;
      }
      Push(H.Entry(H.Text(text), when, origin, sha(text)));
    }

    method RecordImage(png: seq<byte>, when: nat, origin: string, writeOk: bool)
      modifies this
      ensures View() == H.RecordImage(sha, old(View()), png, when, origin, writeOk)
    {
      if max == 0 {
        return;
      }
      var hash := sha(png);
      if |entries| > 0 && entries[0].hash == hash {
        return;
      }
      var n := nextFile;
      nextFile := (nextFile + 1) % U64_LIMIT;
      if !writeOk {
        return;
      }
      var file := H.PngName(n);
      files := files[file := png];
      Push(H.Entry(H.Image(file), when, origin, hash));
    }

    method Get(i: nat) returns (r: Option<H.Content>)
      ensures r == H.Get(View(), i)
    {
      if i >= |entries| {
        return None;
      }
      match entries[i].body
      case Text(t) => return Some(H.TextContent(t));
      case Image(f) =>
        if f in files {
          return Some(H.ImageContent(files[f]));
        }
        return None;
    }
  }
}
