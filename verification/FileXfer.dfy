/** `FileXfer`, the object the frame router calls, against the specification in
    `Receiver`: its map, its directory and what it sends, changed in place. */
module FileXferObject {
  import opened Prelude
  import opened FileSystem
  import opened BlobNames
  import opened ReceivedFiles
  import opened DistinctNames
  import R = Receiver

  class FileXfer {
    const config: R.Config
    var incoming: map<R.Key, R.Incoming>
    var fs: Fs
    var log: seq<R.Event>

    function View(): R.State
      reads this
    {
      R.State(incoming, fs, log)
    }

    constructor (config: R.Config, fs: Fs)
      ensures View() == R.Init(fs) && this.config == config
    {
      this.config := config;
      this.incoming := map[];
      this.fs := fs;
      this.log := [];
    }

    method Reject(k: R.Key, why: R.Detail)
      modifies this`log
      ensures View() == R.Reject(old(View()), k, why)
    {
      log := log + [R.Verdict(k, false, why)];
    }

    method OnStart(k: R.Key, f: R.Frame, env: R.Env)
      requires f.BlobStart?
      modifies this
      ensures View() == R.OnStart(config, old(View()), k, f, env)
    {
      if |incoming| >= R.MAX_CONCURRENT_INCOMING {
        Reject(k, R.TooMany);
        return;
      }
      if f.purpose.ClipboardImage? {
        if !config.hasClipSink {
          Reject(k, R.NoClipSink);
        } else if f.size > R.MAX_MEM_BLOB {
          Reject(k, R.ImageTooLarge);
        } else {
          incoming := incoming[k := R.Incoming("clipboard-image", R.Memory([]), [], 0, f.size)];
        }
        return;
      }
      var safe := SafeBlobName(f.name);
      if safe.None? {
        Reject(k, R.UnsafeName);
        return;
      }
      var dir := MakeDir(fs, R.FinalDir(env));
      if !env.mkdirOk || dir.None? {
        Reject(k, R.MkdirFailed);
        return;
      }
      fs := dir.value;
      var tmp := R.TempPath(env, safe.value, k.id);
      var file := Create(fs, tmp);
      if !env.createOk || file.None? {
        Reject(k, R.CreateFailed);
        return;
      }
      fs := file.value.0;
      incoming := incoming[k := R.Incoming(safe.value, R.FileSink(tmp, file.value.1), [], 0, f.size)];
    }

    method OnChunk(k: R.Key, data: seq<byte>, env: R.Env)
      modifies this
      ensures View() == R.OnChunk(old(View()), k, data, env)
    {
      if k !in incoming {
        return;
      }
      var inc := incoming[k];
      match inc.sink
      case FileSink(tmp, h) =>
        if !env.writeOk {
          incoming := incoming - {k};
          fs := Remove(fs, tmp);
          Reject(k, R.WriteFailed);
          return;
        }
        var (fs', h') := Write(fs, h, data);
        fs := fs';
        inc := inc.(sink := R.FileSink(tmp, h'));
        inc := inc.(hashed := inc.hashed + data);
        inc := inc.(written := inc.written + |data|);
        incoming := incoming[k := inc];
      case Memory(buf) =>
        if |buf| + |data| > R.MAX_MEM_BLOB {
          incoming := incoming - {k};
          Reject(k, R.ImageTooLarge);
          return;
        }
        inc := inc.(sink := R.Memory(buf + data));
        inc := inc.(hashed := inc.hashed + data);
        inc := inc.(written := inc.written + |data|);
        incoming := incoming[k := inc];
    }

    method Cleanup(sink: R.Sink)
      modifies this`fs
      ensures View() == R.Cleanup(old(View()), sink)
    {
      if sink.FileSink? {
        fs := Remove(fs, sink.tmp);
      }
    }

    method OnEnd(k: R.Key, sha: Digest, env: R.Env)
      modifies this
      ensures View() == R.OnEnd(config, old(View()), k, sha, env)
    {
      if k !in incoming {
        return;
      }
      var inc := incoming[k];
      incoming := incoming - {k};
      if config.sha(inc.hashed) != sha {
        Cleanup(inc.sink);
        Reject(k, R.ShaMismatch);
      } else if inc.declared != 0 && inc.written != inc.declared {
        Cleanup(inc.sink);
        Reject(k, R.SizeMismatch);
      } else if inc.sink.Memory? {
        log := log + [R.ClipImage(k, inc.sink.buf), R.Verdict(k, true, R.ClipSaved)];
      } else {
        CommitFile(k, inc, env);
      }
    }

    method CommitFile(k: R.Key, inc: R.Incoming, env: R.Env)
      requires inc.sink.FileSink?
      modifies this
      ensures View() == R.CommitFile(old(View()), k, inc, env)
    {
      var dir := inc.sink.tmp.dir;
      var name := UniqueDest(fs, dir, inc.name);
      var dest := Path(dir, name);
      var moved := Rename(fs, inc.sink.tmp, dest);
      if !env.renameOk || moved.None? {
        Cleanup(inc.sink);
        Reject(k, R.RenameFailed);
        return;
      }
      fs := moved.value;
      log := log + [R.Commit(k, dest, fs.names[dest].ino, inc.hashed, Contents(fs, dest)),
                    R.Verdict(k, true, R.FileSaved(inc.name))];
    }

    /** One frame is one step of the specification. The limits on transfers and
        memory hold again afterwards; commits and transfers stay intact exactly
        when the frame disturbs none; and a frame proper in its names leaves
        every finished file alone. */
    method HandleInbound(x: R.Input)
      requires R.Bounded(View())
      modifies this
      ensures View() == R.Step(config, old(View()), x)
      ensures R.Bounded(View())
      ensures Good(old(View())) ==> (Good(View()) <==> Undisturbed(config, old(View()), x))
      ensures Good(old(View())) && Ordinary(old(View())) && Proper(old(View()), x) ==>
                Good(View()) && Ordinary(View()) && KeepsFiles(old(View()), View())
    {
      ghost var before := View();
      match x.frame {
        case BlobStart(_, _, _, _) => OnStart(x.Transfer(), x.frame, x.env);
        case BlobChunk(_, data) => OnChunk(x.Transfer(), data, x.env);
        case BlobEnd(_, sha) => OnEnd(x.Transfer(), sha, x.env);
      }
      ghost var effect := R.StepEffect(config, before, x);
      R.EffectKeepsBounds(before, x, View(), effect);
      if Good(before) {
        GoodExactly(config, before, x);
        if Ordinary(before) && Proper(before, x) {
          ProperStep(config, before, x);
        }
      }
    }
  }
}
