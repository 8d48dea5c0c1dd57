/** The download directory: names, inodes and open handles. */
module FileSystem {
  import opened Prelude

  /** The two directories incoming files can land in. */
  datatype Dir = Downloads | Pending

  datatype Path = Path(dir: Dir, name: string)

  datatype Node = File(ino: nat) | Directory

  /** An open file: the inode it refers to (whatever its name becomes) and the
      write position. */
  datatype Handle = Handle(ino: nat, pos: nat)

  /** `names` is the directory, `data` the contents of every inode ever made,
      `next` the first inode number not used yet. */
  datatype Fs = Fs(names: map<Path, Node>, data: map<nat, seq<byte>>, next: nat) {

    predicate Valid() {
      && (forall i :: i in data ==> i < next)
      && (forall p :: p in names && names[p].File? ==> names[p].ino in data)
    }

    predicate IsFile(p: Path) {
      p in names && names[p].File?
    }

    predicate IsDirectory(p: Path) {
      p in names && names[p].Directory?
    }
  }

  /** What a reader of `p` sees. */
  function Contents(fs: Fs, p: Path): seq<byte> {
    if fs.IsFile(p) && fs.names[p].ino in fs.data then fs.data[fs.names[p].ino] else []
  }

  const PENDING_DIR := Path(Downloads, "pending")

  /** `create_dir_all` of the final directory: the download directory itself
      always exists; `pending` fails when a file has that name. */
  function MakeDir(fs: Fs, dir: Dir): Option<Fs> {
    if dir.Downloads? then Some(fs)
    else if fs.IsFile(PENDING_DIR) then None
    else Some(fs.(names := fs.names[PENDING_DIR := Directory]))
  }

  /** `File::create`: truncate the file that is there, or make a new one. */
  function Create(fs: Fs, p: Path): Option<(Fs, Handle)> {
    if fs.IsDirectory(p) then None
    else if fs.IsFile(p) then
      var i := fs.names[p].ino;
      Some((fs.(data := fs.data[i := []]), Handle(i, 0)))
    else
      Some((Fs(fs.names[p := File(fs.next)], fs.data[fs.next := []], fs.next + 1), Handle(fs.next, 0)))
  }

  /** Bytes after writing `b` at `pos`; a gap is filled with zeros. */
  function Overwrite(was: seq<byte>, pos: nat, b: seq<byte>): seq<byte> {
    var head := if pos <= |was| then was[..pos] else was + seq(pos - |was|, _ => 0 as byte);
    var tail := if pos + |b| <= |was| then was[pos + |b|..] else [];
    head + b + tail
  }

  /** `write_all` through a handle: the inode changes, whatever name it has. */
  function Write(fs: Fs, h: Handle, b: seq<byte>): (Fs, Handle) {
    var was := if h.ino in fs.data then fs.data[h.ino] else [];
    (fs.(data := fs.data[h.ino := Overwrite(was, h.pos, b)]), h.(pos := h.pos + |b|))
  }

  /** `rename`: fails when the source is gone or the target is a directory;
      replaces a file that has the target name. */
  function Rename(fs: Fs, from: Path, to: Path): Option<Fs> {
    if fs.IsFile(from) && !fs.IsDirectory(to)
    then Some(fs.(names := (fs.names - {from})[to := fs.names[from]]))
    else None
  }

  /** `remove_file`. */
  function Remove(fs: Fs, p: Path): Fs {
    if fs.IsFile(p) then fs.(names := fs.names - {p}) else fs
  }
}
