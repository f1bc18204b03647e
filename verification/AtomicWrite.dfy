/**
 Replacing a file by writing a temporary file beside it and renaming.

 Every system call is one step; the disk records each state it passes through, so a crash can be
 asked about at every point. After a crash the directories are those of some earlier point (nothing
 syncs a directory) and a file's data is certain only if it was synced.
 */
module AtomicWrite {
  import opened Options
  import opened LinkChain

  datatype FileMode = Default | Secure

  /** Mode 0o600. */
  const OWNER_ONLY: nat := 0x180

  // ---------------------------------------------------------------------
  // System calls
  // ---------------------------------------------------------------------

  function Mkdir(fs: FS, dir: DirId, name: Name): FS {
    fs.(subdirs := fs.subdirs[Key(dir, name) := fs.nextId][Key(fs.nextId, "..") := dir],
        entries := fs.entries[Key(dir, name) := Directory],
        nextId := fs.nextId + 1)
  }

  function CreateFile(fs: FS, k: Key, owner: (nat, nat)): FS {
    fs.(entries := fs.entries[k := File(fs.nextId)],
        files := fs.files[fs.nextId := FileData([], OWNER_ONLY, owner, false)],
        nextId := fs.nextId + 1)
  }

  function PutData(fs: FS, inode: Inode, data: FileData): FS {
    fs.(files := fs.files[inode := data])
  }

  function Rename(fs: FS, from: Key, to: Key): FS
    requires from in fs.entries
  {
    fs.(entries := (fs.entries - {from})[to := fs.entries[from]])
  }

  function Unlink(fs: FS, k: Key): FS {
    fs.(entries := fs.entries - {k})
  }

  /** `create_dir_all`: walk, creating what is missing; a name taken by anything but a directory stops it. */
  function MakeDirs(fs: FS, dir: DirId, comps: seq<Name>): Option<(FS, DirId)>
    decreases |comps|
  {
    if comps == [] then Some((fs, dir))
    else
      var k := Key(dir, comps[0]);
      if k in fs.subdirs then MakeDirs(fs, fs.subdirs[k], comps[1..])
      else if k in fs.entries then None
      else MakeDirs(Mkdir(fs, dir, comps[0]), fs.nextId, comps[1..])
  }

  /** `fs::metadata(p)`: the file at the end of the links, if there is one. */
  function Stat(fs: FS, p: Path): Option<FileData> {
    var k := KeyOf(fs, Hops(fs, p, MAX_SYMLINK_HOPS));
    if k.Some? && k.value in fs.entries && fs.entries[k.value].File? && fs.entries[k.value].inode in fs.files
    then Some(fs.files[fs.entries[k.value].inode])
    else None
  }

  function FinalMode(existing: Option<FileData>, mode: FileMode): nat {
    if mode == Default && existing.Some? then existing.value.mode else OWNER_ONLY
  }

  /** The filesystem and the states it has passed through. On a reliable disk no call fails; on others any may. */
  class Disk {
    const reliable: bool
    var fs: FS
    ghost var history: seq<FS>

    constructor (fs: FS, reliable: bool)
      ensures this.fs == fs && history == [fs] && this.reliable == reliable
    {
      this.fs, history, this.reliable := fs, [fs], reliable;
    }

    /** Whether the next call fails. */
    method Fails() returns (fails: bool)
      ensures reliable ==> !fails
    {
      var chance: bool := *;
      fails := !reliable && chance;
    }

    method Step(next: FS)
      modifies this
      ensures fs == next && history == old(history) + [next]
    {
      fs, history := next, history + [next];
    }
  }

  // ---------------------------------------------------------------------
  // What a write may do to the filesystem
  // ---------------------------------------------------------------------

  ghost predicate SubMap<K, V>(a: map<K, V>, b: map<K, V>) {
    forall k :: k in a ==> k in b && b[k] == a[k]
  }

  /** Directories and files are only added to. */
  ghost predicate Extends(fs0: FS, h: FS) {
    h.root == fs0.root && h.cwd == fs0.cwd && SubMap(fs0.subdirs, h.subdirs) && SubMap(fs0.files, h.files)
  }

  /** The file being put in place: its entry, its inode, and its data once written. */
  datatype Swap = Swap(key: Key, inode: Inode, data: FileData)

  ghost predicate DirsOnly(fs0: FS, h: FS) {
    && Extends(fs0, h) && h.files == fs0.files
    && SubMap(fs0.entries, h.entries)
    && forall k :: k in h.entries && k !in fs0.entries ==> h.entries[k] == Directory
  }

  ghost predicate Untouched(fs0: FS, h: FS, swap: Swap) {
    && Extends(fs0, h)
    && SubMap(fs0.entries, h.entries)
    && forall k :: k in h.entries && k !in fs0.entries ==>
         h.entries[k] == Directory || (h.entries[k] == File(swap.inode) && k != swap.key)
  }

  ghost predicate Replaced(fs0: FS, h: FS, swap: Swap) {
    && Extends(fs0, h)
    && (forall k :: k in fs0.entries && k != swap.key ==> k in h.entries && h.entries[k] == fs0.entries[k])
    && (forall k :: k in h.entries && k !in fs0.entries && k != swap.key ==> h.entries[k] == Directory)
    && swap.key in h.entries && h.entries[swap.key] == File(swap.inode)
    && swap.inode in h.files && h.files[swap.inode] == swap.data && swap.data.synced
  }

  ghost predicate QuietAt(history: seq<FS>, swap: Swap, i: nat)
    requires i < |history|
  {
    Untouched(history[0], history[i], swap) && SubMap(history[i].subdirs, history[|history| - 1].subdirs)
  }

  /** Nothing but directories and a temporary file has been added so far. */
  ghost predicate Quiet(history: seq<FS>, swap: Swap) {
    history != [] && forall i :: 0 <= i < |history| ==> QuietAt(history, swap, i)
  }

  /** The states of one write: untouched throughout, except that a successful write ends replaced. */
  ghost predicate IsWrite(history: seq<FS>, target: Path, swap: Swap, ok: bool) {
    && history != []
    && swap.inode !in history[0].files
    && (if ok then
          && |history| > 1
          && Quiet(history[..|history| - 1], swap)
          && Replaced(history[0], history[|history| - 1], swap)
          && history[|history| - 1].subdirs == history[|history| - 2].subdirs
          && KeyOf(history[|history| - 1], target) == Some(swap.key)
        else Quiet(history, swap))
    && (KeyOf(history[|history| - 1], target).Some? ==> KeyOf(history[|history| - 1], target) == Some(swap.key))
  }

  lemma QuietStep(history: seq<FS>, swap: Swap, next: FS)
    requires Quiet(history, swap) && Untouched(history[0], next, swap)
    requires SubMap(history[|history| - 1].subdirs, next.subdirs)
    ensures Quiet(history + [next], swap)
  {
    forall i | 0 <= i < |history| + 1 ensures QuietAt(history + [next], swap, i) {
      assert i < |history| ==> QuietAt(history, swap, i);
    }
  }

  lemma MkdirKeeps(fs0: FS, fs: FS, dir: DirId, name: Name)
    requires WellFormed(fs) && DirsOnly(fs0, fs) && dir < fs.nextId
    requires Key(dir, name) !in fs.subdirs && Key(dir, name) !in fs.entries
    ensures WellFormed(Mkdir(fs, dir, name)) && DirsOnly(fs0, Mkdir(fs, dir, name))
    ensures SubMap(fs.subdirs, Mkdir(fs, dir, name).subdirs)
  {
  }

  ghost predicate DirsAt(history: seq<FS>, i: nat)
    requires i < |history|
  {
    DirsOnly(history[0], history[i]) && SubMap(history[i].subdirs, history[|history| - 1].subdirs)
  }

  /** So far only directories have been made. */
  ghost predicate QuietDirs(history: seq<FS>) {
    history != [] && forall i :: 0 <= i < |history| ==> DirsAt(history, i)
  }

  lemma QuietDirsStep(history: seq<FS>, next: FS)
    requires QuietDirs(history) && DirsOnly(history[0], next)
    requires SubMap(history[|history| - 1].subdirs, next.subdirs)
    ensures QuietDirs(history + [next])
  {
    forall i | 0 <= i < |history| + 1 ensures DirsAt(history + [next], i) {
      assert i < |history| ==> DirsAt(history, i);
    }
  }

  /** Making only directories is quiet, whatever the swap is to be. */
  lemma QuietDirsAreQuiet(history: seq<FS>, swap: Swap)
    requires QuietDirs(history)
    ensures Quiet(history, swap) && DirsOnly(history[0], history[|history| - 1])
  {
    forall i | 0 <= i < |history| ensures QuietAt(history, swap, i) {
      assert DirsAt(history, i);
    }
    assert DirsAt(history, |history| - 1);
  }

  /** The disk has only gained directories since `fs0`, and `dir` is one it knows. */
  ghost predicate Making(fs0: FS, history: seq<FS>, fs: FS, dir: DirId) {
    && QuietDirs(history) && history[0] == fs0 && history[|history| - 1] == fs
    && WellFormed(fs) && dir < fs.nextId
  }

  lemma MakingMkdir(fs0: FS, history: seq<FS>, fs: FS, dir: DirId, name: Name)
    requires Making(fs0, history, fs, dir) && Key(dir, name) !in fs.subdirs && Key(dir, name) !in fs.entries
    ensures Making(fs0, history + [Mkdir(fs, dir, name)], Mkdir(fs, dir, name), fs.nextId)
  {
    assert DirsAt(history, |history| - 1);
    MkdirKeeps(fs0, fs, dir, name);
    QuietDirsStep(history, Mkdir(fs, dir, name));
  }

  /** One component of `create_dir_all`. */
  method EnsureDir(disk: Disk, dir: DirId, name: Name, ghost rest: seq<Name>)
    returns (ok: bool, next: DirId, ghost failed: bool)
    requires disk.history != [] && Making(disk.history[0], disk.history, disk.fs, dir)
    modifies disk
    ensures disk.reliable ==> !failed
    ensures Making(old(disk.history[0]), disk.history, disk.fs, next)
    ensures ok ==> !failed && MakeDirs(old(disk.fs), dir, [name] + rest) == MakeDirs(disk.fs, next, rest)
    ensures !ok && !failed ==> MakeDirs(old(disk.fs), dir, [name] + rest) == None
  {
    var k := Key(dir, name);
    assert ([name] + rest)[1..] == rest;
    if k in disk.fs.subdirs {
      return true, disk.fs.subdirs[k], false;
    }
    var fails := disk.Fails();
    if k in disk.fs.entries || fails {
      return false, dir, k !in disk.fs.entries;
    }
    MakingMkdir(disk.history[0], disk.history, disk.fs, dir, name);
    next := disk.fs.nextId;
    disk.Step(Mkdir(disk.fs, dir, name));
    ok, failed := true, false;
  }

  lemma StartMaking(fs: FS, dir: DirId)
    requires WellFormed(fs) && dir < fs.nextId
    ensures Making(fs, [fs], fs, dir)
  {
  }

  /** From `fs` the components from `i` on are still to be made, and the outcome is that of making them all. */
  ghost predicate StillToMake(fs0: FS, base: DirId, comps: seq<Name>, fs: FS, dir: DirId, i: nat)
    requires i <= |comps|
  {
    MakeDirs(fs0, base, comps) == MakeDirs(fs, dir, comps[i..])
  }

  lemma StartToMake(fs: FS, base: DirId, comps: seq<Name>)
    ensures StillToMake(fs, base, comps, fs, base, 0)
  {
    assert comps[0..] == comps;
  }

  lemma StuckMaking(fs0: FS, base: DirId, comps: seq<Name>, fs: FS, dir: DirId, i: nat)
    requires i < |comps| && StillToMake(fs0, base, comps, fs, dir, i)
    requires MakeDirs(fs, dir, [comps[i]] + comps[i + 1..]) == None
    ensures MakeDirs(fs0, base, comps) == None
  {
    assert comps[i..] == [comps[i]] + comps[i + 1..];
  }

  lemma OneMoreMade(fs0: FS, base: DirId, comps: seq<Name>, fs: FS, dir: DirId, i: nat, fs': FS, dir': DirId)
    requires i < |comps| && StillToMake(fs0, base, comps, fs, dir, i)
    requires MakeDirs(fs, dir, [comps[i]] + comps[i + 1..]) == MakeDirs(fs', dir', comps[i + 1..])
    ensures StillToMake(fs0, base, comps, fs', dir', i + 1)
  {
    assert comps[i..] == [comps[i]] + comps[i + 1..];
  }

  lemma NothingLeftToMake(fs0: FS, base: DirId, comps: seq<Name>, fs: FS, dir: DirId)
    requires StillToMake(fs0, base, comps, fs, dir, |comps|)
    ensures MakeDirs(fs0, base, comps) == Some((fs, dir))
  {
    assert comps[|comps|..] == [];
  }

  /** Create the missing directories one by one; each is a state of its own. */
  method EnsureDirs(disk: Disk, base: DirId, comps: seq<Name>) returns (ok: bool, ghost failed: bool)
    requires disk.history == [disk.fs] && WellFormed(disk.fs) && base < disk.fs.nextId
    modifies disk
    ensures disk.reliable ==> !failed
    ensures QuietDirs(disk.history) && disk.history[|disk.history| - 1] == disk.fs
    ensures disk.history[0] == old(disk.fs) && WellFormed(disk.fs)
    ensures ok ==> MakeDirs(old(disk.fs), base, comps).Some? && MakeDirs(old(disk.fs), base, comps).value.0 == disk.fs
    ensures !failed ==> (ok <==> MakeDirs(old(disk.fs), base, comps).Some?)
    ensures failed ==> !ok
  {
    ghost var fs0 := disk.fs;
    var dir: DirId := base;
    var i := 0;
    StartMaking(fs0, base);
    StartToMake(fs0, base, comps);
    while i < |comps|
      invariant i <= |comps| && disk.history != []
      invariant Making(fs0, disk.history, disk.fs, dir)
      invariant StillToMake(fs0, base, comps, disk.fs, dir, i)
    {
      ghost var fs, at := disk.fs, dir;
      ok, dir, failed := EnsureDir(disk, dir, comps[i], comps[i + 1..]);
      if !ok {
        if !failed {
          StuckMaking(fs0, base, comps, fs, at, i);
        }
        return;
      }
      OneMoreMade(fs0, base, comps, fs, at, i, disk.fs, dir);
      i := i + 1;
    }
    NothingLeftToMake(fs0, base, comps, disk.fs, dir);
    return true, false;
  }

  /** Whether the target names a symlink once its missing directories exist. */
  predicate LandsOnLink(fs: FS, target: Path) {
    && target.comps != []
    && var made := MakeDirs(fs, Base(fs, target), Parent(target).comps);
       made.Some? && IsLink(made.value.0, target)
  }

  lemma {:induction false} WalkGrows(a: FS, b: FS, dir: DirId, comps: seq<Name>)
    requires SubMap(a.subdirs, b.subdirs) && Walk(a, dir, comps).Some?
    ensures Walk(b, dir, comps) == Walk(a, dir, comps)
    decreases |comps|
  {
    if comps != [] {
      WalkGrows(a, b, a.subdirs[Key(dir, comps[0])], comps[1..]);
    }
  }

  /** New directories never change what a path that resolved already names. */
  lemma KeyGrows(a: FS, b: FS, p: Path)
    requires SubMap(a.subdirs, b.subdirs) && a.root == b.root && a.cwd == b.cwd
    ensures KeyOf(a, p).Some? ==> KeyOf(b, p) == KeyOf(a, p)
  {
    if KeyOf(a, p).Some? {
      WalkGrows(a, b, Base(a, p), p.comps[..|p.comps| - 1]);
    }
  }

  /** The regular file at an entry. */
  function FileAt(fs: FS, k: Option<Key>): Option<FileData> {
    if k.Some? && k.value in fs.entries && fs.entries[k.value].File? && fs.entries[k.value].inode in fs.files
    then Some(fs.files[fs.entries[k.value].inode])
    else None
  }

  /** Put new data on the temporary file's inode. */
  method Update(disk: Disk, data: FileData, ghost swap: Swap, ghost tmp: Key, inode: Inode)
    requires Filling(disk.history, disk.fs, swap, tmp) && inode == swap.inode
    modifies disk
    ensures Filling(disk.history, disk.fs, swap, tmp) && disk.history[0] == old(disk.history[0])
    ensures disk.fs == PutData(old(disk.fs), inode, data) && disk.history == old(disk.history) + [disk.fs]
  {
    QuietStep(disk.history, swap, PutData(disk.fs, inode, data));
    disk.Step(PutData(disk.fs, inode, data));
  }

  /** The temporary file exists at `tmp` and nothing else has changed. */
  ghost predicate Filling(history: seq<FS>, fs: FS, swap: Swap, tmp: Key) {
    && Quiet(history, swap) && history[|history| - 1] == fs && Untouched(history[0], fs, swap)
    && swap.inode !in history[0].files && swap.inode in fs.files
    && tmp !in history[0].entries && tmp in fs.entries && fs.entries[tmp] == File(swap.inode) && tmp != swap.key
    && forall k :: k in fs.entries && k !in history[0].entries && k != tmp ==> fs.entries[k] == Directory
  }

  /** Read and write for the owner, octal digits 6, 0, 0: nothing for group or others. */
  predicate IsPrivate(mode: nat) {
    mode / 64 == 6 && mode % 64 == 0
  }

  /** In state `h` the new file, if it exists yet, is private or, once `widened`, has the old file's mode. */
  ghost predicate PrivateOrWidened(h: FS, inode: Inode, widened: bool, existing: Option<FileData>) {
    inode in h.files ==>
      if widened then existing.Some? && h.files[inode].mode == existing.value.mode else IsPrivate(h.files[inode].mode)
  }

  /** The new file is private in every state before number `widened`, and from there on has the old file's mode. */
  ghost predicate KeptPrivate(history: seq<FS>, inode: Inode, widened: Option<nat>, existing: Option<FileData>) {
    && (widened.Some? ==> widened.value < |history|)
    && forall i :: 0 <= i < |history| ==>
         PrivateOrWidened(history[i], inode, widened.Some? && widened.value <= i, existing)
  }

  lemma KeptPrivateStep(history: seq<FS>, inode: Inode, widened: Option<nat>, existing: Option<FileData>, next: FS)
    requires KeptPrivate(history, inode, widened, existing) && history != []
    requires inode in next.files ==>
               var last := history[|history| - 1];
               inode in last.files && next.files[inode].mode == last.files[inode].mode
    ensures KeptPrivate(history + [next], inode, widened, existing)
  {
    assert PrivateOrWidened(history[|history| - 1], inode, widened.Some?, existing);
  }

  lemma CreatedPrivate(history: seq<FS>, inode: Inode, existing: Option<FileData>, next: FS)
    requires forall i :: 0 <= i < |history| ==> inode !in history[i].files
    requires inode in next.files && IsPrivate(next.files[inode].mode)
    ensures KeptPrivate(history + [next], inode, None, existing)
  {
  }

  lemma WidenedTo(history: seq<FS>, inode: Inode, existing: FileData, next: FS)
    requires KeptPrivate(history, inode, None, Some(existing))
    requires inode in next.files && next.files[inode].mode == existing.mode
    ensures KeptPrivate(history + [next], inode, Some(|history|), Some(existing))
  {
    forall i | 0 <= i < |history| ensures PrivateOrWidened((history + [next])[i], inode, false, Some(existing)) {
      assert PrivateOrWidened(history[i], inode, false, Some(existing));
    }
  }

  /** Give the temporary file the old file's owner and, by default, its mode. */
  method CopyOwnerAndMode(disk: Disk, inode: Inode, existing: FileData, mode: FileMode, ghost swap: Swap,
                          ghost tmp: Key)
    returns (ok: bool, ghost widened: Option<nat>, ghost failed: bool)
    requires Filling(disk.history, disk.fs, swap, tmp) && inode == swap.inode
    requires KeptPrivate(disk.history, inode, None, Some(existing))
    modifies disk
    ensures disk.reliable ==> !failed
    ensures Filling(disk.history, disk.fs, swap, tmp) && disk.history[0] == old(disk.history[0])
    ensures ok <==> !failed
    ensures KeptPrivate(disk.history, inode, widened, Some(existing)) && (mode == Secure ==> widened.None?)
    ensures disk.fs.subdirs == old(disk.fs.subdirs) && disk.fs.entries == old(disk.fs.entries)
    ensures ok ==> disk.fs.files[inode].mode ==
                   if mode == Default then existing.mode else old(disk.fs.files[inode].mode)
    ensures ok ==> disk.fs.files[inode].owner in {old(disk.fs.files[inode].owner), existing.owner}
    ensures disk.reliable ==> disk.fs.files[inode].owner == existing.owner
    ensures disk.fs.files[inode].bytes == old(disk.fs.files[inode].bytes)
  {
    var data := disk.fs.files[inode];
    widened := None;
    if existing.owner != data.owner {
      var chownFails := disk.Fails();
      var tolerated: bool := *;
      if !chownFails {
        data := data.(owner := existing.owner, synced := false);
        KeptPrivateStep(disk.history, inode, None, Some(existing), PutData(disk.fs, inode, data));
        Update(disk, data, swap, tmp, inode);
      } else if !tolerated {
        ok, failed := false, true;
        return;
      }
    }
    if mode == Default {
      var fails := disk.Fails();
      if fails {
        ok, failed := false, true;
        return;
      }
      data := data.(mode := existing.mode, synced := false);
      WidenedTo(disk.history, inode, existing, PutData(disk.fs, inode, data));
      widened := Some(|disk.history|);
      Update(disk, data, swap, tmp, inode);
    }
    ok, failed := true, false;
  }

  /** `write_all` in pieces of any size, then `sync_all`; any call may fail. */
  method FillAndSync(disk: Disk, inode: Inode, content: seq<byte>, ghost swap: Swap, ghost tmp: Key,
                     ghost widened: Option<nat>, ghost existing: Option<FileData>)
    returns (ok: bool, ghost failed: bool)
    requires Filling(disk.history, disk.fs, swap, tmp) && inode == swap.inode && disk.fs.files[inode].bytes == []
    requires KeptPrivate(disk.history, inode, widened, existing)
    modifies disk
    ensures disk.reliable ==> !failed
    ensures Filling(disk.history, disk.fs, swap, tmp) && disk.history[0] == old(disk.history[0])
    ensures KeptPrivate(disk.history, inode, widened, existing) && (ok <==> !failed)
    ensures disk.fs.subdirs == old(disk.fs.subdirs) && disk.fs.entries == old(disk.fs.entries)
    ensures ok ==> disk.fs.files[inode] == old(disk.fs.files[inode]).(bytes := content, synced := true)
  {
    ghost var data0, dirs, entries := disk.fs.files[inode], disk.fs.subdirs, disk.fs.entries;
    var written := 0;
    while written < |content|
      invariant written <= |content|
      invariant Filling(disk.history, disk.fs, swap, tmp) && disk.history[0] == old(disk.history[0])
      invariant KeptPrivate(disk.history, inode, widened, existing)
      invariant disk.fs.subdirs == dirs && disk.fs.entries == entries
      invariant disk.fs.files[inode].bytes == content[..written]
      invariant disk.fs.files[inode].mode == data0.mode && disk.fs.files[inode].owner == data0.owner
    {
      var n: nat :| 1 <= n;
      var fails := disk.Fails();
      if fails {
        return false, true;
      }
      var next := if written + n < |content| then written + n else |content|;
      var data := disk.fs.files[inode];
      assert content[..written] + content[written..next] == content[..next];
      data := data.(bytes := data.bytes + content[written..next], synced := false);
      KeptPrivateStep(disk.history, inode, widened, existing, PutData(disk.fs, inode, data));
      Update(disk, data, swap, tmp, inode);
      written := next;
    }
    var fails := disk.Fails();
    if fails {
      return false, true;
    }
    assert content[..written] == content;
    var synced := disk.fs.files[inode].(synced := true);
    KeptPrivateStep(disk.history, inode, widened, existing, PutData(disk.fs, inode, synced));
    Update(disk, synced, swap, tmp, inode);
    return true, false;
  }

  /** A dropped temporary file is unlinked, if that works. */
  method Discard(disk: Disk, ghost swap: Swap, tmp: Key, ghost widened: Option<nat>, ghost existing: Option<FileData>)
    requires Filling(disk.history, disk.fs, swap, tmp) && KeptPrivate(disk.history, swap.inode, widened, existing)
    modifies disk
    ensures KeptPrivate(disk.history, swap.inode, widened, existing)
    ensures Quiet(disk.history, swap) && disk.history[|disk.history| - 1] == disk.fs
    ensures disk.history[0] == old(disk.history[0]) && disk.fs.subdirs == old(disk.fs.subdirs)
    ensures disk.fs.root == old(disk.fs.root) && disk.fs.cwd == old(disk.fs.cwd)
  {
    var fails := disk.Fails();
    if !fails {
      QuietStep(disk.history, swap, Unlink(disk.fs, tmp));
      KeptPrivateStep(disk.history, swap.inode, widened, existing, Unlink(disk.fs, tmp));
      disk.Step(Unlink(disk.fs, tmp));
    }
  }

  lemma RenameReplaces(fs0: FS, fs: FS, swap: Swap, tmp: Key, history: seq<FS>)
    requires Filling(history, fs, swap, tmp) && history[0] == fs0
    requires swap.data == fs.files[swap.inode] && swap.data.synced
    ensures Replaced(fs0, Rename(fs, tmp, swap.key), swap)
  {
  }

  /** The swap's data is settled only when the write is; what came before does not depend on it. */
  lemma QuietWhateverTheData(history: seq<FS>, swap: Swap, data: FileData)
    requires Quiet(history, swap)
    ensures Quiet(history, swap.(data := data))
  {
    forall i | 0 <= i < |history| ensures QuietAt(history, swap.(data := data), i) {
      assert QuietAt(history, swap, i);
    }
  }

  lemma CreateFills(history: seq<FS>, fs: FS, swap: Swap, tmp: Key, owner: (nat, nat))
    requires Quiet(history, swap) && history[|history| - 1] == fs && WellFormed(fs) && DirsOnly(history[0], fs)
    requires tmp !in fs.entries && tmp != swap.key && swap.inode == fs.nextId
    ensures Filling(history + [CreateFile(fs, tmp, owner)], CreateFile(fs, tmp, owner), swap, tmp)
  {
    QuietStep(history, swap, CreateFile(fs, tmp, owner));
  }

  /** With no link at the target, its metadata is that of the file that was there. */
  lemma StatIsOldFile(fs0: FS, fs: FS, target: Path, tmp: Key, inode: Inode)
    requires KeyOf(fs, target).Some? && !IsLink(fs, target) && KeyOf(fs, target) != Some(tmp)
    requires SubMap(fs0.entries, fs.entries) && SubMap(fs0.files, fs.files)
    requires forall k :: k in fs.entries && k !in fs0.entries && k != tmp ==> fs.entries[k] == Directory
    requires forall k :: k in fs0.entries && fs0.entries[k].File? ==> fs0.entries[k].inode in fs0.files
    ensures Stat(fs, target) == FileAt(fs0, KeyOf(fs, target))
  {
    assert !LinkAt(fs, target, 0);
    EndStays(fs, target, 0, MAX_SYMLINK_HOPS);
  }

  /** Every regular file has data. */
  ghost predicate Complete(fs: FS) {
    WellFormed(fs) && forall k :: k in fs.entries && fs.entries[k].File? ==> fs.entries[k].inode in fs.files
  }

  lemma NewInodeIsNew(history: seq<FS>, fs: FS)
    requires QuietDirs(history) && history[|history| - 1] == fs && WellFormed(fs)
    ensures forall i :: 0 <= i < |history| ==> fs.nextId !in history[i].files
  {
    assert DirsAt(history, |history| - 1);
    forall i | 0 <= i < |history| ensures fs.nextId !in history[i].files {
      assert DirsAt(history, i);
    }
  }

  /** Create the temporary file and give it the owner and mode it is to have. */
  method PrepareTemp(disk: Disk, target: Path, key: Key, tmp: Key, mode: FileMode, writer: (nat, nat))
    returns (ok: bool, inode: Inode, ghost swap: Swap, ghost widened: Option<nat>, ghost failed: bool)
    requires QuietDirs(disk.history) && disk.history[|disk.history| - 1] == disk.fs && WellFormed(disk.fs)
    requires Complete(disk.history[0]) && KeyOf(disk.fs, target) == Some(key)
    requires tmp !in disk.fs.entries && tmp != key
    modifies disk
    ensures disk.reliable ==> !failed
    ensures swap.key == key && swap.inode == inode && Filling(disk.history, disk.fs, swap, tmp)
    ensures ok <==> !failed
    ensures disk.fs.entries == old(disk.fs.entries)[tmp := File(inode)]
    ensures disk.history[0] == old(disk.history[0]) && disk.fs.files[inode].bytes == []
    ensures KeyOf(disk.fs, target) == Some(key)
    ensures var existing := Stat(CreateFile(old(disk.fs), tmp, writer), target);
            && KeptPrivate(disk.history, inode, widened, existing)
            && (mode == Secure || existing.None? ==> widened.None?)
            && (ok ==> HasFinalMode(existing, disk.fs.files[inode], mode, writer))
            && (disk.reliable && existing.Some? ==> disk.fs.files[inode].owner == existing.value.owner)
            && (!old(IsLink(disk.fs, target)) ==> existing == FileAt(old(disk.history[0]), Some(key)))
  {
    ghost var fs0, made := disk.history[0], disk.fs;
    inode := disk.fs.nextId;
    swap := Swap(key, inode, FileData([], 0, writer, false));
    QuietDirsAreQuiet(disk.history, swap);
    CreateFills(disk.history, disk.fs, swap, tmp, writer);
    NewInodeIsNew(disk.history, disk.fs);
    CreatedPrivate(disk.history, inode, Stat(CreateFile(disk.fs, tmp, writer), target),
                   CreateFile(disk.fs, tmp, writer));
    disk.Step(CreateFile(disk.fs, tmp, writer));
    KeyGrows(made, disk.fs, target);
    var existing := Stat(disk.fs, target);
    widened := None;
    if !IsLink(made, target) {
      StatIsOldFile(fs0, disk.fs, target, tmp, inode);
    }
    ok, failed := true, false;
    if existing.Some? {
      ghost var created := disk.fs;
      ok, widened, failed := CopyOwnerAndMode(disk, inode, existing.value, mode, swap, tmp);
      KeyGrows(created, disk.fs, target);
    }
  }

  /** Write, sync and rename; on any failure the temporary file is discarded. */
  method FillAndPersist(disk: Disk, target: Path, key: Key, tmp: Key, inode: Inode, content: seq<byte>,
                        ghost swap0: Swap, ghost widened: Option<nat>, ghost existing: Option<FileData>)
    returns (ok: bool, ghost swap: Swap, ghost failed: bool)
    requires Filling(disk.history, disk.fs, swap0, tmp) && swap0.key == key && swap0.inode == inode
    requires KeptPrivate(disk.history, inode, widened, existing)
    requires disk.fs.files[inode].bytes == [] && KeyOf(disk.fs, target) == Some(key)
    modifies disk
    ensures disk.reliable ==> !failed
    ensures disk.history != [] && disk.history[0] == old(disk.history[0])
    ensures disk.history[|disk.history| - 1] == disk.fs
    ensures IsWrite(disk.history, target, swap, ok) && swap.key == key
    ensures ok <==> !failed && !(key in old(disk.fs.entries) && old(disk.fs.entries)[key] == Directory)
    ensures swap.inode == inode && KeptPrivate(disk.history, inode, widened, existing)
    ensures ok ==> swap.data == old(disk.fs.files[inode]).(bytes := content, synced := true)
  {
    ghost var start := disk.fs;
    swap := swap0;
    ok, failed := FillAndSync(disk, inode, content, swap, tmp, widened, existing);
    var fails := disk.Fails();
    if !ok || fails || (key in disk.fs.entries && disk.fs.entries[key] == Directory) {
      failed := failed || fails;
      Discard(disk, swap, tmp, widened, existing);
      KeyGrows(start, disk.fs, target);
      ok := false;
      return;
    }
    ghost var before := disk.history;
    QuietWhateverTheData(before, swap, disk.fs.files[inode]);
    swap := swap.(data := disk.fs.files[inode]);
    RenameReplaces(disk.history[0], disk.fs, swap, tmp, before);
    KeptPrivateStep(disk.history, inode, widened, existing, Rename(disk.fs, tmp, key));
    disk.Step(Rename(disk.fs, tmp, key));
    KeyGrows(start, disk.fs, target);
    assert disk.history[..|disk.history| - 1] == before;
  }

  /** Everything from the temporary file to the rename. */
  method ReplaceFile(disk: Disk, target: Path, key: Key, tmp: Key, content: seq<byte>, mode: FileMode,
                     writer: (nat, nat))
    returns (ok: bool, ghost swap: Swap, ghost widened: Option<nat>, ghost failed: bool)
    requires QuietDirs(disk.history) && disk.history[|disk.history| - 1] == disk.fs && WellFormed(disk.fs)
    requires Complete(disk.history[0]) && KeyOf(disk.fs, target) == Some(key)
    requires tmp !in disk.fs.entries && tmp != key
    modifies disk
    ensures disk.reliable ==> !failed
    ensures disk.history != [] && disk.history[0] == old(disk.history[0])
    ensures disk.history[|disk.history| - 1] == disk.fs
    ensures IsWrite(disk.history, target, swap, ok) && swap.key == key
    ensures ok <==> !failed && !(key in old(disk.fs.entries) && old(disk.fs.entries)[key] == Directory)
    ensures ok ==> swap.data.bytes == content
    ensures var existing := Stat(CreateFile(old(disk.fs), tmp, writer), target);
            && KeptPrivate(disk.history, swap.inode, widened, existing)
            && (mode == Secure || existing.None? ==> widened.None?)
            && (ok ==> HasFinalMode(existing, swap.data, mode, writer))
            && (ok && disk.reliable && existing.Some? ==> swap.data.owner == existing.value.owner)
            && (!old(IsLink(disk.fs, target)) ==> existing == FileAt(old(disk.history[0]), Some(key)))
  {
    ghost var existing := Stat(CreateFile(disk.fs, tmp, writer), target);
    var inode;
    ok, inode, swap, widened, failed := PrepareTemp(disk, target, key, tmp, mode, writer);
    if ok {
      ok, swap, failed := FillAndPersist(disk, target, key, tmp, inode, content, swap, widened, existing);
    } else {
      ghost var prepared := disk.fs;
      Discard(disk, swap, tmp, widened, existing);
      KeyGrows(prepared, disk.fs, target);
    }
  }

  /** The entry a successful write replaces. */
  ghost predicate ReplacesAt(fs0: FS, target: Path, key: Key) {
    && target.comps != []
    && var made := MakeDirs(fs0, Base(fs0, target), Parent(target).comps);
       made.Some? && KeyOf(made.value.0, target) == Some(key)
  }

  /** The old file whose mode and owner the write copies: what the target names once the temporary file exists. */
  function OldFile(fs0: FS, target: Path, key: Key, tmpName: Name, writer: (nat, nat)): Option<FileData>
    requires target.comps != []
  {
    var made := MakeDirs(fs0, Base(fs0, target), Parent(target).comps);
    if made.None? then None else Stat(CreateFile(made.value.0, Key(key.dir, tmpName), writer), target)
  }

  /**
   What a successful write put in place: where, which bytes, and whose mode and owner. Unless the target lands on a
   link, the old file is the one that stood at the very entry.
   */
  ghost predicate Wrote(fs0: FS, target: Path, swap: Swap, content: seq<byte>, mode: FileMode, writer: (nat, nat),
                        tmpName: Name)
  {
    && ReplacesAt(fs0, target, swap.key)
    && swap.data.bytes == content
    && var existing := OldFile(fs0, target, swap.key, tmpName, writer);
       && HasFinalMode(existing, swap.data, mode, writer)
       && (!LandsOnLink(fs0, target) ==> existing == FileAt(fs0, Some(swap.key)))
  }

  predicate HasFinalMode(existing: Option<FileData>, data: FileData, mode: FileMode, writer: (nat, nat)) {
    && data.mode == FinalMode(existing, mode)
    && (data.owner == writer || (existing.Some? && data.owner == existing.value.owner))
  }

  lemma WroteWhenReplaced(fs0: FS, fs: FS, target: Path, swap: Swap, content: seq<byte>, mode: FileMode,
                          writer: (nat, nat), tmpName: Name)
    requires target.comps != []
    requires var made := MakeDirs(fs0, Base(fs0, target), Parent(target).comps); made.Some? && made.value.0 == fs
    requires KeyOf(fs, target) == Some(swap.key) && swap.data.bytes == content
    requires var existing := Stat(CreateFile(fs, Key(swap.key.dir, tmpName), writer), target);
             && HasFinalMode(existing, swap.data, mode, writer)
             && (!IsLink(fs, target) ==> existing == FileAt(fs0, Some(swap.key)))
    ensures Wrote(fs0, target, swap, content, mode, writer, tmpName)
  {
  }

  /**
   Through all the states of a write the new file is private, unless it is a default write over an old file: then it is
   private until, at state `widened`, it takes the old file's mode.
   */
  ghost predicate ModesAreKept(history: seq<FS>, target: Path, swap: Swap, mode: FileMode, writer: (nat, nat),
                               tmpName: Name, widened: Option<nat>)
  {
    && history != [] && target.comps != []
    && var existing := OldFile(history[0], target, swap.key, tmpName, writer);
       KeptPrivate(history, swap.inode, widened, existing) && (mode == Secure || existing.None? ==> widened.None?)
  }

  /** A file that replaces another belongs to the other's owner. */
  ghost predicate OwnerIsKept(fs0: FS, target: Path, swap: Swap, writer: (nat, nat), tmpName: Name) {
    && target.comps != []
    && var existing := OldFile(fs0, target, swap.key, tmpName, writer);
       existing.Some? ==> swap.data.owner == existing.value.owner
  }

  lemma NoFileYet(history: seq<FS>, inode: Inode, existing: Option<FileData>)
    requires QuietDirs(history) && inode !in history[0].files
    ensures KeptPrivate(history, inode, None, existing)
  {
    forall i | 0 <= i < |history| ensures inode !in history[i].files {
      assert DirsAt(history, i);
    }
  }

  /** A write that stops with only directories made. */
  lemma StopsEarly(history: seq<FS>, target: Path, swap: Swap, mode: FileMode, writer: (nat, nat), tmpName: Name)
    requires QuietDirs(history) && target.comps != [] && swap.inode !in history[0].files
    requires var key := KeyOf(history[|history| - 1], target); key.Some? ==> key.value == swap.key
    ensures IsWrite(history, target, swap, false)
    ensures ModesAreKept(history, target, swap, mode, writer, tmpName, None)
  {
    QuietDirsAreQuiet(history, swap);
    NoFileYet(history, swap.inode, OldFile(history[0], target, swap.key, tmpName, writer));
  }

  lemma OldFileIs(fs0: FS, fs: FS, target: Path, key: Key, tmpName: Name, writer: (nat, nat))
    requires target.comps != []
    requires var made := MakeDirs(fs0, Base(fs0, target), Parent(target).comps); made.Some? && made.value.0 == fs
    ensures OldFile(fs0, target, key, tmpName, writer) == Stat(CreateFile(fs, Key(key.dir, tmpName), writer), target)
  {
  }

  /** Once its directories are made the target's entry is no directory, and the temporary name is free beside it. */
  predicate CanReplace(fs0: FS, target: Path, tmpName: Name) {
    && target.comps != []
    && var made := MakeDirs(fs0, Base(fs0, target), Parent(target).comps);
       && made.Some?
       && var fs, key := made.value.0, KeyOf(made.value.0, target);
          && key.Some? && tmpName != key.value.name && Key(key.value.dir, tmpName) !in fs.entries
          && !(key.value in fs.entries && fs.entries[key.value] == Directory)
  }

  lemma CanReplaceIff(fs0: FS, fs: FS, target: Path, key: Key, tmpName: Name)
    requires target.comps != []
    requires var made := MakeDirs(fs0, Base(fs0, target), Parent(target).comps); made.Some? && made.value.0 == fs
    requires KeyOf(fs, target) == Some(key)
    ensures CanReplace(fs0, target, tmpName) <==>
            && tmpName != key.name && Key(key.dir, tmpName) !in fs.entries
            && !(key in fs.entries && fs.entries[key] == Directory)
  {
  }

  /** With the directories made and the temporary name free, replace what stands at the entry. */
  method ReplaceAt(disk: Disk, target: Path, key: Key, content: seq<byte>, mode: FileMode, writer: (nat, nat),
                   tmpName: Name)
    returns (ok: bool, ghost swap: Swap, ghost widened: Option<nat>, ghost failed: bool)
    requires QuietDirs(disk.history) && disk.history[|disk.history| - 1] == disk.fs && WellFormed(disk.fs)
    requires Complete(disk.history[0]) && target.comps != [] && KeyOf(disk.fs, target) == Some(key)
    requires var made := MakeDirs(disk.history[0], Base(disk.history[0], target), Parent(target).comps);
             made.Some? && made.value.0 == disk.fs
    requires Key(key.dir, tmpName) !in disk.fs.entries && tmpName != key.name
    modifies disk
    ensures disk.reliable ==> !failed
    ensures disk.history != [] && disk.history[0] == old(disk.history[0])
    ensures disk.history[|disk.history| - 1] == disk.fs
    ensures IsWrite(disk.history, target, swap, ok)
    ensures ok ==> Wrote(old(disk.history[0]), target, swap, content, mode, writer, tmpName)
    ensures ModesAreKept(disk.history, target, swap, mode, writer, tmpName, widened)
    ensures ok <==> !failed && CanReplace(old(disk.history[0]), target, tmpName)
    ensures ok && disk.reliable ==> OwnerIsKept(old(disk.history[0]), target, swap, writer, tmpName)
  {
    ghost var fs0, fs := disk.history[0], disk.fs;
    OldFileIs(fs0, fs, target, key, tmpName, writer);
    CanReplaceIff(fs0, fs, target, key, tmpName);
    ok, swap, widened, failed := ReplaceFile(disk, target, key, Key(key.dir, tmpName), content, mode, writer);
    if ok {
      WroteWhenReplaced(fs0, fs, target, swap, content, mode, writer, tmpName);
    }
  }

  /** Make the target's directories and replace what stands at its name. */
  method WriteAt(disk: Disk, target: Path, content: seq<byte>, mode: FileMode, writer: (nat, nat), tmpName: Name)
    returns (ok: bool, ghost swap: Swap, ghost widened: Option<nat>, ghost failed: bool)
    requires disk.history == [disk.fs] && Complete(disk.fs) && target.comps != []
    modifies disk
    ensures disk.reliable ==> !failed
    ensures disk.history != [] && disk.history[0] == old(disk.fs) && disk.history[|disk.history| - 1] == disk.fs
    ensures IsWrite(disk.history, target, swap, ok)
    ensures ok ==> Wrote(old(disk.fs), target, swap, content, mode, writer, tmpName)
    ensures ModesAreKept(disk.history, target, swap, mode, writer, tmpName, widened)
    ensures ok <==> !failed && CanReplace(old(disk.fs), target, tmpName)
    ensures ok && disk.reliable ==> OwnerIsKept(old(disk.fs), target, swap, writer, tmpName)
  {
    swap := Swap(Key(0, ""), disk.fs.nextId, FileData([], 0, writer, false));
    ok, widened := false, None;
    var made: bool;
    made, failed := EnsureDirs(disk, Base(disk.fs, target), Parent(target).comps);
    var key := KeyOf(disk.fs, target);
    swap := swap.(key := if key.Some? then key.value else swap.key);
    var fails := disk.Fails();
    if key.None? || !made || fails {
      failed := failed || fails;
      StopsEarly(disk.history, target, swap, mode, writer, tmpName);
      return;
    }
    if tmpName == key.value.name || Key(key.value.dir, tmpName) in disk.fs.entries {
      StopsEarly(disk.history, target, swap, mode, writer, tmpName);
      CanReplaceIff(old(disk.fs), disk.fs, target, key.value, tmpName);
      return;
    }
    ok, swap, widened, failed := ReplaceAt(disk, target, key.value, content, mode, writer, tmpName);
  }

  /**
   Replace the file at the end of `path`'s links. Any call may fail; `tmpName` is the random name
   of the temporary file, refused when it is taken or is the target's own.
   */
  method AtomicWriteImpl(disk: Disk, path: Path, content: seq<byte>, mode: FileMode, writer: (nat, nat), tmpName: Name)
    returns (ok: bool, ghost swap: Swap, ghost widened: Option<nat>, ghost failed: bool)
    requires disk.history == [disk.fs] && Complete(disk.fs)
    modifies disk
    ensures disk.reliable ==> !failed
    ensures ok <==> !failed && ResolveTarget(old(disk.fs), path).Some?
                    && CanReplace(old(disk.fs), ResolveTarget(old(disk.fs), path).value, tmpName)
    ensures ok && disk.reliable ==>
              OwnerIsKept(old(disk.fs), ResolveTarget(old(disk.fs), path).value, swap, writer, tmpName)
    ensures ResolveTarget(old(disk.fs), path).None? ==> !ok && disk.history == [old(disk.fs)]
    ensures disk.history != [] && disk.history[0] == old(disk.fs) && disk.history[|disk.history| - 1] == disk.fs
    ensures ResolveTarget(old(disk.fs), path).Some? ==>
              IsWrite(disk.history, ResolveTarget(old(disk.fs), path).value, swap, ok)
    ensures ok ==> Wrote(old(disk.fs), ResolveTarget(old(disk.fs), path).value, swap, content, mode, writer, tmpName)
    ensures ResolveTarget(old(disk.fs), path).Some? && ResolveTarget(old(disk.fs), path).value.comps != [] ==>
              ModesAreKept(disk.history, ResolveTarget(old(disk.fs), path).value, swap, mode, writer, tmpName, widened)
  {
    swap := Swap(Key(0, ""), disk.fs.nextId, FileData([], 0, writer, false));
    ok, widened, failed := false, None, false;
    var resolved := WriteTarget(disk.fs, path);
    if resolved.None? {
      return;
    }
    var target := resolved.value;
    if target.comps == [] {
      return;
    }
    ok, swap, widened, failed := WriteAt(disk, target, content, mode, writer, tmpName);
  }

  /** The mode of a written file in octal digits: 6, 0, 0 when secure or new, else the mode of the file replaced. */
  lemma FinalModeInOctal(fs0: FS, target: Path, swap: Swap, content: seq<byte>, mode: FileMode, writer: (nat, nat),
                         tmpName: Name)
    requires Wrote(fs0, target, swap, content, mode, writer, tmpName)
    ensures mode == Secure ==> swap.data.mode / 64 == 6 && swap.data.mode % 64 == 0
    ensures !LandsOnLink(fs0, target) && FileAt(fs0, Some(swap.key)).None? ==>
              swap.data.mode / 64 == 6 && swap.data.mode % 64 == 0
    ensures mode == Default && !LandsOnLink(fs0, target) && FileAt(fs0, Some(swap.key)).Some? ==>
              swap.data.mode == FileAt(fs0, Some(swap.key)).value.mode
  {
  }

  /** Nothing of the new file is ever open to group or others: always when secure, else until it takes the old mode. */
  lemma NewFileIsPrivate(history: seq<FS>, target: Path, swap: Swap, mode: FileMode, writer: (nat, nat),
                         tmpName: Name, widened: Option<nat>, i: nat)
    requires ModesAreKept(history, target, swap, mode, writer, tmpName, widened) && i < |history|
    requires swap.inode in history[i].files
    ensures mode == Secure || widened.None? || i < widened.value ==>
              history[i].files[swap.inode].mode / 64 == 6 && history[i].files[swap.inode].mode % 64 == 0
    ensures mode == Default && widened.Some? && widened.value <= i ==>
              var existing := OldFile(history[0], target, swap.key, tmpName, writer);
              existing.Some? && history[i].files[swap.inode].mode == existing.value.mode
  {
    var existing := OldFile(history[0], target, swap.key, tmpName, writer);
    assert PrivateOrWidened(history[i], swap.inode, widened.Some? && widened.value <= i, existing);
  }

  // ---------------------------------------------------------------------
  // Crashes
  // ---------------------------------------------------------------------

  /** After a crash at point `i`: directories as of some point `j` before, data as of `i` where it was synced. */
  ghost predicate CrashedAt(history: seq<FS>, i: nat, j: nat, c: FS) {
    && j <= i < |history|
    && c.root == history[j].root && c.cwd == history[j].cwd
    && c.subdirs == history[j].subdirs && c.entries == history[j].entries
    && forall n :: n in history[i].files && history[i].files[n].synced ==>
         n in c.files && c.files[n] == history[i].files[n]
  }

  function InodeAt(fs: FS, p: Path): Option<Inode> {
    var k := KeyOf(fs, p);
    if k.Some? && k.value in fs.entries && fs.entries[k.value].File? then Some(fs.entries[k.value].inode) else None
  }

  /** The target reads as it did: the same file or none, with its bytes if they had been synced. */
  ghost predicate ShowsOld(fs0: FS, target: Path, key: Key, c: FS) {
    && (InodeAt(fs0, target).Some? ==> InodeAt(c, target) == InodeAt(fs0, target))
    && (InodeAt(c, target).Some? ==>
          var n := InodeAt(c, target).value;
          && key in fs0.entries && fs0.entries[key] == File(n)
          && (n in fs0.files && fs0.files[n].synced ==> n in c.files && c.files[n] == fs0.files[n]))
  }

  ghost predicate ShowsNew(target: Path, swap: Swap, c: FS) {
    InodeAt(c, target) == Some(swap.inode) && swap.inode in c.files && c.files[swap.inode] == swap.data
  }

  lemma StateOfWrite(history: seq<FS>, target: Path, swap: Swap, ok: bool, i: nat)
    requires IsWrite(history, target, swap, ok) && i < |history|
    ensures || Untouched(history[0], history[i], swap)
            || (ok && i == |history| - 1 && Replaced(history[0], history[i], swap))
    ensures Extends(history[0], history[i])
    ensures KeyOf(history[i], target).Some? ==> KeyOf(history[i], target) == Some(swap.key)
    ensures KeyOf(history[0], target).Some? ==> KeyOf(history[i], target) == Some(swap.key)
  {
    var last := history[|history| - 1];
    var quiet := if ok then history[..|history| - 1] else history;
    if i < |quiet| {
      assert quiet[i] == history[i] && QuietAt(quiet, swap, i);
    }
    assert QuietAt(quiet, swap, 0) && QuietAt(quiet, swap, |quiet| - 1);
    assert SubMap(history[i].subdirs, last.subdirs);
    KeyGrows(history[i], last, target);
    KeyGrows(history[0], history[i], target);
  }

  /** At every crash point the target reads as its complete old state or as the complete new content. */
  lemma CrashShowsOldOrNew(history: seq<FS>, target: Path, swap: Swap, ok: bool, i: nat, j: nat, c: FS)
    requires IsWrite(history, target, swap, ok) && CrashedAt(history, i, j, c)
    ensures ShowsOld(history[0], target, swap.key, c) || ShowsNew(target, swap, c)
  {
    StateOfWrite(history, target, swap, ok, 0);
    StateOfWrite(history, target, swap, ok, i);
    StateOfWrite(history, target, swap, ok, j);
    assert KeyOf(c, target) == KeyOf(history[j], target) by {
      KeyGrows(c, history[j], target);
      KeyGrows(history[j], c, target);
    }
  }

  /** Every other name keeps its file or link, and every other file its synced bytes. */
  lemma CrashKeepsOtherNames(history: seq<FS>, target: Path, swap: Swap, ok: bool, i: nat, j: nat, c: FS, k: Key)
    requires IsWrite(history, target, swap, ok) && CrashedAt(history, i, j, c)
    requires k in history[0].entries && k != swap.key
    ensures k in c.entries && c.entries[k] == history[0].entries[k]
    ensures c.entries[k].File? ==>
              var n := c.entries[k].inode;
              n in history[0].files && history[0].files[n].synced ==> n in c.files && c.files[n] == history[0].files[n]
  {
    StateOfWrite(history, target, swap, ok, i);
    StateOfWrite(history, target, swap, ok, j);
  }

  lemma {:induction false} MakeDirsAddsDirs(fs0: FS, fs: FS, dir: DirId, comps: seq<Name>)
    requires WellFormed(fs) && DirsOnly(fs0, fs) && dir < fs.nextId
    requires MakeDirs(fs, dir, comps).Some?
    ensures DirsOnly(fs0, MakeDirs(fs, dir, comps).value.0)
    decreases |comps|
  {
    if comps != [] {
      var k := Key(dir, comps[0]);
      if k in fs.subdirs {
        MakeDirsAddsDirs(fs0, fs, fs.subdirs[k], comps[1..]);
      } else {
        MkdirKeeps(fs0, fs, dir, comps[0]);
        MakeDirsAddsDirs(fs0, Mkdir(fs, dir, comps[0]), fs.nextId, comps[1..]);
      }
    }
  }

  /** Once made, the directories can be walked to their end, and every entry added is a directory. */
  lemma {:induction false} MadeDirsCanBeWalked(fs: FS, dir: DirId, comps: seq<Name>)
    requires WellFormed(fs) && dir < fs.nextId && MakeDirs(fs, dir, comps).Some?
    ensures var (made, last) := MakeDirs(fs, dir, comps).value;
            && Walk(made, dir, comps) == Some(last)
            && SubMap(fs.subdirs, made.subdirs) && SubMap(fs.entries, made.entries) && made.files == fs.files
            && (forall k :: k in made.subdirs && k !in fs.subdirs && k.name != ".." ==>
                  k in made.entries && made.entries[k] == Directory)
    decreases |comps|
  {
    if comps != [] {
      var k := Key(dir, comps[0]);
      if k in fs.subdirs {
        MadeDirsCanBeWalked(fs, fs.subdirs[k], comps[1..]);
      } else {
        var next := Mkdir(fs, dir, comps[0]);
        MkdirKeeps(fs, fs, dir, comps[0]);
        MadeDirsCanBeWalked(next, fs.nextId, comps[1..]);
        assert k in next.subdirs && next.subdirs[k] == fs.nextId;
      }
    }
  }

  lemma LandsOnLinkIffKeyIsLink(fs0: FS, target: Path, key: Key)
    requires WellFormed(fs0) && ReplacesAt(fs0, target, key)
    ensures LandsOnLink(fs0, target) <==> key in LinkKeys(fs0)
  {
    MakeDirsAddsDirs(fs0, fs0, Base(fs0, target), Parent(target).comps);
  }

  /** A successful write keeps every link of the filesystem exactly when the target does not land on one. */
  lemma LinksKeptIff(history: seq<FS>, target: Path, swap: Swap)
    requires IsWrite(history, target, swap, true) && WellFormed(history[0])
    requires ReplacesAt(history[0], target, swap.key)
    ensures (forall k :: k in LinkKeys(history[0]) ==>
               && k in history[|history| - 1].entries
               && history[|history| - 1].entries[k] == history[0].entries[k])
            <==> !LandsOnLink(history[0], target)
  {
    LandsOnLinkIffKeyIsLink(history[0], target, swap.key);
    StateOfWrite(history, target, swap, true, |history| - 1);
  }

  lemma {:induction false} HopsSurvive(fs0: FS, c: FS, p: Path, key: Key, n: nat)
    requires SubMap(fs0.subdirs, c.subdirs) && fs0.root == c.root && fs0.cwd == c.cwd
    requires key !in LinkKeys(fs0)
    requires forall k :: k in fs0.entries && k != key ==> k in c.entries && c.entries[k] == fs0.entries[k]
    requires forall m :: 0 <= m < n ==> LinkAt(fs0, p, m)
    ensures Hops(c, p, n) == Hops(fs0, p, n)
    ensures forall m :: 0 <= m < n ==> LinkAt(c, p, m)
  {
    if n > 0 {
      HopsSurvive(fs0, c, p, key, n - 1);
      var q := Hops(fs0, p, n - 1);
      assert LinkAt(fs0, p, n - 1);
      KeyGrows(fs0, c, q);
      assert KeyOf(fs0, q).value in LinkKeys(fs0);
      assert LinkAt(c, p, n - 1);
    }
  }

  /** Through a crash the path still leads to the same target, unless the target lands on a link. */
  lemma CrashKeepsChain(history: seq<FS>, path: Path, n: nat, swap: Swap, ok: bool, i: nat, j: nat, c: FS)
    requires n <= 39 && history != [] && ChainEnds(history[0], path, n)
    requires IsWrite(history, Hops(history[0], path, n), swap, ok) && CrashedAt(history, i, j, c)
    requires swap.key !in LinkKeys(history[0])
    ensures ChainEnds(c, path, n) && Hops(c, path, n) == Hops(history[0], path, n)
    ensures ResolveTarget(c, path) == Some(Hops(history[0], path, n))
  {
    var target := Hops(history[0], path, n);
    StateOfWrite(history, target, swap, ok, j);
    HopsSurvive(history[0], c, path, swap.key, n);
    KeyGrows(c, history[j], target);
    assert !LinkAt(c, path, n);
    EndStays(c, path, n, 39);
  }

  // ---------------------------------------------------------------------
  // A write can succeed
  // ---------------------------------------------------------------------

  /** The states that creating missing directories passes through. */
  function DirStates(fs: FS, dir: DirId, comps: seq<Name>): seq<FS>
    decreases |comps|
  {
    if comps == [] then []
    else
      var k := Key(dir, comps[0]);
      if k in fs.subdirs then DirStates(fs, fs.subdirs[k], comps[1..])
      else if k in fs.entries then []
      else
        var next := Mkdir(fs, dir, comps[0]);
        [next] + DirStates(next, fs.nextId, comps[1..])
  }

  lemma {:induction false} DirStatesMake(fs0: FS, history: seq<FS>, fs: FS, dir: DirId, comps: seq<Name>)
    requires Making(fs0, history, fs, dir) && MakeDirs(fs, dir, comps).Some?
    ensures var (made, last) := MakeDirs(fs, dir, comps).value;
            Making(fs0, history + DirStates(fs, dir, comps), made, last)
    decreases |comps|
  {
    if comps == [] {
      assert history + [] == history;
    } else {
      var k := Key(dir, comps[0]);
      if k in fs.subdirs {
        DirStatesMake(fs0, history, fs, fs.subdirs[k], comps[1..]);
      } else {
        var next := Mkdir(fs, dir, comps[0]);
        MakingMkdir(fs0, history, fs, dir, comps[0]);
        DirStatesMake(fs0, history + [next], next, fs.nextId, comps[1..]);
        assert history + ([next] + DirStates(next, fs.nextId, comps[1..]))
            == history + [next] + DirStates(next, fs.nextId, comps[1..]);
      }
    }
  }

  lemma PutDataFills(history: seq<FS>, fs: FS, swap: Swap, tmp: Key, data: FileData)
    requires Filling(history, fs, swap, tmp)
    ensures Filling(history + [PutData(fs, swap.inode, data)], PutData(fs, swap.inode, data), swap, tmp)
  {
    QuietStep(history, swap, PutData(fs, swap.inode, data));
  }

  /** From a synced temporary file the rename completes the write. */
  lemma RenameCompletes(fs0: FS, made: FS, history: seq<FS>, fs: FS, target: Path, swap: Swap, tmp: Key)
    requires Filling(history, fs, swap, tmp) && history[0] == fs0
    requires swap.data == fs.files[swap.inode] && swap.data.synced
    requires made.subdirs == fs.subdirs && made.root == fs.root && made.cwd == fs.cwd
    requires KeyOf(made, target) == Some(swap.key)
    ensures IsWrite(history + [Rename(fs, tmp, swap.key)], target, swap, true)
  {
    var renamed := Rename(fs, tmp, swap.key);
    var all := history + [renamed];
    RenameReplaces(fs0, fs, swap, tmp, history);
    KeyGrows(made, renamed, target);
    assert all[..|all| - 1] == history;
  }

  /** Wherever a target has an entry to replace that is no directory, some run of the calls replaces it. */
  lemma WriteSucceeds(fs0: FS, target: Path, key: Key, tmpName: Name, content: seq<byte>, writer: (nat, nat))
    returns (history: seq<FS>, swap: Swap)
    requires WellFormed(fs0) && ReplacesAt(fs0, target, key) && CanReplace(fs0, target, tmpName)
    ensures IsWrite(history, target, swap, true)
    ensures history[0] == fs0 && swap.key == key && swap.data.bytes == content
  {
    var base, comps, tmp := Base(fs0, target), Parent(target).comps, Key(key.dir, tmpName);
    var (made, last) := MakeDirs(fs0, base, comps).value;
    DirStatesMake(fs0, [fs0], fs0, base, comps);
    history := [fs0] + DirStates(fs0, base, comps);
    var written := FileData(content, OWNER_ONLY, writer, false);
    swap := Swap(key, made.nextId, written.(synced := true));
    QuietDirsAreQuiet(history, swap);
    CreateFills(history, made, swap, tmp, writer);
    var created := CreateFile(made, tmp, writer);
    history := history + [created];
    PutDataFills(history, created, swap, tmp, written);
    var filled := PutData(created, swap.inode, written);
    history := history + [filled];
    PutDataFills(history, filled, swap, tmp, swap.data);
    var synced := PutData(filled, swap.inode, swap.data);
    history := history + [synced];
    RenameCompletes(fs0, made, history, synced, target, swap, tmp);
    history := history + [Rename(synced, tmp, key)];
  }

  /** A directory with one link, `f -> x/../f`, and no `x`. */
  function LinkThroughMissing(): FS {
    FS(0, 0, map[], map[Key(0, "f") := Link(Path(false, ["x", "..", "f"]))], map[], 1)
  }

  lemma LinkThroughMissingResolves()
    ensures WellFormed(LinkThroughMissing())
    ensures ResolveTarget(LinkThroughMissing(), Path(false, ["f"])) == Some(Path(false, ["x", "..", "f"]))
  {
    var fs, p, target := LinkThroughMissing(), Path(false, ["f"]), Path(false, ["x", "..", "f"]);
    assert p.comps[..0] == [] && target.comps[..2] == ["x", ".."];
    assert KeyOf(fs, p) == Some(Key(0, "f"));
    assert Parent(p).comps + target.comps == target.comps;
    assert Hops(fs, p, 1) == target by { assert Hops(fs, p, 0) == p; }
    assert KeyOf(fs, target) == None;
    EndStays(fs, p, 1, 39);
  }

  lemma LinkThroughMissingLands()
    ensures var fs, target := LinkThroughMissing(), Path(false, ["x", "..", "f"]);
            && MakeDirs(fs, 0, Parent(target).comps) == Some((Mkdir(fs, 0, "x"), 0))
            && KeyOf(Mkdir(fs, 0, "x"), target) == Some(Key(0, "f"))
  {
    var fs, target := LinkThroughMissing(), Path(false, ["x", "..", "f"]);
    assert target.comps[..2] == ["x", ".."] && ["x", ".."][1..] == [".."] && [".."][1..] == [];
    var made := Mkdir(fs, 0, "x");
    assert MakeDirs(fs, 0, ["x", ".."]) == MakeDirs(made, 1, [".."]);
    assert MakeDirs(made, 1, [".."]) == Some((made, 0));
    assert Walk(made, 0, ["x", ".."]) == Walk(made, 1, [".."]) == Some(0);
  }

  /**
   A link to a path through a missing directory and back is followed to its end, and then creating the directory makes
   that end the link itself: a write of any content through the link succeeds, and a file stands where the link stood.
   */
  lemma LinkThroughMissingDirectoryIsLost(content: seq<byte>, writer: (nat, nat))
    returns (history: seq<FS>, swap: Swap)
    ensures ResolveTarget(LinkThroughMissing(), Path(false, ["f"])) == Some(Path(false, ["x", "..", "f"]))
    ensures LandsOnLink(LinkThroughMissing(), Path(false, ["x", "..", "f"]))
    ensures IsWrite(history, Path(false, ["x", "..", "f"]), swap, true)
    ensures history[0] == LinkThroughMissing() && swap.data.bytes == content
    ensures Key(0, "f") in LinkKeys(history[0])
            && Key(0, "f") in history[|history| - 1].entries
            && history[|history| - 1].entries[Key(0, "f")] == File(swap.inode)
  {
    LinkThroughMissingResolves();
    LinkThroughMissingLands();
    var fs, target := LinkThroughMissing(), Path(false, ["x", "..", "f"]);
    assert ReplacesAt(fs, target, Key(0, "f"));
    assert Key(0, "t") !in Mkdir(fs, 0, "x").entries;
    history, swap := WriteSucceeds(fs, target, Key(0, "f"), "t", content, writer);
  }

  /** Every crash of the recorded write shows the old file or the new one. */
  ghost predicate CrashSafe(history: seq<FS>, target: Path, swap: Swap) {
    history != [] &&
    forall i, j, c :: CrashedAt(history, i, j, c) ==>
      ShowsOld(history[0], target, swap.key, c) || ShowsNew(target, swap, c)
  }

  /** `atomic_write` and, with `Secure`, `atomic_write_secure`. */
  method AtomicWrite(disk: Disk, path: Path, content: seq<byte>, mode: FileMode, writer: (nat, nat), tmpName: Name)
    returns (ok: bool, ghost swap: Swap, ghost widened: Option<nat>, ghost failed: bool)
    requires disk.history == [disk.fs] && Complete(disk.fs)
    modifies disk
    ensures disk.reliable ==> !failed
    ensures ok <==> !failed && ResolveTarget(old(disk.fs), path).Some?
                    && CanReplace(old(disk.fs), ResolveTarget(old(disk.fs), path).value, tmpName)
    ensures ok && disk.reliable ==>
              OwnerIsKept(old(disk.fs), ResolveTarget(old(disk.fs), path).value, swap, writer, tmpName)
    ensures ok ==> ResolveTarget(old(disk.fs), path).Some?
    ensures ResolveTarget(old(disk.fs), path).Some? ==>
              CrashSafe(disk.history, ResolveTarget(old(disk.fs), path).value, swap)
    ensures ResolveTarget(old(disk.fs), path).None? ==> disk.fs == old(disk.fs)
    ensures ok ==> ShowsNew(ResolveTarget(old(disk.fs), path).value, swap, disk.fs) && swap.data.synced
    ensures ok ==> Wrote(old(disk.fs), ResolveTarget(old(disk.fs), path).value, swap, content, mode, writer, tmpName)
    ensures ResolveTarget(old(disk.fs), path).Some? ==>
              && disk.history[0] == old(disk.fs) && disk.history[|disk.history| - 1] == disk.fs
              && IsWrite(disk.history, ResolveTarget(old(disk.fs), path).value, swap, ok)
    ensures ResolveTarget(old(disk.fs), path).Some? && ResolveTarget(old(disk.fs), path).value.comps != [] ==>
              ModesAreKept(disk.history, ResolveTarget(old(disk.fs), path).value, swap, mode, writer, tmpName, widened)
    ensures ok && mode == Secure ==> swap.data.mode / 64 == 6 && swap.data.mode % 64 == 0
    ensures !ok && ResolveTarget(old(disk.fs), path).Some? ==>
              && Untouched(old(disk.fs), disk.fs, swap)
              && ShowsOld(old(disk.fs), ResolveTarget(old(disk.fs), path).value, swap.key, disk.fs)
  {
    ok, swap, widened, failed := AtomicWriteImpl(disk, path, content, mode, writer, tmpName);
    var target := ResolveTarget(disk.history[0], path);
    if ok {
      FinalModeInOctal(disk.history[0], target.value, swap, content, mode, writer, tmpName);
    }
    if target.Some? {
      forall i, j, c | CrashedAt(disk.history, i, j, c)
        ensures ShowsOld(disk.history[0], target.value, swap.key, c) || ShowsNew(target.value, swap, c)
      {
        CrashShowsOldOrNew(disk.history, target.value, swap, ok, i, j, c);
      }
      var last := |disk.history| - 1;
      StateOfWrite(disk.history, target.value, swap, ok, 0);
      StateOfWrite(disk.history, target.value, swap, ok, last);
    }
  }
}
