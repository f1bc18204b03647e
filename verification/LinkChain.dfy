/**
 Paths, symbolic links and the file a write to a path replaces.

 The kernel resolves a path one component at a time, so `subdirs` gives for each directory
 and name the directory an inner component leads to, through `..` and through links to
 directories. A link node is a directory entry: two different path strings that name the same entry
 name the same link, and following it from either leads to the same entry.
 */
module LinkChain {
  import opened Options

  type Name = string
  type DirId = nat
  type Inode = nat

  datatype Path = Path(absolute: bool, comps: seq<Name>)

  /** A directory entry. */
  datatype Key = Key(dir: DirId, name: Name)

  datatype Entry = File(inode: Inode) | Link(text: Path) | Directory

  datatype FileData = FileData(bytes: seq<byte>, mode: nat, owner: (nat, nat), synced: bool)

  datatype FS = FS(
    root: DirId,
    cwd: DirId,
    subdirs: map<Key, DirId>,
    entries: map<Key, Entry>,
    files: map<Inode, FileData>,
    nextId: nat)

  /** No link text is empty, and `nextId` is above every identifier in use. */
  ghost predicate WellFormed(fs: FS) {
    && fs.root < fs.nextId && fs.cwd < fs.nextId
    && (forall k :: k in fs.subdirs ==> k.dir < fs.nextId && fs.subdirs[k] < fs.nextId)
    && (forall k :: k in fs.entries && fs.entries[k].Link? ==>
          fs.entries[k].text.absolute || fs.entries[k].text.comps != [])
    && (forall k :: k in fs.entries && fs.entries[k].File? ==> fs.entries[k].inode < fs.nextId)
    && (forall i :: i in fs.files ==> i < fs.nextId)
  }

  /** The directory reached from `dir` through `comps`. */
  function Walk(fs: FS, dir: DirId, comps: seq<Name>): Option<DirId>
    decreases |comps|
  {
    if comps == [] then Some(dir)
    else if Key(dir, comps[0]) in fs.subdirs then Walk(fs, fs.subdirs[Key(dir, comps[0])], comps[1..])
    else None
  }

  function Base(fs: FS, p: Path): DirId {
    if p.absolute then fs.root else fs.cwd
  }

  /** The entry that `comps` name, starting at `dir`. */
  function KeyFrom(fs: FS, dir: DirId, comps: seq<Name>): Option<Key> {
    if comps == [] then None
    else
      var parent := Walk(fs, dir, comps[..|comps| - 1]);
      if parent.None? then None else Some(Key(parent.value, comps[|comps| - 1]))
  }

  function KeyOf(fs: FS, p: Path): Option<Key> {
    KeyFrom(fs, Base(fs, p), p.comps)
  }

  predicate IsLinkKey(fs: FS, k: Option<Key>) {
    k.Some? && k.value in fs.entries && fs.entries[k.value].Link?
  }

  /** `symlink_metadata(p)` succeeds and says symlink. */
  predicate IsLink(fs: FS, p: Path) {
    IsLinkKey(fs, KeyOf(fs, p))
  }

  function LinkKeys(fs: FS): set<Key> {
    set k | k in fs.entries && fs.entries[k].Link?
  }

  /** `dir.join(text)`: an absolute text replaces the path. */
  function Join(dir: Path, text: Path): Path {
    if text.absolute then text else Path(dir.absolute, dir.comps + text.comps)
  }

  function Parent(p: Path): Path
    requires p.comps != []
  {
    p.(comps := p.comps[..|p.comps| - 1])
  }

  function Follow(fs: FS, p: Path): Path
    requires IsLink(fs, p)
  {
    Join(Parent(p), fs.entries[KeyOf(fs, p).value].text)
  }

  /** The path after following up to `n` links; an end stays put. */
  function Hops(fs: FS, p: Path, n: nat): Path {
    if n == 0 then p
    else
      var q := Hops(fs, p, n - 1);
      if IsLink(fs, q) then Follow(fs, q) else q
  }

  /** The entry named after `n` hops, and whether it is a link. */
  function Node(fs: FS, p: Path, n: nat): Option<Key> {
    KeyOf(fs, Hops(fs, p, n))
  }

  predicate LinkAt(fs: FS, p: Path, n: nat) {
    IsLinkKey(fs, Node(fs, p, n))
  }

  /** Following the chain without any limit meets `n` links and then an end. */
  ghost predicate ChainEnds(fs: FS, p: Path, n: nat) {
    !LinkAt(fs, p, n) && forall i :: 0 <= i < n ==> LinkAt(fs, p, i)
  }

  ghost predicate NeverEnds(fs: FS, p: Path) {
    forall n: nat :: LinkAt(fs, p, n)
  }

  const MAX_SYMLINK_HOPS: nat := 40

  function ResolveTarget(fs: FS, p: Path): Option<Path> {
    var end := Hops(fs, p, MAX_SYMLINK_HOPS - 1);
    if IsLink(fs, end) then None else Some(end)
  }

  /** `r` is the end of the chain when that comes after at most `limit` links, and nothing otherwise. */
  ghost predicate IsEndWithin(fs: FS, p: Path, limit: nat, r: Option<Path>) {
    && (r.Some? <==> exists n :: 0 <= n <= limit && ChainEnds(fs, p, n))
    && forall n :: 0 <= n <= limit && ChainEnds(fs, p, n) ==> r == Some(Hops(fs, p, n))
  }

  /** `target` is where the first `n` links lead. */
  ghost predicate Followed(fs: FS, p: Path, n: nat, target: Path) {
    target == Hops(fs, p, n) && forall j :: 0 <= j < n ==> LinkAt(fs, p, j)
  }

  method WriteTarget(fs: FS, path: Path) returns (r: Option<Path>)
    ensures r == ResolveTarget(fs, path)
    ensures IsEndWithin(fs, path, 39, r)
  {
    var target := path;
    for i := 0 to MAX_SYMLINK_HOPS
      invariant Followed(fs, path, i, target)
    {
      if !IsLink(fs, target) {
        EndFound(fs, path, i, 39, target);
        return Some(target);
      }
      FollowOne(fs, path, i, target);
      target := Follow(fs, target);
    }
    NoEndFound(fs, path, 39, target);
    return None;
  }

  lemma FollowOne(fs: FS, p: Path, n: nat, target: Path)
    requires Followed(fs, p, n, target) && IsLink(fs, target)
    ensures Followed(fs, p, n + 1, Follow(fs, target))
  {
  }

  lemma EndFound(fs: FS, p: Path, n: nat, limit: nat, target: Path)
    requires n <= limit && Followed(fs, p, n, target) && !IsLink(fs, target)
    ensures IsEndWithin(fs, p, limit, Some(target))
    ensures Hops(fs, p, limit) == target
  {
    assert ChainEnds(fs, p, n);
    EndStays(fs, p, n, limit);
    EndIsUnique(fs, p, n);
  }

  lemma NoEndFound(fs: FS, p: Path, limit: nat, target: Path)
    requires Followed(fs, p, limit + 1, target)
    ensures IsEndWithin(fs, p, limit, None)
    ensures IsLink(fs, Hops(fs, p, limit))
  {
    assert LinkAt(fs, p, limit);
  }

  lemma EndStays(fs: FS, p: Path, n: nat, m: nat)
    requires n <= m && !LinkAt(fs, p, n)
    ensures Hops(fs, p, m) == Hops(fs, p, n)
  {
  }

  lemma EndIsUnique(fs: FS, p: Path, n: nat)
    requires ChainEnds(fs, p, n)
    ensures forall m :: 0 <= m && ChainEnds(fs, p, m) ==> m == n
  {
  }

  // ---------------------------------------------------------------------
  // The chain on entries, and why a long one is cyclic
  // ---------------------------------------------------------------------

  lemma {:induction false} WalkAppend(fs: FS, dir: DirId, a: seq<Name>, b: seq<Name>)
    ensures Walk(fs, dir, a + b) ==
            if Walk(fs, dir, a).None? then None else Walk(fs, Walk(fs, dir, a).value, b)
    decreases |a|
  {
    if a == [] {
      assert a + b == b;
    } else {
      assert (a + b)[1..] == a[1..] + b;
      if Key(dir, a[0]) in fs.subdirs {
        WalkAppend(fs, fs.subdirs[Key(dir, a[0])], a[1..], b);
      }
    }
  }

  /** Where paths begin and how they go on: at the root or the working directory, then one directory at a time. */
  lemma PathNames(fs: FS, absolute: bool, comps: seq<Name>, dir: Name, name: Name)
    ensures KeyOf(fs, Path(true, [name])) == Some(Key(fs.root, name))
    ensures KeyOf(fs, Path(false, [name])) == Some(Key(fs.cwd, name))
    ensures KeyOf(fs, Path(absolute, comps + [dir, name])) ==
            var at := KeyOf(fs, Path(absolute, comps + [dir]));
            if at.Some? && at.value in fs.subdirs then Some(Key(fs.subdirs[at.value], name)) else None
  {
    assert [name][..0] == [];
    var base, all := Base(fs, Path(absolute, [])), comps + [dir, name];
    assert all[..|all| - 1] == comps + [dir] && (comps + [dir])[..|comps|] == comps;
    WalkAppend(fs, base, comps, [dir]);
    var parent := Walk(fs, base, comps);
    if parent.Some? && Key(parent.value, dir) in fs.subdirs {
      assert [dir][1..] == [];
      assert Walk(fs, fs.subdirs[Key(parent.value, dir)], []) == Some(fs.subdirs[Key(parent.value, dir)]);
    }
  }

  /** The entry a link leads to. It depends on the link's entry alone. */
  function NextKey(fs: FS, k: Key): Option<Key>
    requires k in fs.entries && fs.entries[k].Link?
  {
    var text := fs.entries[k].text;
    KeyFrom(fs, if text.absolute then fs.root else k.dir, text.comps)
  }

  /** Following a link by path strings leads where the entry says, whatever the string was. */
  lemma FollowNamesNextKey(fs: FS, p: Path)
    requires WellFormed(fs) && IsLink(fs, p)
    ensures KeyOf(fs, Follow(fs, p)) == NextKey(fs, KeyOf(fs, p).value)
  {
    var k := KeyOf(fs, p).value;
    var text := fs.entries[k].text;
    if !text.absolute {
      var dirs, inner := Parent(p).comps, text.comps[..|text.comps| - 1];
      assert (dirs + text.comps)[..|dirs + text.comps| - 1] == dirs + inner;
      WalkAppend(fs, Base(fs, p), dirs, inner);
    }
  }

  lemma NodesStepTogether(fs: FS, p: Path, m: nat, n: nat)
    requires WellFormed(fs) && LinkAt(fs, p, m) && Node(fs, p, m) == Node(fs, p, n)
    ensures Node(fs, p, m + 1) == Node(fs, p, n + 1)
  {
    FollowNamesNextKey(fs, Hops(fs, p, m));
    FollowNamesNextKey(fs, Hops(fs, p, n));
  }

  ghost predicate StepAlike<T>(node: nat -> T, link: T -> bool, a: nat, b: nat) {
    link(node(a)) && node(a) == node(b) ==> node(a + 1) == node(b + 1)
  }

  /** Where equal links have equal successors, one repetition repeats for ever. */
  lemma {:induction false} RepetitionRepeats<T>(node: nat -> T, link: T -> bool, i: nat, j: nat, n: nat)
    requires i < j && node(i) == node(j)
    requires forall m: nat :: m < j ==> link(node(m))
    requires forall a: nat, b: nat :: StepAlike(node, link, a, b)
    ensures link(node(n))
    ensures n >= j ==> node(n) == node(n - (j - i))
  {
    if n >= j {
      RepetitionRepeats(node, link, i, j, n - (j - i));
      if n > j {
        RepetitionRepeats(node, link, i, j, n - 1);
        assert StepAlike(node, link, n - 1, n - 1 - (j - i));
      }
    }
  }

  /** Once two hops name the same link the chain never ends. */
  lemma CycleNeverEnds(fs: FS, p: Path, i: nat, j: nat, n: nat)
    requires WellFormed(fs) && i < j
    requires Node(fs, p, i) == Node(fs, p, j) && LinkAt(fs, p, j - 1)
    ensures LinkAt(fs, p, n)
  {
    var node, link := (m: nat) => Node(fs, p, m), (k: Option<Key>) => IsLinkKey(fs, k);
    forall m: nat | m < j ensures link(node(m)) {
      LinksBefore(fs, p, j - 1);
      assert LinkAt(fs, p, m);
    }
    forall a: nat, b: nat ensures StepAlike(node, link, a, b) {
      if link(node(a)) && node(a) == node(b) {
        NodesStepTogether(fs, p, a, b);
      }
    }
    RepetitionRepeats(node, link, i, j, n);
    assert link(node(n));
  }

  lemma {:induction false} DistinctElements<T>(s: seq<T>)
    requires forall i, j :: 0 <= i < j < |s| ==> s[i] != s[j]
    ensures |set x | x in s| == |s|
  {
    if s != [] {
      var init, last := s[..|s| - 1], s[|s| - 1];
      DistinctElements(init);
      assert (set x | x in s) == (set x | x in init) + {last};
    }
  }

  lemma {:induction false} ImageSize<T>(s: set<T>, image: set<Option<T>>)
    requires image == set x | x in s :: Some(x)
    ensures |image| == |s|
  {
    if s != {} {
      var x :| x in s;
      ImageSize(s - {x}, image - {Some(x)});
    }
  }

  /** More hops than there are links repeat an entry. */
  lemma Pigeonhole(fs: FS, p: Path, n: nat) returns (i: nat, j: nat)
    requires n > |LinkKeys(fs)|
    requires forall m :: 0 <= m < n ==> LinkAt(fs, p, m)
    ensures i < j < n && Node(fs, p, i) == Node(fs, p, j)
  {
    if forall i, j :: 0 <= i < j < n ==> Node(fs, p, i) != Node(fs, p, j) {
      var keys := seq(n, m requires 0 <= m < n => Node(fs, p, m));
      DistinctElements(keys);
      var links := set k | k in LinkKeys(fs) :: Some(k);
      ImageSize(LinkKeys(fs), links);
      forall k | k in keys ensures k in links {
        var m :| 0 <= m < n && keys[m] == k;
        assert LinkAt(fs, p, m);
      }
      SubsetIsNoLarger((set k | k in keys), links);
      assert false;
    }
    i, j :| 0 <= i < j < n && Node(fs, p, i) == Node(fs, p, j);
  }

  /** Some link entry is met twice. */
  ghost predicate Cyclic(fs: FS, p: Path) {
    exists i: nat, j: nat ::
      i < j && Node(fs, p, i) == Node(fs, p, j) && LinkAt(fs, p, j - 1)
  }

  lemma LinksBefore(fs: FS, p: Path, n: nat)
    requires LinkAt(fs, p, n)
    ensures forall m :: 0 <= m <= n ==> LinkAt(fs, p, m)
  {
    forall m | 0 <= m <= n ensures LinkAt(fs, p, m) {
      if !LinkAt(fs, p, m) {
        EndStays(fs, p, m, n);
      }
    }
  }

  /** A chain never ends exactly when it meets a link twice; otherwise it ends within as many hops as links exist. */
  lemma ChainEndsOrCycles(fs: FS, p: Path)
    requires WellFormed(fs)
    ensures NeverEnds(fs, p) <==> Cyclic(fs, p)
    ensures LinkAt(fs, p, |LinkKeys(fs)|) <==> Cyclic(fs, p)
  {
    var n := |LinkKeys(fs)|;
    if LinkAt(fs, p, n) {
      LinksBefore(fs, p, n);
      var i, j := Pigeonhole(fs, p, n + 1);
      assert Cyclic(fs, p);
    }
    if Cyclic(fs, p) {
      var i: nat, j: nat :|
        i < j && Node(fs, p, i) == Node(fs, p, j) && LinkAt(fs, p, j - 1);
      forall m: nat ensures LinkAt(fs, p, m) {
        CycleNeverEnds(fs, p, i, j, m);
      }
    }
  }

  /** With at most 39 links in the filesystem the bounded loop fails exactly on a cycle. */
  lemma SmallFilesystemFailsOnlyOnCycles(fs: FS, p: Path)
    requires WellFormed(fs) && |LinkKeys(fs)| <= 39
    ensures ResolveTarget(fs, p).None? <==> Cyclic(fs, p)
  {
    ChainEndsOrCycles(fs, p);
    if !Cyclic(fs, p) {
      EndStays(fs, p, |LinkKeys(fs)|, 39);
    } else {
      assert LinkAt(fs, p, 39);
    }
  }

  /** A chain that ends after 40 links or more is refused all the same. */
  lemma LongChainIsRefused(fs: FS, p: Path, n: nat)
    requires ChainEnds(fs, p, n) && n >= 40
    ensures ResolveTarget(fs, p).None?
  {
    assert LinkAt(fs, p, 39);
  }

  /** Names that differ in length. */
  function Rung(i: nat): Name {
    seq(i + 1, _ => 'l')
  }

  function LadderEntries(n: nat): map<Key, Entry> {
    map k | k in set i | 0 <= i < n :: Key(0, Rung(i)) :: Link(Path(false, [k.name + "l"]))
  }

  /** One directory with `n` links, each to the next, and nothing at the end. */
  function Ladder(n: nat): FS {
    FS(0, 0, map[], LadderEntries(n), map[], 1)
  }

  lemma LadderStep(n: nat, i: nat)
    ensures KeyOf(Ladder(n), Path(false, [Rung(i)])) == Some(Key(0, Rung(i)))
    ensures IsLink(Ladder(n), Path(false, [Rung(i)])) <==> i < n
    ensures i < n ==> Follow(Ladder(n), Path(false, [Rung(i)])) == Path(false, [Rung(i + 1)])
  {
    var p := Path(false, [Rung(i)]);
    assert p.comps[..0] == [];
    assert forall j :: 0 <= j < n && Rung(j) == Rung(i) ==> j == i by {
      assert forall j: nat :: |Rung(j)| == j + 1;
    }
    if i < n {
      assert Key(0, Rung(i)) in Ladder(n).entries;
      assert Rung(i) + "l" == Rung(i + 1);
      assert Parent(p).comps + [Rung(i + 1)] == [Rung(i + 1)];
    }
  }

  /** Each of `paths` is a link to the next. */
  ghost predicate Leads(fs: FS, paths: seq<Path>) {
    forall i :: 0 <= i < |paths| - 1 ==> IsLink(fs, paths[i]) && Follow(fs, paths[i]) == paths[i + 1]
  }

  lemma {:induction false} HopsAlong(fs: FS, paths: seq<Path>, n: nat)
    requires n < |paths| && Leads(fs, paths)
    ensures Hops(fs, paths[0], n) == paths[n]
  {
    if n > 0 {
      HopsAlong(fs, paths, n - 1);
    }
  }

  lemma EndsAlong(fs: FS, paths: seq<Path>)
    requires paths != [] && Leads(fs, paths) && !IsLink(fs, paths[|paths| - 1])
    ensures ChainEnds(fs, paths[0], |paths| - 1)
  {
    forall n: nat | n < |paths| ensures LinkAt(fs, paths[0], n) <==> n < |paths| - 1 {
      HopsAlong(fs, paths, n);
    }
  }

  lemma LadderEnds(n: nat)
    ensures WellFormed(Ladder(n)) && ChainEnds(Ladder(n), Path(false, ["l"]), n)
  {
    var paths := seq(n + 1, i requires 0 <= i => Path(false, [Rung(i)]));
    forall i: nat | i <= n
      ensures IsLink(Ladder(n), paths[i]) <==> i < n
      ensures i < n ==> Follow(Ladder(n), paths[i]) == paths[i + 1]
    {
      LadderStep(n, i);
    }
    EndsAlong(Ladder(n), paths);
    assert Rung(0) == "l";
  }

  /** Forty links, each to the next: the chain ends, and the bounded loop refuses it. */
  lemma FortyLinksAreRefused()
    ensures WellFormed(Ladder(40)) && ChainEnds(Ladder(40), Path(false, ["l"]), 40)
    ensures ResolveTarget(Ladder(40), Path(false, ["l"])).None?
  {
    LadderEnds(40);
    LongChainIsRefused(Ladder(40), Path(false, ["l"]), 40);
  }
}
