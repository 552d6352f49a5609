/**
 The directory tree the tracer is mounted over, and the system calls the tracer issues
 against it.

 A tree is a set of directory inode numbers and a map of entries `(directory, name) -> inode`.
 A path is a sequence of components resolved from the root by `Walk`.  The calls follow
 IEEE Std 1003.1-2017, System Interfaces volume, chapter 3 (`link`, `mkdir`, `rename`,
 `rmdir`, `unlink`, `open`), as far as the directory tree decides their outcome.
 */
module FileSystem {
  import opened Wrappers

  type Ino = nat
  type Name = string
  type Path = seq<Name>
  type Edges = map<(Ino, Name), Ino>

  const ROOT: Ino := 1

  datatype Errno = ENOENT | EPERM | EEXIST | ENOTDIR | EISDIR | ENOTEMPTY | EINVAL | EBADF | EIO

  datatype Result<+T> = Ok(value: T) | Err(error: Errno)

  datatype Tree = Tree(dirs: set<Ino>, entries: Edges)

  // ---------------------------------------------------------------- paths

  /** Follows `path` from inode `i` through `e`. */
  function Walk(e: Edges, i: Ino, path: Path): Option<Ino>
    decreases |path|
  {
    if path == [] then Some(i)
    else if (i, path[0]) in e then Walk(e, e[(i, path[0])], path[1..])
    else None
  }

  ghost predicate Beneath(e: Edges, a: Ino, b: Ino) {
    exists w: Path :: Walk(e, a, w) == Some(b)
  }

  ghost predicate SubEdges(e: Edges, f: Edges) {
    forall k :: k in e ==> k in f && f[k] == e[k]
  }

  lemma {:induction false} WalkConcat(e: Edges, i: Ino, p: Path, q: Path)
    ensures Walk(e, i, p + q) == match Walk(e, i, p) case None => None case Some(j) => Walk(e, j, q)
    decreases |p|
  {
    if p == [] {
      assert p + q == q;
    } else {
      assert (p + q)[1..] == p[1..] + q;
      if (i, p[0]) in e {
        WalkConcat(e, e[(i, p[0])], p[1..], q);
      }
    }
  }

  /** The last component of a path is looked up in the directory the rest leads to. */
  lemma WalkLast(e: Edges, i: Ino, p: Path, n: Name)
    ensures Walk(e, i, p + [n]) == match Walk(e, i, p)
                                   case None => None
                                   case Some(j) => if (j, n) in e then Some(e[(j, n)]) else None
  {
    WalkConcat(e, i, p, [n]);
    match Walk(e, i, p)
    case None =>
    case Some(j) =>
      if (j, n) in e {
        assert [n][1..] == [];
        assert Walk(e, e[(j, n)], []) == Some(e[(j, n)]);
      }
  }

  lemma {:induction false} WalkMonotone(e: Edges, f: Edges, i: Ino, p: Path)
    requires SubEdges(e, f)
    requires Walk(e, i, p).Some?
    ensures Walk(f, i, p) == Walk(e, i, p)
    decreases |p|
  {
    if p != [] {
      WalkMonotone(e, f, e[(i, p[0])], p[1..]);
    }
  }

  // ---------------------------------------------------------------- acyclicity

  function Rank(rank: map<Ino, nat>, i: Ino): nat {
    if i in rank then rank[i] else 0
  }

  ghost predicate Ranked(e: Edges, rank: map<Ino, nat>) {
    forall k :: k in e ==> Rank(rank, k.0) < Rank(rank, e[k])
  }

  ghost predicate Acyclic(e: Edges) {
    exists rank: map<Ino, nat> :: Ranked(e, rank)
  }

  lemma {:induction false} WalkClimbs(e: Edges, rank: map<Ino, nat>, i: Ino, p: Path)
    requires Ranked(e, rank)
    requires Walk(e, i, p).Some?
    ensures Rank(rank, i) + |p| <= Rank(rank, Walk(e, i, p).value)
    decreases |p|
  {
    if p != [] {
      WalkClimbs(e, rank, e[(i, p[0])], p[1..]);
    }
  }

  /** What acyclic means to a reader of paths: no non-empty path leads back to where it began. */
  lemma AcyclicHasNoLoop(e: Edges, i: Ino, p: Path)
    requires Acyclic(e)
    requires p != []
    ensures Walk(e, i, p) != Some(i)
  {
    var rank: map<Ino, nat> :| Ranked(e, rank);
    if Walk(e, i, p).Some? {
      WalkClimbs(e, rank, i, p);
    }
  }

  // ---------------------------------------------------------------- well-formed trees

  /** No directory has two names. */
  ghost predicate SingleLinked(t: Tree) {
    forall k, l :: k in t.entries && l in t.entries && t.entries[k] == t.entries[l] && t.entries[k] in t.dirs ==> k == l
  }

  ghost predicate WellFormed(t: Tree) {
    && ROOT in t.dirs
    && (forall k :: k in t.entries ==> k.0 in t.dirs && t.entries[k] != ROOT)
    && SingleLinked(t)
    && Acyclic(t.entries)
  }

  /** The inode has at most one name, as every directory does. */
  ghost predicate SingleNamed(t: Tree, i: Ino) {
    forall k, l :: k in t.entries && l in t.entries && t.entries[k] == t.entries[l] == i ==> k == l
  }

  ghost predicate Linked(e: Edges, i: Ino) {
    exists k :: k in e && e[k] == i
  }

  // ---------------------------------------------------------------- calls on (directory, name)

  predicate IsEmpty(t: Tree, d: Ino) {
    forall k | k in t.entries :: k.0 != d
  }

  /** `mknod`, `mkdir`, `symlink`, or the creating half of `open`; the system chooses `i`. */
  function MakeAt(t: Tree, d: Ino, n: Name, i: Ino, isDir: bool): Result<Tree> {
    if d !in t.dirs then Err(ENOTDIR)
    else if (d, n) in t.entries then Err(EEXIST)
    else Ok(Tree(if isDir then t.dirs + {i} else t.dirs, t.entries[(d, n) := i]))
  }

  /**
   `open` with O_CREAT: an existing file is opened unless O_EXCL is given.  If the name is a
   symbolic link, `through` is the name the link leads to, and the file is opened or created there.
   */
  function OpenAt(t: Tree, d: Ino, n: Name, excl: bool, i: Ino, through: Option<(Ino, Name)>): Result<Tree> {
    if (d, n) !in t.entries then MakeAt(t, d, n, i, false)
    else if excl then Err(EEXIST)
    else if t.entries[(d, n)] in t.dirs then Err(EISDIR)
    else match through
         case None => Ok(t)
         case Some((d', n')) => if (d', n') !in t.entries then MakeAt(t, d', n', i, false)
                                else if t.entries[(d', n')] in t.dirs then Err(EISDIR)
                                else Ok(t)
  }

  /** The file that the descriptor `open` returns is open on. */
  function OpenedAt(t: Tree, d: Ino, n: Name, i: Ino, through: Option<(Ino, Name)>): Ino {
    if (d, n) !in t.entries then i
    else match through
         case None => t.entries[(d, n)]
         case Some(k) => if k in t.entries then t.entries[k] else i
  }

  function UnlinkAt(t: Tree, d: Ino, n: Name): Result<Tree> {
    if (d, n) !in t.entries then Err(ENOENT)
    else if t.entries[(d, n)] in t.dirs then Err(EISDIR)
    else Ok(t.(entries := t.entries - {(d, n)}))
  }

  function RmdirAt(t: Tree, d: Ino, n: Name): Result<Tree> {
    if (d, n) !in t.entries then Err(ENOENT)
    else
      var i := t.entries[(d, n)];
      if i !in t.dirs then Err(ENOTDIR)
      else if !IsEmpty(t, i) then Err(ENOTEMPTY)
      else Ok(Tree(t.dirs - {i}, t.entries - {(d, n)}))
  }

  function LinkAt(t: Tree, i: Ino, d: Ino, n: Name): Result<Tree> {
    if i in t.dirs then Err(EPERM)
    else if d !in t.dirs then Err(ENOTDIR)
    else if (d, n) in t.entries then Err(EEXIST)
    else Ok(t.(entries := t.entries[(d, n) := i]))
  }

  /**
   `rename` once both names are resolved and the EINVAL test (the target lies below the
   source) has been passed.  If both names are links to the same file, nothing happens.
   */
  function RenameAt(t: Tree, d: Ino, n: Name, d': Ino, n': Name): Result<Tree> {
    if (d, n) !in t.entries then Err(ENOENT)
    else if d' !in t.dirs then Err(ENOTDIR)
    else
      var src := t.entries[(d, n)];
      var moved := (t.entries - {(d, n)})[(d', n') := src];
      if (d', n') !in t.entries then Ok(t.(entries := moved))
      else
        var target := t.entries[(d', n')];
        if target == src then Ok(t)
        else if src in t.dirs && target !in t.dirs then Err(ENOTDIR)
        else if src !in t.dirs && target in t.dirs then Err(EISDIR)
        else if target in t.dirs && !IsEmpty(t, target) then Err(ENOTEMPTY)
        else Ok(Tree(t.dirs - {target}, moved))
  }

  // What each call leaves, name by name.

  /** Every name but those in `keys` is there or not as before, for the same inode. */
  ghost predicate SameBut(e: Edges, e': Edges, keys: set<(Ino, Name)>) {
    forall k :: k !in keys ==> (k in e <==> k in e') && (k in e ==> e'[k] == e[k])
  }

  /** `mknod` and `mkdir` add one name, and only `mkdir` adds a directory. */
  lemma MakeLeaves(t: Tree, d: Ino, n: Name, i: Ino, isDir: bool)
    ensures MakeAt(t, d, n, i, isDir) == Err(ENOTDIR) <==> d !in t.dirs
    ensures MakeAt(t, d, n, i, isDir) == Err(EEXIST) <==> d in t.dirs && (d, n) in t.entries
    ensures MakeAt(t, d, n, i, isDir).Ok? <==> d in t.dirs && (d, n) !in t.entries
    ensures MakeAt(t, d, n, i, isDir).Ok? ==>
              var t' := MakeAt(t, d, n, i, isDir).value;
              && (d, n) in t'.entries && t'.entries[(d, n)] == i && SameBut(t.entries, t'.entries, {(d, n)})
              && (forall x :: x in t'.dirs <==> x in t.dirs || (isDir && x == i))
  {
  }

  /** A file can be made in what `mkdir` made, and in nothing that `mknod` made. */
  lemma OnlyMkdirMakesRoom(t: Tree, d: Ino, n: Name, i: Ino, isDir: bool, m: Name, j: Ino)
    requires MakeAt(t, d, n, i, isDir).Ok? && d != i && i !in t.dirs && (i, m) !in t.entries
    ensures MakeAt(MakeAt(t, d, n, i, isDir).value, i, m, j, false).Ok? <==> isDir
  {
  }

  /** `unlink` removes one name, of something that is no directory. */
  lemma UnlinkLeaves(t: Tree, d: Ino, n: Name)
    ensures UnlinkAt(t, d, n) == Err(ENOENT) <==> (d, n) !in t.entries
    ensures UnlinkAt(t, d, n) == Err(EISDIR) <==> (d, n) in t.entries && t.entries[(d, n)] in t.dirs
    ensures UnlinkAt(t, d, n).Ok? <==> (d, n) in t.entries && t.entries[(d, n)] !in t.dirs
    ensures UnlinkAt(t, d, n).Ok? ==>
              var t' := UnlinkAt(t, d, n).value;
              (d, n) !in t'.entries && SameBut(t.entries, t'.entries, {(d, n)}) && t'.dirs == t.dirs
  {
  }

  /** `rmdir` removes one name and one directory, which has nothing in it. */
  lemma RmdirLeaves(t: Tree, d: Ino, n: Name)
    ensures RmdirAt(t, d, n) == Err(ENOENT) <==> (d, n) !in t.entries
    ensures RmdirAt(t, d, n) == Err(ENOTDIR) <==> (d, n) in t.entries && t.entries[(d, n)] !in t.dirs
    ensures RmdirAt(t, d, n) == Err(ENOTEMPTY) <==>
            (d, n) in t.entries && t.entries[(d, n)] in t.dirs && exists k :: k in t.entries && k.0 == t.entries[(d, n)]
    ensures RmdirAt(t, d, n).Ok? ==>
              var t' := RmdirAt(t, d, n).value;
              && (d, n) in t.entries && (d, n) !in t'.entries && SameBut(t.entries, t'.entries, {(d, n)})
              && (forall x :: x in t'.dirs <==> x in t.dirs && x != t.entries[(d, n)])
    ensures RmdirAt(t, d, n).Ok? || RmdirAt(t, d, n).error in {ENOENT, ENOTDIR, ENOTEMPTY}
  {
  }

  /** `link` adds one more name for something that is no directory. */
  lemma LinkLeaves(t: Tree, i: Ino, d: Ino, n: Name)
    ensures LinkAt(t, i, d, n) == Err(EPERM) <==> i in t.dirs
    ensures LinkAt(t, i, d, n) == Err(ENOTDIR) <==> i !in t.dirs && d !in t.dirs
    ensures LinkAt(t, i, d, n) == Err(EEXIST) <==> i !in t.dirs && d in t.dirs && (d, n) in t.entries
    ensures LinkAt(t, i, d, n).Ok? <==> i !in t.dirs && d in t.dirs && (d, n) !in t.entries
    ensures LinkAt(t, i, d, n).Ok? ==>
              var t' := LinkAt(t, i, d, n).value;
              && (d, n) in t'.entries && t'.entries[(d, n)] == i && SameBut(t.entries, t'.entries, {(d, n)})
              && t'.dirs == t.dirs
  {
  }

  /**
   `open` with O_CREAT adds at most one name: the one asked for, if it is not there, or else the one
   that a symbolic link leads to, if that is not there.
   */
  lemma OpenLeaves(t: Tree, d: Ino, n: Name, excl: bool, i: Ino, via: Option<(Ino, Name)>)
    ensures var added := if (d, n) !in t.entries then Some((d, n))
                         else if via.Some? && via.value !in t.entries then via else None;
            OpenAt(t, d, n, excl, i, via).Ok? ==>
              var t' := OpenAt(t, d, n, excl, i, via).value;
              && t'.dirs == t.dirs
              && if added == None then t' == t
                 else added.value in t'.entries && t'.entries[added.value] == i && SameBut(t.entries, t'.entries, {added.value})
    ensures (d, n) in t.entries && excl ==> OpenAt(t, d, n, excl, i, via) == Err(EEXIST)
    ensures (d, n) in t.entries && !excl && t.entries[(d, n)] in t.dirs ==> OpenAt(t, d, n, excl, i, via) == Err(EISDIR)
    ensures (d, n) in t.entries && !excl && t.entries[(d, n)] !in t.dirs && via == None ==> OpenAt(t, d, n, excl, i, via).Ok?
    ensures (d, n) !in t.entries ==> (OpenAt(t, d, n, excl, i, via).Ok? <==> d in t.dirs)
    ensures OpenAt(t, d, n, excl, i, via).Ok? ==>
              var file := OpenedAt(t, d, n, i, via);
              file !in t.dirs || file == i
    ensures (d, n) in t.entries && via == None ==> OpenedAt(t, d, n, i, via) == t.entries[(d, n)]
    ensures (d, n) in t.entries && via.Some? && via.value in t.entries ==> OpenedAt(t, d, n, i, via) == t.entries[via.value]
    ensures (d, n) !in t.entries || (via.Some? && via.value !in t.entries) ==> OpenedAt(t, d, n, i, via) == i
  {
  }

  /**
   `rename`, by names: the new name leads to what the old one led to, the old one is gone unless
   both led to the same file, a directory that is replaced is gone, and nothing else changes.
   */
  lemma RenameLeaves(t: Tree, d: Ino, n: Name, d': Ino, n': Name)
    requires RenameAt(t, d, n, d', n').Ok?
    ensures var t' := RenameAt(t, d, n, d', n').value;
            && (d, n) in t.entries && d' in t.dirs
            && (d', n') in t'.entries && t'.entries[(d', n')] == t.entries[(d, n)]
            && SameBut(t.entries, t'.entries, {(d, n), (d', n')})
            && ((d, n) in t'.entries ==> t'.entries[(d, n)] == t.entries[(d, n)])
            && ((d, n) !in t'.entries <==> (d', n') !in t.entries || t.entries[(d', n')] != t.entries[(d, n)])
            && (forall x :: x in t'.dirs <==>
                  x in t.dirs && !((d', n') in t.entries && x == t.entries[(d', n')] != t.entries[(d, n)]))
  {
  }

  /** When it is refused, and why. */
  lemma RenameRefuses(t: Tree, d: Ino, n: Name, d': Ino, n': Name)
    ensures RenameAt(t, d, n, d', n') == Err(ENOENT) <==> (d, n) !in t.entries
    ensures RenameAt(t, d, n, d', n') != Err(EINVAL)
    ensures (d, n) in t.entries && d' !in t.dirs ==> RenameAt(t, d, n, d', n') == Err(ENOTDIR)
    ensures (d, n) in t.entries && d' in t.dirs && ((d', n') !in t.entries || t.entries[(d', n')] == t.entries[(d, n)]) ==>
              RenameAt(t, d, n, d', n').Ok?
    ensures (d, n) in t.entries && d' in t.dirs && (d', n') in t.entries && t.entries[(d', n')] != t.entries[(d, n)] ==>
              var src, target := t.entries[(d, n)], t.entries[(d', n')];
              && (RenameAt(t, d, n, d', n') == Err(ENOTDIR) <==> src in t.dirs && target !in t.dirs)
              && (RenameAt(t, d, n, d', n') == Err(EISDIR) <==> src !in t.dirs && target in t.dirs)
              && (RenameAt(t, d, n, d', n') == Err(ENOTEMPTY) <==>
                    src in t.dirs && target in t.dirs && exists k :: k in t.entries && k.0 == target)
              && (RenameAt(t, d, n, d', n').Ok? <==>
                    (src in t.dirs <==> target in t.dirs) && (target in t.dirs ==> forall k :: k in t.entries ==> k.0 != target))
  {
  }

  /** A node without children can be given one more name. */
  lemma LeafKeepsAcyclic(e: Edges, k: (Ino, Name), i: Ino)
    requires Acyclic(e)
    requires forall l :: l in e ==> l.0 != i
    requires k.0 != i
    ensures Acyclic(e[k := i])
  {
    var rank: map<Ino, nat> :| Ranked(e, rank);
    var rank' := rank[i := Rank(rank, i) + Rank(rank, k.0) + 1];
    forall l | l in e[k := i]
      ensures Rank(rank', l.0) < Rank(rank', e[k := i][l])
    {
      assert l.0 != i;
    }
    assert Ranked(e[k := i], rank');
  }

  lemma MakeKeepsWellFormed(t: Tree, d: Ino, n: Name, i: Ino, isDir: bool)
    requires WellFormed(t)
    requires MakeAt(t, d, n, i, isDir).Ok?
    requires i != ROOT && i !in t.dirs && !Linked(t.entries, i)
    ensures WellFormed(MakeAt(t, d, n, i, isDir).value)
  {
    hide Acyclic;
    LeafKeepsAcyclic(t.entries, (d, n), i);
    var t' := MakeAt(t, d, n, i, isDir).value;
    forall k, l | k in t'.entries && l in t'.entries && t'.entries[k] == t'.entries[l] && t'.entries[k] in t'.dirs
      ensures k == l
    {
      assert forall m :: m in t.entries ==> t.entries[m] != i;
    }
  }

  lemma UnlinkKeepsWellFormed(t: Tree, d: Ino, n: Name)
    requires WellFormed(t)
    ensures UnlinkAt(t, d, n).Ok? ==> WellFormed(UnlinkAt(t, d, n).value)
    ensures RmdirAt(t, d, n).Ok? ==> WellFormed(RmdirAt(t, d, n).value)
  {
    var rank: map<Ino, nat> :| Ranked(t.entries, rank);
    assert Ranked(t.entries - {(d, n)}, rank);
  }

  lemma LinkKeepsWellFormed(t: Tree, i: Ino, d: Ino, n: Name)
    requires WellFormed(t)
    requires i != ROOT
    requires LinkAt(t, i, d, n).Ok?
    ensures WellFormed(LinkAt(t, i, d, n).value)
  {
    hide Acyclic;
    LeafKeepsAcyclic(t.entries, (d, n), i);
  }

  /** Moving a subtree under a directory outside it: shift the ranks of the whole subtree. */
  lemma MoveKeepsAcyclic(e: Edges, k: (Ino, Name), k': (Ino, Name))
    requires Acyclic(e)
    requires k in e
    requires !Beneath(e, e[k], k'.0)
    ensures Acyclic((e - {k})[k' := e[k]])
  {
    hide Beneath;
    var src := e[k];
    var rank: map<Ino, nat> :| Ranked(e, rank);
    var moved := (e - {k})[k' := src];
    var shift := Rank(rank, k'.0) + 1;
    var nodes := {src} + (set l | l in e :: l.0) + (set l | l in e :: e[l]);
    var rank' := map i | i in nodes + rank.Keys :: if Beneath(e, src, i) then Rank(rank, i) + shift else Rank(rank, i);
    BeneathSelf(e, src);
    assert Rank(rank', k'.0) == Rank(rank, k'.0);
    forall l | l in moved
      ensures Rank(rank', l.0) < Rank(rank', moved[l])
    {
      if l != k' {
        if Beneath(e, src, l.0) {
          BeneathStep(e, src, l);
        }
      }
    }
    assert Ranked(moved, rank');
  }

  lemma BeneathSelf(e: Edges, a: Ino)
    ensures Beneath(e, a, a)
  {
    assert Walk(e, a, []) == Some(a);
  }

  lemma BeneathStep(e: Edges, a: Ino, k: (Ino, Name))
    requires Beneath(e, a, k.0)
    requires k in e
    ensures Beneath(e, a, e[k])
  {
    var w: Path :| Walk(e, a, w) == Some(k.0);
    WalkLast(e, a, w, k.1);
    assert Walk(e, a, w + [k.1]) == Some(e[k]);
  }

  lemma RenameKeepsWellFormed(t: Tree, d: Ino, n: Name, d': Ino, n': Name)
    requires WellFormed(t)
    requires RenameAt(t, d, n, d', n').Ok?
    requires !Beneath(t.entries, t.entries[(d, n)], d')
    ensures WellFormed(RenameAt(t, d, n, d', n').value)
  {
    MoveKeepsAcyclic(t.entries, (d, n), (d', n'));
    var rank: map<Ino, nat> :| Ranked(t.entries, rank);
    if (d', n') in t.entries {
      assert Rank(rank, d') < Rank(rank, t.entries[(d', n')]);
    }
  }

  // ---------------------------------------------------------------- calls on paths

  function Lstat(t: Tree, path: Path): Option<Ino> {
    Walk(t.entries, ROOT, path)
  }

  function Init(path: Path): Path
    requires path != []
  {
    path[..|path| - 1]
  }

  function Last(path: Path): Name
    requires path != []
  {
    path[|path| - 1]
  }

  lemma LastComponent(path: Path, n: Name)
    ensures Init(path + [n]) == path && Last(path + [n]) == n
  {
  }

  /** After a call that only adds the entry `(d, n)`, its path leads to the new entry. */
  lemma LstatAdded(t: Tree, t': Tree, path: Path, d: Ino, n: Name)
    requires Lstat(t, path) == Some(d)
    requires SubEdges(t.entries, t'.entries)
    requires (d, n) in t'.entries
    ensures Lstat(t', path + [n]) == Some(t'.entries[(d, n)])
  {
    WalkMonotone(t.entries, t'.entries, ROOT, path);
    WalkLast(t'.entries, ROOT, path, n);
  }

  function Make(t: Tree, path: Path, i: Ino, isDir: bool): Result<Tree>
    requires path != []
  {
    match Lstat(t, Init(path))
    case None => Err(ENOENT)
    case Some(d) => MakeAt(t, d, Last(path), i, isDir)
  }

  function Open(t: Tree, path: Path, excl: bool, i: Ino, through: Option<(Ino, Name)>): Result<Tree>
    requires path != []
  {
    match Lstat(t, Init(path))
    case None => Err(ENOENT)
    case Some(d) => OpenAt(t, d, Last(path), excl, i, through)
  }

  function Opened(t: Tree, path: Path, i: Ino, through: Option<(Ino, Name)>): Ino
    requires path != [] && Lstat(t, Init(path)).Some?
  {
    OpenedAt(t, Lstat(t, Init(path)).value, Last(path), i, through)
  }

  function Unlink(t: Tree, path: Path): Result<Tree>
    requires path != []
  {
    match Lstat(t, Init(path))
    case None => Err(ENOENT)
    case Some(d) => UnlinkAt(t, d, Last(path))
  }

  function Rmdir(t: Tree, path: Path): Result<Tree>
    requires path != []
  {
    match Lstat(t, Init(path))
    case None => Err(ENOENT)
    case Some(d) => RmdirAt(t, d, Last(path))
  }

  function Link(t: Tree, path: Path, newPath: Path): Result<Tree>
    requires newPath != []
  {
    match (Lstat(t, path), Lstat(t, Init(newPath)))
    case (Some(i), Some(d)) => LinkAt(t, i, d, Last(newPath))
    case _ => Err(ENOENT)
  }

  /** The way from the root along `path` passes through inode `i`. */
  predicate PassesThrough(e: Edges, path: Path, i: Ino)
  {
    Walk(e, ROOT, path) == Some(i) || (path != [] && PassesThrough(e, Init(path), i))
  }

  function Rename(t: Tree, path: Path, newPath: Path): Result<Tree>
    requires path != [] && newPath != []
  {
    match (Lstat(t, Init(path)), Lstat(t, Init(newPath)))
    case (Some(d), Some(d')) =>
      if (d, Last(path)) in t.entries && PassesThrough(t.entries, Init(newPath), t.entries[(d, Last(path))])
      then Err(EINVAL)
      else RenameAt(t, d, Last(path), d', Last(newPath))
    case _ => Err(ENOENT)
  }

  /**
   In a tree whose directories have one name each, checking the components of one path to a
   directory, or to any inode with one name, decides whether it lies below `a` at all.
   */
  lemma {:induction false} PassesThroughIffBeneath(t: Tree, path: Path, a: Ino, d: Ino)
    requires WellFormed(t)
    requires Lstat(t, path) == Some(d) && SingleNamed(t, d)
    requires a != ROOT
    ensures PassesThrough(t.entries, path, a) <==> Beneath(t.entries, a, d)
  {
    if PassesThrough(t.entries, path, a) {
      PassingIsBeneath(t.entries, path, a);
    }
    if Beneath(t.entries, a, d) {
      var w: Path :| Walk(t.entries, a, w) == Some(d);
      BeneathIsPassing(t, path, a, d, w);
    }
  }

  lemma {:induction false} PassingIsBeneath(e: Edges, path: Path, a: Ino)
    requires PassesThrough(e, path, a)
    requires Walk(e, ROOT, path).Some?
    ensures Beneath(e, a, Walk(e, ROOT, path).value)
  {
    if Walk(e, ROOT, path) == Some(a) {
      assert Walk(e, a, []) == Some(a);
    } else {
      assert path == Init(path) + [Last(path)];
      WalkLast(e, ROOT, Init(path), Last(path));
      PassingIsBeneath(e, Init(path), a);
      BeneathStep(e, a, (Walk(e, ROOT, Init(path)).value, Last(path)));
    }
  }

  lemma {:induction false} BeneathIsPassing(t: Tree, path: Path, a: Ino, d: Ino, w: Path)
    requires WellFormed(t)
    requires Lstat(t, path) == Some(d) && SingleNamed(t, d)
    requires a != ROOT
    requires Walk(t.entries, a, w) == Some(d)
    ensures PassesThrough(t.entries, path, a)
    decreases |w|
  {
    if w != [] {
      assert w == Init(w) + [Last(w)];
      WalkLast(t.entries, a, Init(w), Last(w));
      var up := Walk(t.entries, a, Init(w)).value;
      assert path != [];
      assert path == Init(path) + [Last(path)];
      WalkLast(t.entries, ROOT, Init(path), Last(path));
      assert Walk(t.entries, ROOT, Init(path)) == Some(up);
      BeneathIsPassing(t, Init(path), a, up, Init(w));
    }
  }
}
