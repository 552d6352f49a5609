/**
 What the tracer's cache means, without pointers: the cached names are a partial directory
 tree `links`, `refs` counts the lookups the kernel holds on each cached inode, and `fds` is the
 process's table of open files with the descriptor numbers kept with each inode.  A run is a
 sequence of served requests; the theorems hold after every run.
 */
module CacheModel {
  import opened Wrappers
  import opened MachineInts
  import opened FileSystem

  /** Standard input stays open, so no other file gets descriptor 0. */
  type Fd = f: int | f > 0 witness 1

  /** `table` is what each open descriptor is open on; `kept` the numbers stored with each inode. */
  datatype Descriptors = Descriptors(kept: map<Ino, set<Fd>>, table: map<Fd, Ino>)

  datatype State = State(fs: Tree, links: Edges, refs: map<Ino, int>, fds: Descriptors)

  /**
   `newIno` is the inode number the file system picks if the call creates a file, and `through`
   is where a symbolic link leads that a file is created through.  `fd` is the descriptor that
   opening a file returns and `file` what it is open on; `guard` is both, or nothing, for the
   descriptor that an unlink opens first.  `change` says that mode, owner or size are to be set,
   `times` that times are, and `restat` that the status can be read back.
   */
  datatype Request =
    | LookupReq(parent: Ino, name: Name)
    | ForgetReq(ino: Ino, nlookup: nat)
    | MakeReq(parent: Ino, name: Name, isDir: bool, newIno: Ino)
    | CreateReq(parent: Ino, name: Name, excl: bool, newIno: Ino, through: Option<(Ino, Name)>, fd: Fd)
    | UnlinkReq(parent: Ino, name: Name, guard: Option<(Fd, Ino)>)
    | RmdirReq(parent: Ino, name: Name)
    | RenameReq(parent: Ino, name: Name, newParent: Ino, newName: Name)
    | LinkReq(ino: Ino, newParent: Ino, newName: Name)
    | GetattrReq(ino: Ino)
    | SetattrReq(ino: Ino, change: bool, times: bool, restat: bool)
    | OpenReq(ino: Ino, fd: Fd, file: Ino)
    | ReleaseReq(ino: Ino, fd: Fd)

  datatype Reply = Entry(ino: Ino) | Attr(ino: Ino) | Done | Error(errno: Errno)

  /** A request together with what the tracer cannot decide: the permission check and call failures. */
  datatype Call = Call(request: Request, permitted: bool, fault: bool)

  datatype Served = Served(request: Request, reply: Reply)

  // ---------------------------------------------------------------- one step

  /** What the request does to the file system, or why the file system refuses it. */
  ghost function TreeAfter(t: Tree, r: Request): Result<Tree> {
    match r
    case LookupReq(p, n) => if (p, n) in t.entries then Ok(t) else Err(ENOENT)
    case ForgetReq(_, _) => Ok(t)
    case MakeReq(p, n, isDir, i) => MakeAt(t, p, n, i, isDir)
    case CreateReq(p, n, excl, i, via, _) => OpenAt(t, p, n, excl, i, via)
    case UnlinkReq(p, n, _) => UnlinkAt(t, p, n)
    case RmdirReq(p, n) => RmdirAt(t, p, n)
    case RenameReq(p, n, q, m) =>
      if (p, n) in t.entries && Beneath(t.entries, t.entries[(p, n)], q) then Err(EINVAL)
      else RenameAt(t, p, n, q, m)
    case LinkReq(i, q, m) => LinkAt(t, i, q, m)
    case _ => Ok(t)
  }

  /** The inode that an entry reply to this request names. */
  function Target(t: Tree, r: Request): Option<Ino> {
    match r
    case LookupReq(p, n) => if (p, n) in t.entries then Some(t.entries[(p, n)]) else None
    case MakeReq(_, _, _, i) => Some(i)
    case CreateReq(p, n, _, i, _, _) => if (p, n) in t.entries then Some(t.entries[(p, n)]) else Some(i)
    case LinkReq(i, _, _) => Some(i)
    case _ => None
  }

  function Count(refs: map<Ino, int>, i: Ino): int {
    if i in refs then refs[i] else 0
  }

  /** `links` without any name in or for inode `i`. */
  function Detach(links: Edges, i: Ino): Edges {
    map k | k in links && k.0 != i && links[k] != i :: links[k]
  }

  /** The count that a forget leaves, as the C integer it is kept in. */
  function Left(s: State, r: Request): int
    requires r.ForgetReq? && r.ino in s.refs
  {
    Narrow(s.refs[r.ino] - r.nlookup) as int
  }

  predicate Retires(s: State, r: Request) {
    r.ForgetReq? && r.ino != ROOT && r.ino in s.refs && Left(s, r) <= 0
  }

  ghost function LinksAfter(s: State, r: Request): Edges {
    match r
    case LookupReq(p, n) => if (p, n) in s.fs.entries then s.links[(p, n) := s.fs.entries[(p, n)]] else s.links
    case ForgetReq(i, _) => if Retires(s, r) then Detach(s.links, i) else s.links
    case MakeReq(p, n, _, i) => Detach(s.links, i)[(p, n) := i]
    case CreateReq(p, n, _, _, _, _) => var i := Target(s.fs, r).value; Detach(s.links, i)[(p, n) := i]
    case UnlinkReq(p, n, _) => s.links - {(p, n)}
    case RmdirReq(p, n) => s.links - {(p, n)}
    case RenameReq(p, n, q, m) =>
      if (p, n) in s.links then s.links[(q, m) := s.links[(p, n)]] - {(p, n)} else s.links
    case LinkReq(i, q, m) => s.links[(q, m) := i]
    case _ => s.links
  }

  ghost function RefsAfter(s: State, r: Request): map<Ino, int> {
    match Target(s.fs, r)
    case Some(i) => s.refs[i := Count(s.refs, i) + 1]
    case None =>
      if Retires(s, r) then s.refs - {r.ino}
      else if r.ForgetReq? && r.ino != ROOT && r.ino in s.refs then s.refs[r.ino := Left(s, r)]
      else s.refs
  }

  // Descriptors.  A number belongs to the process, not to the inode that keeps it.

  function Numbers(kept: map<Ino, set<Fd>>, i: Ino): set<Fd> {
    if i in kept then kept[i] else {}
  }

  function KeptBy(d: Descriptors, i: Ino): set<Fd> {
    Numbers(d.kept, i)
  }

  /** Opens a file and keeps the number with inode `i`. */
  function Keep(d: Descriptors, i: Ino, f: Fd, o: Ino): Descriptors {
    Descriptors(d.kept[i := KeptBy(d, i) + {f}], d.table[f := o])
  }

  /** Drops the number from inode `i` and closes it, whoever else keeps it. */
  function LetGo(d: Descriptors, i: Ino, f: Fd): Descriptors {
    Descriptors(d.kept[i := KeptBy(d, i) - {f}], d.table - {f})
  }

  /** Closes every number that inode `i` keeps. */
  function CloseAll(d: Descriptors, i: Ino): Descriptors {
    Descriptors(d.kept[i := {}], d.table - KeptBy(d, i))
  }

  /** What entering an inode does: one that is mapped already is stripped, another starts bare. */
  function Reset(d: Descriptors, mapped: bool, i: Ino): Descriptors {
    if mapped then CloseAll(d, i) else d.(kept := d.kept[i := {}])
  }

  lemma ResetIsBare(d: Descriptors, mapped: bool, i: Ino)
    ensures KeptBy(Reset(d, mapped, i), i) == {}
  {
  }

  /** A create opens the file, enters the inode, and only then keeps the number. */
  function CreateFds(d: Descriptors, mapped: bool, i: Ino, f: Fd, o: Ino): Descriptors {
    var entered := Reset(d.(table := d.table[f := o]), mapped, i);
    entered.(kept := entered.kept[i := {f}])
  }

  /** An unlink that keeps a descriptor first: the name is cached and its inode has none yet. */
  predicate Guards(s: State, r: Request) {
    r.UnlinkReq? && r.guard.Some? && (r.parent, r.name) in s.links && KeptBy(s.fds, s.links[(r.parent, r.name)]) == {}
  }

  ghost function GuardFds(s: State, r: Request): Descriptors {
    if Guards(s, r) then Keep(s.fds, s.links[(r.parent, r.name)], r.guard.value.0, r.guard.value.1) else s.fds
  }

  ghost function FdsAfter(s: State, r: Request): Descriptors {
    match r
    case LookupReq(p, n) =>
      if (p, n) in s.fs.entries && (p, n) !in s.links then Reset(s.fds, false, s.fs.entries[(p, n)]) else s.fds
    case ForgetReq(i, _) =>
      if Retires(s, r) then Descriptors(s.fds.kept - {i}, s.fds.table - KeptBy(s.fds, i)) else s.fds
    case MakeReq(_, _, _, i) => Reset(s.fds, i in s.refs, i)
    case CreateReq(p, n, _, i, via, fd) =>
      var t := Target(s.fs, r).value;
      CreateFds(s.fds, t in s.refs, t, fd, OpenedAt(s.fs, p, n, i, via))
    case UnlinkReq(_, _, _) => GuardFds(s, r)
    case OpenReq(i, fd, o) => Keep(s.fds, i, fd, o)
    case ReleaseReq(i, fd) => LetGo(s.fds, i, fd)
    case _ => s.fds
  }

  /**
   A refused request changes descriptors at most: an unlink that got past the path and the
   permission check has opened its own, and a release has let go before it closes.
   */
  ghost function FdsRefused(s: State, r: Request, e: Errno): Descriptors {
    if r.ReleaseReq? then FdsAfter(s, r)
    else if e != ENOENT && e != EPERM then GuardFds(s, r)
    else s.fds
  }

  ghost function Step(s: State, r: Request): State
    requires TreeAfter(s.fs, r).Ok?
  {
    State(TreeAfter(s.fs, r).value, LinksAfter(s, r), RefsAfter(s, r), FdsAfter(s, r))
  }

  function Answer(t: Tree, r: Request): Reply {
    match Target(t, r)
    case Some(i) => Entry(i)
    case None => if r.GetattrReq? || r.SetattrReq? then Attr(r.ino) else Done
  }

  /**
   A forget removes the inode exactly when it gives back all lookups, if and only if the excess
   survives the narrowing into a C integer.
   */
  lemma ForgetIff(s: State, r: Request)
    requires r.ForgetReq? && r.ino != ROOT && r.ino in s.refs && 0 < s.refs[r.ino] <= INT32_MAX
    ensures (Retires(s, r) <==> s.refs[r.ino] <= r.nlookup) <==>
            r.nlookup < s.refs[r.ino] || (r.nlookup - s.refs[r.ino]) % 0x1_0000_0000 <= 0x8000_0000
  {
  }

  /** Giving back 2^32 lookups of one changes nothing. */
  lemma ForgetCanFail(s: State)
    requires s.refs == map[ROOT := 1, 2 := 1]
    ensures !Retires(s, ForgetReq(2, 0x1_0000_0000)) && RefsAfter(s, ForgetReq(2, 0x1_0000_0000)) == s.refs
  {
  }

  // ---------------------------------------------------------------- who promises what

  /** The kernel names only inodes it holds, and forgets no more lookups than it holds. */
  predicate KernelKeepsCount(s: State, r: Request) {
    match r
    case ForgetReq(i, k) => i == ROOT || (i in s.refs && k <= s.refs[i])
    case RenameReq(p, _, q, _) => p in s.refs && q in s.refs
    case LinkReq(i, q, _) => i in s.refs && q in s.refs
    case LookupReq(p, _) => p in s.refs
    case MakeReq(p, _, _, _) => p in s.refs
    case CreateReq(p, _, _, _, _, _) => p in s.refs
    case UnlinkReq(p, _, _) => p in s.refs
    case RmdirReq(p, _) => p in s.refs
    case _ => r.ino in s.refs
  }

  /** The kernel never holds more lookups on an inode than its count can express. */
  predicate CountFits(s: State, r: Request) {
    Target(s.fs, r).Some? ==> Count(s.refs, Target(s.fs, r).value) < INT32_MAX
  }

  /** The file system never hands out the number of a file that still has a name. */
  ghost predicate FreshNumber(t: Tree, r: Request) {
    r.MakeReq? || r.CreateReq? ==> r.newIno != ROOT && r.newIno !in t.dirs && !Linked(t.entries, r.newIno)
  }

  /** A lookup that misses the cache finds an inode the cache does not have yet. */
  predicate MissIsNew(s: State, r: Request) {
    r.LookupReq? && (r.parent, r.name) in s.fs.entries && (r.parent, r.name) !in s.links ==>
      s.fs.entries[(r.parent, r.name)] !in s.refs
  }

  /** A rename whose source name is not cached must not overwrite a cached name of another file. */
  predicate RenameVisible(s: State, r: Request) {
    r.RenameReq? && (r.parent, r.name) in s.fs.entries ==>
      || (r.parent, r.name) in s.links
      || (r.newParent, r.newName) !in s.links
      || s.links[(r.newParent, r.newName)] == s.fs.entries[(r.parent, r.name)]
  }

  predicate IsLeast(d: set<Fd>, f: Fd) {
    f in d && forall g | g in d :: f <= g
  }

  /** The descriptor that a getattr uses, if there is one, is closed or open on the inode itself. */
  predicate StatsItself(s: State, r: Request) {
    r.GetattrReq? && r.ino != ROOT ==>
      forall f | f in KeptBy(s.fds, r.ino) && IsLeast(KeptBy(s.fds, r.ino), f) ::
        f in s.fds.table ==> s.fds.table[f] == r.ino
  }

  /** The system hands out only numbers that are not in use. */
  predicate FreshFd(s: State, r: Request) {
    match r
    case CreateReq(_, _, _, _, _, fd) => fd !in s.fds.table
    case UnlinkReq(_, _, guard) => Guards(s, r) ==> guard.value.0 !in s.fds.table
    case OpenReq(_, fd, _) => fd !in s.fds.table
    case _ => true
  }

  ghost predicate Admissible(s: State, r: Request) {
    && KernelKeepsCount(s, r) && CountFits(s, r) && FreshNumber(s.fs, r) && FreshFd(s, r)
    && MissIsNew(s, r) && RenameVisible(s, r) && StatsItself(s, r)
  }

  ghost predicate LegalStep(s: State, v: Served) {
    v.reply.Error? ||
    (TreeAfter(s.fs, v.request).Ok? && v.reply == Answer(s.fs, v.request) && Admissible(s, v.request))
  }

  ghost function Apply(s: State, v: Served): State
    requires LegalStep(s, v)
  {
    if v.reply.Error? then s.(fds := FdsRefused(s, v.request, v.reply.errno)) else Step(s, v.request)
  }

  /** Refusing any request but these two changes nothing. */
  lemma RefusalIsHarmless(s: State, r: Request)
    requires !r.UnlinkReq? && !r.ReleaseReq?
    ensures forall e :: LegalStep(s, Served(r, Error(e))) && Apply(s, Served(r, Error(e))) == s
  {
  }

  lemma LookupStep(s: State, r: Request)
    requires r.LookupReq?
    ensures var k := (r.parent, r.name);
            if k in s.fs.entries then
              && TreeAfter(s.fs, r) == Ok(s.fs) && Target(s.fs, r) == Some(s.fs.entries[k])
              && LinksAfter(s, r) == s.links[k := s.fs.entries[k]]
              && RefsAfter(s, r) == s.refs[s.fs.entries[k] := Count(s.refs, s.fs.entries[k]) + 1]
              && FdsAfter(s, r) == if k in s.links then s.fds else Reset(s.fds, false, s.fs.entries[k])
            else TreeAfter(s.fs, r) == Err(ENOENT)
  {
  }

  lemma LinkStep(s: State, r: Request)
    requires r.LinkReq?
    ensures TreeAfter(s.fs, r) == LinkAt(s.fs, r.ino, r.newParent, r.newName)
    ensures Target(s.fs, r) == Some(r.ino) && FdsAfter(s, r) == s.fds
    ensures LinksAfter(s, r) == s.links[(r.newParent, r.newName) := r.ino]
    ensures RefsAfter(s, r) == s.refs[r.ino := Count(s.refs, r.ino) + 1]
  {
  }

  /** A name the file system does not have is not cached either, so nothing is opened for it. */
  lemma UnlinkStep(s: State, r: Request)
    requires r.UnlinkReq? && SubEdges(s.links, s.fs.entries)
    ensures TreeAfter(s.fs, r) == UnlinkAt(s.fs, r.parent, r.name)
    ensures Target(s.fs, r) == None && FdsAfter(s, r) == GuardFds(s, r)
    ensures LinksAfter(s, r) == s.links - {(r.parent, r.name)} && RefsAfter(s, r) == s.refs
    ensures UnlinkAt(s.fs, r.parent, r.name) == Err(ENOENT) ==> GuardFds(s, r) == s.fds
    ensures UnlinkAt(s.fs, r.parent, r.name) != Err(EPERM)
    ensures var k := (r.parent, r.name);
            GuardFds(s, r) == if k in s.links && KeptBy(s.fds, s.links[k]) == {} && r.guard.Some?
                              then Keep(s.fds, s.links[k], r.guard.value.0, r.guard.value.1) else s.fds
  {
  }

  // ---------------------------------------------------------------- the invariant

  /** Every cached name is a name in the file system, for the same inode. */
  ghost predicate Sound(s: State) {
    SubEdges(s.links, s.fs.entries)
  }

  ghost predicate Closed(s: State) {
    && ROOT in s.refs
    && (forall k :: k in s.links ==> k.0 in s.refs && s.links[k] in s.refs)
    && (forall i :: i in s.refs ==> 0 < s.refs[i] <= INT32_MAX)
  }

  ghost predicate Inv(s: State) {
    WellFormed(s.fs) && Sound(s) && Closed(s)
  }

  lemma TreeStaysWellFormed(t: Tree, r: Request)
    requires WellFormed(t)
    requires FreshNumber(t, r)
    requires r.LinkReq? ==> r.ino != ROOT
    requires TreeAfter(t, r).Ok?
    ensures WellFormed(TreeAfter(t, r).value)
  {
    match r
    case LookupReq(p, n) =>
    case ForgetReq(_, _) =>
    case MakeReq(p, n, isDir, i) => MakeKeepsWellFormed(t, p, n, i, isDir);
    case CreateReq(p, n, excl, i, via, _) =>
      if (p, n) !in t.entries {
        MakeKeepsWellFormed(t, p, n, i, false);
      } else if via.Some? && via.value !in t.entries {
        MakeKeepsWellFormed(t, via.value.0, via.value.1, i, false);
      }
    case UnlinkReq(p, n, _) => UnlinkKeepsWellFormed(t, p, n);
    case RmdirReq(p, n) => UnlinkKeepsWellFormed(t, p, n);
    case RenameReq(p, n, q, m) => RenameKeepsWellFormed(t, p, n, q, m);
    case LinkReq(i, q, m) => LinkKeepsWellFormed(t, i, q, m);
    case _ =>
  }

  lemma StepStaysSound(s: State, r: Request)
    requires Sound(s)
    requires TreeAfter(s.fs, r).Ok?
    requires RenameVisible(s, r)
    ensures Sound(Step(s, r))
  {
    hide Beneath, RefsAfter, FdsAfter;
  }

  lemma StepStaysClosed(s: State, r: Request)
    requires Closed(s) && Sound(s)
    requires KernelKeepsCount(s, r) && CountFits(s, r)
    ensures TreeAfter(s.fs, r).Ok? ==> Closed(Step(s, r))
  {
    hide Beneath, FdsAfter;
  }

  lemma StepKeepsInv(s: State, v: Served)
    requires Inv(s) && LegalStep(s, v)
    ensures Inv(Apply(s, v))
  {
    if !v.reply.Error? {
      TreeStaysWellFormed(s.fs, v.request);
      StepStaysSound(s, v.request);
      StepStaysClosed(s, v.request);
    }
  }

  /** The one step that can make the cache lie, and exactly when it does. */
  lemma RenameSoundIff(s: State, r: Request)
    requires Inv(s)
    requires r.RenameReq? && TreeAfter(s.fs, r).Ok?
    ensures Sound(Step(s, r)) <==> RenameVisible(s, r)
  {
    var k := (r.newParent, r.newName);
    if RenameVisible(s, r) {
      StepStaysSound(s, r);
    } else {
      assert k in Step(s, r).links;
      assert Step(s, r).fs.entries[k] == s.fs.entries[(r.parent, r.name)];
    }
  }

  /** Names `a` and `b` for two files, `b` cached: renaming `a` over `b` leaves `b` stale. */
  lemma RenameCanLie(s: State, r: Request)
    requires s == State(Tree({ROOT}, map[(ROOT, "a") := 2, (ROOT, "b") := 3]), map[(ROOT, "b") := 3],
                        map[ROOT := 1, 3 := 1], Descriptors(map[ROOT := {}, 3 := {}], map[]))
    requires r == RenameReq(ROOT, "a", ROOT, "b")
    ensures LegalStep(Mounted(s.fs), Served(LookupReq(ROOT, "b"), Entry(3))) && Step(Mounted(s.fs), LookupReq(ROOT, "b")) == s
    ensures Inv(s) && TreeAfter(s.fs, r).Ok? && KernelKeepsCount(s, r)
    ensures !Sound(Step(s, r))
  {
    hide Beneath, Step, Acyclic;
    LookUpB(s);
    TwoFiles(s.fs);
    FilesAreLeaves(s.fs, 2, ROOT);
    RenameSoundIff(s, r);
  }

  lemma LookUpB(s: State)
    requires s == State(Tree({ROOT}, map[(ROOT, "a") := 2, (ROOT, "b") := 3]), map[(ROOT, "b") := 3],
                        map[ROOT := 1, 3 := 1], Descriptors(map[ROOT := {}, 3 := {}], map[]))
    ensures LegalStep(Mounted(s.fs), Served(LookupReq(ROOT, "b"), Entry(3))) && Step(Mounted(s.fs), LookupReq(ROOT, "b")) == s
  {
  }

  lemma TwoFiles(t: Tree)
    requires t == Tree({ROOT}, map[(ROOT, "a") := 2, (ROOT, "b") := 3])
    ensures WellFormed(t)
  {
    assert Ranked(t.entries, map[2 := 1, 3 := 1]);
  }

  lemma FilesAreLeaves(t: Tree, i: Ino, j: Ino)
    requires WellFormed(t)
    requires i !in t.dirs && j != i
    ensures !Beneath(t.entries, i, j)
  {
    forall w: Path
      ensures Walk(t.entries, i, w) != Some(j)
    {
    }
  }

  lemma BelowSource(t: Tree, p: Ino, n: Name, q: Ino)
    ensures (p, n) in t.entries ==>
              (Beneath(t.entries, t.entries[(p, n)], q) <==> exists w: Path :: Walk(t.entries, t.entries[(p, n)], w) == Some(q))
  {
    if (p, n) in t.entries {
      var e, src := t.entries, t.entries[(p, n)];
      if Beneath(e, src, q) {
        var w: Path :| Walk(e, src, w) == Some(q);
        assert Walk(t.entries, t.entries[(p, n)], w) == Some(q);
      }
      if w: Path :| Walk(t.entries, t.entries[(p, n)], w) == Some(q) {
        assert Walk(e, src, w) == Some(q);
      }
    }
  }

  /** A rename that succeeds, by names; a directory is never moved below itself. */
  lemma RenameByNames(t: Tree, p: Ino, n: Name, q: Ino, m: Name)
    ensures TreeAfter(t, RenameReq(p, n, q, m)) == Err(EINVAL) <==>
            (p, n) in t.entries && exists w: Path :: Walk(t.entries, t.entries[(p, n)], w) == Some(q)
    ensures TreeAfter(t, RenameReq(p, n, q, m)).Ok? ==>
              var t' := TreeAfter(t, RenameReq(p, n, q, m)).value;
              && (p, n) in t.entries && q in t.dirs
              && (q, m) in t'.entries && t'.entries[(q, m)] == t.entries[(p, n)]
              && (forall k :: k != (p, n) && k != (q, m) ==> (k in t.entries <==> k in t'.entries))
              && (forall k :: k != (p, n) && k != (q, m) && k in t.entries ==> t'.entries[k] == t.entries[k])
              && ((p, n) in t'.entries ==> t'.entries[(p, n)] == t.entries[(p, n)])
              && ((p, n) !in t'.entries <==> (q, m) !in t.entries || t.entries[(q, m)] != t.entries[(p, n)])
              && (forall x :: x in t'.dirs <==>
                    x in t.dirs && !((q, m) in t.entries && x == t.entries[(q, m)] != t.entries[(p, n)]))
  {
    RenameRefuses(t, p, n, q, m);
    BelowSource(t, p, n, q);
    if TreeAfter(t, RenameReq(p, n, q, m)).Ok? {
      RenameLeaves(t, p, n, q, m);
    }
  }

  /** What a reply tells the kernel, by names and numbers: every served request did what it says. */
  lemma ReplyMeans(s: State, v: Served)
    requires LegalStep(s, v) && !v.reply.Error? && Sound(s)
    ensures var s', r := Apply(s, v), v.request;
            match r
            case LookupReq(p, n) =>
              v.reply.Entry? && Names(s', (p, n), v.reply.ino) && s'.fs == s.fs
            case MakeReq(p, n, isDir, i) =>
              v.reply == Entry(i) && (p, n) !in s.fs.entries && Names(s', (p, n), i) && (isDir ==> i in s'.fs.dirs)
            case CreateReq(p, n, excl, i, _, fd) =>
              && v.reply.Entry? && Names(s', (p, n), v.reply.ino) && (excl ==> (p, n) !in s.fs.entries)
              && (if (p, n) in s.fs.entries then s.fs.entries[(p, n)] == v.reply.ino else v.reply.ino == i)
              && KeptBy(s'.fds, v.reply.ino) == {fd}
            case LinkReq(i, q, m) =>
              v.reply == Entry(i) && (q, m) !in s.fs.entries && Names(s', (q, m), i)
            case UnlinkReq(p, n, _) =>
              && v.reply == Done && (p, n) in s.fs.entries && s.fs.entries[(p, n)] !in s.fs.dirs
              && (p, n) !in s'.fs.entries && (p, n) !in s'.links
            case RmdirReq(p, n) =>
              && v.reply == Done && (p, n) in s.fs.entries && s.fs.entries[(p, n)] in s.fs.dirs
              && (p, n) !in s'.fs.entries && (p, n) !in s'.links && s.fs.entries[(p, n)] !in s'.fs.dirs
            case RenameReq(p, n, q, m) =>
              && v.reply == Done && (p, n) in s.fs.entries && (q, m) in s'.fs.entries
              && s'.fs.entries[(q, m)] == s.fs.entries[(p, n)]
              && ((p, n) in s.links ==> Names(s', (q, m), s.links[(p, n)]) || (p, n) == (q, m))
            case GetattrReq(i) => v.reply == Attr(i) && s' == s
            case SetattrReq(i, _, _, _) => v.reply == Attr(i) && s' == s
            case OpenReq(i, fd, o) => v.reply == Done && fd in KeptBy(s'.fds, i) && fd in s'.fds.table && s'.fds.table[fd] == o
            case ReleaseReq(i, fd) => v.reply == Done && fd !in KeptBy(s'.fds, i) && fd !in s'.fds.table
            case ForgetReq(_, _) => v.reply == Done && s'.fs == s.fs
    ensures forall i :: Count(Apply(s, v).refs, i) ==
              if v.reply == Entry(i) then Count(s.refs, i) + 1
              else if v.request.ForgetReq? && v.request.ino == i != ROOT && i in s.refs && Left(s, v.request) > 0 then
                Left(s, v.request)
              else if v.request.ForgetReq? && v.request.ino == i != ROOT then 0
              else Count(s.refs, i)
  {
    hide Beneath;
  }

  /** The file system and the cache have the name, for that inode. */
  predicate Names(s: State, k: (Ino, Name), i: Ino) {
    k in s.fs.entries && s.fs.entries[k] == i && k in s.links && s.links[k] == i
  }

  // ---------------------------------------------------------------- runs

  ghost predicate Legal(s: State, run: seq<Served>)
    decreases |run|, 0
  {
    run == [] || (Legal(s, run[..|run| - 1]) && LegalStep(After(s, run[..|run| - 1]), run[|run| - 1]))
  }

  ghost function After(s: State, run: seq<Served>): State
    requires Legal(s, run)
    decreases |run|, 1
  {
    if run == [] then s else Apply(After(s, run[..|run| - 1]), run[|run| - 1])
  }

  lemma LegalNext(s: State, run: seq<Served>, v: Served)
    requires Legal(s, run) && LegalStep(After(s, run), v)
    ensures Legal(s, run + [v]) && After(s, run + [v]) == Apply(After(s, run), v)
  {
    assert (run + [v])[..|run|] == run;
  }

  /** What the kernel sends next may depend on every reply it has had. */
  type Kernel = seq<Served> -> Call

  /** The run is one this kernel can be in: each request is what it sends after the replies before. */
  ghost predicate Follows(kernel: Kernel, run: seq<Served>) {
    forall k :: 0 <= k < |run| ==> run[k].request == kernel(run[..k]).request
  }

  /** Whatever legal run the kernel is in, its next request is admissible. */
  ghost predicate PromisesKept(s: State, kernel: Kernel) {
    forall run :: Legal(s, run) && Follows(kernel, run) ==> Admissible(After(s, run), kernel(run).request)
  }

  lemma FollowsPrefix(kernel: Kernel, run: seq<Served>)
    requires Follows(kernel, run) && run != []
    ensures Follows(kernel, run[..|run| - 1])
    ensures run[|run| - 1].request == kernel(run[..|run| - 1]).request
  {
    var init := run[..|run| - 1];
    forall k | 0 <= k < |init|
      ensures init[k].request == kernel(init[..k]).request
    {
      assert init[..k] == run[..k];
    }
  }

  lemma FollowsNext(kernel: Kernel, run: seq<Served>, v: Served)
    requires Follows(kernel, run)
    requires v.request == kernel(run).request
    ensures Follows(kernel, run + [v])
  {
    var longer := run + [v];
    forall k | 0 <= k < |longer|
      ensures longer[k].request == kernel(longer[..k]).request
    {
      assert longer[..k] == run[..k];
      assert k == |run| ==> run[..k] == run;
    }
  }

  lemma ForgetIsDone(s: State, i: Ino, k: nat, permitted: bool, fault: bool)
    ensures TreeAfter(s.fs, ForgetReq(i, k)).Ok? && Answer(s.fs, ForgetReq(i, k)) == Done
    ensures Expected(s, ForgetReq(i, k), permitted, fault) == Done
  {
  }

  lemma RenameIsDone(t: Tree, r: Request)
    requires r.RenameReq?
    ensures Answer(t, r) == Done
  {
  }

  /** The tracer at mount time: only the root is cached, held once. */
  function Mounted(fs: Tree): State {
    State(fs, map[], map[ROOT := 1], Descriptors(map[ROOT := {}], map[]))
  }

  lemma {:induction false} RunKeepsInv(fs: Tree, run: seq<Served>)
    requires WellFormed(fs)
    requires Legal(Mounted(fs), run)
    ensures Inv(After(Mounted(fs), run))
  {
    if run != [] {
      RunKeepsInv(fs, run[..|run| - 1]);
      StepKeepsInv(After(Mounted(fs), run[..|run| - 1]), run[|run| - 1]);
    }
  }

  /** Lookups handed to the kernel minus lookups it gave back, read off the replies alone. */
  function Balance(run: seq<Served>, i: Ino): int {
    if run == [] then 0
    else
      var v := run[|run| - 1];
      Balance(run[..|run| - 1], i) +
      match v.reply
      case Entry(j) => if j == i then 1 else 0
      case Attr(_) => 0
      case Done => if v.request.ForgetReq? && v.request.ino == i then 0 - v.request.nlookup else 0
      case Error(_) => 0
  }

  /**
   The reference count of every inode but the root is what the replies say, across reuse of
   inode numbers, and the inode is cached exactly as long as the kernel holds a lookup on it.
   */
  lemma {:induction false} LookupsAreConserved(fs: Tree, run: seq<Served>, i: Ino)
    requires WellFormed(fs)
    requires Legal(Mounted(fs), run)
    requires i != ROOT
    ensures Balance(run, i) == Count(After(Mounted(fs), run).refs, i)
    ensures i in After(Mounted(fs), run).refs <==> Balance(run, i) > 0
  {
    hide FdsAfter, FdsRefused, LinksAfter, TreeAfter, Sound, WellFormed;
    RunKeepsInv(fs, run);
    if run != [] {
      LookupsAreConserved(fs, run[..|run| - 1], i);
      RunKeepsInv(fs, run[..|run| - 1]);
    }
  }

  // ---------------------------------------------------------------- when the failing cases cannot arise

  /** Every name of every cached inode is cached. */
  ghost predicate Complete(s: State) {
    forall k :: k in s.fs.entries && s.fs.entries[k] in s.refs ==> k in s.links
  }

  /** That is exactly what it takes for no lookup at all to find a cached inode under a new name. */
  lemma NoAliasIffComplete(s: State)
    ensures Complete(s) <==> forall p, n :: MissIsNew(s, LookupReq(p, n))
  {
    if forall p, n :: MissIsNew(s, LookupReq(p, n)) {
      forall k | k in s.fs.entries && s.fs.entries[k] in s.refs
        ensures k in s.links
      {
        assert MissIsNew(s, LookupReq(k.0, k.1));
      }
    }
  }

  ghost predicate NoHardLinks(t: Tree) {
    forall k, l :: k in t.entries && l in t.entries && t.entries[k] == t.entries[l] ==> k == l
  }

  ghost predicate OpenOn(d: Descriptors, i: Ino) {
    forall f :: f in KeptBy(d, i) ==> f in d.table && d.table[f] == i
  }

  /** Every number kept with an inode is open, on that inode. */
  ghost predicate Honest(d: Descriptors) {
    forall i :: OpenOn(d, i)
  }

  /** If serving the request opens a file, it is the one whose inode keeps the descriptor. */
  predicate OpensItself(s: State, r: Request) {
    match r
    case CreateReq(p, n, _, i, via, _) => Target(s.fs, r) == Some(OpenedAt(s.fs, p, n, i, via))
    case UnlinkReq(p, n, guard) => Guards(s, r) ==> guard.value.1 == s.links[(p, n)]
    case OpenReq(i, _, o) => o == i
    case _ => true
  }

  /** A release closes no number that another inode keeps. */
  predicate ReleasesOwn(s: State, r: Request) {
    r.ReleaseReq? ==> forall j | j in s.fds.kept && r.fd in s.fds.kept[j] :: j == r.ino
  }

  /** No number is kept with two inodes. */
  lemma KeptOnce(d: Descriptors, i: Ino, j: Ino)
    requires Honest(d) && i != j
    ensures KeptBy(d, i) !! KeptBy(d, j)
  {
    assert OpenOn(d, i) && OpenOn(d, j);
  }

  /** So releasing a number that the inode does keep is always safe. */
  lemma KeptIsOwn(s: State, r: Request)
    requires Honest(s.fds) && r.ReleaseReq? && r.fd in KeptBy(s.fds, r.ino)
    ensures ReleasesOwn(s, r)
  {
    forall j | j in s.fds.kept && j != r.ino
      ensures r.fd !in s.fds.kept[j]
    {
      KeptOnce(s.fds, r.ino, j);
    }
  }

  /** Numbers that are not in use are not kept. */
  lemma FreshIsNotKept(d: Descriptors, f: Fd, j: Ino)
    requires Honest(d) && f !in d.table
    ensures f !in KeptBy(d, j)
  {
    assert OpenOn(d, j);
  }

  lemma KeepHonest(d: Descriptors, i: Ino, f: Fd, o: Ino)
    requires Honest(d) && f !in d.table
    ensures Honest(Keep(d, i, f, o)) <==> o == i
  {
    var d' := Keep(d, i, f, o);
    assert f in KeptBy(d', i);
    forall j | j != i || o == i
      ensures OpenOn(d', j)
    {
      assert OpenOn(d, j);
      FreshIsNotKept(d, f, j);
    }
    assert Honest(d') ==> OpenOn(d', i);
  }

  lemma CloseAllHonest(d: Descriptors, d': Descriptors, i: Ino)
    requires Honest(d)
    requires d'.table == d.table - KeptBy(d, i) && (d'.kept == d.kept[i := {}] || d'.kept == d.kept - {i})
    ensures Honest(d')
  {
    forall j
      ensures OpenOn(d', j)
    {
      assert OpenOn(d, j);
      if j != i {
        KeptOnce(d, i, j);
      }
    }
  }

  lemma ResetHonest(d: Descriptors, mapped: bool, i: Ino)
    requires Honest(d)
    ensures Honest(Reset(d, mapped, i))
  {
    if mapped {
      CloseAllHonest(d, Reset(d, mapped, i), i);
    } else {
      forall j
        ensures OpenOn(Reset(d, mapped, i), j)
      {
        assert OpenOn(d, j);
      }
    }
  }

  lemma LetGoHonest(s: State, r: Request)
    requires Honest(s.fds) && r.ReleaseReq?
    ensures Honest(LetGo(s.fds, r.ino, r.fd)) <==> ReleasesOwn(s, r)
  {
    var d, d' := s.fds, LetGo(s.fds, r.ino, r.fd);
    if ReleasesOwn(s, r) {
      forall j
        ensures OpenOn(d', j)
      {
        assert OpenOn(d, j);
      }
    } else {
      var j :| j in d.kept && r.fd in d.kept[j] && j != r.ino;
      assert r.fd in KeptBy(d', j) && !OpenOn(d', j);
    }
  }

  lemma CreateHonest(d: Descriptors, mapped: bool, i: Ino, f: Fd, o: Ino)
    requires Honest(d) && f !in d.table
    ensures Honest(CreateFds(d, mapped, i, f, o)) <==> o == i
  {
    hide Reset;
    var after := d.(table := d.table[f := o]);
    forall j
      ensures OpenOn(after, j) && f !in KeptBy(after, j)
    {
      FreshIsNotKept(d, f, j);
      assert OpenOn(d, j);
    }
    ResetHonest(after, mapped, i);
    ResetKeeps(after, mapped, i, f);
    KeepNumber(Reset(after, mapped, i), i, f, o);
  }

  /** Keeping a number that is open already. */
  lemma KeepNumber(d: Descriptors, i: Ino, f: Fd, o: Ino)
    requires Honest(d) && f in d.table && d.table[f] == o
    ensures Honest(d.(kept := d.kept[i := {f}])) <==> o == i
  {
    var d' := d.(kept := d.kept[i := {f}]);
    assert f in KeptBy(d', i);
    forall j | j != i || o == i
      ensures OpenOn(d', j)
    {
      assert OpenOn(d, j);
    }
    assert Honest(d') ==> OpenOn(d', i);
  }

  lemma ResetKeeps(d: Descriptors, mapped: bool, i: Ino, f: Fd)
    requires f in d.table && f !in KeptBy(d, i)
    ensures f in Reset(d, mapped, i).table && Reset(d, mapped, i).table[f] == d.table[f]
  {
  }

  lemma GuardHonest(s: State, r: Request)
    requires Honest(s.fds) && r.UnlinkReq? && FreshFd(s, r)
    ensures Honest(GuardFds(s, r)) <==> OpensItself(s, r)
  {
    hide Keep, Honest;
    if Guards(s, r) {
      KeepHonest(s.fds, s.links[(r.parent, r.name)], r.guard.value.0, r.guard.value.1);
    }
  }

  /**
   Exactly the requests after which every number is still open on the inode that keeps it: those
   that open nothing but the file itself and close nothing that another inode keeps.
   */
  lemma HonestIff(s: State, r: Request)
    requires Honest(s.fds) && FreshFd(s, r) && TreeAfter(s.fs, r).Ok?
    ensures Honest(Step(s, r).fds) <==> OpensItself(s, r) && ReleasesOwn(s, r)
  {
    hide Honest, TreeAfter, LinksAfter, RefsAfter, GuardFds, Keep, Reset, CreateFds, LetGo;
    match r
    case LookupReq(p, n) => ResetHonest(s.fds, false, if (p, n) in s.fs.entries then s.fs.entries[(p, n)] else 0);
    case ForgetReq(i, _) => CloseAllHonest(s.fds, Descriptors(s.fds.kept - {i}, s.fds.table - KeptBy(s.fds, i)), i);
    case MakeReq(_, _, _, i) => ResetHonest(s.fds, i in s.refs, i);
    case CreateReq(p, n, _, i, via, fd) =>
      var t := Target(s.fs, r).value;
      CreateHonest(s.fds, t in s.refs, t, fd, OpenedAt(s.fs, p, n, i, via));
    case UnlinkReq(_, _, _) => GuardHonest(s, r);
    case OpenReq(i, fd, o) => KeepHonest(s.fds, i, fd, o);
    case ReleaseReq(i, fd) => LetGoHonest(s, r);
    case _ =>
  }

  /** What a kernel and the system it runs on do if descriptors are never confused. */
  ghost predicate Careful(s: State, r: Request) {
    FreshFd(s, r) && OpensItself(s, r) && ReleasesOwn(s, r)
  }

  lemma StaysHonest(s: State, v: Served)
    requires Honest(s.fds) && Careful(s, v.request) && LegalStep(s, v)
    ensures Honest(Apply(s, v).fds)
  {
    hide Honest, OpensItself, ReleasesOwn, Admissible, GuardFds, LetGo;
    if !v.reply.Error? {
      HonestIff(s, v.request);
    } else if v.request.ReleaseReq? {
      LetGoHonest(s, v.request);
    } else if v.request.UnlinkReq? {
      GuardHonest(s, v.request);
    } else {
      RefusalIsHarmless(s, v.request);
    }
  }

  ghost predicate KernelIsCareful(s: State, kernel: Kernel) {
    forall run :: Legal(s, run) && Follows(kernel, run) ==> Careful(After(s, run), kernel(run).request)
  }

  /**
   Over every run in which nothing is opened but the file itself and nothing closed that another
   inode keeps, every number stays open on the inode that keeps it, through any reuse of numbers,
   so every getattr reads the right status.
   */
  lemma {:induction false} RunStaysHonest(fs: Tree, kernel: Kernel, run: seq<Served>)
    requires KernelIsCareful(Mounted(fs), kernel)
    requires Legal(Mounted(fs), run) && Follows(kernel, run)
    ensures Honest(After(Mounted(fs), run).fds)
    ensures forall i :: StatsItself(After(Mounted(fs), run), GetattrReq(i))
    decreases |run|
  {
    hide Careful, LegalStep, Apply, Follows;
    if run != [] {
      var init, v := run[..|run| - 1], run[|run| - 1];
      FollowsPrefix(kernel, run);
      RunStaysHonest(fs, kernel, init);
      assert Careful(After(Mounted(fs), init), kernel(init).request);
      StaysHonest(After(Mounted(fs), init), v);
    }
    HonestStats(After(Mounted(fs), run));
  }

  lemma HonestStats(s: State)
    requires Honest(s.fds)
    ensures forall i :: StatsItself(s, GetattrReq(i))
  {
    forall i
      ensures StatsItself(s, GetattrReq(i))
    {
      assert OpenOn(s.fds, i);
    }
  }

  /**
   A kernel that looks a name up before it renames it to another one, that forgets a directory
   only after everything it looked up in it, that follows symbolic links itself, makes no hard
   links, opens nothing but the file itself, and releases no descriptor that another inode keeps.
   */
  ghost predicate Considerate(s: State, r: Request) {
    && KernelKeepsCount(s, r) && CountFits(s, r) && FreshNumber(s.fs, r)
    && !r.LinkReq? && (r.CreateReq? ==> r.through == None) && Careful(s, r)
    && (r.RenameReq? ==> (r.parent, r.name) in s.links && (r.parent, r.name) != (r.newParent, r.newName))
    && (Retires(s, r) ==> forall k :: k in s.links ==> k.0 != r.ino)
  }

  ghost predicate Ideal(s: State) {
    Inv(s) && Complete(s) && NoHardLinks(s.fs) && Honest(s.fds)
  }

  lemma ConsiderateIsAdmissible(s: State, r: Request)
    requires Ideal(s) && Considerate(s, r)
    ensures Admissible(s, r)
  {
    hide Honest;
    HonestStats(s);
    assert r.GetattrReq? ==> StatsItself(s, GetattrReq(r.ino));
  }

  lemma ConsiderateStaysIdeal(s: State, v: Served)
    requires Ideal(s) && Considerate(s, v.request) && LegalStep(s, v)
    ensures Ideal(Apply(s, v))
  {
    StepKeepsInv(s, v);
    StaysHonest(s, v);
    hide Honest, Careful;
    if !v.reply.Error? {
      StaysSingle(s, v.request);
      StaysComplete(s, v.request);
    }
  }

  lemma StaysSingle(s: State, r: Request)
    requires Ideal(s) && Considerate(s, r)
    requires TreeAfter(s.fs, r).Ok?
    ensures NoHardLinks(TreeAfter(s.fs, r).value)
  {
    hide Beneath, Acyclic, Complete, Closed;
    if r.MakeReq? || r.CreateReq? {
      assert forall k :: k in s.fs.entries ==> s.fs.entries[k] != r.newIno;
    }
  }

  lemma StaysComplete(s: State, r: Request)
    requires Ideal(s) && Considerate(s, r)
    requires TreeAfter(s.fs, r).Ok?
    ensures Complete(Step(s, r))
  {
    hide Beneath, Acyclic, FdsAfter;
    if r.MakeReq? || r.CreateReq? {
      assert forall k :: k in s.fs.entries ==> s.fs.entries[k] != r.newIno && k.0 != r.newIno;
    }
  }

  ghost predicate KernelIsConsiderate(s: State, kernel: Kernel) {
    forall run :: Legal(s, run) && Follows(kernel, run) ==> Considerate(After(s, run), kernel(run).request)
  }

  lemma {:induction false} ConsiderateRunStaysIdeal(s: State, kernel: Kernel, run: seq<Served>)
    requires Ideal(s) && KernelIsConsiderate(s, kernel)
    requires Legal(s, run) && Follows(kernel, run)
    ensures Ideal(After(s, run))
    decreases |run|
  {
    hide Ideal, Considerate, LegalStep, Apply, Follows;
    if run != [] {
      var init, v := run[..|run| - 1], run[|run| - 1];
      FollowsPrefix(kernel, run);
      ConsiderateRunStaysIdeal(s, kernel, init);
      assert Considerate(After(s, init), kernel(init).request);
      ConsiderateStaysIdeal(After(s, init), v);
    }
  }

  /**
   Over a tree without hard links and for such a kernel, neither failing case ever arises:
   whatever has been served, the next request is admissible.
   */
  lemma ConsiderateKernelKeepsPromises(fs: Tree, kernel: Kernel)
    requires WellFormed(fs) && NoHardLinks(fs)
    requires KernelIsConsiderate(Mounted(fs), kernel)
    ensures PromisesKept(Mounted(fs), kernel)
  {
    hide Considerate, Admissible, Follows;
    forall run | Legal(Mounted(fs), run) && Follows(kernel, run)
      ensures Admissible(After(Mounted(fs), run), kernel(run).request)
    {
      ConsiderateRunStaysIdeal(Mounted(fs), kernel, run);
      ConsiderateIsAdmissible(After(Mounted(fs), run), kernel(run).request);
    }
  }

  // A considerate kernel: it looks `a` up until that succeeds, then renames it to `b` until that
  // succeeds, then idles.

  const LOOK: Request := LookupReq(ROOT, "a")
  const MOVE: Request := RenameReq(ROOT, "a", ROOT, "b")
  const IDLE: Request := ForgetReq(ROOT, 0)

  /** The last request that was not refused. */
  function LastServed(run: seq<Served>): Option<Request> {
    if run == [] then None
    else if run[|run| - 1].reply.Error? then LastServed(run[..|run| - 1])
    else Some(run[|run| - 1].request)
  }

  function Mover(run: seq<Served>): Call {
    var last := LastServed(run);
    Call(if last == None then LOOK else if last == Some(LOOK) then MOVE else IDLE, true, false)
  }

  lemma {:induction false} MoverProgress(fs: Tree, run: seq<Served>)
    requires WellFormed(fs)
    requires Legal(Mounted(fs), run) && Follows(Mover, run)
    ensures ROOT in After(Mounted(fs), run).refs
    ensures LastServed(run) == None ==> After(Mounted(fs), run) == Mounted(fs)
    ensures LastServed(run) == Some(LOOK) ==> (ROOT, "a") in After(Mounted(fs), run).links
    decreases |run|
  {
    hide Follows;
    if run != [] {
      FollowsPrefix(Mover, run);
      MoverProgress(fs, run[..|run| - 1]);
      assert run[|run| - 1].request == LOOK ==> LastServed(run[..|run| - 1]) == None;
    }
  }

  lemma MoverIsConsiderate(fs: Tree)
    requires WellFormed(fs) && NoHardLinks(fs)
    ensures KernelIsConsiderate(Mounted(fs), Mover)
  {
    forall run | Legal(Mounted(fs), run) && Follows(Mover, run)
      ensures Considerate(After(Mounted(fs), run), Mover(run).request)
    {
      MoverProgress(fs, run);
    }
  }

  const MOVES: seq<Served> := [Served(LOOK, Entry(2)), Served(MOVE, Error(EIO)), Served(MOVE, Done)]

  /** The rename is really sent, sent again if it is refused, and served. */
  lemma MoverMoves(fs: Tree)
    requires fs == Tree({ROOT}, map[(ROOT, "a") := 2])
    ensures Legal(Mounted(fs), MOVES) && Follows(Mover, MOVES)
    ensures After(Mounted(fs), MOVES).links == After(Mounted(fs), MOVES).fs.entries == map[(ROOT, "b") := 2]
  {
    hide LegalStep, Step, Follows;
    LookThenMove(fs);
    MoverSends();
    var one := [] + [MOVES[0]];
    LegalNext(Mounted(fs), [], MOVES[0]);
    Refusable(After(Mounted(fs), one), MOVES[1]);
    LegalNext(Mounted(fs), one, MOVES[1]);
    LegalNext(Mounted(fs), one + [MOVES[1]], MOVES[2]);
    assert one + [MOVES[1]] + [MOVES[2]] == MOVES;
  }

  lemma MoverSends()
    ensures Follows(Mover, MOVES)
  {
    FollowsNothing(Mover);
    FollowsNext(Mover, [], MOVES[0]);
    var one := [] + [MOVES[0]];
    FollowsNext(Mover, one, MOVES[1]);
    assert (one + [MOVES[1]])[..1] == one;
    FollowsNext(Mover, one + [MOVES[1]], MOVES[2]);
    assert one + [MOVES[1]] + [MOVES[2]] == MOVES;
  }

  lemma FollowsNothing(kernel: Kernel)
    ensures Follows(kernel, [])
  {
  }

  lemma Refusable(s: State, v: Served)
    requires v.reply.Error?
    ensures LegalStep(s, v)
  {
  }

  lemma LookThenMove(fs: Tree)
    requires fs == Tree({ROOT}, map[(ROOT, "a") := 2])
    ensures LegalStep(Mounted(fs), Served(LOOK, Entry(2)))
    ensures var s := Step(Mounted(fs), LOOK);
            && LegalStep(s, Served(MOVE, Done))
            && Step(s, MOVE).links == map[(ROOT, "b") := 2] && Step(s, MOVE).fs.entries == map[(ROOT, "b") := 2]
  {
  }

  // ---------------------------------------------------------------- paths through the cache

  ghost predicate Rooted(links: Edges, i: Ino) {
    exists path: Path :: Walk(links, ROOT, path) == Some(i)
  }

  /** No path through the cached names leads back to where it began. */
  lemma CacheHasNoLoop(s: State, i: Ino, path: Path)
    requires Inv(s)
    requires path != []
    ensures Walk(s.links, i, path) != Some(i)
  {
    if Walk(s.links, i, path).Some? {
      WalkMonotone(s.links, s.fs.entries, i, path);
    }
    AcyclicHasNoLoop(s.fs.entries, i, path);
  }

  /** Every directory in which the cache has a name for `i` is reachable. */
  ghost predicate NamesRooted(links: Edges, i: Ino) {
    forall k :: k in links && links[k] == i ==> Rooted(links, k.0)
  }

  /** A path read out of the cache names the same inode in the file system. */
  lemma CachedPathResolves(s: State, path: Path, i: Ino)
    requires Inv(s)
    requires Walk(s.links, ROOT, path) == Some(i)
    ensures Lstat(s.fs, path) == Some(i)
  {
    WalkMonotone(s.links, s.fs.entries, ROOT, path);
  }

  /** A directory is reachable through the cache only by way of the one name it has. */
  lemma RootedByParent(s: State, k: (Ino, Name))
    requires Inv(s)
    requires k in s.links && s.links[k] in s.fs.dirs
    ensures Rooted(s.links, s.links[k]) ==> Rooted(s.links, k.0)
  {
    if Rooted(s.links, s.links[k]) {
      var path: Path :| Walk(s.links, ROOT, path) == Some(s.links[k]);
      assert path != [];
      assert path == FileSystem.Init(path) + [Last(path)];
      WalkLast(s.links, ROOT, FileSystem.Init(path), Last(path));
      var j := Walk(s.links, ROOT, FileSystem.Init(path)).value;
      assert (j, Last(path)) == k;
    }
  }

  lemma RootIsRooted(links: Edges)
    ensures Rooted(links, ROOT)
  {
    assert Walk(links, ROOT, []) == Some(ROOT);
  }

  lemma NotRooted(links: Edges, i: Ino)
    requires i != ROOT
    requires forall k :: k in links ==> links[k] != i
    ensures !Rooted(links, i)
  {
    forall path: Path
      ensures Walk(links, ROOT, path) != Some(i)
    {
      if path != [] {
        assert path == FileSystem.Init(path) + [Last(path)];
        WalkLast(links, ROOT, FileSystem.Init(path), Last(path));
      }
    }
  }

  /** `mknod`, `mkdir` or `symlink` on a path out of the cache, followed by `lstat` on the same path. */
  lemma MakeResolves(t: Tree, path: Path, p: Ino, n: Name, i: Ino, isDir: bool)
    requires Lstat(t, path) == Some(p)
    ensures Make(t, path + [n], i, isDir) == MakeAt(t, p, n, i, isDir)
    ensures MakeAt(t, p, n, i, isDir).Ok? ==> Lstat(MakeAt(t, p, n, i, isDir).value, path + [n]) == Some(i)
  {
    LastComponent(path, n);
    if MakeAt(t, p, n, i, isDir).Ok? {
      LstatAdded(t, MakeAt(t, p, n, i, isDir).value, path, p, n);
    }
  }

  /** `unlink` on a path out of the cache. */
  lemma UnlinkResolves(t: Tree, path: Path, p: Ino, n: Name)
    requires Lstat(t, path) == Some(p)
    ensures Unlink(t, path + [n]) == UnlinkAt(t, p, n)
  {
    LastComponent(path, n);
  }

  /** `open` on a path out of the cache, followed by `lstat` on the same path. */
  lemma CreateResolves(t: Tree, path: Path, p: Ino, n: Name, excl: bool, i: Ino, via: Option<(Ino, Name)>)
    requires Lstat(t, path) == Some(p)
    ensures Open(t, path + [n], excl, i, via) == OpenAt(t, p, n, excl, i, via)
    ensures Lstat(t, FileSystem.Init(path + [n])) == Some(p) && Opened(t, path + [n], i, via) == OpenedAt(t, p, n, i, via)
    ensures OpenAt(t, p, n, excl, i, via).Ok? ==>
              Lstat(OpenAt(t, p, n, excl, i, via).value, path + [n]) ==
              Some(if (p, n) in t.entries then t.entries[(p, n)] else i)
  {
    LastComponent(path, n);
    if OpenAt(t, p, n, excl, i, via).Ok? {
      LstatAdded(t, OpenAt(t, p, n, excl, i, via).value, path, p, n);
    }
  }

  /** `link` on two paths out of the cache, followed by `lstat` on the new one. */
  lemma LinkResolves(t: Tree, path: Path, i: Ino, newPath: Path, q: Ino, m: Name)
    requires Lstat(t, path) == Some(i) && Lstat(t, newPath) == Some(q)
    ensures Link(t, path, newPath + [m]) == LinkAt(t, i, q, m)
    ensures LinkAt(t, i, q, m).Ok? ==> Lstat(LinkAt(t, i, q, m).value, newPath + [m]) == Some(i)
  {
    LastComponent(newPath, m);
    if LinkAt(t, i, q, m).Ok? {
      LstatAdded(t, LinkAt(t, i, q, m).value, newPath, q, m);
    }
  }

  /** `rename` on two paths out of the cache is `rename` on the inodes they lead to. */
  lemma RenameResolves(t: Tree, path: Path, p: Ino, n: Name, newPath: Path, q: Ino, m: Name)
    requires WellFormed(t)
    requires Lstat(t, path) == Some(p) && Lstat(t, newPath) == Some(q)
    ensures Rename(t, path + [n], newPath + [m]).Ok? <==> TreeAfter(t, RenameReq(p, n, q, m)).Ok?
    ensures SingleNamed(t, q) || Rename(t, path + [n], newPath + [m]).Ok? ==>
              Rename(t, path + [n], newPath + [m]) == TreeAfter(t, RenameReq(p, n, q, m))
  {
    LastComponent(path, n);
    LastComponent(newPath, m);
    if (p, n) in t.entries && (SingleNamed(t, q) || q in t.dirs) {
      PassesThroughIffBeneath(t, newPath, t.entries[(p, n)], q);
    }
  }

  // ---------------------------------------------------------------- when a path is found

  /** Every directory but the root has a name. */
  ghost predicate Connected(t: Tree) {
    forall d :: d in t.dirs && d != ROOT ==> Linked(t.entries, d)
  }

  /** Has a name, or needs none. */
  ghost predicate Reachable(t: Tree, i: Ino) {
    i == ROOT || Linked(t.entries, i)
  }

  lemma StaysConnected(t: Tree, r: Request)
    requires Connected(t)
    requires TreeAfter(t, r).Ok?
    ensures Connected(TreeAfter(t, r).value)
  {
    hide Beneath, Linked;
    var t' := TreeAfter(t, r).value;
    forall d | d in t'.dirs && d != ROOT
      ensures Linked(t'.entries, d)
    {
      if d in t.dirs {
        var k := NameOf(t.entries, d);
        if k in t'.entries && t'.entries[k] == d {
          Named(t'.entries, k);
        } else {
          Named(t'.entries, (r.newParent, r.newName));
        }
      } else {
        Named(t'.entries, (r.parent, r.name));
      }
    }
  }

  lemma NameOf(e: Edges, i: Ino) returns (k: (Ino, Name))
    requires Linked(e, i)
    ensures k in e && e[k] == i
  {
    k :| k in e && e[k] == i;
  }

  lemma Named(e: Edges, k: (Ino, Name))
    requires k in e
    ensures Linked(e, e[k])
  {
  }

  lemma {:induction false} RunStaysConnected(fs: Tree, run: seq<Served>)
    requires Connected(fs)
    requires Legal(Mounted(fs), run)
    ensures Connected(After(Mounted(fs), run).fs)
  {
    hide Connected, LegalStep;
    if run != [] {
      RunStaysConnected(fs, run[..|run| - 1]);
      StepStaysConnected(After(Mounted(fs), run[..|run| - 1]), run[|run| - 1]);
    }
  }

  lemma StepStaysConnected(s: State, v: Served)
    requires Connected(s.fs) && LegalStep(s, v)
    ensures Connected(Apply(s, v).fs)
  {
    hide Connected;
    if !v.reply.Error? {
      StaysConnected(s.fs, v.request);
    }
  }

  /** A complete cache of a connected tree has a path to every mapped inode that has a name. */
  lemma {:induction false} NamedIsRooted(s: State, i: Ino, rank: map<Ino, nat>)
    requires Inv(s) && Complete(s) && Connected(s.fs)
    requires Ranked(s.fs.entries, rank)
    requires i in s.refs && Reachable(s.fs, i)
    ensures Rooted(s.links, i)
    decreases Rank(rank, i)
  {
    hide Rooted, Acyclic, Linked;
    if i == ROOT {
      RootIsRooted(s.links);
    } else {
      var k := NameOf(s.fs.entries, i);
      assert k in s.links;
      NamedIsRooted(s, k.0, rank);
      RootedChild(s.links, k);
    }
  }

  lemma RootedChild(links: Edges, k: (Ino, Name))
    requires k in links && Rooted(links, k.0)
    ensures Rooted(links, links[k])
  {
    var path: Path :| Walk(links, ROOT, path) == Some(k.0);
    WalkLast(links, ROOT, path, k.1);
    assert Walk(links, ROOT, path + [k.1]) == Some(links[k]);
  }

  /** Paths are found for exactly the mapped inodes that have a name, by every name. */
  ghost predicate PathsComplete(s: State) {
    forall i :: i in s.refs ==> (Rooted(s.links, i) <==> Reachable(s.fs, i)) && NamesRooted(s.links, i)
  }

  lemma IdealFindsPaths(s: State)
    requires Inv(s) && Complete(s) && Connected(s.fs)
    ensures PathsComplete(s)
  {
    hide Rooted, Reachable, Connected, Complete;
    var rank: map<Ino, nat> :| Ranked(s.fs.entries, rank);
    forall i | i in s.refs
      ensures Rooted(s.links, i) <==> Reachable(s.fs, i)
      ensures NamesRooted(s.links, i)
    {
      if Reachable(s.fs, i) {
        NamedIsRooted(s, i, rank);
      } else {
        NamelessIsLost(s, i);
      }
      forall k | k in s.links && s.links[k] == i
        ensures Rooted(s.links, k.0)
      {
        DirectoryReachable(s, k);
        NamedIsRooted(s, k.0, rank);
      }
    }
  }

  lemma DirectoryReachable(s: State, k: (Ino, Name))
    requires Inv(s) && Connected(s.fs) && k in s.links
    ensures k.0 in s.refs && Reachable(s.fs, k.0)
  {
  }

  lemma NamelessIsLost(s: State, i: Ino)
    requires Inv(s) && !Reachable(s.fs, i)
    ensures !Rooted(s.links, i)
  {
    NotRooted(s.links, i);
  }

  /**
   For a considerate kernel over a connected tree without hard links the tracer is without a path
   only for inodes that have no name any more, over every run.
   */
  lemma ConsiderateKernelFindsPaths(fs: Tree, kernel: Kernel, run: seq<Served>)
    requires WellFormed(fs) && NoHardLinks(fs) && Connected(fs)
    requires KernelIsConsiderate(Mounted(fs), kernel)
    requires Legal(Mounted(fs), run) && Follows(kernel, run)
    ensures PathsComplete(After(Mounted(fs), run))
  {
    hide KernelIsConsiderate, Connected, PathsComplete, NoHardLinks, Complete;
    MountedIsIdeal(fs);
    ConsiderateRunStaysIdeal(Mounted(fs), kernel, run);
    RunStaysConnected(fs, run);
    IdealFindsPaths(After(Mounted(fs), run));
  }

  lemma MountedIsIdeal(fs: Tree)
    requires WellFormed(fs) && NoHardLinks(fs)
    ensures Ideal(Mounted(fs))
  {
  }

  // ---------------------------------------------------------------- the reply to each request

  ghost predicate PathsKnown(s: State, r: Request) {
    match r
    case ForgetReq(_, _) => true
    case RenameReq(p, _, q, _) => Rooted(s.links, p) && Rooted(s.links, q)
    case LinkReq(i, q, _) => Rooted(s.links, i) && Rooted(s.links, q)
    case LookupReq(p, _) => Rooted(s.links, p)
    case MakeReq(p, _, _, _) => Rooted(s.links, p)
    case CreateReq(p, _, _, _, _, _) => Rooted(s.links, p)
    case UnlinkReq(p, _, _) => Rooted(s.links, p)
    case RmdirReq(p, _) => Rooted(s.links, p)
    case GetattrReq(i) => KeptBy(s.fds, i) != {} || Rooted(s.links, i)
    case SetattrReq(i, _, times, _) => (KeptBy(s.fds, i) != {} && !times) || Rooted(s.links, i)
    case OpenReq(i, _, _) => Rooted(s.links, i)
    case ReleaseReq(_, _) => true
  }

  /** The call is made on a number that is no longer open. */
  ghost predicate OnClosed(s: State, r: Request) {
    match r
    case GetattrReq(i) => exists f :: IsLeast(KeptBy(s.fds, i), f) && f !in s.fds.table
    case SetattrReq(i, change, times, _) =>
      change && !times && exists f :: IsLeast(KeptBy(s.fds, i), f) && f !in s.fds.table
    case ReleaseReq(_, fd) => fd !in s.fds.table
    case _ => false
  }

  /** The reply, given whether the permission check passes and whether the call fails by itself. */
  ghost function Expected(s: State, r: Request, permitted: bool, fault: bool): Reply {
    if r.ForgetReq? then Done
    else if r.LookupReq? && !permitted then Error(EPERM)
    else if !PathsKnown(s, r) then Error(ENOENT)
    else if !permitted && !r.GetattrReq? && !r.ReleaseReq? then Error(EPERM)
    else if fault then Error(EIO)
    else if OnClosed(s, r) then Error(EBADF)
    else match TreeAfter(s.fs, r)
         case Err(e) => Error(e)
         case Ok(_) => Answer(s.fs, r)
  }

  /** The request is served exactly if all this holds, whatever the order in which it is checked. */
  lemma ServedIff(s: State, r: Request, permitted: bool, fault: bool)
    ensures !Expected(s, r, permitted, fault).Error? <==>
            || r.ForgetReq?
            || (&& (permitted || r.GetattrReq? || r.ReleaseReq?) && !fault
                && (r.LookupReq? || r.MakeReq? || r.CreateReq? || r.UnlinkReq? || r.RmdirReq? || r.RenameReq? ==>
                      Rooted(s.links, r.parent))
                && (r.RenameReq? || r.LinkReq? ==> Rooted(s.links, r.newParent))
                && (r.LinkReq? || r.OpenReq? ==> Rooted(s.links, r.ino))
                && (r.GetattrReq? ==> KeptBy(s.fds, r.ino) != {} || Rooted(s.links, r.ino))
                && (r.SetattrReq? ==> (KeptBy(s.fds, r.ino) != {} && !r.times) || Rooted(s.links, r.ino))
                && (r.GetattrReq? || (r.SetattrReq? && r.change && !r.times) ==>
                      forall f :: IsLeast(KeptBy(s.fds, r.ino), f) ==> f in s.fds.table)
                && (r.ReleaseReq? ==> r.fd in s.fds.table)
                && TreeAfter(s.fs, r).Ok?)
  {
    hide Rooted, TreeAfter;
  }

  /** Why a request is refused: the first reason in this order, and for a lookup permission first. */
  lemma RefusedBecause(s: State, r: Request, permitted: bool, fault: bool)
    requires !r.ForgetReq?
    ensures var e, asks := Expected(s, r, permitted, fault), !r.GetattrReq? && !r.ReleaseReq?;
            && (asks && !permitted ==> e == Error(EPERM) || (e == Error(ENOENT) && !r.LookupReq?))
            && (r.LookupReq? && !permitted ==> e == Error(EPERM))
            && (e == Error(EPERM) ==> (asks && !permitted) || TreeAfter(s.fs, r) == Err(EPERM))
            && (fault ==> e in {Error(ENOENT), Error(EPERM), Error(EIO)})
            && (e == Error(EIO) ==> fault || TreeAfter(s.fs, r) == Err(EIO))
            && (e == Error(EBADF) ==> r.GetattrReq? || r.SetattrReq? || r.ReleaseReq? || TreeAfter(s.fs, r) == Err(EBADF))
            && (e.Error? && e.errno !in {ENOENT, EPERM, EIO, EBADF} ==> TreeAfter(s.fs, r) == Err(e.errno))
  {
    hide Rooted, TreeAfter;
  }

  lemma PermissionUnasked(s: State, r: Request, permitted: bool, fault: bool)
    requires r.GetattrReq? || r.ReleaseReq?
    ensures Expected(s, r, permitted, fault) == Expected(s, r, true, fault)
  {
  }

  /** Whether a path to the inode is found does not depend on the name it is looked for by. */
  ghost predicate OnePath(s: State, i: Ino) {
    i in s.fs.dirs || (Rooted(s.links, i) ==> NamesRooted(s.links, i))
  }

  /** The reply to the request is dictated. */
  ghost predicate Settled(s: State, r: Request) {
    match r
    case ForgetReq(_, _) => true
    case RenameReq(p, _, q, _) => OnePath(s, p) && OnePath(s, q) && SingleNamed(s.fs, q)
    case LinkReq(i, q, _) => OnePath(s, i) && OnePath(s, q)
    case LookupReq(p, _) => OnePath(s, p)
    case MakeReq(p, _, _, _) => OnePath(s, p)
    case CreateReq(p, _, _, _, _, _) => OnePath(s, p)
    case UnlinkReq(p, _, _) => OnePath(s, p)
    case RmdirReq(p, _) => OnePath(s, p)
    case GetattrReq(i) => OnePath(s, i)
    case SetattrReq(i, _, _, _) => OnePath(s, i)
    case OpenReq(i, _, _) => OnePath(s, i)
    case ReleaseReq(_, _) => true
  }

  lemma LinkReply(s: State, r: Request, permitted: bool, fault: bool)
    requires r.LinkReq?
    ensures Settled(s, r) ==> OnePath(s, r.ino) && OnePath(s, r.newParent)
    ensures Expected(s, r, permitted, fault) ==
            if !Rooted(s.links, r.ino) || !Rooted(s.links, r.newParent) then Error(ENOENT)
            else if !permitted then Error(EPERM)
            else if fault then Error(EIO)
            else match LinkAt(s.fs, r.ino, r.newParent, r.newName)
                 case Err(e) => Error(e)
                 case Ok(_) => Entry(r.ino)
  {
  }

  /** Every reply of the run is the dictated one, wherever it is dictated. */
  ghost predicate Dictated(s: State, kernel: Kernel, run: seq<Served>)
    requires Legal(s, run)
    decreases |run|
  {
    run == [] ||
    var init := run[..|run| - 1];
    && Dictated(s, kernel, init)
    && (Settled(After(s, init), kernel(init).request) ==> Right(s, kernel, init, run[|run| - 1].reply))
  }

  ghost predicate Right(s: State, kernel: Kernel, run: seq<Served>, r: Reply)
    requires Legal(s, run)
  {
    var call := kernel(run);
    r == Expected(After(s, run), call.request, call.permitted, call.fault)
  }

  /** Every reply of the run is the dictated one. */
  ghost predicate AllRight(s: State, kernel: Kernel, run: seq<Served>) {
    forall k :: 0 <= k < |run| ==> Legal(s, run[..k]) && Right(s, kernel, run[..k], run[k].reply)
  }

  /** Whoever lacks the permission is told so, or that there is no path, and nothing changes. */
  ghost predicate DenialsKept(s: State, kernel: Kernel, run: seq<Served>)
    requires Legal(s, run)
    decreases |run|
  {
    run == [] ||
    var init, v := run[..|run| - 1], run[|run| - 1];
    && DenialsKept(s, kernel, init)
    && (!kernel(init).permitted && !v.request.ForgetReq? && !v.request.GetattrReq? && !v.request.ReleaseReq? ==>
          (v.reply == Error(EPERM) || v.reply == Error(ENOENT)) && After(s, run) == After(s, init))
    && (kernel(init).fault && !v.request.ForgetReq? ==>
          v.reply.Error? && After(s, run).(fds := After(s, init).fds) == After(s, init))
  }

  lemma DenialsNext(s: State, kernel: Kernel, run: seq<Served>, v: Served)
    requires Legal(s, run) && Legal(s, run + [v]) && DenialsKept(s, kernel, run)
    requires !kernel(run).permitted && !v.request.ForgetReq? && !v.request.GetattrReq? && !v.request.ReleaseReq? ==>
               (v.reply == Error(EPERM) || v.reply == Error(ENOENT)) && After(s, run + [v]) == After(s, run)
    requires kernel(run).fault && !v.request.ForgetReq? ==>
               v.reply.Error? && After(s, run + [v]).(fds := After(s, run).fds) == After(s, run)
    ensures DenialsKept(s, kernel, run + [v])
  {
    hide Legal, After;
    assert (run + [v])[..|run|] == run;
  }

  lemma DictatedNext(s: State, kernel: Kernel, run: seq<Served>, v: Served)
    requires Legal(s, run) && Legal(s, run + [v]) && Dictated(s, kernel, run)
    requires Settled(After(s, run), kernel(run).request) ==> Right(s, kernel, run, v.reply)
    ensures Dictated(s, kernel, run + [v])
  {
    hide Legal, Settled, Right;
    assert (run + [v])[..|run|] == run;
  }

  /** Where every mapped inode has its path, every admissible request is settled. */
  lemma PathsSettle(s: State, r: Request)
    requires PathsComplete(s) && NoHardLinks(s.fs) && KernelKeepsCount(s, r)
    ensures Settled(s, r)
  {
    hide Rooted, NamesRooted, Reachable;
  }

  /** For a considerate kernel over a connected tree without hard links, every reply is dictated. */
  lemma {:induction false} ConsiderateKernelIsAnswered(fs: Tree, kernel: Kernel, run: seq<Served>)
    requires WellFormed(fs) && NoHardLinks(fs) && Connected(fs)
    requires KernelIsConsiderate(Mounted(fs), kernel)
    requires Legal(Mounted(fs), run) && Follows(kernel, run) && Dictated(Mounted(fs), kernel, run)
    ensures AllRight(Mounted(fs), kernel, run)
    decreases |run|
  {
    hide WellFormed, NoHardLinks, Connected, LegalStep, Follows, Settled, Right, PathsComplete, Apply, Considerate;
    if run != [] {
      var init := run[..|run| - 1];
      FollowsPrefix(kernel, run);
      ConsiderateKernelIsAnswered(fs, kernel, init);
      NextIsSettled(fs, kernel, init);
      forall k | 0 <= k < |run|
        ensures Legal(Mounted(fs), run[..k]) && Right(Mounted(fs), kernel, run[..k], run[k].reply)
      {
        assert k < |init| ==> run[..k] == init[..k] && run[k] == init[k];
      }
    }
  }

  lemma NextIsSettled(fs: Tree, kernel: Kernel, run: seq<Served>)
    requires WellFormed(fs) && NoHardLinks(fs) && Connected(fs)
    requires KernelIsConsiderate(Mounted(fs), kernel)
    requires Legal(Mounted(fs), run) && Follows(kernel, run)
    ensures Settled(After(Mounted(fs), run), kernel(run).request)
  {
    hide NoHardLinks, Connected, LegalStep, Follows, Settled, PathsComplete, Apply, Complete, Honest;
    MountedIsIdeal(fs);
    ConsiderateRunStaysIdeal(Mounted(fs), kernel, run);
    ConsiderateKernelFindsPaths(fs, kernel, run);
    assert Considerate(After(Mounted(fs), run), kernel(run).request);
    PathsSettle(After(Mounted(fs), run), kernel(run).request);
  }

  // What a few requests in the root directory are answered.

  /** Files `a` and `b`, of which `a` stands for a symbolic link to `b`. */
  const AB: Tree := Tree({ROOT}, map[(ROOT, "a") := 2, (ROOT, "b") := 3])

  const CREATE: Request := CreateReq(ROOT, "a", false, 9, Some((ROOT, "b")), 5)
  const REMOVE: Request := UnlinkReq(ROOT, "a", Some((5, 3)))

  ghost predicate Misled(s: State) {
    2 in s.refs && IsLeast(KeptBy(s.fds, 2), 5) && 5 in s.fds.table && s.fds.table[5] == 3
  }

  lemma CreateAnswered()
    ensures var s := Mounted(AB);
            && Inv(s) && Admissible(s, CREATE) && Settled(s, CREATE) && Expected(s, CREATE, true, false) == Entry(2)
            && LegalStep(s, Served(CREATE, Entry(2))) && Misled(Apply(s, Served(CREATE, Entry(2))))
  {
    hide Rooted;
    TwoFiles(AB);
    RootIsRooted(Mounted(AB).links);
  }

  lemma UnlinkAnswered()
    ensures var s := Mounted(AB);
            && Inv(s) && Admissible(s, LOOK) && Settled(s, LOOK) && Expected(s, LOOK, true, false) == Entry(2)
            && LegalStep(s, Served(LOOK, Entry(2)))
    ensures LegalStep(Mounted(AB), Served(LOOK, Entry(2))) ==>
              var s := Apply(Mounted(AB), Served(LOOK, Entry(2)));
              && Admissible(s, REMOVE) && Settled(s, REMOVE) && Expected(s, REMOVE, true, false) == Done
              && LegalStep(s, Served(REMOVE, Done)) && Misled(Apply(s, Served(REMOVE, Done)))
  {
    hide Rooted;
    TwoFiles(AB);
    LookupAnswered(Mounted(AB), "a");
    var s := Step(Mounted(AB), LOOK);
    RootIsRooted(s.links);
  }

  const ABC: Tree := Tree({ROOT}, map[(ROOT, "a") := 2, (ROOT, "b") := 3, (ROOT, "c") := 4])

  lemma ThreeFiles()
    ensures Inv(Mounted(ABC)) && !Linked(ABC.entries, 9)
  {
    assert Ranked(ABC.entries, map[2 := 1, 3 := 1, 4 := 1]);
  }

  /** The descriptors after `a` has been created twice, with numbers 5 and 6. */
  const TWICE: Descriptors := Descriptors(map[ROOT := {}, 2 := {6}], map[6 := 2])

  lemma TwiceFds()
    ensures CreateFds(CreateFds(Mounted(ABC).fds, false, 2, 5, 2), true, 2, 6, 2) == TWICE
  {
  }

  /** The kernel releases number 5 of `a` while it is `b`'s, and `c` gets it. */
  lemma ReuseFds()
    ensures var first := Keep(Reset(TWICE, false, 3), 3, 5, 3);
            var released := LetGo(first, 2, 5);
            var reused := Keep(Reset(released, false, 4), 4, 5, 4);
            && 5 !in TWICE.table && 5 in first.table && 5 !in released.table
            && IsLeast(KeptBy(reused, 3), 5) && 5 in reused.table && reused.table[5] == 4
  {
  }

  lemma OpenExisting(s: State, r: Request)
    requires Inv(s) && r.CreateReq? && r.parent == ROOT && !r.excl && r.through == None
    requires (ROOT, r.name) in s.fs.entries && s.fs.entries[(ROOT, r.name)] !in s.fs.dirs
    requires CountFits(s, r) && FreshNumber(s.fs, r) && FreshFd(s, r)
    ensures Admissible(s, r) && Settled(s, r) && TreeAfter(s.fs, r).Ok?
    ensures Expected(s, r, true, false) == Entry(s.fs.entries[(ROOT, r.name)])
  {
    hide Rooted;
    RootIsRooted(s.links);
  }

  lemma LookupAnswered(s: State, n: Name)
    requires Inv(s) && (ROOT, n) in s.fs.entries && (ROOT, n) !in s.links && s.fs.entries[(ROOT, n)] !in s.refs
    ensures var r := LookupReq(ROOT, n);
            && Admissible(s, r) && Settled(s, r) && Expected(s, r, true, false) == Entry(s.fs.entries[(ROOT, n)])
  {
    hide Rooted;
    RootIsRooted(s.links);
  }

  lemma OpenAnswered(s: State, n: Name, fd: Fd)
    requires Inv(s) && (ROOT, n) in s.fs.entries && (ROOT, n) !in s.links && s.fs.entries[(ROOT, n)] !in s.refs
    requires fd !in s.fds.table
    ensures var s', r := Step(s, LookupReq(ROOT, n)), OpenReq(s.fs.entries[(ROOT, n)], fd, s.fs.entries[(ROOT, n)]);
            && Admissible(s', r) && Settled(s', r) && Expected(s', r, true, false) == Done
  {
    hide Rooted;
    var s' := Step(s, LookupReq(ROOT, n));
    RootIsRooted(s'.links);
    RootedChild(s'.links, (ROOT, n));
    assert forall k :: k in s'.links && s'.links[k] == s.fs.entries[(ROOT, n)] ==> k == (ROOT, n);
  }
}
