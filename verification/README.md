# Verified models of stateful cores of Ceph

This project models pieces of the Ceph repository that keep real state and proves what they
keep, over every run or every input:

- the inode and dentry cache of the FUSE tracer, a pointer graph edited in place by the request
  handlers (`FileSystem.dfy`, `CacheModel.dfy`, `FuseTrace.dfy`);
- the OSD thrasher of the QA suite, four lists and a weighted random choice (`Thrasher.dfy`);
- the state-chart extractor of the documentation: comment stripper, chunker and scope stack
  (`SourceText.dfy`, `StateChart.dfy`);
- the multi-dimensional performance histogram (`Histogram.dfy`);
- the libcephfs mount life cycle (`MountInfo.dfy`) and the CRUSH location packer
  (`CrushLocation.dfy`);
- the daemon watchdog (`Watchdog.dfy`), the scrub wait loop (`ScrubWait.dfy`) and the
  line-splitting log stream (`LogStream.dfy`).

`Wrappers.dfy` holds the option type and `MachineInts.dfy` the 32-bit and 64-bit integers of the C
and C++ sources.

`dafny verify dfyconfig.toml` checks everything.

## How the tracer is modelled

The tracer is two layers. `FuseTrace` is the program: `Inode` objects with `dentries`, `parents`,
`fds` and `ref` fields, the global `inode_map`, and one method per handler. The session loop runs
on one thread, so a handler is one atomic step. `CacheModel` is what the cache means: `links`, a
partial directory tree, `refs`, the lookup counts, and `fds`, the process's table of open files with
the descriptor numbers kept with each inode. `Tracer.Valid` ties the two together and
every handler is proved to take one step of the model, for every path it can take, errors
included. The directory tree underneath (`FileSystem`) is the file system the tracer is mounted
over; its calls take the component path that `make_inode_path` builds, so a handler is right only
if that path leads where the handler believes.

What the program cannot decide is a parameter: `permitted` is the outcome of `has_perm`, `fault`
says that a call fails for a reason outside the directory tree, `newIno` is the number the file
system gives a new file, and `through` is where a symbolic link leads that already has the name of a
file to be created. `fd` is the descriptor that opening a file returns and `file` what it is open
on; `guard` is both, for the descriptor that an unlink opens first. The system hands out only
numbers that are not in use (`FreshFd`). `parents.begin()` is modelled as any entry, which covers
the entry the map order selects. `basedir` is the root of the tree and has inode number 1.

Five things the tracer is meant to keep are false of the code, and the model keeps the code as it is:

- A lookup that misses the cache maps a new inode under its number whatever the number was mapped
  to before. For a file with two names this loses the first inode. `Tracer.Lookup` states that the
  cache stays consistent if and only if `MissIsNew` held; `HardLinkAliases` is a failing case.
- A rename whose source name is not cached leaves the cache alone, even if the target name is
  cached for another file. `RenameSoundIff` states that the cache stays sound if and only if
  `RenameVisible` held; `RenameCanLie` is a failing case.
- A forget for a number that is not mapped enters it with a null pointer, which a later reuse of
  the number would dereference. `Tracer.Forget` states that the map stays free of null pointers if
  and only if the number is the root's or mapped; `StrayForgetPlantsNull` is a failing case.
- A forget narrows its count to a C `int`. `ForgetIff` states that the inode goes exactly when all
  its lookups are forgotten if and only if the excess does not wrap around; `ForgetCanFail` is a
  failing case.
- A getattr reads the status through the first descriptor number kept with the inode, and stores the
  inode number it finds. `create` and `unlink` on a symbolic link keep a descriptor of the target
  with the link's inode. A second `create` of a file closes its first descriptor behind the kernel's
  back, and when the kernel releases that one it closes whatever file has the number by then.
  `Tracer.Getattr` states that the map stays consistent if and only if the number is closed or open
  on the inode itself (`StatsItself`). `HonestIff` states after which requests every kept number is
  still open on its own inode. `CreateMisleads`, `UnlinkMisleads` and `ReuseMisleads` are failing
  cases.

Most of these conditions are promises nobody makes to the tracer. A kernel is a function from what
has been served so far to the next call, so it may use every inode number it has been given.
`Serve` is the session loop for any kernel whose next request is admissible after each legal run it
has followed. `ConsiderateKernelKeepsPromises` shows that every considerate kernel is one of these,
over a tree without hard links. A considerate kernel makes no hard links, creates nothing through a
symbolic link, renames only names it has looked up and to other names, forgets a directory only
after its contents and only what it holds, lets no count exceed a C `int`, opens nothing but the file
itself and releases no number that another inode keeps. `RunStaysHonest` shows for any kernel that
the last two are enough for every getattr to read the right status, through any reuse of numbers.
`MoverIsConsiderate` and `MoverMoves` exhibit a kernel that looks a name up and then renames the
file. `NoAliasIffComplete` says when no lookup can break the map. `ConsiderateKernelFindsPaths` shows
that the tracer is without a path, and answers ENOENT for that reason, only for inodes that have no
name any more, and `ConsiderateKernelIsAnswered` that every single reply is the one that the file
system and the permissions dictate.

In `unlink_inode` the name passed to `remove_dentry` is a reference into the map entry being erased;
the model passes names by value. The `lstat` at the end of `setattr` is given an empty path if a
descriptor was used; it fails and the status stays as it was.

## Other places where the code decides

- `test_pool_min_size` calls a one-argument log function with two arguments and raises before it
  kills anything, so the floors hold even if it is chosen; the thread then ends.
- `chance_thrash_pg_upmap_items` is read from the key of `chance_thrash_pg_upmap`, so one weight
  stands for both.
- The pause scenarios in `choose_action` bind their key late, so all of them inject the last key;
  the model has one pause action for each length.
- A second `init` on an initialized mount overwrites its pointers. `CephMountInfo.Init` states that
  the mount stays consistent if and only if it was not initialized before, and `Life` that a whole
  life leaves nothing behind if and only if this never happens.
- The distance of a value from the axis minimum can overflow 64 bits. `BucketIff` states, for both
  scales, which buckets are right if an overflow wraps around. `OverflowEscapes` is a value whose
  bucket number is negative, `OverflowComesFirst` one that is counted next to the minimum, and
  `IncEscapes` a call that writes outside the array.
- The number of counters is a 64-bit product. `SizeWraps` is a histogram whose array is empty; the
  constructor states that the array has the right length if and only if the product fits.
- `test_map_discontinuity` kills an OSD without looking at the live floor. While it is down the live
  list can be one below the floor: `TestMapDiscontinuity` states when, `DiscontinuityDips` is a case.
- A histogram counter wraps around at 2^64, so sums are stated modulo 2^64, and exactly for fewer
  increments than that.
- The packed size of a CRUSH location is returned as a C `int`. `AskThenPack` states that asking for
  the size and packing works if and only if the size fits.
- The watchdog asserts that a failed daemon's name keeps standing for the same object; `Watch`
  raises exactly there.
- `remove_multiline_comments` never yields a slash it is still holding at the end of the input.
- A scope is popped only when the mark on top was set at the depth being closed; `NestedIff` states
  which chunks keep that so, and `StrayMark` shows a mark that outlives its block. `RestoresIff`
  states which balanced texts put the stack back, `CaughtMark` is one with a stray mark, and
  `EdgesAttributed` says where each edge comes from in any text that closes no more than it opens.

## Model

| member | source | states |
|---|---|---|
| FileSystem.WalkLast | fusetrace/fusetrace_ll.cc:94-117 | the last component of a path is looked up in the directory that the rest of the path leads to |
| FileSystem.AcyclicHasNoLoop | fusetrace/fusetrace_ll.cc:94-109 | in a ranked tree no non-empty path returns to its start, which is what lets the path recursion end |
| FileSystem.PassesThroughIffBeneath | fusetrace/fusetrace_ll.cc:876-880 | checking the components of the target path decides exactly whether a rename would put a directory below itself, for any target directory and for any other inode with one name |
| FileSystem.RenameKeepsWellFormed | fusetrace/fusetrace_ll.cc:876-880 | a rename the system accepts keeps the tree acyclic and every directory with one name |
| FileSystem.MoveKeepsAcyclic | fusetrace/fusetrace_ll.cc:876-880 | moving a whole subtree under a directory outside it creates no cycle |
| FileSystem.MakeLeaves | fusetrace/fusetrace_ll.cc:570-579 | a made name leads to the new inode and every other name stays; the directories grow by the inode exactly for mkdir; each error exactly in its case |
| FileSystem.OnlyMkdirMakesRoom | fusetrace/fusetrace_ll.cc:609-619 | a file can be made inside what was just made if and only if that was a directory |
| FileSystem.UnlinkLeaves | fusetrace/fusetrace_ll.cc:799 | an unlink takes exactly one name of something that is no directory; each error exactly in its case |
| FileSystem.RmdirLeaves | fusetrace/fusetrace_ll.cc:815-843 | an rmdir takes exactly one name and that directory, which was empty; each error exactly in its case |
| FileSystem.LinkLeaves | fusetrace/fusetrace_ll.cc:899-942 | a link adds exactly one name for an inode that is no directory; each error exactly in its case |
| FileSystem.OpenLeaves | fusetrace/fusetrace_ll.cc:703 | opening to create adds at most one name, the one asked for or the one a symbolic link leads to; which file is opened, and when it is refused |
| FileSystem.RenameLeaves | fusetrace/fusetrace_ll.cc:876-880 | after a rename the new name leads to the file, the old one is gone unless both named the same file, a directory that the new name led to before is gone, and nothing else has changed |
| FileSystem.RenameRefuses | fusetrace/fusetrace_ll.cc:876-880 | each error of a rename, and its success, exactly in its case; two names of one file are no error |
| CacheModel.StepKeepsInv | fusetrace/fusetrace_ll.cc:241-335 | every legal step keeps the tree well-formed, every cached name true and every linked inode counted |
| CacheModel.RunKeepsInv | fusetrace/fusetrace_ll.cc:1174-1177 | after any legal run from mount time every cached name agrees with the file system and every linked inode is mapped, including reuse of inode numbers |
| CacheModel.LookupsAreConserved | fusetrace/fusetrace_ll.cc:310-327 | after any legal run an inode's count equals entry replies minus forgotten lookups, and it is mapped exactly while that is positive |
| CacheModel.ForgetIff | fusetrace/fusetrace_ll.cc:320-322 | a forget removes the inode exactly when it forgets all lookups, if and only if the narrowed difference does not wrap around to a positive count |
| CacheModel.ForgetCanFail | fusetrace/fusetrace_ll.cc:320-322 | forgetting 2^32 lookups of an inode with one changes nothing |
| CacheModel.RenameSoundIff | fusetrace/fusetrace_ll.cc:882-893 | a successful rename leaves every cached name true if and only if the source was cached, or the target was not, or both are the same file |
| CacheModel.RenameByNames | fusetrace/fusetrace_ll.cc:876-893 | the rename of a request by names, including the directories; EINVAL exactly if the target directory is the file itself or below it |
| CacheModel.RenameCanLie | fusetrace/fusetrace_ll.cc:890-892 | a state, reached by looking one name up after mounting, in which the skipped update leaves a stale name |
| CacheModel.NoAliasIffComplete | fusetrace/fusetrace_ll.cc:278-290 | no lookup can find a mapped inode under an uncached name if and only if every name of every mapped inode is cached |
| CacheModel.HonestIff | fusetrace/fusetrace_ll.cc:685-801 | after a request every kept number is open on the inode that keeps it if and only if the request opens nothing but the file itself and closes no number that another inode keeps, with numbers shared by the process, closed and handed out again |
| CacheModel.KeptIsOwn | fusetrace/fusetrace_ll.cc:1056-1061 | releasing a number that the inode keeps closes no other inode's |
| CacheModel.RunStaysHonest | fusetrace/fusetrace_ll.cc:337-377 | over every run that opens only files themselves and releases no number of another inode, refused requests included, every kept number stays open on its own inode through any reuse, and every getattr reads the right status |
| CacheModel.ConsiderateStaysIdeal | fusetrace/fusetrace_ll.cc:241-942 | over a tree without hard links each considerate request keeps every name of every mapped inode cached |
| CacheModel.ConsiderateKernelKeepsPromises | fusetrace/fusetrace_ll.cc:1174-1177 | over a tree without hard links every considerate kernel, adapting to every reply, sends only admissible requests: the failing lookup, the failing rename and the stray forget never arise, and the misled getattr is ruled out by what the kernel opens and releases |
| CacheModel.MoverIsConsiderate | fusetrace/fusetrace_ll.cc:1174-1177 | a kernel that looks a name up and renames the file once it has the reply is considerate over every tree without hard links |
| CacheModel.MoverMoves | fusetrace/fusetrace_ll.cc:850-893 | a legal run of that kernel in which the rename succeeds, in the file system and in the cache |
| CacheModel.RunStaysConnected | fusetrace/fusetrace_ll.cc:1174-1177 | over every legal run every directory but the root keeps a name |
| CacheModel.NamedIsRooted | fusetrace/fusetrace_ll.cc:94-109 | a complete cache of a connected tree has a path to every mapped inode that has a name |
| CacheModel.ConsiderateKernelFindsPaths | fusetrace/fusetrace_ll.cc:94-117 | for a considerate kernel over a connected tree without hard links, after every run a path is found for exactly the mapped inodes that have a name, by each of their names |
| CacheModel.ConsiderateKernelIsAnswered | fusetrace/fusetrace_ll.cc:1083-1118 | for such a kernel and tree every reply of the run is the one that the request, the tree, the permission check and the system calls dictate |
| CacheModel.ServedIff | fusetrace/fusetrace_ll.cc:241-988 | a request is to succeed if and only if it is permitted or needs no permission, the system calls work, each inode it names has a path or, where that is enough, an open descriptor, and the file system accepts it |
| CacheModel.RefusedBecause | fusetrace/fusetrace_ll.cc:241-1066 | why a request is to be refused: a denied one with EPERM, or ENOENT where the path is built first; each other error only for its reason |
| CacheModel.ReplyMeans | fusetrace/fusetrace_ll.cc:241-1066 | what a served request has done, kind by kind, in the file system, the cached names and the descriptors, and to every lookup count |
| CacheModel.CacheHasNoLoop | fusetrace/fusetrace_ll.cc:94-109 | the cached parent graph is acyclic in every state the handlers reach |
| CacheModel.CachedPathResolves | fusetrace/fusetrace_ll.cc:94-117 | a path read out of the cache resolves in the file system to the same inode |
| CacheModel.RootedByParent | fusetrace/fusetrace_ll.cc:96-100 | a directory is reachable through the cache only if its parent is |
| CacheModel.RenameResolves | fusetrace/fusetrace_ll.cc:850-880 | a rename of two paths out of the cache succeeds exactly if the rename of the inodes they lead to does, with the same tree, and with the same error if the target's parent has one name, as every directory has |
| CacheModel.MakeResolves | fusetrace/fusetrace_ll.cc:570-579 | making a file at a path out of the cache makes it in the directory the path leads to, and its status is then the new file's |
| CacheModel.UnlinkResolves | fusetrace/fusetrace_ll.cc:799 | an unlink of a path out of the cache removes the name from the directory the path leads to, with the same error |
| CacheModel.LinkResolves | fusetrace/fusetrace_ll.cc:899-942 | a link between two paths out of the cache links the inode the first leads to, and the new name's status is that inode's |
| CacheModel.CreateResolves | fusetrace/fusetrace_ll.cc:703-714 | opening a path and then reading its status finds the existing file, the new one, or the symbolic link it was opened through; the descriptor is the target's |
| FuseTrace.Tracer.LinkSymmetry | fusetrace/fusetrace_ll.cc:137-160 | a child is in a directory's dentries exactly if the directory is among its parents under that name, and numbers are unique |
| FuseTrace.Tracer.RemoveDentry | fusetrace/fusetrace_ll.cc:137-149 | removes exactly one name, in both directions |
| FuseTrace.Tracer.AddDentry | fusetrace/fusetrace_ll.cc:151-160 | sets exactly one name, replacing what it named before, in both directions |
| FuseTrace.Tracer.UnlinkInode | fusetrace/fusetrace_ll.cc:162-175 | all three loops end, exactly the names in and for the inode are gone, and exactly the numbers it kept are closed |
| FuseTrace.Tracer.RemoveInode | fusetrace/fusetrace_ll.cc:185-194 | the inode is unmapped and no remaining inode refers to it |
| FuseTrace.Tracer.NewInode | fusetrace/fusetrace_ll.cc:279-283 | the map stays consistent if the number was free and loses an inode if it was not |
| FuseTrace.Tracer.AddInode | fusetrace/fusetrace_ll.cc:196-215 | a new or reused inode ends up with exactly the one new name and its old count |
| FuseTrace.Tracer.MakeInodePath | fusetrace/fusetrace_ll.cc:94-109 | terminates; the components found resolve through the cache to the inode; fails for a directory only if it cannot be reached |
| FuseTrace.Tracer.FindPath | fusetrace/fusetrace_ll.cc:111-117 | the path handed to a system call names the inode in the file system |
| FuseTrace.Tracer.LookupMiss | fusetrace/fusetrace_ll.cc:278-290 | entering a name that was not cached keeps the cache consistent if and only if the number was not mapped |
| FuseTrace.Tracer.Lookup | fusetrace/fusetrace_ll.cc:241-308 | one step of the cache model with the reply the file system dictates; a denied lookup is EPERM and changes nothing; consistent afterwards if and only if the miss was for a new inode; the re-stat never changes the number |
| FuseTrace.Tracer.Getattr | fusetrace/fusetrace_ll.cc:337-377 | the map stays consistent if and only if the call fails or the first number kept is open on the inode itself; the number stored and replied is that of the file it is open on by now, and a closed number is an error; each error in its case |
| FuseTrace.Tracer.Setattr | fusetrace/fusetrace_ll.cc:379-446 | the status stored and reported keeps the inode's number on every path; denied, it changes nothing; each error in its case, EBADF exactly where the descriptor used is closed |
| FuseTrace.Tracer.OpenFile | fusetrace/fusetrace_ll.cc:950-988 | one legal step: the number, not in use before, is opened and kept with the inode that was asked for; denied or failing, nothing changes; each error in its case |
| FuseTrace.Tracer.ReleaseFile | fusetrace/fusetrace_ll.cc:1049-1066 | one legal step: the inode lets go of the number and it is closed for everyone, also if closing fails; done if and only if the number was open and closing works |
| FuseTrace.Tracer.Forget | fusetrace/fusetrace_ll.cc:310-327 | subtracts the lookups in C integers and removes the inode exactly when none are left; the map stays free of null pointers if and only if the number is the root's or mapped |
| FuseTrace.Tracer.Make | fusetrace/fusetrace_ll.cc:555-680 | mknod, mkdir and symlink: one legal step with the dictated reply, or an error and no change; a denied request is refused |
| FuseTrace.Tracer.Create | fusetrace/fusetrace_ll.cc:685-722 | one legal step, for a new file, for one that exists and for a symbolic link to either: opened first, then entered, which closes what the inode kept, then the number is kept; the dictated reply; a denied request is refused and changes nothing |
| FuseTrace.Tracer.Unlink | fusetrace/fusetrace_ll.cc:771-809 | one legal step with the dictated reply, or an error; a denied unlink is refused before anything is opened; otherwise the descriptor it opens first is kept, also after an error, exactly if the name is cached and its inode has none |
| FuseTrace.Tracer.Rmdir | fusetrace/fusetrace_ll.cc:815-843 | one legal step with the dictated reply, or an error and no change; a denied request is refused |
| FuseTrace.Tracer.Rename | fusetrace/fusetrace_ll.cc:850-893 | one step with the dictated reply; a denied or failing rename is an error and changes nothing; the cache is sound afterwards if and only if `RenameVisible` held |
| FuseTrace.Tracer.Link | fusetrace/fusetrace_ll.cc:899-942 | one legal step; the new name, the count and the number agree with the file system; a denied link is refused and changes nothing |
| FuseTrace.Tracer.Dispatch | fusetrace/fusetrace_ll.cc:1083-1118 | any admissible request keeps consistency, soundness and the map free of null pointers, and is answered as dictated wherever paths do not depend on the name chosen; a request that needs permission and lacks it is refused with EPERM or ENOENT and changes neither file system, cache nor descriptors; a failing system call is an error that changes at most descriptors |
| FuseTrace.Tracer.Serve | fusetrace/fusetrace_ll.cc:1174-1177 | for any number of calls of any kernel that keeps its promises, what the program does is a legal run of the cache model that follows the kernel, with every dictated reply given and every denied call refused without effect, so the run theorems hold of it |
| FuseTrace.MountAndServe | fusetrace/fusetrace_ll.cc:1150-1177 | from mount time, over a tree without hard links, every considerate kernel is served to the end with the cache consistent, sound and free of null pointers, every kept number open on its own inode and every denied call refused without effect; if the tree is connected, with a path to exactly the named inodes and every reply as dictated |
| FuseTrace.HardLinkAliases | fusetrace/fusetrace_ll.cc:278-290 | looking up both names of a hard-linked file replies the same number twice and leaves the first inode live and linked but unmapped |
| FuseTrace.StrayForgetPlantsNull | fusetrace/fusetrace_ll.cc:314-326 | a forget of an unknown number on a fresh mount leaves a null pointer in the map |
| FuseTrace.CreateMisleads | fusetrace/fusetrace_ll.cc:703-719 | a create through a symbolic link followed by a getattr gives the link's inode the target's number and breaks the map |
| FuseTrace.UnlinkMisleads | fusetrace/fusetrace_ll.cc:792-797 | so does an unlink of a symbolic link that has been looked up |
| FuseTrace.ReuseMisleads | fusetrace/fusetrace_ll.cc:177-182 | a file created twice, a release of its first descriptor after the number has gone to another file, and a third file that gets it: the next getattr gives the second file the third one's number and breaks the map |
| Thrashing.FallsOnce | qa/tasks/ceph_manager.py:897-903 | a value lies in the prefix-sum interval of at most one action and that action has weight |
| Thrashing.Choose | qa/tasks/ceph_manager.py:897-903 | returns exactly the action whose interval holds the value, and none exactly if the value is not below the total |
| Thrashing.Draw | qa/tasks/ceph_manager.py:897-903 | a uniform draw yields an action unless it hits the end point or no action has weight |
| Thrashing.ListedOnce | qa/tasks/ceph_manager.py:850-896 | each action is on the list once, each pause twice |
| Thrashing.SharesAre | qa/tasks/ceph_manager.py:850-896 | the weight that each action has among those on offer, from the configuration and the lengths of the four lists, the pauses counted twice |
| Thrashing.TotalIsAllShares | qa/tasks/ceph_manager.py:897 | the total is the sum of those weights over all actions |
| Thrashing.CanBeDrawn | qa/tasks/ceph_manager.py:897-903 | each action on offer that has weight is the result of some draw |
| Thrashing.DrawnBetween | qa/tasks/ceph_manager.py:897-903 | an entry of the list is drawn exactly on an interval of the length of its weight over the total |
| Thrashing.PartitionMeans | qa/tasks/ceph_manager.py:105-110 | the partition used as invariant is: no duplicates, no OSD in both lists, every OSD in one |
| Thrashing.Thrasher.KillOsd | qa/tasks/ceph_manager.py:205-222 | moves one live OSD to the dead, and out if asked to |
| Thrashing.Thrasher.ReviveOsd | qa/tasks/ceph_manager.py:426-440 | moves one dead OSD to the live |
| Thrashing.Thrasher.OutOsd | qa/tasks/ceph_manager.py:447-458 | moves one OSD from in to out |
| Thrashing.Thrasher.InOsd | qa/tasks/ceph_manager.py:460-473 | revives the OSD if it is dead, otherwise moves it in |
| Thrashing.Thrasher.AllUp | qa/tasks/ceph_manager.py:640-649 | terminates with nothing dead and nothing out |
| Thrashing.Thrasher.TestMapDiscontinuity | qa/tasks/ceph_manager.py:796-829 | terminates; runs through if and only if there are more OSDs than the in-floor; the killed OSD ends out, the live list never shrinks overall; while it is down the live list holds one less than at the end, so it keeps its floor if and only if it ends above it |
| Thrashing.DiscontinuityDips | qa/tasks/ceph_manager.py:822-829 | with two OSDs that are both to stay live, one is live while the other is down |
| Thrashing.Thrasher.ChooseAction | qa/tasks/ceph_manager.py:831-903 | draws only actions on offer with positive weight, the one in whose interval the draw falls; some action unless the draw hits the end point or nothing has weight |
| Thrashing.Thrasher.Perform | qa/tasks/ceph_manager.py:1032 | an offered action never picks from an empty list and never breaks a floor; out, kill, revive and in each move one OSD, and every other action but the raising one leaves the four lists as they are |
| Thrashing.Thrasher.CleanUp | qa/tasks/ceph_manager.py:1014-1031 | keeps partitions and floors; revives the dead beyond the allowed number and nothing else, or runs the discontinuity test, within which the live list is at most one below its floor; fails only with too few OSDs |
| Thrashing.Thrasher.Turn | qa/tasks/ceph_manager.py:1009-1033 | one turn keeps partitions and floors, also between clean-up and action, and all but one of the live floor within a discontinuity test; the action was on offer then; it raises only for the stated reasons |
| Thrashing.Thrasher.DoThrash | qa/tasks/ceph_manager.py:993-1046 | over every run the partitions and floors hold after every turn and between clean-up and action, and within a discontinuity test all but one of the live floor; a run that is stopped ends with everything up and in |
| SourceText.AfterFirstClose | doc/scripts/gen_state_diagram.py:41-48 | the specification resumes behind the first closing mark |
| SourceText.NeverClosed | doc/scripts/gen_state_diagram.py:41-48 | an unclosed comment runs to the end of the text |
| SourceText.PlainTextStays | doc/scripts/gen_state_diagram.py:37-60 | text in which no comment opens is kept |
| SourceText.CommentGoes | doc/scripts/gen_state_diagram.py:37-60 | a comment goes, from its opening to its first closing mark, and nothing else does |
| SourceText.UnclosedGoes | doc/scripts/gen_state_diagram.py:37-60 | a comment that is never closed goes with everything behind it |
| SourceText.RemoveMultilineComments | doc/scripts/gen_state_diagram.py:37-60 | the one-pass automaton equals the recursive specification on every input, except for a final slash outside comments |
| SourceText.AccLines | doc/scripts/gen_state_diagram.py:10-18 | yields pieces with exactly one of `;`, `{` and `}`, at the end, and no newline at the front, that join to the input but for those newlines and a rest without any of the three |
| SourceText.ChunkingIsUnique | doc/scripts/gen_state_diagram.py:10-18 | that division of a text is the only one |
| SourceText.ChunkIsSpelled | doc/scripts/gen_state_diagram.py:15-18 | taking the leading newlines off a piece leaves one that ends in its only `;`, `{` or `}` |
| StateChart.BlocksRestore | doc/scripts/gen_state_diagram.py:84-144 | over lines and blocks the stack machine restores stack and depth and attributes each edge to the innermost enclosing block that set a context |
| StateChart.BalancedIsFlat | doc/scripts/gen_state_diagram.py:84-100 | every brace-balanced chunk sequence whose marks are set at opening braces is the text of some lines and blocks |
| StateChart.FlatIsBalanced | doc/scripts/gen_state_diagram.py:84-100 | the text of lines and blocks is brace-balanced |
| StateChart.BalancedTextRestores | doc/scripts/gen_state_diagram.py:84-144 | over every such text the machine ends with the stack and depth it began with, unless it raises |
| StateChart.StackIff | doc/scripts/gen_state_diagram.py:90-100 | a chunk's marks are on the stack exactly as long as no later closing chunk has taken them back, read off the text alone |
| StateChart.RunKeepsStack | doc/scripts/gen_state_diagram.py:84-100 | the machine's stack is its initial stack and the marks of those chunks, in order, after every prefix of a text that closes no more than it opens |
| StateChart.RestoresIff | doc/scripts/gen_state_diagram.py:84-100 | a balanced text puts the depth back, and the stack if and only if each of its marks is taken back in it |
| StateChart.EdgesAttributed | doc/scripts/gen_state_diagram.py:127-144 | over every text that closes no more than it opens, each edge belongs to the state the chunk names or else to the last chunk whose marks nothing has taken back, and the script raises exactly where that gives no source or event |
| StateChart.EdgesMean | doc/scripts/gen_state_diagram.py:127-144 | the edges of a chunk field by field, in order: each transition from the state on top to its target under its event, a transit from the state on top under the event on top; none exactly if there is no state on top, or no event for a transit |
| StateChart.CaughtMark | doc/scripts/gen_state_diagram.py:90-100 | a mark set before a semicolon that a following block takes back |
| StateChart.NestedIff | doc/scripts/gen_state_diagram.py:90-100 | a chunk keeps the stack in order if and only if it sets no context or opens a block |
| StateChart.StrayMark | doc/scripts/gen_state_diagram.py:95-100 | a context set before a semicolon survives the block it was set in |
| StateChart.PopMeans | doc/scripts/gen_state_diagram.py:98-100 | popping takes marks of the given depth off the top, all of them and no others |
| StateChart.RecordLists | doc/scripts/gen_state_diagram.py:131-144 | the edge table holds an edge exactly if it was found |
| StateChart.RecordAppends | doc/scripts/gen_state_diagram.py:131-144 | the table lists under each event what it listed before and then the new edges of that event, in order |
| StateChart.Renderer.GetEvent | doc/scripts/gen_state_diagram.py:127-144 | records the chunk's edges, field by field, under the top context; raises exactly if there is an edge and no context, or a transit and no event in the top context |
| StateChart.Renderer.GetContext | doc/scripts/gen_state_diagram.py:90-100 | pushes the mark found, counts the brace, and pops exactly the marks on top that were set at the depth returned to |
| StateChart.Renderer.ReadInput | doc/scripts/gen_state_diagram.py:84-88 | the renderer computes the run of the stack machine, raising exactly when it does |
| HistogramAxis.GetBucketForAxis | src/common/perf_histogram.cc:69-91 | computes the wrapped bucket of every value; for values that fit it is in range and its reported range contains the value, on both scales |
| HistogramAxis.GetQuants | src/common/perf_histogram.cc:59-67 | computes the quanta without overflow wherever they fit into 64 bits |
| HistogramAxis.FindLog2 | src/common/perf_histogram.cc:82-88 | the loop shifts by at most 62 and returns the first bucket whose quanta exceed the distance |
| HistogramAxis.FitsUpTo | src/common/perf_histogram.cc:75-76 | with a quantum above one and at most 64 logarithmic buckets, fitting means that the distance from the minimum fits into 64 bits |
| HistogramAxis.BucketIff | src/common/perf_histogram.cc:69-91 | if overflow wraps around, the bucket contains the value if and only if the value fits, but for overflows that end in the open last bucket of an axis of one or two buckets |
| HistogramAxis.OverflowEscapes | src/common/perf_histogram.cc:75-80 | an axis and a value whose wrapped bucket number is negative |
| HistogramAxis.OverflowComesFirst | src/common/perf_histogram.cc:75-88 | a logarithmic axis and a value beyond it that is put into the bucket next to the minimum |
| HistogramAxis.GetAxisBucketRanges | src/common/perf_histogram.cc:93-121 | on axes whose last edge fits into 64 bits, the loop fills in the ranges that the bucket numbers mean |
| HistogramAxis.BucketsAreDisjoint | src/common/perf_histogram.cc:93-121 | no value is in the ranges of two buckets |
| HistogramAxis.RangesAre | src/common/perf_histogram.cc:93-121 | where each bucket begins: the first at the least value, linear ones a quantum apart, logarithmic ones twice as far from the minimum each; each ends where the next begins and the last at the greatest value |
| Histogram.IndexInRange | src/perf_histogram.h:188-203 | the raw index of in-range buckets is inside the array |
| Histogram.DigitsOfIndex | src/perf_histogram.h:188-203 | the buckets can be read back from the raw index |
| Histogram.IndexOfDigits | src/perf_histogram.h:188-203 | every cell is the cell of some bucket vector |
| Histogram.LastAxisIsInnermost | src/perf_histogram.h:188-203 | the last axis varies fastest |
| Histogram.FillCounts | src/perf_histogram.h:103-129 | a cell counts the increments of its own bucket vector and no others, modulo 2^64 |
| Histogram.SumsCountIncrements | src/perf_histogram.h:65-71 | the sum over any choice of buckets, total or marginal, is the number of increments that fall into it since the reset: modulo 2^64, and exactly below 2^64 increments |
| Histogram.PerfHistogram.RawSize | src/perf_histogram.h:160-166 | the product of the bucket counts in wrapping 64-bit arithmetic |
| Histogram.PerfHistogram.constructor | src/perf_histogram.h:76-90 | the array has one cell for each bucket vector if and only if their number fits into 64 bits |
| Histogram.SizeWraps | src/perf_histogram.h:160-166 | four axes of 65536 buckets get an empty array |
| Histogram.PerfHistogram.Reset | src/perf_histogram.h:103-108 | every counter is zero and the history starts anew |
| Histogram.PerfHistogram.IncBucket | src/perf_histogram.h:117-122 | exactly one cell grows by one, wrapping around at 2^64 |
| Histogram.PerfHistogram.IndexForValue | src/perf_histogram.h:168-203 | the index of every value vector in wrapping 64-bit arithmetic |
| Histogram.PerfHistogram.Inc | src/perf_histogram.h:110-115 | the write stays in the array if and only if the wrapped index does; then exactly one cell grows by one; for values that all fit it stays inside and the cell is that of the buckets that contain them |
| Histogram.FitIndex | src/perf_histogram.h:168-203 | values that all fit have an index inside the array, whose digits are the buckets that contain them |
| Histogram.IncEscapes | src/perf_histogram.h:110-115 | a histogram and a value for which the write leaves the array |
| Histogram.PerfHistogram.ReadBucket | src/perf_histogram.h:124-129 | how often the buckets were incremented since the reset, modulo 2^64 |
| Histogram.PerfHistogram.VisitFrom | src/perf_histogram.h:205-224 | visits one stretch of the array in order, with 32-bit index arithmetic that does not overflow |
| Histogram.PerfHistogram.VisitValues | src/perf_histogram.h:205-224 | visits cells 0 to size - 1 in order, each once, each at its own bucket vector, with properly nested enter and leave |
| MountInfo.BookCounts | src/libcephfs.cc:54-167 | an open book entry is one more creation than deletion; in a sound book nothing is created or deleted twice |
| MountInfo.InitMeans | src/libcephfs.cc:73-109 | an init succeeds if and only if all three steps do; the first that fails decides the code; the client is initialized only after the messenger has started |
| MountInfo.RetMeans | src/libcephfs.cc:73-141 | the reply of each call in each phase, in the numbers of the interface |
| MountInfo.MountedIff | src/libcephfs.cc:111-167 | the calls leave the mount mounted if and only if one of them mounted it and none since was an unmount, a shutdown or a failing init |
| MountInfo.CephMountInfo.Shutdown | src/libcephfs.cc:143-167 | undoes whatever was done, from any intermediate point: every held object deleted, session and mount ended; an object already lost stays lost |
| MountInfo.CephMountInfo.Init | src/libcephfs.cc:73-109 | returns 0 exactly if monitor map, messenger and client all come up, otherwise the code of the first that fails; the client is initialized exactly on success; consistent afterwards if and only if it was not initialized before; otherwise the first monitor client is lost |
| MountInfo.CephMountInfo.Mount | src/libcephfs.cc:111-133 | returns 0 exactly if it was not mounted, is or gets initialized and the client mounts; each error code in its case; mounted exactly on success; every failure leaves nothing behind; refused without effect if mounted |
| MountInfo.CephMountInfo.Unmount | src/libcephfs.cc:135-141 | takes everything down, or is refused without effect |
| MountInfo.CephMountInfo.Destroy | src/libcephfs.cc:54-71 | the destructor leaves everything undone exactly once if and only if nothing was lost before |
| MountInfo.Life | src/libcephfs.cc:54-167 | over any sequence of calls and the destructor, every reply and the numbers of objects created, clients initialized and mounts made are what the calls and the library's outcomes dictate, and each is deleted, shut down and unmounted exactly once if and only if no init comes while the calls have left the mount initialized |
| CrushLocation.DecodeEncode | src/libcephfs.cc:1234-1249 | reading the packed strings back two by two gives the original pairs |
| CrushLocation.EncodeLayout | src/libcephfs.cc:1234-1249 | each pair is packed behind those before it as type, zero byte, name, zero byte |
| CrushLocation.Pack | src/libcephfs.cc:1234-1249 | sizes every pair; writes exactly the longest whole-pair prefix that fits, and nothing else in the buffer changes |
| CrushLocation.GetOsdCrushLocation | src/libcephfs.cc:1221-1258 | each error code in its case, the needed size as a C int for length 0 and on success, and never a byte past the length |
| CrushLocation.AskThenPack | src/libcephfs.cc:1251-1258 | asking with length 0 gives the size with which a second call packs everything, if and only if the size fits into a C int |
| Watchdog.RunStartMeans | qa/tasks/mds_thrash.py:97-110 | the start of a run is the first of the unbroken failed samples, with the object that failed then |
| Watchdog.ShouldBarkIff | qa/tasks/mds_thrash.py:97-121 | barking is due exactly if the thrasher failed or some name has been failed in an unbroken run of samples that began longer ago than the timeout |
| Watchdog.SameObjectsIff | qa/tasks/mds_thrash.py:97-104 | the assertion holds exactly if each failed daemon is the object that its run began with |
| Watchdog.NoteFailures | qa/tasks/mds_thrash.py:97-104 | enters new failures with the time of the sample and keeps old ones; stops exactly if a name stands for another object; late exactly if some failure is older than the timeout |
| Watchdog.DropRestored | qa/tasks/mds_thrash.py:106-110 | keeps exactly the daemons that are still failed, with their times |
| Watchdog.Watch | qa/tasks/mds_thrash.py:77-121 | after every sample the table holds the failed daemons with the start of their run; barks at the first sample with an overdue run or a failed thrasher and at no other; raises at the first sample in which a failed name stands for another object |
| ScrubWait.Tally | qa/tasks/ceph.py:1067-1075 | counts the scrubbed groups and goes on exactly if one is missing |
| ScrubWait.WaitForScrub | qa/tasks/ceph.py:1061-1092 | ends within (n + 1) * (retries + 1) samples; well only if all groups are scrubbed; gives up exactly at the first point at which retries + 1 samples in a row made no progress, and with a fixed set of groups never on the completing one |
| LogStream.DivisionIsUnique | qa/tasks/cephfs_test_runner.py:47-53 | a text divides into lines and a rest in one way only |
| LogStream.SplitMeans | qa/tasks/cephfs_test_runner.py:47-53 | splitting gives pieces without newlines that make up the text again |
| LogStream.Stream.Write | qa/tasks/cephfs_test_runner.py:47-53 | logged lines and buffer together are everything written, and the buffer holds no newline |
| LogStream.WriteAll | qa/tasks/cephfs_test_runner.py:43-53 | one line is logged for each newline written and no line holds one; lines and rest together are the concatenated text, and depend on nothing but it, not on how it was cut into writes |

## Left out

- Traces, locks and attributes other than the inode number in the tracer: foreign effects.
- Descriptor 0: standard input is taken to stay open, so every descriptor is positive. Descriptors that the process holds for other purposes are not in the table.
- Where a symbolic link leads is a parameter of the call that follows it; the directory tree does not hold it.
- The tracer's read, write, readlink, statfs and directory listing: they write no field of the cache that the model has.
- What the tracer does after a lookup count has overflowed a C int: the handlers that count require that it does not.
- What the tracer does after a lookup has put two inodes under one number: the model states that this state is reached, not what follows.
- Thrashing.Choose: weights and draws are real numbers; floating-point rounding of the running difference is not modelled.
- Thrashing.Thrasher.Perform: commands to the cluster, timing, side threads and exceptions from remote runs are no-ops.
- The pg limit of the thrasher, and the actions' effect on pools and pgs.
- HistogramAxis.BucketIff: signed overflow is undefined in C++; wrap-around is what common compilers produce. Shifts by 63 or more, on logarithmic axes of more than 64 buckets, have no such reading and are excluded.
- Histogram.PerfHistogram.constructor: a negative product of bucket counts makes the allocation throw; it is required not to be.
- Histogram.PerfHistogram.Inc: what a write outside the array destroys is not modelled, only that it happens.
- Histogram.PerfHistogram.IncBucket: one thread; the atomicity of the counters is not modelled.
- The histogram's copy constructor and its formatted output.
- Regular expressions, the parent tables and the dot output of the state-chart extractor; a chunk is what the expressions find in it.
- The removal of single-line comments before the comment stripper: one regular expression per line.
- The forwarding wrappers of libcephfs, the daemons' start-up code and the remaining QA tasks: one branch each, or remote commands.
