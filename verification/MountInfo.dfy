/**
 The life cycle of a libcephfs mount: which client objects exist, and which calls are made
 on them, over any sequence of init, mount, unmount and shutdown.
 */
module MountInfo {
  import opened Wrappers

  type Handle = nat

  datatype Event =
    | New(h: Handle) | Delete(h: Handle)
    | ClientInit(h: Handle) | ClientShutdown(h: Handle)
    | ClientMount(h: Handle) | ClientUnmount(h: Handle)

  const EISCONN := 106
  const ENOTCONN := 107
  const CEPHFS_ERROR_MON_MAP_BUILD := 1000
  const CEPHFS_ERROR_MESSENGER_START := 1003

  // ---------------------------------------------------------------- the ledger

  /** What a log of events leaves open; `sound` if every event was in order when it happened. */
  datatype Ledger = Ledger(used: set<Handle>, objects: set<Handle>, inits: set<Handle>, mounts: set<Handle>, sound: bool)

  function Post(l: Ledger, e: Event): Ledger {
    match e
    case New(h) => l.(used := l.used + {h}, objects := l.objects + {h}, sound := l.sound && h !in l.used)
    case Delete(h) => l.(objects := l.objects - {h}, sound := l.sound && h in l.objects && h !in l.inits)
    case ClientInit(h) => l.(inits := l.inits + {h}, sound := l.sound && h in l.objects && h !in l.inits)
    case ClientShutdown(h) => l.(inits := l.inits - {h}, sound := l.sound && h in l.inits && h !in l.mounts)
    case ClientMount(h) => l.(mounts := l.mounts + {h}, sound := l.sound && h in l.inits && h !in l.mounts)
    case ClientUnmount(h) => l.(mounts := l.mounts - {h}, sound := l.sound && h in l.mounts)
  }

  function Book(log: seq<Event>): Ledger {
    if log == [] then Ledger({}, {}, {}, {}, true) else Post(Book(log[..|log| - 1]), log[|log| - 1])
  }

  /** Posting one more event, in the form the proofs use it. */
  lemma BookSnoc(log: seq<Event>, e: Event)
    ensures Book(log + [e]) == Post(Book(log), e)
  {
    assert (log + [e])[..|log|] == log;
  }

  /** How many objects a log creates, and how many clients it initializes and mounts. */
  datatype Tally = Tally(news: nat, inits: nat, mounts: nat)

  function Sum(a: Tally, b: Tally): Tally {
    Tally(a.news + b.news, a.inits + b.inits, a.mounts + b.mounts)
  }

  const NOTHING: Tally := Tally(0, 0, 0)

  function TallyOf(e: Event): Tally {
    match e
    case New(_) => Tally(1, 0, 0)
    case ClientInit(_) => Tally(0, 1, 0)
    case ClientMount(_) => Tally(0, 0, 1)
    case _ => NOTHING
  }

  function Tallied(log: seq<Event>): Tally {
    if log == [] then NOTHING else Sum(Tallied(log[..|log| - 1]), TallyOf(log[|log| - 1]))
  }

  function Times(log: seq<Event>, e: Event): nat {
    multiset(log)[e]
  }

  /**
   A sound book counts: every handle is created at most once, and what is open is what was
   created, initialized or mounted once more often than it was deleted, shut down or unmounted.
   */
  lemma {:induction false} BookCounts(log: seq<Event>, h: Handle)
    requires Book(log).sound
    ensures Times(log, New(h)) == (if h in Book(log).used then 1 else 0)
    ensures Times(log, New(h)) - Times(log, Delete(h)) == (if h in Book(log).objects then 1 else 0)
    ensures Times(log, ClientInit(h)) - Times(log, ClientShutdown(h)) == (if h in Book(log).inits then 1 else 0)
    ensures Times(log, ClientMount(h)) - Times(log, ClientUnmount(h)) == (if h in Book(log).mounts then 1 else 0)
    ensures Book(log).objects <= Book(log).used
  {
    if log != [] {
      BookCounts(log[..|log| - 1], h);
      assert log == log[..|log| - 1] + [log[|log| - 1]];
    }
  }

  // ---------------------------------------------------------------- the mount object

  /** How the calls into the client library turn out. */
  datatype Env = Env(monmap: int, messengerStart: int, clientInit: int, clientMount: int)

  datatype Call = InitCall(env: Env) | MountCall(env: Env) | UnmountCall | ShutdownCall

  function InitRet(env: Env): int {
    if env.monmap < 0 then -CEPHFS_ERROR_MON_MAP_BUILD
    else if env.messengerStart != 0 then -CEPHFS_ERROR_MESSENGER_START
    else env.clientInit
  }

  /** What one run through `init` creates and starts. */
  function Built(env: Env): Tally {
    if env.monmap < 0 then Tally(1, 0, 0) else Tally(3, if InitRet(env) == 0 then 1 else 0, 0)
  }

  // What a caller can tell from the calls alone.

  /** `init` succeeds exactly if every step of it does, and the first step that fails decides the code. */
  lemma InitMeans(env: Env)
    ensures InitRet(env) == 0 <==> env.monmap >= 0 && env.messengerStart == 0 && env.clientInit == 0
    ensures env.monmap < 0 ==> InitRet(env) == -1000
    ensures env.monmap >= 0 && env.messengerStart != 0 ==> InitRet(env) == -1003
    ensures env.monmap >= 0 && env.messengerStart == 0 ==> InitRet(env) == env.clientInit
    ensures Built(env) == Tally(if env.monmap < 0 then 1 else 3,
                                if env.monmap >= 0 && env.messengerStart == 0 && env.clientInit == 0 then 1 else 0, 0)
  {
  }

  /** Where the calls have left the mount. */
  datatype Phase = Phase(inited: bool, mounted: bool)

  /** The reply that the phase and the outcome of the library calls dictate. */
  function Ret(p: Phase, call: Call): int {
    match call
    case InitCall(env) => InitRet(env)
    case MountCall(env) =>
      if p.mounted then -EISCONN
      else if !p.inited && InitRet(env) != 0 then InitRet(env)
      else env.clientMount
    case UnmountCall => if p.mounted then 0 else -ENOTCONN
    case ShutdownCall => 0
  }

  function Next(p: Phase, call: Call): Phase {
    match call
    case InitCall(env) => if InitRet(env) == 0 then p.(inited := true) else Phase(false, false)
    case MountCall(env) => if p.mounted then p else if Ret(p, call) == 0 then Phase(true, true) else Phase(false, false)
    case UnmountCall => if p.mounted then Phase(false, false) else p
    case ShutdownCall => Phase(false, false)
  }

  function PhaseAfter(calls: seq<Call>): Phase {
    if calls == [] then Phase(false, false) else Next(PhaseAfter(calls[..|calls| - 1]), calls[|calls| - 1])
  }

  /** What a call creates, initializes and mounts. */
  function Does(p: Phase, call: Call): Tally {
    match call
    case InitCall(env) => Built(env)
    case MountCall(env) =>
      if p.mounted then NOTHING
      else Sum(if p.inited then NOTHING else Built(env), if Ret(p, call) == 0 then Tally(0, 0, 1) else NOTHING)
    case _ => NOTHING
  }

  /** A reply of 0 means that everything asked for was done, any other says what was not. */
  ghost predicate Sensible(p: Phase, call: Call, ret: int) {
    match call
    case InitCall(env) =>
      && (ret == 0 <==> env.monmap >= 0 && env.messengerStart == 0 && env.clientInit == 0)
      && (env.monmap < 0 ==> ret == -1000)
      && (env.monmap >= 0 && env.messengerStart != 0 ==> ret == -1003)
      && (env.monmap >= 0 && env.messengerStart == 0 ==> ret == env.clientInit)
    case MountCall(env) =>
      && (p.mounted ==> ret == -106)
      && (ret == 0 <==>
            && !p.mounted && env.clientMount == 0
            && (p.inited || (env.monmap >= 0 && env.messengerStart == 0 && env.clientInit == 0)))
    case UnmountCall => ret == if p.mounted then 0 else -107
    case ShutdownCall => ret == 0
  }

  lemma RetMeans(p: Phase, call: Call)
    ensures Sensible(p, call, Ret(p, call))
  {
    if call.InitCall? || call.MountCall? {
      InitMeans(call.env);
    }
  }

  /** Call `j` mounted it, and none since has taken it down. */
  ghost predicate MountedSince(calls: seq<Call>, j: nat) {
    && j < |calls| && calls[j].MountCall? && Ret(PhaseAfter(calls[..j]), calls[j]) == 0
    && forall k :: j < k < |calls| ==> !TakesDown(calls[k])
  }

  lemma MountedSinceNext(init: seq<Call>, last: Call, j: nat)
    requires j <= |init|
    ensures MountedSince(init + [last], j) <==>
            if j < |init| then MountedSince(init, j) && !TakesDown(last)
            else last.MountCall? && Ret(PhaseAfter(init), last) == 0
  {
    hide Ret, PhaseAfter, TakesDown;
    var calls := init + [last];
    assert calls[..j] == init[..j] && calls[|init|] == last;
    assert j == |init| ==> init[..j] == init;
    assert forall k :: 0 <= k < |init| ==> calls[k] == init[k];
  }

  /**
   The mount is mounted exactly if some call mounted it and none since has taken it down: no
   unmount, no shutdown, no `init` that failed.
   */
  lemma {:induction false} MountedIff(calls: seq<Call>)
    ensures PhaseAfter(calls).mounted <==> exists j :: MountedSince(calls, j)
    ensures PhaseAfter(calls).mounted ==> PhaseAfter(calls).inited
  {
    hide Ret, Next, MountedSince, TakesDown;
    if calls == [] {
      NothingMounted();
    } else {
      var init, last := calls[..|calls| - 1], calls[|calls| - 1];
      assert calls == init + [last];
      MountedIff(init);
      LastCall(PhaseAfter(init), last);
      forall j: nat
        ensures MountedSince(calls, j) <==>
                if j < |init| then MountedSince(init, j) && !TakesDown(last)
                else j == |init| && last.MountCall? && Ret(PhaseAfter(init), last) == 0
      {
        if j <= |init| {
          MountedSinceNext(init, last, j);
        } else {
          SinceWithin(calls, j);
        }
      }
      forall j: nat | MountedSince(init, j)
        ensures j < |init|
      {
        SinceWithin(init, j);
      }
      if last.MountCall? && Ret(PhaseAfter(init), last) == 0 {
        assert MountedSince(calls, |init|);
      }
    }
  }

  lemma NothingMounted()
    ensures !PhaseAfter([]).mounted && forall j :: !MountedSince([], j)
  {
  }

  lemma SinceWithin(calls: seq<Call>, j: nat)
    ensures MountedSince(calls, j) ==> j < |calls|
  {
  }

  predicate TakesDown(call: Call) {
    || call.UnmountCall? || call.ShutdownCall?
    || (call.InitCall? && !(call.env.monmap >= 0 && call.env.messengerStart == 0 && call.env.clientInit == 0))
  }

  lemma LastCall(p: Phase, call: Call)
    requires p.mounted ==> p.inited
    ensures var p' := Next(p, call);
            && (p'.mounted <==> (p.mounted && !TakesDown(call)) || (call.MountCall? && Ret(p, call) == 0))
            && (p'.mounted ==> p'.inited)
            && (p.mounted ==> !(call.MountCall? && Ret(p, call) == 0))
  {
    if call.InitCall? || call.MountCall? {
      InitMeans(call.env);
    }
  }

  lemma MountDoes(t: Tally, p: Phase, env: Env)
    ensures var ready := if p.inited then t else Sum(t, Built(env));
            Sum(t, Does(p, MountCall(env))) ==
            if p.mounted then t else if Ret(p, MountCall(env)) == 0 then Sum(ready, Tally(0, 0, 1)) else ready
  {
    hide Sum, Built, Ret;
    var one := Tally(0, 0, 1);
    SumLaws(t, Built(env), one);
    SumLaws(t, Built(env), NOTHING);
    SumLaws(Built(env), NOTHING, one);
    if p.mounted {
      assert Does(p, MountCall(env)) == NOTHING;
    } else if p.inited {
      assert Does(p, MountCall(env)) == if Ret(p, MountCall(env)) == 0 then one else NOTHING;
    } else {
      assert Does(p, MountCall(env)) == Sum(Built(env), if Ret(p, MountCall(env)) == 0 then one else NOTHING);
    }
  }

  lemma SumLaws(a: Tally, b: Tally, c: Tally)
    ensures Sum(a, Sum(b, c)) == Sum(Sum(a, b), c)
    ensures Sum(a, NOTHING) == a == Sum(NOTHING, a)
    ensures Sum(NOTHING, c) == c
  {
  }

  function DoneBy(calls: seq<Call>): Tally {
    if calls == [] then NOTHING
    else Sum(DoneBy(calls[..|calls| - 1]), Does(PhaseAfter(calls[..|calls| - 1]), calls[|calls| - 1]))
  }

  /** Some `init` comes while the mount is initialized. */
  ghost predicate InitsTwice(calls: seq<Call>) {
    exists k :: 0 <= k < |calls| && calls[k].InitCall? && PhaseAfter(calls[..k]).inited
  }

  function One(p: Option<Handle>): set<Handle> {
    if p.Some? then {p.value} else {}
  }

  function Pointers(client: Option<Handle>, monclient: Option<Handle>, messenger: Option<Handle>): set<Handle> {
    One(client) + One(monclient) + One(messenger)
  }

  ghost predicate Agree(b: Ledger, next: Handle, mounted: bool, inited: bool,
                        client: Option<Handle>, monclient: Option<Handle>, messenger: Option<Handle>) {
    && b.sound
    && (forall h :: h in b.used ==> h < next)
    && b.objects <= b.used
    && b.objects == Pointers(client, monclient, messenger)
    && One(client) !! One(monclient) !! One(messenger)
    && b.inits == (if inited then One(client) else {})
    && b.mounts == (if mounted then One(client) else {})
    && (inited ==> client.Some?)
    && (mounted ==> inited)
  }

  class CephMountInfo {
    var mounted: bool
    var inited: bool
    var client: Option<Handle>
    var monclient: Option<Handle>
    var messenger: Option<Handle>
    var next: Handle
    var log: seq<Event>

    function Held(): set<Handle>
      reads this`client, this`monclient, this`messenger
    {
      Pointers(client, monclient, messenger)
    }

    function GetPhase(): Phase
      reads this`inited, this`mounted
    {
      Phase(inited, mounted)
    }

    /** The pointers are exactly the objects that exist, each a different one. */
    ghost predicate Tidy()
      reads this
    {
      Agree(Book(log), next, mounted, inited, client, monclient, messenger)
    }

    /** What holds between calls, whatever the calls were. */
    ghost predicate Shape()
      reads this
    {
      && (mounted ==> inited)
      && (inited <==> client.Some? && monclient.Some? && messenger.Some?)
      && (!inited ==> client == None && monclient == None && messenger == None)
      && forall h :: h in Held() ==> h < next
    }

    /** And what holds if no call was `init` on an initialized mount. */
    ghost predicate Valid()
      reads this
    {
      Tidy() && Shape()
    }

    /** An object that exists and that nothing points to any more. */
    ghost predicate Lost(h: Handle)
      reads this
    {
      Times(log, New(h)) > Times(log, Delete(h)) && h !in Held() && h < next
    }

    constructor ()
      ensures Valid() && !inited && log == []
    {
      mounted, inited, client, monclient, messenger, next, log := false, false, None, None, None, 0, [];
    }

    method Note(e: Event)
      modifies this`log
      ensures log == old(log) + [e] && Book(log) == Post(Book(old(log)), e)
      ensures Tallied(log) == Sum(Tallied(old(log)), TallyOf(e))
      ensures forall x :: Times(log, x) == Times(old(log), x) + if x == e then 1 else 0
    {
      BookSnoc(log, e);
      log := log + [e];
      assert log[..|log| - 1] == old(log);
    }

    method Create() returns (h: Handle)
      modifies this`log, this`next
      ensures h == old(next) && next == old(next) + 1
      ensures log == old(log) + [New(h)] && Book(log) == Post(Book(old(log)), New(h))
      ensures Tallied(log) == Sum(Tallied(old(log)), Tally(1, 0, 0))
      ensures forall x :: Times(log, x) == Times(old(log), x) + if x == New(h) then 1 else 0
    {
      hide Book, Tallied, Times;
      h := next;
      next := next + 1;
      Note(New(h));
    }

    /** Ends the client's session, if there is one. */
    method Disconnect()
      requires mounted || inited ==> client.Some?
      modifies this`mounted, this`inited, this`log
      ensures !mounted && !inited && old(log) <= log && Tallied(log) == Tallied(old(log))
      ensures forall h :: old(Lost(h)) ==> Lost(h)
      ensures old(Tidy()) ==> Tidy()
    {
      hide Book, Tallied, Times;
      if mounted {
        Note(ClientUnmount(client.value));
        mounted := false;
      }
      if inited {
        Note(ClientShutdown(client.value));
        inited := false;
      }
    }

    method DropMessenger()
      modifies this`messenger, this`log
      ensures messenger == None && old(log) <= log && Tallied(log) == Tallied(old(log))
      ensures forall h :: old(Lost(h)) ==> Lost(h)
      ensures old(Tidy()) ==> Tidy()
    {
      hide Book, Tallied, Times;
      if messenger.Some? {
        Note(Delete(messenger.value));
        messenger := None;
      }
    }

    method DropMonclient()
      modifies this`monclient, this`log
      ensures monclient == None && old(log) <= log && Tallied(log) == Tallied(old(log))
      ensures forall h :: old(Lost(h)) ==> Lost(h)
      ensures old(Tidy()) ==> Tidy()
    {
      hide Book, Tallied, Times;
      if monclient.Some? {
        Note(Delete(monclient.value));
        monclient := None;
      }
    }

    method DropClient()
      requires !inited && !mounted
      modifies this`client, this`log
      ensures client == None && old(log) <= log && Tallied(log) == Tallied(old(log))
      ensures forall h :: old(Lost(h)) ==> Lost(h)
      ensures old(Tidy()) ==> Tidy()
    {
      hide Book, Tallied, Times;
      if client.Some? {
        Note(Delete(client.value));
        client := None;
      }
    }

    /** Undoes whatever has been done, however far it got. */
    method Shutdown()
      requires mounted || inited ==> client.Some?
      modifies this
      ensures !mounted && !inited && client == None && monclient == None && messenger == None
      ensures old(log) <= log && Tallied(log) == Tallied(old(log))
      ensures next == old(next) && forall h :: old(Lost(h)) ==> Lost(h)
      ensures Shape() && (old(Tidy()) ==> Valid())
    {
      hide Book, Tallied, Times, Tidy, Lost;
      Disconnect();
      DropMessenger();
      DropMonclient();
      DropClient();
    }

    method NewMonclient()
      modifies this`monclient, this`next, this`log
      ensures monclient == Some(old(next)) && next == old(next) + 1
      ensures old(log) <= log && Tallied(log) == Sum(Tallied(old(log)), Tally(1, 0, 0))
      ensures forall h :: old(Lost(h)) ==> Lost(h)
      ensures old(Tidy() && monclient == None) ==> Tidy()
      ensures old(Tidy() && monclient.Some?) ==> Lost(old(monclient).value)
    {
      hide Book, Tallied, Times;
      if Tidy() && monclient.Some? {
        HeldIsOpen(monclient.value);
      }
      var h := Create();
      monclient := Some(h);
    }

    method NewMessenger()
      modifies this`messenger, this`next, this`log
      ensures messenger == Some(old(next)) && next == old(next) + 1
      ensures old(log) <= log && Tallied(log) == Sum(Tallied(old(log)), Tally(1, 0, 0))
      ensures forall h :: old(Lost(h)) ==> Lost(h)
      ensures old(Tidy() && messenger == None) ==> Tidy()
    {
      hide Book, Tallied, Times;
      var h := Create();
      messenger := Some(h);
    }

    method NewClient()
      modifies this`client, this`next, this`log
      ensures client == Some(old(next)) && next == old(next) + 1
      ensures old(log) <= log && Tallied(log) == Sum(Tallied(old(log)), Tally(1, 0, 0))
      ensures forall h :: old(Lost(h)) ==> Lost(h)
      ensures old(Tidy() && client == None) ==> Tidy()
    {
      hide Book, Tallied, Times;
      var h := Create();
      client := Some(h);
    }

    method StartClient()
      requires client.Some?
      modifies this`inited, this`log
      ensures inited && old(log) <= log && Tallied(log) == Sum(Tallied(old(log)), Tally(0, 1, 0))
      ensures forall h :: old(Lost(h)) ==> Lost(h)
      ensures old(Tidy() && !inited && !mounted) ==> Tidy()
    {
      hide Book, Tallied, Times;
      Note(ClientInit(client.value));
      inited := true;
    }

    /** What `init` does before it either succeeds or jumps to its clean-up. */
    method Build(env: Env) returns (ret: int)
      requires Shape()
      modifies this
      ensures old(log) <= log && Tallied(log) == Sum(Tallied(old(log)), Built(env))
      ensures mounted == old(mounted) && (mounted || inited ==> client.Some?)
      ensures ret == 0 ==> Shape() && inited
      ensures forall h :: old(Lost(h)) ==> Lost(h)
      ensures old(Tidy()) && !old(inited) ==> Tidy() && !mounted && (ret == 0 <==> inited)
      ensures old(Tidy()) && old(inited) ==> Lost(old(monclient).value)
      ensures ret == InitRet(env)
    {
      hide Book, Tallied, Times, Tidy, Lost;
      NewMonclient();
      if env.monmap < 0 {
        return -CEPHFS_ERROR_MON_MAP_BUILD;
      }
      NewMessenger();
      NewClient();
      if env.messengerStart != 0 {
        return -CEPHFS_ERROR_MESSENGER_START;
      }
      if env.clientInit != 0 {
        return env.clientInit;
      }
      StartClient();
      return 0;
    }

    lemma HeldIsOpen(h: Handle)
      requires Tidy() && h in Held()
      ensures Times(log, New(h)) > Times(log, Delete(h))
    {
      BookCounts(log, h);
    }

    /** A mount with a lost object is not in order. */
    lemma LostIsUntidy(h: Handle)
      requires Lost(h)
      ensures !Tidy()
    {
      if Book(log).sound {
        BookCounts(log, h);
      }
    }

    /** Initializing a second time loses the first monitor client for good; otherwise all is well. */
    method Init(env: Env) returns (ret: int)
      requires Shape()
      modifies this
      ensures Shape()
      ensures old(Valid()) ==> (Valid() <==> !old(inited))
      ensures old(Valid()) && old(inited) ==> Lost(old(monclient).value)
      ensures forall h :: old(Lost(h)) ==> Lost(h)
      ensures ret == 0 <==> inited
      ensures !old(inited) ==> !mounted
      ensures old(log) <= log && Tallied(log) == Sum(Tallied(old(log)), Built(env))
      ensures ret == InitRet(env) && GetPhase() == Next(old(GetPhase()), InitCall(env))
      ensures ret == 0 <==> env.monmap >= 0 && env.messengerStart == 0 && env.clientInit == 0
      ensures env.monmap < 0 ==> ret == -1000
      ensures env.monmap >= 0 && env.messengerStart != 0 ==> ret == -1003
      ensures env.monmap >= 0 && env.messengerStart == 0 ==> ret == env.clientInit
      ensures Tallied(log).inits == Tallied(old(log)).inits + if ret == 0 then 1 else 0
    {
      hide Book, Tallied, Times, Tidy;
      InitMeans(env);
      ret := Build(env);
      if ret != 0 {
        Shutdown();
      }
      if old(Valid()) && old(inited) {
        LostIsUntidy(old(monclient).value);
      }
    }

    method Mount(env: Env) returns (ret: int)
      requires Shape()
      modifies this
      ensures Shape() && (old(Valid()) ==> Valid())
      ensures forall h :: old(Lost(h)) ==> Lost(h)
      ensures old(mounted) ==> ret == -EISCONN && mounted && log == old(log)
      ensures !old(mounted) ==> (ret == 0 <==> mounted) && (ret != 0 ==> !inited)
      ensures old(log) <= log && Tallied(log) == Sum(Tallied(old(log)), Does(old(GetPhase()), MountCall(env)))
      ensures ret == Ret(old(GetPhase()), MountCall(env)) && GetPhase() == Next(old(GetPhase()), MountCall(env))
      ensures old(mounted) ==> ret == -106
      ensures ret == 0 <==>
              && !old(mounted) && env.clientMount == 0
              && (old(inited) || (env.monmap >= 0 && env.messengerStart == 0 && env.clientInit == 0))
      ensures !old(mounted) && !old(inited) && env.monmap < 0 ==> ret == -1000
      ensures !old(mounted) && !old(inited) && env.monmap >= 0 && env.messengerStart != 0 ==> ret == -1003
      ensures !old(mounted) && !old(inited) && env.monmap >= 0 && env.messengerStart == 0 && env.clientInit != 0 ==>
                ret == env.clientInit
      ensures !old(mounted) && (old(inited) || (env.monmap >= 0 && env.messengerStart == 0 && env.clientInit == 0)) ==>
                ret == env.clientMount
    {
      hide Book, Tallied, Times, Tidy, Lost, Shape, Built, InitRet, Sum, Does;
      InitMeans(env);
      MountDoes(Tallied(log), GetPhase(), env);
      if mounted {
        return -EISCONN;
      }
      if !inited {
        ret := Init(env);
        if ret != 0 {
          return;
        }
      }
      ret := Attach(env);
    }

    /** The client's part of `mount`. */
    method Attach(env: Env) returns (ret: int)
      requires Shape() && inited && !mounted
      modifies this
      ensures Shape() && (old(Valid()) ==> Valid())
      ensures forall h :: old(Lost(h)) ==> Lost(h)
      ensures ret == env.clientMount && GetPhase() == if ret == 0 then Phase(true, true) else Phase(false, false)
      ensures old(log) <= log
      ensures Tallied(log) == if ret == 0 then Sum(Tallied(old(log)), Tally(0, 0, 1)) else Tallied(old(log))
    {
      hide Book, Tallied, Times, Tidy, Lost;
      if env.clientMount != 0 {
        Shutdown();
        return env.clientMount;
      }
      MountClient();
      return 0;
    }

    /** The destructor: everything is undone, unless an object is lost. */
    method Destroy(ghost lost: Option<Handle>)
      requires Shape()
      requires if lost.Some? then Lost(lost.value) else Valid()
      modifies this
      ensures Tallied(log) == Tallied(old(log))
      ensures Undone(log) <==> lost == None
    {
      hide Book, Tallied, Times;
      Shutdown();
      if lost == None {
        NothingOpen(log);
      } else {
        assert Times(log, New(lost.value)) > Times(log, Delete(lost.value));
      }
    }

    method MountClient()
      requires inited && !mounted && client.Some?
      modifies this`mounted, this`log
      ensures mounted && old(log) <= log && Tallied(log) == Sum(Tallied(old(log)), Tally(0, 0, 1))
      ensures forall h :: old(Lost(h)) ==> Lost(h)
      ensures old(Tidy()) ==> Tidy()
    {
      hide Book, Tallied, Times;
      Note(ClientMount(client.value));
      mounted := true;
    }

    method Unmount() returns (ret: int)
      requires Shape()
      modifies this
      ensures Shape() && !mounted && (old(Valid()) ==> Valid())
      ensures forall h :: old(Lost(h)) ==> Lost(h)
      ensures !old(mounted) ==> ret == -ENOTCONN && log == old(log) && inited == old(inited)
      ensures old(mounted) ==> ret == 0 && !inited
      ensures old(log) <= log && Tallied(log) == Tallied(old(log))
      ensures ret == Ret(old(GetPhase()), UnmountCall) && GetPhase() == Next(old(GetPhase()), UnmountCall)
      ensures ret == if old(mounted) then 0 else -107
    {
      hide Book, Tallied, Times;
      if !mounted {
        return -ENOTCONN;
      }
      Shutdown();
      return 0;
    }
  }

  /** The log leaves nothing open: everything done was undone exactly once. */
  ghost predicate Undone(log: seq<Event>) {
    && (forall h :: Times(log, New(h)) == Times(log, Delete(h)) <= 1)
    && (forall h :: Times(log, ClientInit(h)) == Times(log, ClientShutdown(h)))
    && (forall h :: Times(log, ClientMount(h)) == Times(log, ClientUnmount(h)))
  }

  /**
   A whole life: any calls in any order, then the destructor.  Every reply and everything that is
   created, initialized and mounted is what the calls dictate, and everything is deleted, shut down
   and unmounted exactly as often if and only if no `init` comes while the mount is initialized.
   */
  method Life(calls: seq<Call>) returns (rets: seq<int>, log: seq<Event>)
    ensures |rets| == |calls| && forall k :: 0 <= k < |calls| ==> rets[k] == Ret(PhaseAfter(calls[..k]), calls[k])
    ensures forall k :: 0 <= k < |calls| ==> Sensible(PhaseAfter(calls[..k]), calls[k], rets[k])
    ensures Tallied(log) == DoneBy(calls)
    ensures Undone(log) <==> !InitsTwice(calls)
  {
    hide Book, Times, Tallied, Ret, Next, Does, Sensible, PhaseAfter, DoneBy, InitsTwice, Undone, CephMountInfo.Tidy,
         CephMountInfo.Lost;
    var m := new CephMountInfo();
    EmptyLog();
    rets := [];
    ghost var lost: Option<Handle> := None;
    for k := 0 to |calls|
      invariant m.Shape() && m.GetPhase() == PhaseAfter(calls[..k])
      invariant |rets| == k && forall j :: 0 <= j < k ==> rets[j] == Ret(PhaseAfter(calls[..j]), calls[j])
      invariant forall j :: 0 <= j < k ==> Sensible(PhaseAfter(calls[..j]), calls[j], rets[j])
      invariant Tallied(m.log) == DoneBy(calls[..k])
      invariant lost == None ==> m.Valid()
      invariant lost.Some? ==> m.Lost(lost.value)
      invariant lost == None <==> !InitsTwice(calls[..k])
    {
      OneMoreCall(calls, k);
      var ret := 0;
      match calls[k] {
        case InitCall(env) =>
          if lost == None && m.inited {
            lost := m.monclient;
          }
          ret := m.Init(env);
        case MountCall(env) => ret := m.Mount(env);
        case UnmountCall => ret := m.Unmount();
        case ShutdownCall => m.Shutdown();
      }
      CallIs(PhaseAfter(calls[..k]), calls[k]);
      RetMeans(PhaseAfter(calls[..k]), calls[k]);
      rets := rets + [ret];
    }
    assert calls[..|calls|] == calls;
    m.Destroy(lost);
    log := m.log;
  }

  lemma OneMoreCall(calls: seq<Call>, k: nat)
    requires k < |calls|
    ensures PhaseAfter(calls[..k + 1]) == Next(PhaseAfter(calls[..k]), calls[k])
    ensures DoneBy(calls[..k + 1]) == Sum(DoneBy(calls[..k]), Does(PhaseAfter(calls[..k]), calls[k]))
    ensures InitsTwice(calls[..k + 1]) <==>
            InitsTwice(calls[..k]) || (calls[k].InitCall? && PhaseAfter(calls[..k]).inited)
  {
    hide Next, Does, PhaseAfter, DoneBy;
    assert calls[..k + 1][..k] == calls[..k];
    assert forall j :: 0 <= j < k ==> calls[..k + 1][..j] == calls[..k][..j];
    if InitsTwice(calls[..k]) {
      var j :| 0 <= j < k && calls[j].InitCall? && PhaseAfter(calls[..k][..j]).inited;
      assert calls[..k + 1][j].InitCall? && PhaseAfter(calls[..k + 1][..j]).inited;
    }
    if calls[k].InitCall? && PhaseAfter(calls[..k]).inited {
      assert calls[..k + 1][k].InitCall? && PhaseAfter(calls[..k + 1][..k]).inited;
    }
    UnfoldCall(calls[..k + 1]);
  }

  lemma UnfoldCall(calls: seq<Call>)
    requires calls != []
    ensures var init := calls[..|calls| - 1];
            && PhaseAfter(calls) == Next(PhaseAfter(init), calls[|calls| - 1])
            && DoneBy(calls) == Sum(DoneBy(init), Does(PhaseAfter(init), calls[|calls| - 1]))
  {
  }

  /** The calls that do nothing but take down. */
  lemma CallIs(p: Phase, call: Call)
    ensures call.InitCall? ==> Ret(p, call) == InitRet(call.env) && Does(p, call) == Built(call.env)
    ensures call.UnmountCall? || call.ShutdownCall? ==> Does(p, call) == NOTHING
    ensures call.ShutdownCall? ==> Ret(p, call) == 0 && Next(p, call) == Phase(false, false)
  {
  }

  lemma NothingOpen(log: seq<Event>)
    requires Book(log).sound && Book(log).objects == {} && Book(log).inits == {} && Book(log).mounts == {}
    ensures Undone(log)
  {
    hide Book, Times;
    forall h: Handle
      ensures Times(log, New(h)) == Times(log, Delete(h)) <= 1
      ensures Times(log, ClientInit(h)) == Times(log, ClientShutdown(h))
      ensures Times(log, ClientMount(h)) == Times(log, ClientUnmount(h))
    {
      BookCounts(log, h);
    }
  }

  lemma EmptyLog()
    ensures Tallied([]) == NOTHING && DoneBy([]) == NOTHING && PhaseAfter([]) == Phase(false, false) && !InitsTwice([])
  {
  }
}
