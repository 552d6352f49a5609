/** The watchdog over daemons: how long each has been failed, and when to bark. */
module Watchdog {
  import opened Wrappers

  type Name = string

  /** A daemon object; the watchdog knows it by its name. */
  datatype Daemon = Daemon(name: Name, id: nat)

  /** One turn of the loop: the time, the daemons found failed, and whether a thrasher failed. */
  datatype Sample = Sample(now: real, failed: seq<Daemon>, thrasherFailed: bool)

  /** The failure table: for each name the object that failed and when it was first found failed. */
  type Table = map<Name, (nat, real)>

  datatype Outcome = Stopped | Barked(at: nat) | Raised(at: nat)

  // ---------------------------------------------------------------- what the samples say

  predicate Fails(s: Sample, name: Name) {
    exists i | 0 <= i < |s.failed| :: s.failed[i].name == name
  }

  /** The first object of that name among the failed ones. */
  function FirstOf(failed: seq<Daemon>, name: Name): (d: Option<nat>)
    ensures d.Some? <==> exists i :: 0 <= i < |failed| && failed[i].name == name
  {
    if failed == [] then None
    else
      assert failed == failed[..|failed| - 1] + [failed[|failed| - 1]];
      var d := FirstOf(failed[..|failed| - 1], name);
      if d.Some? then d
      else if failed[|failed| - 1].name == name then Some(failed[|failed| - 1].id)
      else None
  }

  lemma {:induction false} FirstOfMeans(failed: seq<Daemon>, name: Name)
    requires FirstOf(failed, name).Some?
    ensures exists i :: IsFirst(failed, i, name) && failed[i].id == FirstOf(failed, name).value
  {
    var init, last := failed[..|failed| - 1], failed[|failed| - 1];
    assert failed == init + [last];
    if FirstOf(init, name).Some? {
      FirstOfMeans(init, name);
      var i :| IsFirst(init, i, name) && init[i].id == FirstOf(init, name).value;
      assert IsFirst(failed, i, name);
    } else {
      assert IsFirst(failed, |failed| - 1, name);
    }
  }

  ghost predicate IsFirst(failed: seq<Daemon>, i: int, name: Name) {
    0 <= i < |failed| && failed[i].name == name && forall j :: 0 <= j < i ==> failed[j].name != name
  }

  /** The object and time with which the unbroken run of failures began that `name` is in at sample `k`. */
  ghost function RunStart(samples: seq<Sample>, k: nat, name: Name): (nat, real)
    requires k < |samples| && Fails(samples[k], name)
  {
    if k == 0 || !Fails(samples[k - 1], name) then (FirstOf(samples[k].failed, name).value, samples[k].now)
    else RunStart(samples, k - 1, name)
  }

  /** The run that is reported really is one: failed from its first sample on, and not before it. */
  lemma {:induction false} RunStartMeans(samples: seq<Sample>, k: nat, name: Name) returns (j: nat)
    requires k < |samples| && Fails(samples[k], name)
    ensures j <= k && Fails(samples[j], name) && forall i :: j <= i <= k ==> Fails(samples[i], name)
    ensures RunStart(samples, k, name) == (FirstOf(samples[j].failed, name).value, samples[j].now)
    ensures j > 0 ==> !Fails(samples[j - 1], name)
  {
    if k == 0 || !Fails(samples[k - 1], name) {
      j := k;
    } else {
      j := RunStartMeans(samples, k - 1, name);
    }
  }

  ghost predicate Overdue(samples: seq<Sample>, k: nat, name: Name, timeout: real)
    requires k < |samples|
  {
    Fails(samples[k], name) && samples[k].now - RunStart(samples, k, name).1 > timeout
  }

  /**
   What overdue means, sample by sample: there is a first sample of an unbroken run of failures that
   lasts to this one, and it lies more than the timeout back.
   */
  lemma OverdueIff(samples: seq<Sample>, k: nat, name: Name, timeout: real)
    requires k < |samples|
    ensures Overdue(samples, k, name, timeout) <==>
            exists j :: LateSince(samples, j, k, name, timeout)
  {
    hide Fails, SomeFailed;
    forall i | 0 <= i < |samples|
      ensures Fails(samples[i], name) <==> SomeFailed(samples[i], name)
    {
      FailsMeans(samples[i], name);
    }
    if Fails(samples[k], name) {
      var j := RunStartMeans(samples, k, name);
      assert RunBetween(samples, j, k, name);
      assert Overdue(samples, k, name, timeout) <==> LateSince(samples, j, k, name, timeout);
      forall i | LateSince(samples, i, k, name, timeout)
        ensures i == j
      {
        OneRun(samples, i, j, k, name);
      }
    } else {
      assert forall j :: 0 <= j <= k ==> !RunBetween(samples, j, k, name);
    }
  }

  ghost predicate LateSince(samples: seq<Sample>, j: int, k: nat, name: Name, timeout: real)
    requires k < |samples|
  {
    0 <= j <= k && RunBetween(samples, j, k, name) && samples[k].now > samples[j].now + timeout
  }

  lemma OneRun(samples: seq<Sample>, i: nat, j: nat, k: nat, name: Name)
    requires i <= k < |samples| && j <= k && RunBetween(samples, i, k, name) && RunBetween(samples, j, k, name)
    ensures i == j
  {
    hide RunBetween;
    if i < j {
      NotLater(samples, i, j, k, name);
    } else if j < i {
      NotLater(samples, j, i, k, name);
    }
  }

  lemma NotLater(samples: seq<Sample>, i: nat, j: nat, k: nat, name: Name)
    requires i < j <= k < |samples| && RunBetween(samples, i, k, name)
    ensures !RunBetween(samples, j, k, name)
  {
    hide SomeFailed;
    assert SomeFailed(samples[j - 1], name);
  }

  ghost predicate SomeFailed(s: Sample, name: Name) {
    exists d :: d in s.failed && d.name == name
  }

  lemma FailsMeans(s: Sample, name: Name)
    ensures Fails(s, name) <==> SomeFailed(s, name)
  {
    if SomeFailed(s, name) {
      var d :| d in s.failed && d.name == name;
      var i :| 0 <= i < |s.failed| && s.failed[i] == d;
    }
  }

  /** Some daemon of that name is among the failed in every sample from `j` to `k`, and in the one before `j` none is. */
  ghost predicate RunBetween(samples: seq<Sample>, j: nat, k: nat, name: Name)
    requires j <= k < |samples|
  {
    && (forall i :: j <= i <= k ==> SomeFailed(samples[i], name))
    && (j > 0 ==> !SomeFailed(samples[j - 1], name))
  }

  ghost predicate ShouldBark(samples: seq<Sample>, k: nat, timeout: real)
    requires k < |samples|
  {
    samples[k].thrasherFailed || exists name :: Overdue(samples, k, name, timeout)
  }

  /** Every failed daemon is the object its run of failures began with. */
  ghost predicate SameObjects(samples: seq<Sample>, k: nat)
    requires k < |samples|
  {
    forall i :: 0 <= i < |samples[k].failed| ==>
      Fails(samples[k], samples[k].failed[i].name) &&
      samples[k].failed[i].id == RunStart(samples, k, samples[k].failed[i].name).0
  }

  /** When the watchdog barks, in terms of the samples alone. */
  lemma {:induction false} ShouldBarkIff(samples: seq<Sample>, k: nat, timeout: real)
    requires k < |samples|
    ensures ShouldBark(samples, k, timeout) <==>
            || samples[k].thrasherFailed
            || exists name, j :: LateSince(samples, j, k, name, timeout)
  {
    hide LateSince, Overdue;
    if name :| Overdue(samples, k, name, timeout) {
      OverdueIff(samples, k, name, timeout);
    }
    if name, j :| LateSince(samples, j, k, name, timeout) {
      OverdueIff(samples, k, name, timeout);
    }
  }

  /** The object check, in terms of the samples alone: the first of that name when the run began. */
  lemma {:induction false} SameObjectsIff(samples: seq<Sample>, k: nat)
    requires k < |samples|
    ensures SameObjects(samples, k) <==> forall d :: d in samples[k].failed ==> BeganWith(samples, k, d)
  {
    hide BeganWith, RunStart;
    forall i | 0 <= i < |samples[k].failed|
      ensures BeganWith(samples, k, samples[k].failed[i]) <==>
              samples[k].failed[i].id == RunStart(samples, k, samples[k].failed[i].name).0
    {
      BeganWithIff(samples, k, samples[k].failed[i]);
    }
  }

  ghost predicate BeganWith(samples: seq<Sample>, k: nat, d: Daemon)
    requires k < |samples|
  {
    exists j, i :: 0 <= j <= k && RunBetween(samples, j, k, d.name) &&
                   IsFirst(samples[j].failed, i, d.name) && samples[j].failed[i].id == d.id
  }

  lemma {:induction false} BeganWithIff(samples: seq<Sample>, k: nat, d: Daemon)
    requires k < |samples| && d in samples[k].failed && Fails(samples[k], d.name)
    ensures BeganWith(samples, k, d) <==> d.id == RunStart(samples, k, d.name).0
  {
    hide Fails, RunStart, RunBetween, FirstOf;
    var j := RunBetweenStart(samples, k, d.name);
    FirstOfMeans(samples[j].failed, d.name);
    var i :| IsFirst(samples[j].failed, i, d.name) && samples[j].failed[i].id == FirstOf(samples[j].failed, d.name).value;
    if BeganWith(samples, k, d) {
      var j', i' :| 0 <= j' <= k && RunBetween(samples, j', k, d.name) &&
                    IsFirst(samples[j'].failed, i', d.name) && samples[j'].failed[i'].id == d.id;
      OneRun(samples, j, j', k, d.name);
      assert i == i';
    }
  }

  lemma RunBetweenStart(samples: seq<Sample>, k: nat, name: Name) returns (j: nat)
    requires k < |samples| && Fails(samples[k], name)
    ensures j <= k && RunBetween(samples, j, k, name) && FirstOf(samples[j].failed, name).Some?
    ensures RunStart(samples, k, name).0 == FirstOf(samples[j].failed, name).value
  {
    hide SomeFailed;
    j := RunStartMeans(samples, k, name);
    forall i | 0 <= i < |samples|
      ensures Fails(samples[i], name) <==> SomeFailed(samples[i], name)
    {
      FailsMeans(samples[i], name);
    }
  }

  /** The table after sample `k`: the failed daemons, each with the start of its run. */
  ghost predicate Tracks(samples: seq<Sample>, k: nat, table: Table)
    requires k < |samples|
  {
    && (forall name :: name in table <==> Fails(samples[k], name))
    && (forall name :: name in table ==> table[name] == RunStart(samples, k, name))
  }

  // ---------------------------------------------------------------- the loop

  /** What the table says of a name once the failed daemons are entered. */
  function Entered(table: Table, now: real, failed: seq<Daemon>, name: Name): Option<(nat, real)> {
    if name in table then Some(table[name])
    else match FirstOf(failed, name)
         case Some(id) => Some((id, now))
         case None => None
  }

  /** The table after entering the failed daemons one by one. */
  ghost predicate IsEntered(out: Table, table: Table, now: real, failed: seq<Daemon>) {
    forall name ::
      && (name in out <==> Entered(table, now, failed, name).Some?)
      && (name in out ==> out[name] == Entered(table, now, failed, name).value)
  }

  /** Each failed daemon is the object the table has for its name. */
  ghost predicate Matches(out: Table, failed: seq<Daemon>) {
    forall i :: 0 <= i < |failed| ==> failed[i].name in out && out[failed[i].name].0 == failed[i].id
  }

  ghost predicate SomeLate(out: Table, now: real, failed: seq<Daemon>, timeout: real) {
    exists i :: 0 <= i < |failed| && failed[i].name in out && now - out[failed[i].name].1 > timeout
  }

  /**
   Enters newly failed daemons; `late` if some daemon has been failed for too long.  Not `same` if
   a name is in the table for another object, where the loop raises; `full` is then the table the
   loop would have gone on to.
   */
  method NoteFailures(table: Table, now: real, failed: seq<Daemon>, timeout: real)
    returns (out: Table, late: bool, same: bool, ghost full: Table)
    ensures IsEntered(full, table, now, failed)
    ensures same <==> Matches(full, failed)
    ensures same ==> out == full && (late <==> SomeLate(full, now, failed, timeout))
  {
    hide Entered, IsEntered;
    out, late := table, false;
    NoneFailed(table, now);
    for k := 0 to |failed|
      invariant IsEntered(out, table, now, failed[..k])
      invariant Matches(out, failed[..k])
      invariant late <==> SomeLate(out, now, failed[..k], timeout)
    {
      var d := failed[k];
      EnterOne(out, table, now, failed, k);
      LateOne(out, now, failed, k, timeout);
      if d.name !in out {
        out := out[d.name := (d.id, now)];
      }
      if out[d.name].0 != d.id {
        full := EnterRest(out, table, now, failed, k + 1);
        return out, late, false, full;
      }
      if now - out[d.name].1 > timeout {
        late := true;
      }
    }
    assert failed[..|failed|] == failed;
    same, full := true, out;
  }

  lemma NoneFailed(table: Table, now: real)
    ensures IsEntered(table, table, now, [])
  {
  }

  function Enter(out: Table, now: real, d: Daemon): Table {
    if d.name in out then out else out[d.name := (d.id, now)]
  }

  lemma EnterOne(out: Table, table: Table, now: real, failed: seq<Daemon>, k: nat)
    requires k < |failed| && IsEntered(out, table, now, failed[..k])
    ensures IsEntered(Enter(out, now, failed[k]), table, now, failed[..k + 1])
  {
    assert failed[..k + 1][..k] == failed[..k];
  }

  lemma LateOne(out: Table, now: real, failed: seq<Daemon>, k: nat, timeout: real)
    requires k < |failed| && Matches(out, failed[..k])
    ensures var out' := Enter(out, now, failed[k]);
            SomeLate(out', now, failed[..k + 1], timeout) <==>
            SomeLate(out, now, failed[..k], timeout) || now - out'[failed[k].name].1 > timeout
    ensures Matches(Enter(out, now, failed[k]), failed[..k + 1]) <==> Enter(out, now, failed[k])[failed[k].name].0 == failed[k].id
  {
    var out' := Enter(out, now, failed[k]);
    assert forall i :: 0 <= i < k ==> failed[..k][i] == failed[i] == failed[..k + 1][i];
    assert failed[..k + 1][k] == failed[k];
    assert forall i :: 0 <= i < k ==> failed[..k][i].name in out && out'[failed[i].name] == out[failed[i].name];
    if SomeLate(out, now, failed[..k], timeout) {
      var i :| 0 <= i < k && failed[..k][i].name in out && now - out[failed[..k][i].name].1 > timeout;
      assert failed[..k + 1][i].name in out' && now - out'[failed[..k + 1][i].name].1 > timeout;
    }
  }

  /** Entering the daemons further down does not change an entry. */
  lemma {:induction false} EnterRest(out: Table, table: Table, now: real, failed: seq<Daemon>, k: nat) returns (full: Table)
    requires k <= |failed| && IsEntered(out, table, now, failed[..k])
    ensures IsEntered(full, table, now, failed)
    ensures forall name :: name in out ==> name in full && full[name] == out[name]
    decreases |failed| - k
  {
    hide IsEntered;
    if k == |failed| {
      assert failed[..k] == failed;
      full := out;
    } else {
      EnterOne(out, table, now, failed, k);
      full := EnterRest(Enter(out, now, failed[k]), table, now, failed, k + 1);
    }
  }

  /** Drops daemons that are no longer failed. */
  method DropRestored(table: Table, s: Sample) returns (out: Table)
    ensures forall name :: name in out <==> name in table && Fails(s, name)
    ensures forall name :: name in out ==> out[name] == table[name]
  {
    hide Fails;
    out := table;
    var names := table.Keys;
    while names != {}
      invariant names <= table.Keys
      invariant forall name :: name in out <==> name in table && (name in names || Fails(s, name))
      invariant forall name :: name in out ==> out[name] == table[name]
      decreases names
    {
      var name :| name in names;
      names := names - {name};
      if !Fails(s, name) {
        out := out - {name};
      }
    }
  }

  /** What the table before a sample should be. */
  ghost predicate Ready(samples: seq<Sample>, k: nat, table: Table)
    requires k <= |samples|
  {
    if k == 0 then table == map[] else Tracks(samples, k - 1, table)
  }

  /** Entering the failures of sample `k` gives every failed daemon the start of its run. */
  lemma EnteredIsRunStart(samples: seq<Sample>, k: nat, table: Table, name: Name)
    requires k < |samples| && Ready(samples, k, table)
    ensures Fails(samples[k], name) ==>
              Entered(table, samples[k].now, samples[k].failed, name) == Some(RunStart(samples, k, name))
  {
  }

  /** One turn notices the object check and the timeout rightly. */
  lemma TurnIsRight(samples: seq<Sample>, k: nat, before: Table, mid: Table, timeout: real)
    requires k < |samples| && Ready(samples, k, before)
    requires IsEntered(mid, before, samples[k].now, samples[k].failed)
    ensures forall name :: Fails(samples[k], name) ==> name in mid && mid[name] == RunStart(samples, k, name)
    ensures Matches(mid, samples[k].failed) <==> SameObjects(samples, k)
    ensures SomeLate(mid, samples[k].now, samples[k].failed, timeout) <==> exists name :: Overdue(samples, k, name, timeout)
  {
    hide Entered, FirstOf, Ready, RunStart;
    var failed, now := samples[k].failed, samples[k].now;
    forall name | Fails(samples[k], name)
      ensures name in mid && mid[name] == RunStart(samples, k, name)
    {
      EnteredIsRunStart(samples, k, before, name);
    }
    assert forall i :: 0 <= i < |failed| ==> Fails(samples[k], failed[i].name);
    if SomeLate(mid, now, failed, timeout) {
      var i :| 0 <= i < |failed| && failed[i].name in mid && now - mid[failed[i].name].1 > timeout;
      assert Overdue(samples, k, failed[i].name, timeout);
    }
    if name :| Overdue(samples, k, name, timeout) {
      var i :| 0 <= i < |failed| && failed[i].name == name;
    }
  }

  /**
   Barks at the first sample that calls for it, raises at the first where a failed daemon is not
   the object its run began with, and stops otherwise; the object check comes first.
   */
  method Watch(samples: seq<Sample>, timeout: real) returns (r: Outcome, table: Table)
    ensures var end := if r.Stopped? then |samples| else r.at;
            && end <= |samples|
            && (forall k: nat :: k < end ==> SameObjects(samples, k) && !ShouldBark(samples, k, timeout))
            && (r.Stopped? ==> Ready(samples, |samples|, table))
            && (r.Barked? ==> end < |samples| && SameObjects(samples, end) && ShouldBark(samples, end, timeout) &&
                              Tracks(samples, end, table))
            && (r.Raised? ==> end < |samples| && !SameObjects(samples, end))
  {
    hide IsEntered, Matches, SomeLate, SameObjects, Overdue;
    table := map[];
    for k := 0 to |samples|
      invariant Ready(samples, k, table)
      invariant forall j: nat :: j < k ==> SameObjects(samples, j) && !ShouldBark(samples, j, timeout)
    {
      var s := samples[k];
      ghost var full;
      var mid, bark, same;
      mid, bark, same, full := NoteFailures(table, s.now, s.failed, timeout);
      TurnIsRight(samples, k, table, full, timeout);
      if !same {
        return Raised(k), table;
      }
      table := DropRestored(mid, s);
      if s.thrasherFailed {
        bark := true;
      }
      if bark {
        return Barked(k), table;
      }
    }
    return Stopped, table;
  }
}
