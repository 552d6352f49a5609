/**
 The OSD thrasher: four lists of OSDs that random actions move OSDs between.  Commands sent
 to the cluster are no-ops here and every random choice is arbitrary.
 */
module Thrashing {
  import opened Wrappers

  type Osd = nat

  /** `chance_down` may be given as a percentage or as a fraction. */
  datatype Chance = Percent(n: int) | Fraction(x: real)

  datatype Config = Config(
    minIn: int, minOut: int, minLive: int, minDead: int, maxDead: int,
    chanceDown: Chance,
    primaryAffinity: bool,
    reweightOsd: real,
    pgnumGrow: real,
    pgpnumFix: real,
    testMinSize: real,
    testBackfillFull: real,
    clusterFull: real,
    pgUpmap: real,
    forceRecovery: real,
    pauseShort: real,
    pauseLong: real)

  function Down(c: Config): real {
    match c.chanceDown
    case Percent(n) => n as real / 100.0
    case Fraction(x) => x
  }

  predicate Sane(c: Config) {
    && c.minIn >= 1 && c.minLive >= 1 && c.minOut >= 0 && c.minDead >= 0 && c.maxDead >= 0
    && c.reweightOsd >= 0.0 && c.pgnumGrow >= 0.0 && c.pgpnumFix >= 0.0 && c.testMinSize >= 0.0
    && c.testBackfillFull >= 0.0 && c.pauseShort >= 0.0 && c.pauseLong >= 0.0
  }

  datatype Action =
    | OutOsd | KillOsd | RmPastIntervals | InOsd | ReviveOsd | PrimaryAffinity | Reweight | GrowPool
    | FixPgpNum | TestPoolMinSize | TestBackfillFull | ThrashClusterFull | ThrashPgUpmap
    | ThrashPgUpmapItems | ForceCancelRecovery | InjectPause(long: bool)

  // ---------------------------------------------------------------- weighted choice

  type Menu = seq<(Action, real)>

  /** Sum of the first `k` weights. */
  function Prefix(menu: Menu, k: nat): real
    requires k <= |menu|
  {
    if k == 0 then 0.0 else Prefix(menu, k - 1) + menu[k - 1].1
  }

  function Total(menu: Menu): real {
    Prefix(menu, |menu|)
  }

  ghost predicate Weighted(menu: Menu) {
    forall k :: 0 <= k < |menu| ==> menu[k].1 >= 0.0
  }

  lemma {:induction false} PrefixMonotone(menu: Menu, j: nat, k: nat)
    requires Weighted(menu)
    requires j <= k <= |menu|
    ensures Prefix(menu, j) <= Prefix(menu, k)
    decreases k
  {
    if j < k {
      PrefixMonotone(menu, j, k - 1);
    }
  }

  ghost predicate Falls(menu: Menu, val: real, k: nat) {
    k < |menu| && Prefix(menu, k) <= val < Prefix(menu, k + 1)
  }

  /** A value falls into the interval of at most one action, and that action has weight. */
  lemma FallsOnce(menu: Menu, val: real, j: nat, k: nat)
    requires Weighted(menu)
    requires Falls(menu, val, j) && Falls(menu, val, k)
    ensures j == k && menu[k].1 > 0.0
  {
    if j < k {
      PrefixMonotone(menu, j + 1, k);
    } else if k < j {
      PrefixMonotone(menu, k + 1, j);
    }
  }

  /** What a value draws: the action in whose interval it falls. */
  ghost function Drawn(menu: Menu, val: real): Option<Action> {
    if exists k: nat :: Falls(menu, val, k) then
      var k: nat :| Falls(menu, val, k);
      Some(menu[k].0)
    else None
  }

  lemma DrawnAt(menu: Menu, val: real, k: nat)
    requires Weighted(menu) && Falls(menu, val, k)
    ensures Drawn(menu, val) == Some(menu[k].0)
  {
    hide Falls;
    forall j: nat | Falls(menu, val, j)
      ensures j == k
    {
      FallsOnce(menu, val, j, k);
    }
  }

  /** Walks down the menu, using up `val`; picks the action in whose interval `val` falls. */
  method Choose(menu: Menu, val: real) returns (r: Option<Action>)
    requires Weighted(menu)
    requires 0.0 <= val
    ensures r.Some? <==> val < Total(menu)
    ensures r.Some? ==> exists k: nat :: Falls(menu, val, k) && r.value == menu[k].0
    ensures forall k: nat :: Falls(menu, val, k) ==> r == Some(menu[k].0)
    ensures r == Drawn(menu, val)
  {
    var left := val;
    for k := 0 to |menu|
      invariant left == val - Prefix(menu, k) && left >= 0.0
      invariant forall j: nat :: j < k ==> !Falls(menu, val, j)
    {
      var (action, prob) := menu[k];
      if left < prob {
        assert Falls(menu, val, k);
        forall j: nat | Falls(menu, val, j)
          ensures j == k
        {
          FallsOnce(menu, val, j, k);
        }
        PrefixMonotone(menu, k + 1, |menu|);
        DrawnAt(menu, val, k);
        return Some(action);
      }
      left := left - prob;
    }
    return None;
  }

  lemma TotalNotNegative(menu: Menu)
    requires Weighted(menu)
    ensures Total(menu) >= 0.0
  {
    PrefixMonotone(menu, 0, |menu|);
  }

  /** `random.uniform(0, total)`; `u` is where in the range the random number lies. */
  function Uniform(total: real, u: real): real {
    u * total
  }

  lemma UniformInRange(total: real, u: real)
    requires 0.0 <= u <= 1.0 && 0.0 <= total
    ensures 0.0 <= Uniform(total, u) <= total
    ensures Uniform(total, u) < total <==> u < 1.0 && total > 0.0
  {
    assert (1.0 - u) * total >= 0.0;
    if u < 1.0 && total > 0.0 {
      assert (1.0 - u) * total > 0.0;
    }
  }

  method Draw(menu: Menu, u: real) returns (r: Option<Action>)
    requires Weighted(menu)
    requires 0.0 <= u <= 1.0
    ensures r.Some? <==> u < 1.0 && Total(menu) > 0.0
    ensures r.Some? ==> exists k :: 0 <= k < |menu| && r.value == menu[k].0 && menu[k].1 > 0.0
    ensures forall k: nat :: Falls(menu, Uniform(Total(menu), u), k) ==> r == Some(menu[k].0)
    ensures r == Drawn(menu, Uniform(Total(menu), u))
  {
    hide Prefix, Uniform;
    TotalNotNegative(menu);
    UniformInRange(Total(menu), u);
    var val := Uniform(Total(menu), u);
    r := Choose(menu, val);
    if r.Some? {
      ghost var k: nat :| Falls(menu, val, k) && r.value == menu[k].0;
      FallsOnce(menu, val, k, k);
    }
  }

  // ---------------------------------------------------------------- the menu

  /** How many OSDs are in each list decides what is on offer. */
  datatype Sizes = Sizes(ins: nat, outs: nat, live: nat, dead: nat)

  predicate Offered(c: Config, z: Sizes, a: Action) {
    match a
    case OutOsd => z.ins > c.minIn
    case KillOsd => z.live > c.minLive && Down(c) > 0.0
    case RmPastIntervals => z.dead > 1
    case InOsd => z.outs > c.minOut
    case ReviveOsd => z.dead > c.minDead
    case PrimaryAffinity => c.primaryAffinity
    case ThrashClusterFull => c.clusterFull > 0.0
    case ThrashPgUpmap => c.pgUpmap > 0.0
    case ThrashPgUpmapItems => c.pgUpmap > 0.0
    case ForceCancelRecovery => c.forceRecovery > 0.0
    case _ => true
  }

  function Weight(c: Config, a: Action): real {
    match a
    case KillOsd => Down(c)
    case InOsd => 1.7
    case Reweight => c.reweightOsd
    case GrowPool => c.pgnumGrow
    case FixPgpNum => c.pgpnumFix
    case TestPoolMinSize => c.testMinSize
    case TestBackfillFull => c.testBackfillFull
    case ThrashClusterFull => c.clusterFull
    case ThrashPgUpmap => c.pgUpmap
    case ThrashPgUpmapItems => c.pgUpmap
    case ForceCancelRecovery => c.forceRecovery
    case InjectPause(long) => if long then c.pauseLong else c.pauseShort
    case _ => 1.0
  }

  const LISTS: seq<Action> := [OutOsd, KillOsd, RmPastIntervals, InOsd, ReviveOsd]
  const POOLS: seq<Action> := [PrimaryAffinity, Reweight, GrowPool, FixPgpNum, TestPoolMinSize]
  const TESTS: seq<Action> := [TestBackfillFull, ThrashClusterFull, ThrashPgUpmap, ThrashPgUpmapItems, ForceCancelRecovery]

  /** The two scenarios that are listed for each of two keys. */
  const PAUSES: seq<Action> := [InjectPause(false), InjectPause(true)]

  const ORDER: seq<Action> := LISTS + POOLS + TESTS + PAUSES + PAUSES

  function MenuOf(c: Config, z: Sizes, order: seq<Action>): (menu: Menu)
    requires Sane(c)
    ensures Weighted(menu)
    ensures forall k :: 0 <= k < |menu| ==> Offered(c, z, menu[k].0) && menu[k].1 == Weight(c, menu[k].0)
    ensures forall a :: a in order && Offered(c, z, a) ==> (a, Weight(c, a)) in menu
  {
    if order == [] then []
    else if Offered(c, z, order[0]) then [(order[0], Weight(c, order[0]))] + MenuOf(c, z, order[1..])
    else MenuOf(c, z, order[1..])
  }

  /** The weights sum to at least the weight of anything on offer. */
  lemma TotalCovers(menu: Menu, k: nat)
    requires Weighted(menu) && k < |menu|
    ensures Total(menu) >= menu[k].1 >= 0.0
  {
    PrefixMonotone(menu, 0, k);
    PrefixMonotone(menu, k + 1, |menu|);
  }

  lemma TotalCoversOffer(c: Config, z: Sizes, order: seq<Action>, a: Action)
    requires Sane(c)
    requires a in order && Offered(c, z, a)
    ensures Total(MenuOf(c, z, order)) >= Weight(c, a) >= 0.0
  {
    hide MenuOf, Offered, Weight, Total;
    var menu := MenuOf(c, z, order);
    assert (a, Weight(c, a)) in menu;
    var k: nat :| k < |menu| && menu[k] == (a, Weight(c, a));
    TotalCovers(menu, k);
  }

  /** Reweighting is always on offer. */
  lemma TotalCoversReweight(c: Config, z: Sizes)
    requires Sane(c)
    ensures Total(MenuOf(c, z, ORDER)) >= c.reweightOsd >= 0.0
  {
    hide MenuOf, Total;
    assert ORDER[6] == Reweight;
    TotalCoversOffer(c, z, ORDER, Reweight);
  }

  // What the menu amounts to, without its order.

  /** The weight that an action has on a menu, over all its entries. */
  function Share(menu: Menu, a: Action): real {
    if menu == [] then 0.0 else (if menu[0].0 == a then menu[0].1 else 0.0) + Share(menu[1..], a)
  }

  function Part(c: Config, z: Sizes, a: Action): real {
    if Offered(c, z, a) then Weight(c, a) else 0.0
  }

  lemma MenuCons(c: Config, z: Sizes, order: seq<Action>)
    requires Sane(c) && order != []
    ensures MenuOf(c, z, order) == (if Offered(c, z, order[0]) then [(order[0], Weight(c, order[0]))] else []) +
                                   MenuOf(c, z, order[1..])
  {
  }

  lemma OneMore(n: nat, x: real)
    ensures (n + 1) as real * x == n as real * x + x
  {
  }

  /** An action's share is its weight, as often as it is listed. */
  lemma {:induction false} ShareOf(c: Config, z: Sizes, order: seq<Action>, a: Action)
    requires Sane(c)
    ensures Share(MenuOf(c, z, order), a) == multiset(order)[a] as real * Part(c, z, a)
  {
    hide MenuOf, Share, Part;
    if order == [] {
      NoShare(c, z, a);
    } else {
      ShareOf(c, z, order[1..], a);
      ShareCons(c, z, order, a);
      OneMore(multiset(order[1..])[a], Part(c, z, a));
      assert order == [order[0]] + order[1..];
    }
  }

  lemma NoShare(c: Config, z: Sizes, a: Action)
    requires Sane(c)
    ensures Share(MenuOf(c, z, []), a) == 0.0 == 0 as real * Part(c, z, a)
  {
  }

  lemma ShareCons(c: Config, z: Sizes, order: seq<Action>, a: Action)
    requires Sane(c) && order != []
    ensures Share(MenuOf(c, z, order), a) ==
            (if order[0] == a then Part(c, z, a) else 0.0) + Share(MenuOf(c, z, order[1..]), a)
  {
    hide Offered, Weight;
    var rest := MenuOf(c, z, order[1..]);
    if Offered(c, z, order[0]) {
      var menu := [(order[0], Weight(c, order[0]))] + rest;
      assert menu[1..] == rest && MenuOf(c, z, order) == menu;
    }
  }

  /** Every action is listed: once, and the pauses twice. */
  lemma ListedOnce(a: Action)
    ensures multiset(ORDER)[a] == if a.InjectPause? then 2 else 1
    ensures a in ORDER
  {
    assert multiset(ORDER) == multiset(LISTS) + multiset(POOLS) + multiset(TESTS) + multiset(PAUSES) + multiset(PAUSES);
    InLists(a);
    InPools(a);
    InTests(a);
    InPauses(a);
    hide *;
    assert a in multiset(ORDER);
  }

  lemma InLists(a: Action)
    ensures multiset(LISTS)[a] ==
            if a in {OutOsd, KillOsd, RmPastIntervals, InOsd, ReviveOsd} then 1 else 0
  {
    assert multiset(LISTS) == multiset{OutOsd, KillOsd, RmPastIntervals, InOsd, ReviveOsd};
  }

  lemma InPools(a: Action)
    ensures multiset(POOLS)[a] ==
            if a in {PrimaryAffinity, Reweight, GrowPool, FixPgpNum, TestPoolMinSize} then 1 else 0
  {
    assert multiset(POOLS) == multiset{PrimaryAffinity, Reweight, GrowPool, FixPgpNum, TestPoolMinSize};
  }

  lemma InTests(a: Action)
    ensures multiset(TESTS)[a] ==
            if a in {TestBackfillFull, ThrashClusterFull, ThrashPgUpmap, ThrashPgUpmapItems, ForceCancelRecovery} then 1 else 0
  {
    assert multiset(TESTS) ==
           multiset{TestBackfillFull, ThrashClusterFull, ThrashPgUpmap, ThrashPgUpmapItems, ForceCancelRecovery};
  }

  lemma InPauses(a: Action)
    ensures multiset(PAUSES)[a] == if a.InjectPause? then 1 else 0
  {
    assert multiset(PAUSES) == multiset{InjectPause(false), InjectPause(true)};
  }

  lemma ShareIs(c: Config, z: Sizes, a: Action)
    requires Sane(c)
    ensures Share(MenuOf(c, z, ORDER), a) == if a.InjectPause? then 2.0 * Part(c, z, a) else Part(c, z, a)
  {
    hide MenuOf, Share, Part;
    ListedOnce(a);
    ShareListed(c, z, ORDER, a);
  }

  lemma ShareListed(c: Config, z: Sizes, order: seq<Action>, a: Action)
    requires Sane(c) && multiset(order)[a] == if a.InjectPause? then 2 else 1
    ensures Share(MenuOf(c, z, order), a) == if a.InjectPause? then 2.0 * Part(c, z, a) else Part(c, z, a)
  {
    hide MenuOf, Share, Part;
    ShareOf(c, z, order, a);
    OneOrTwo(Part(c, z, a));
  }

  lemma OneOrTwo(x: real)
    ensures 1 as real * x == x && 2 as real * x == 2.0 * x
  {
  }

  /**
   The share of each action in the draw, in terms of the lists and the configuration: this is the
   whole of what the thrasher does to whom, and nothing is missing from it.
   */
  lemma SharesAre(c: Config, z: Sizes)
    requires Sane(c)
    ensures var menu := MenuOf(c, z, ORDER);
            && Share(menu, OutOsd) == (if z.ins - 1 >= c.minIn then 1.0 else 0.0)
            && Share(menu, KillOsd) == (if z.live - 1 >= c.minLive && ChanceDown(c) > 0.0 then ChanceDown(c) else 0.0)
            && Share(menu, RmPastIntervals) == (if z.dead >= 2 then 1.0 else 0.0)
            && Share(menu, InOsd) == (if z.outs - 1 >= c.minOut then 1.7 else 0.0)
            && Share(menu, ReviveOsd) == (if z.dead - 1 >= c.minDead then 1.0 else 0.0)
            && Share(menu, PrimaryAffinity) == (if c.primaryAffinity then 1.0 else 0.0)
            && Share(menu, Reweight) == c.reweightOsd && Share(menu, GrowPool) == c.pgnumGrow
            && Share(menu, FixPgpNum) == c.pgpnumFix && Share(menu, TestPoolMinSize) == c.testMinSize
            && Share(menu, TestBackfillFull) == c.testBackfillFull
            && Share(menu, ThrashClusterFull) == AtLeastNone(c.clusterFull)
            && Share(menu, ThrashPgUpmap) == AtLeastNone(c.pgUpmap) == Share(menu, ThrashPgUpmapItems)
            && Share(menu, ForceCancelRecovery) == AtLeastNone(c.forceRecovery)
            && Share(menu, InjectPause(false)) == 2.0 * c.pauseShort && Share(menu, InjectPause(true)) == 2.0 * c.pauseLong
  {
    hide MenuOf, Share;
    ShareIs(c, z, OutOsd);
    ShareIs(c, z, KillOsd);
    ShareIs(c, z, RmPastIntervals);
    ShareIs(c, z, InOsd);
    ShareIs(c, z, ReviveOsd);
    ShareIs(c, z, PrimaryAffinity);
    ShareIs(c, z, Reweight);
    ShareIs(c, z, GrowPool);
    ShareIs(c, z, FixPgpNum);
    ShareIs(c, z, TestPoolMinSize);
    ShareIs(c, z, TestBackfillFull);
    ShareIs(c, z, ThrashClusterFull);
    ShareIs(c, z, ThrashPgUpmap);
    ShareIs(c, z, ThrashPgUpmapItems);
    ShareIs(c, z, ForceCancelRecovery);
    ShareIs(c, z, InjectPause(false));
    ShareIs(c, z, InjectPause(true));
  }

  function AtLeastNone(x: real): real {
    if x > 0.0 then x else 0.0
  }

  /** The chance to kill: a fraction, or a percentage if it is a whole number. */
  function ChanceDown(c: Config): (r: real)
    ensures c.chanceDown.Percent? ==> 100.0 * r == c.chanceDown.n as real
    ensures c.chanceDown.Fraction? ==> r == c.chanceDown.x
  {
    if c.chanceDown.Percent? then c.chanceDown.n as real / 100.0 else c.chanceDown.x
  }

  /** The weights that are drawn from add up to the shares. */
  lemma {:induction false} TotalIs(c: Config, z: Sizes, order: seq<Action>)
    requires Sane(c)
    ensures Total(MenuOf(c, z, order)) == Parts(c, z, order)
  {
    if order != [] {
      TotalIs(c, z, order[1..]);
      MenuCons(c, z, order);
      if Offered(c, z, order[0]) {
        TotalCons((order[0], Weight(c, order[0])), MenuOf(c, z, order[1..]));
      } else {
        assert [] + MenuOf(c, z, order[1..]) == MenuOf(c, z, order[1..]);
      }
    }
  }

  function Parts(c: Config, z: Sizes, order: seq<Action>): real {
    if order == [] then 0.0 else Part(c, z, order[0]) + Parts(c, z, order[1..])
  }

  lemma {:induction false} PartsConcat(c: Config, z: Sizes, a: seq<Action>, b: seq<Action>)
    ensures Parts(c, z, a + b) == Parts(c, z, a) + Parts(c, z, b)
    decreases |a|
  {
    if a == [] {
      assert a + b == b;
    } else {
      assert (a + b)[1..] == a[1..] + b;
      PartsConcat(c, z, a[1..], b);
    }
  }

  lemma PartsOfFive(c: Config, z: Sizes, a: Action, b: Action, d: Action, e: Action, f: Action)
    ensures Parts(c, z, [a, b, d, e, f]) == Part(c, z, a) + Part(c, z, b) + Part(c, z, d) + Part(c, z, e) + Part(c, z, f)
  {
    hide Part;
    PartsOfTwo(c, z, e, f);
    assert [a, b, d, e, f][1..] == [b, d, e, f] && [b, d, e, f][1..] == [d, e, f] && [d, e, f][1..] == [e, f];
    assert Parts(c, z, [d, e, f]) == Part(c, z, d) + Parts(c, z, [e, f]);
    assert Parts(c, z, [b, d, e, f]) == Part(c, z, b) + Parts(c, z, [d, e, f]);
  }

  lemma PartsOfTwo(c: Config, z: Sizes, a: Action, b: Action)
    ensures Parts(c, z, [a, b]) == Part(c, z, a) + Part(c, z, b)
  {
    hide Part;
    assert [a, b][1..] == [b] && [b][1..] == [];
    assert Parts(c, z, [b]) == Part(c, z, b) + Parts(c, z, []);
  }

  /** The range that is drawn from is the sum of the shares of all actions. */
  lemma TotalIsAllShares(c: Config, z: Sizes)
    requires Sane(c)
    ensures var menu := MenuOf(c, z, ORDER);
            Total(menu) ==
            Share(menu, OutOsd) + Share(menu, KillOsd) + Share(menu, RmPastIntervals) + Share(menu, InOsd) +
            Share(menu, ReviveOsd) + Share(menu, PrimaryAffinity) + Share(menu, Reweight) + Share(menu, GrowPool) +
            Share(menu, FixPgpNum) + Share(menu, TestPoolMinSize) + Share(menu, TestBackfillFull) +
            Share(menu, ThrashClusterFull) + Share(menu, ThrashPgUpmap) + Share(menu, ThrashPgUpmapItems) +
            Share(menu, ForceCancelRecovery) + Share(menu, InjectPause(false)) + Share(menu, InjectPause(true))
  {
    hide MenuOf, Share, Part, Parts, Total;
    TotalIs(c, z, ORDER);
    PartsConcat(c, z, LISTS + POOLS + TESTS + PAUSES, PAUSES);
    PartsConcat(c, z, LISTS + POOLS + TESTS, PAUSES);
    PartsConcat(c, z, LISTS + POOLS, TESTS);
    PartsConcat(c, z, LISTS, POOLS);
    PartsOfFive(c, z, OutOsd, KillOsd, RmPastIntervals, InOsd, ReviveOsd);
    PartsOfFive(c, z, PrimaryAffinity, Reweight, GrowPool, FixPgpNum, TestPoolMinSize);
    PartsOfFive(c, z, TestBackfillFull, ThrashClusterFull, ThrashPgUpmap, ThrashPgUpmapItems, ForceCancelRecovery);
    PartsOfTwo(c, z, InjectPause(false), InjectPause(true));
    AllShares(c, z);
  }

  lemma AllShares(c: Config, z: Sizes)
    requires Sane(c)
    ensures forall a: Action :: Share(MenuOf(c, z, ORDER), a) == if a.InjectPause? then 2.0 * Part(c, z, a) else Part(c, z, a)
  {
    hide MenuOf, Share, Part;
    forall a: Action
      ensures Share(MenuOf(c, z, ORDER), a) == if a.InjectPause? then 2.0 * Part(c, z, a) else Part(c, z, a)
    {
      ShareIs(c, z, a);
    }
  }

  lemma TotalCons(e: (Action, real), rest: Menu)
    ensures Total([e] + rest) == e.1 + Total(rest)
  {
    PrefixCons(e, rest, |rest|);
  }

  lemma {:induction false} PrefixCons(e: (Action, real), rest: Menu, k: nat)
    requires k <= |rest|
    ensures Prefix([e] + rest, k + 1) == e.1 + Prefix(rest, k)
  {
    if k > 0 {
      PrefixCons(e, rest, k - 1);
    } else {
      assert Prefix([e] + rest, 1) == Prefix([e] + rest, 0) + ([e] + rest)[0].1;
    }
  }

  /** Every action that is on offer and has weight can be drawn. */
  lemma CanBeDrawn(c: Config, z: Sizes, a: Action) returns (u: real)
    requires Sane(c) && Offered(c, z, a) && Weight(c, a) > 0.0
    ensures var menu := MenuOf(c, z, ORDER);
            0.0 <= u < 1.0 && Drawn(menu, Uniform(Total(menu), u)) == Some(a)
  {
    hide MenuOf, Offered, Weight, Prefix, Uniform, Drawn;
    var menu := MenuOf(c, z, ORDER);
    var k := FindEntry(c, z, a);
    PrefixStep(menu, k);
    PrefixMonotone(menu, 0, k);
    PrefixMonotone(menu, k + 1, |menu|);
    u := Prefix(menu, k) / Total(menu);
    Quotient(Prefix(menu, k), Total(menu));
    DrawnAt(menu, Uniform(Total(menu), u), k);
  }

  lemma FindEntry(c: Config, z: Sizes, a: Action) returns (k: nat)
    requires Sane(c) && Offered(c, z, a)
    ensures k < |MenuOf(c, z, ORDER)| && MenuOf(c, z, ORDER)[k] == (a, Weight(c, a))
  {
    hide MenuOf, Offered, Weight;
    ListedOnce(a);
    assert (a, Weight(c, a)) in MenuOf(c, z, ORDER);
    k :| k < |MenuOf(c, z, ORDER)| && MenuOf(c, z, ORDER)[k] == (a, Weight(c, a));
  }

  lemma PrefixStep(menu: Menu, k: nat)
    requires k < |menu|
    ensures Prefix(menu, k + 1) == Prefix(menu, k) + menu[k].1 && Prefix(menu, 0) == 0.0
  {
  }

  lemma Quotient(x: real, y: real)
    requires 0.0 <= x < y
    ensures 0.0 <= x / y < 1.0 && Uniform(y, x / y) == x
  {
  }

  /** The part of the range that draws an entry is as long as its weight is of the total. */
  lemma DrawnBetween(menu: Menu, k: nat, u: real)
    requires Weighted(menu) && k < |menu| && Total(menu) > 0.0
    ensures Falls(menu, Uniform(Total(menu), u), k) <==>
            Prefix(menu, k) / Total(menu) <= u < Prefix(menu, k) / Total(menu) + menu[k].1 / Total(menu)
  {
    hide Prefix, Uniform;
    PrefixStep(menu, k);
    Between(Prefix(menu, k), menu[k].1, u, Total(menu));
  }

  lemma Between(x: real, w: real, u: real, t: real)
    requires t > 0.0
    ensures x <= Uniform(t, u) < x + w <==> x / t <= u < x / t + w / t
  {
    Scale(x, u, t);
    Scale(x + w, u, t);
    DivideSum(x, w, t);
  }

  lemma DivideSum(x: real, y: real, t: real)
    requires t > 0.0
    ensures (x + y) / t == x / t + y / t
  {
  }

  lemma Scale(x: real, u: real, t: real)
    requires t > 0.0
    ensures x <= u * t <==> x / t <= u
  {
    var q := x / t;
    assert x == q * t;
    if q <= u {
      assert (u - q) * t >= 0.0;
    } else {
      assert (q - u) * t > 0.0;
    }
  }

  // ---------------------------------------------------------------- lists

  /** `list.remove`: drops the first occurrence. */
  function Without(s: seq<Osd>, x: Osd): (r: seq<Osd>)
    requires x in s
    ensures multiset(r) == multiset(s) - multiset{x}
    ensures |r| == |s| - 1
  {
    if s[0] == x then
      assert s == [x] + s[1..];
      s[1..]
    else
      assert s == [s[0]] + s[1..];
      [s[0]] + Without(s[1..], x)
  }

  lemma WithoutOthers(s: seq<Osd>, x: Osd, y: Osd)
    requires x in s && y in s
    ensures x != y ==> y in Without(s, x)
  {
    assert y in multiset(s);
    assert y in multiset(Without(s, x)) <==> y in Without(s, x);
  }

  /** The two lists together hold every OSD once. */
  ghost predicate Partition(a: seq<Osd>, b: seq<Osd>, osds: set<Osd>) {
    multiset(a) + multiset(b) == multiset(osds)
  }

  lemma PartitionSize(a: seq<Osd>, b: seq<Osd>, osds: set<Osd>)
    requires Partition(a, b, osds)
    ensures |a| + |b| == |osds|
  {
    assert |multiset(a) + multiset(b)| == |a| + |b|;
  }

  /** What a partition means list by list. */
  lemma PartitionMeans(a: seq<Osd>, b: seq<Osd>, osds: set<Osd>, x: Osd)
    requires Partition(a, b, osds)
    ensures x in osds <==> x in a || x in b
    ensures !(x in a && x in b)
    ensures forall i, j :: 0 <= i < j < |a| ==> a[i] != a[j]
  {
    assert forall y :: (multiset(a) + multiset(b))[y] == multiset(a)[y] + multiset(b)[y];
    assert x in osds <==> x in multiset(osds);
    assert x in a <==> x in multiset(a);
    assert x in b <==> x in multiset(b);
    forall i, j | 0 <= i < j < |a|
      ensures a[i] != a[j]
    {
      TwiceCountsTwice(a, i, j);
      assert multiset(osds)[a[i]] <= 1;
    }
  }

  lemma TwiceCountsTwice(a: seq<Osd>, i: nat, j: nat)
    requires i < j < |a|
    ensures a[i] == a[j] ==> multiset(a)[a[i]] >= 2
  {
    assert a == a[..i] + [a[i]] + a[i + 1..j] + [a[j]] + a[j + 1..];
  }

  lemma MoveOver(a: seq<Osd>, b: seq<Osd>, osds: set<Osd>, x: Osd)
    requires Partition(a, b, osds)
    requires x in a
    ensures Partition(Without(a, x), b + [x], osds)
  {
    assert x in multiset(a);
  }

  lemma MoveBack(a: seq<Osd>, b: seq<Osd>, osds: set<Osd>, x: Osd)
    requires Partition(a, b, osds)
    requires x in b
    ensures Partition(a + [x], Without(b, x), osds)
  {
    assert x in multiset(b);
  }

  // ---------------------------------------------------------------- the thrasher

  datatype Tick = Tick(clean: bool, discontinuity: bool, u: real)

  datatype Outcome = Finished | NoOsdToAdd | NoAction | MinSizeTestRaised

  datatype Lists = Lists(ins: seq<Osd>, outs: seq<Osd>, live: seq<Osd>, dead: seq<Osd>)

  function SizesOf(l: Lists): Sizes {
    Sizes(|l.ins|, |l.outs|, |l.live|, |l.dead|)
  }

  /** Both pairs of lists split the OSDs, and both floors hold. */
  ghost predicate Safe(c: Config, osds: set<Osd>, l: Lists) {
    && Partition(l.ins, l.outs, osds) && Partition(l.live, l.dead, osds)
    && |l.ins| >= c.minIn && |l.live| >= c.minLive
  }

  /** How an action may change the sizes of the lists. */
  predicate Moves(a: Action, z: Sizes, z': Sizes) {
    match a
    case OutOsd => z'.ins == z.ins - 1 && z'.outs == z.outs + 1 && z'.live == z.live && z'.dead == z.dead
    case KillOsd => z'.ins == z.ins && z'.outs == z.outs && z'.live == z.live - 1 && z'.dead == z.dead + 1
    case InOsd =>
      || (z'.ins == z.ins + 1 && z'.outs == z.outs - 1 && z'.live == z.live && z'.dead == z.dead)
      || (z'.ins == z.ins && z'.outs == z.outs && z'.live == z.live + 1 && z'.dead == z.dead - 1)
    case ReviveOsd => z'.ins == z.ins && z'.outs == z.outs && z'.live == z.live + 1 && z'.dead == z.dead - 1
    case TestPoolMinSize => z'.outs == 0 && z'.dead == 0 && z'.ins == z'.live
    case _ => z' == z
  }

  /** What holds even while the discontinuity test has an OSD down: one less than the live floor. */
  ghost predicate NearlySafe(c: Config, osds: set<Osd>, l: Lists) {
    && Partition(l.ins, l.outs, osds) && Partition(l.live, l.dead, osds)
    && |l.ins| >= c.minIn && |l.live| >= c.minLive - 1
  }

  /**
   The clean-up before an action: revives down to the permitted number of dead OSDs, and may then
   run the discontinuity test, which kills one OSD, marks it out and revives one.  `low` is what
   the lists are between the two, or at the end if there is no test.
   */
  ghost predicate CleansUp(c: Config, osds: set<Osd>, tick: Tick, before: Lists, low: Lists, mid: Lists) {
    && Safe(c, osds, mid) && NearlySafe(c, osds, low)
    && (tick.clean && tick.discontinuity ==> |low.live| == |mid.live| - 1 && low.ins == mid.ins && low.outs == mid.outs)
    && (!(tick.clean && tick.discontinuity) ==> low == mid)
    && (!tick.clean ==> mid == before)
    && (tick.clean && !tick.discontinuity ==>
          && mid.ins == before.ins && mid.outs == before.outs
          && |mid.dead| == if |before.dead| > c.maxDead then c.maxDead else |before.dead|)
    && (tick.clean && tick.discontinuity ==>
          |mid.live| >= |before.live| && |mid.outs| > 0 && |osds| > c.minIn)
  }

  /** One completed turn: the clean-up, then one action that is on offer and has weight. */
  ghost predicate TurnOk(c: Config, osds: set<Osd>, tick: Tick, before: Lists, low: Lists, mid: Lists, a: Action,
                         after: Lists)
  {
    && CleansUp(c, osds, tick, before, low, mid)
    && Weight(c, a) > 0.0 && Offered(c, SizesOf(mid), a)
    && Moves(a, SizesOf(mid), SizesOf(after))
  }

  method RandomChoice(s: seq<Osd>) returns (x: Osd)
    requires s != []
    ensures x in s
  {
    var i :| 0 <= i < |s|;
    x := s[i];
  }

  class Thrasher {
    const config: Config
    ghost const osds: set<Osd>
    var inOsds: seq<Osd>
    var outOsds: seq<Osd>
    var liveOsds: seq<Osd>
    var deadOsds: seq<Osd>

    ghost predicate Valid()
      reads this
    {
      Partition(inOsds, outOsds, osds) && Partition(liveOsds, deadOsds, osds)
    }

    ghost predicate Floors()
      reads this
    {
      |inOsds| >= config.minIn && |liveOsds| >= config.minLive
    }

    constructor (c: Config, ins: seq<Osd>, outs: seq<Osd>, live: seq<Osd>, dead: seq<Osd>, ghost all: set<Osd>)
      requires Partition(ins, outs, all) && Partition(live, dead, all)
      ensures Valid() && config == c && osds == all
      ensures inOsds == ins && outOsds == outs && liveOsds == live && deadOsds == dead
    {
      config, osds := c, all;
      inOsds, outOsds, liveOsds, deadOsds := ins, outs, live, dead;
    }

    method OutOsd(osd: Option<Osd>) returns (o: Osd)
      requires Valid()
      requires if osd.Some? then osd.value in inOsds else inOsds != []
      modifies this`inOsds, this`outOsds
      ensures Valid()
      ensures o in old(inOsds) && (osd.Some? ==> o == osd.value)
      ensures inOsds == Without(old(inOsds), o) && outOsds == old(outOsds) + [o]
    {
      hide Partition, Without;
      if osd.Some? { o := osd.value; } else { o := RandomChoice(inOsds); }
      MoveOver(inOsds, outOsds, osds, o);
      inOsds := Without(inOsds, o);
      outOsds := outOsds + [o];
    }

    method KillOsd(osd: Option<Osd>, markOut: bool) returns (o: Osd)
      requires Valid()
      requires if osd.Some? then osd.value in liveOsds else liveOsds != []
      modifies this
      ensures Valid()
      ensures o in old(liveOsds) && (osd.Some? ==> o == osd.value)
      ensures liveOsds == Without(old(liveOsds), o) && deadOsds == old(deadOsds) + [o]
      ensures if markOut && o in old(inOsds)
              then inOsds == Without(old(inOsds), o) && outOsds == old(outOsds) + [o]
              else inOsds == old(inOsds) && outOsds == old(outOsds)
      ensures markOut ==> o in outOsds
    {
      hide Partition, Without;
      if osd.Some? { o := osd.value; } else { o := RandomChoice(liveOsds); }
      PartitionMeans(liveOsds, deadOsds, osds, o);
      PartitionMeans(inOsds, outOsds, osds, o);
      MoveOver(liveOsds, deadOsds, osds, o);
      liveOsds := Without(liveOsds, o);
      deadOsds := deadOsds + [o];
      if markOut && o in inOsds {
        var _ := OutOsd(Some(o));
      }
    }

    method ReviveOsd(osd: Option<Osd>) returns (o: Osd)
      requires Valid()
      requires if osd.Some? then osd.value in deadOsds else deadOsds != []
      modifies this`liveOsds, this`deadOsds
      ensures Valid()
      ensures o in old(deadOsds) && (osd.Some? ==> o == osd.value)
      ensures deadOsds == Without(old(deadOsds), o) && liveOsds == old(liveOsds) + [o]
    {
      hide Partition, Without;
      if osd.Some? { o := osd.value; } else { o := RandomChoice(deadOsds); }
      MoveBack(liveOsds, deadOsds, osds, o);
      deadOsds := Without(deadOsds, o);
      liveOsds := liveOsds + [o];
    }

    /** An OSD that is dead is only revived; it takes a second call to bring it in. */
    method InOsd(osd: Option<Osd>) returns (o: Osd)
      requires Valid()
      requires if osd.Some? then osd.value in outOsds || osd.value in deadOsds else outOsds != []
      modifies this
      ensures Valid()
      ensures if osd.Some? then o == osd.value else o in old(outOsds)
      ensures o in old(deadOsds) ==>
                deadOsds == Without(old(deadOsds), o) && liveOsds == old(liveOsds) + [o] &&
                inOsds == old(inOsds) && outOsds == old(outOsds)
      ensures o !in old(deadOsds) ==>
                o in old(outOsds) && outOsds == Without(old(outOsds), o) && inOsds == old(inOsds) + [o] &&
                deadOsds == old(deadOsds) && liveOsds == old(liveOsds)
    {
      hide Partition, Without;
      if osd.Some? { o := osd.value; } else { o := RandomChoice(outOsds); }
      if o in deadOsds {
        var _ := ReviveOsd(Some(o));
      } else {
        MoveBack(inOsds, outOsds, osds, o);
        outOsds := Without(outOsds, o);
        inOsds := inOsds + [o];
      }
    }

    method AllUp()
      requires Valid()
      modifies this
      ensures Valid()
      ensures deadOsds == [] && outOsds == []
      ensures |inOsds| == |osds| && |liveOsds| == |osds|
    {
      while |deadOsds| > 0
        invariant Valid()
        decreases |deadOsds|
      {
        var _ := ReviveOsd(None);
      }
      while |outOsds| > 0
        invariant Valid() && deadOsds == []
        decreases |outOsds|
      {
        var _ := InOsd(None);
      }
      PartitionSize(inOsds, outOsds, osds);
      PartitionSize(liveOsds, deadOsds, osds);
    }

    /**
     Runs through exactly if there are more OSDs than the floor of the in-list.  `low` is what the
     lists are while the OSD is down: the live list stays at its floor exactly if it ends above it.
     */
    method TestMapDiscontinuity() returns (ok: bool, killed: Osd, revived: Osd, low: Lists)
      requires Valid()
      requires liveOsds != []
      modifies this
      ensures Valid()
      ensures ok <==> |osds| > config.minIn
      ensures |liveOsds| >= |old(liveOsds)|
      ensures ok ==> |inOsds| >= config.minIn
      ensures ok ==> killed in outOsds && revived in liveOsds && (killed in deadOsds <==> killed != revived)
      ensures ok ==> Partition(low.ins, low.outs, osds) && Partition(low.live, low.dead, osds)
      ensures ok ==> killed in low.dead && low.ins == inOsds && low.outs == outOsds && liveOsds == low.live + [revived]
      ensures ok && |old(inOsds)| > config.minIn ==>
                (|low.live| >= config.minLive <==> |old(liveOsds)| > config.minLive)
      ensures !ok ==> |inOsds| == |osds|
    {
      hide Partition, Without;
      killed, revived, low := 0, 0, GetLists();
      while |inOsds| < config.minIn + 1
        invariant Valid()
        invariant |liveOsds| >= |old(liveOsds)|
        invariant |old(inOsds)| > config.minIn ==> |inOsds| > config.minIn && liveOsds == old(liveOsds)
        decreases |deadOsds| + |outOsds|
      {
        PartitionSize(inOsds, outOsds, osds);
        if outOsds == [] {
          return false, 0, 0, low;
        }
        var _ := InOsd(None);
      }
      PartitionSize(inOsds, outOsds, osds);
      killed := KillOsd(None, true);
      low := GetLists();
      revived := ReviveOsd(None);
      WithoutOthers(low.dead, revived, killed);
      PartitionMeans(liveOsds, deadOsds, osds, revived);
      ok := true;
    }

    function GetSizes(): Sizes
      reads this
    {
      Sizes(|inOsds|, |outOsds|, |liveOsds|, |deadOsds|)
    }

    function GetLists(): Lists
      reads this
    {
      Lists(inOsds, outOsds, liveOsds, deadOsds)
    }

    function Offers(): Menu
      requires Sane(config)
      reads this
    {
      MenuOf(config, GetSizes(), ORDER)
    }

    /** Draws from everything on offer. */
    method ChooseAction(u: real) returns (r: Option<Action>)
      requires Sane(config)
      requires 0.0 <= u <= 1.0
      ensures r.Some? ==> Offered(config, GetSizes(), r.value) && Weight(config, r.value) > 0.0
      ensures forall k: nat :: Falls(Offers(), Uniform(Total(Offers()), u), k) ==> r == Some(Offers()[k].0)
      ensures r == Drawn(Offers(), Uniform(Total(Offers()), u))
      ensures r.Some? <==> u < 1.0 && Total(Offers()) > 0.0
      ensures u < 1.0 && config.reweightOsd > 0.0 ==> r.Some?
    {
      hide Offered, Weight, Falls, Prefix, Uniform, Drawn;
      TotalCoversReweight(config, GetSizes());
      r := Draw(Offers(), u);
    }

    /** An offered action: never draws from an empty list, never goes below the floors. */
    method Perform(a: Action) returns (ok: bool)
      requires Sane(config)
      requires Valid() && Floors()
      requires Offered(config, GetSizes(), a)
      modifies this
      ensures Valid() && Floors()
      ensures ok <==> a != TestPoolMinSize
      ensures Moves(a, old(GetSizes()), GetSizes())
      ensures a.OutOsd? ==> |inOsds| == |old(inOsds)| - 1 && liveOsds == old(liveOsds) && deadOsds == old(deadOsds)
      ensures a.KillOsd? ==> |liveOsds| == |old(liveOsds)| - 1 && inOsds == old(inOsds) && outOsds == old(outOsds)
      ensures a.ReviveOsd? ==> |deadOsds| == |old(deadOsds)| - 1 && inOsds == old(inOsds) && outOsds == old(outOsds)
      ensures a.InOsd? ==> |outOsds| + |deadOsds| == |old(outOsds)| + |old(deadOsds)| - 1
      ensures !a.OutOsd? && !a.KillOsd? && !a.ReviveOsd? && !a.InOsd? && !a.TestPoolMinSize? ==> GetLists() == old(GetLists())
    {
      hide Partition, Without;
      PartitionSize(inOsds, outOsds, osds);
      PartitionSize(liveOsds, deadOsds, osds);
      ok := true;
      match a
      case OutOsd => var _ := OutOsd(None);
      case KillOsd => var _ := KillOsd(None, false);
      case RmPastIntervals => var _ := RandomChoice(deadOsds);
      case InOsd => var _ := InOsd(None);
      case ReviveOsd => var _ := ReviveOsd(None);
      case PrimaryAffinity => var _ := RandomChoice(inOsds);
      case Reweight => var _ := RandomChoice(inOsds);
      case InjectPause(_) => var _ := RandomChoice(liveOsds);
      case TestPoolMinSize =>
        // the log call that follows the choice has one argument too many and raises
        AllUp();
        var _ := RandomChoice(inOsds);
        ok := false;
      case _ =>
    }

    /** What comes before the action in a turn; `ok` unless the discontinuity test raises. */
    method CleanUp(tick: Tick) returns (ok: bool, low: Lists)
      requires Sane(config)
      requires Valid() && Floors()
      modifies this
      ensures Valid() && Floors()
      ensures ok ==> CleansUp(config, osds, tick, old(GetLists()), low, GetLists())
      ensures !ok ==> |osds| <= config.minIn
      ensures tick.clean && !tick.discontinuity ==> |deadOsds| <= config.maxDead
      ensures !tick.clean ==> GetLists() == old(GetLists())
    {
      hide Partition, Without;
      ok, low := true, GetLists();
      if tick.clean {
        while |deadOsds| > config.maxDead
          invariant Valid() && Floors()
          invariant inOsds == old(inOsds) && outOsds == old(outOsds) && |liveOsds| >= |old(liveOsds)|
          invariant |deadOsds| <= |old(deadOsds)|
          invariant |deadOsds| < |old(deadOsds)| ==> |deadOsds| >= config.maxDead
          decreases |deadOsds|
        {
          var _ := ReviveOsd(None);
        }
        if tick.discontinuity {
          PartitionSize(inOsds, outOsds, osds);
          var killed, revived;
          ok, killed, revived, low := TestMapDiscontinuity();
          return;
        }
      }
      low := GetLists();
    }

    /** One turn of the loop; `raised` if it ends the thread, `mid` is what the clean-up leaves. */
    method Turn(tick: Tick) returns (raised: Option<Outcome>, low: Lists, mid: Lists, a: Action)
      requires Sane(config)
      requires Valid() && Floors()
      requires 0.0 <= tick.u <= 1.0
      modifies this
      ensures Valid() && Floors()
      ensures raised == None ==> TurnOk(config, osds, tick, old(GetLists()), low, mid, a, GetLists())
      ensures raised != Some(Finished)
      ensures raised == Some(NoOsdToAdd) ==> |osds| <= config.minIn
      ensures raised == Some(MinSizeTestRaised) ==> config.testMinSize > 0.0
      ensures raised == Some(NoAction) ==> config.reweightOsd == 0.0 || tick.u == 1.0
    {
      hide Partition, Without, Offered, Moves, Falls, MenuOf, Prefix, Uniform, CleansUp;
      var clean;
      clean, low := CleanUp(tick);
      mid, a := GetLists(), Reweight;
      if !clean {
        return Some(NoOsdToAdd), low, mid, a;
      }
      var choice := ChooseAction(tick.u);
      if choice == None {
        return Some(NoAction), low, mid, a;
      }
      a := choice.value;
      var ok := Perform(a);
      raised := if ok then None else Some(MinSizeTestRaised);
    }

    /**
     One run of the thrasher, one tick for each turn of the loop until it is told to stop.
     `history` is what the lists are before the first turn and after each completed one, `mids`
     what they are between clean-up and action, and `lows` while a discontinuity test has an OSD down.
     */
    method DoThrash(ticks: seq<Tick>)
      returns (r: Outcome, history: seq<Lists>, lows: seq<Lists>, mids: seq<Lists>, actions: seq<Action>)
      requires Sane(config)
      requires Valid() && Floors()
      requires forall k :: 0 <= k < |ticks| ==> 0.0 <= ticks[k].u <= 1.0
      modifies this
      ensures Valid() && Floors()
      ensures |history| == |actions| + 1 && |lows| == |mids| == |actions| <= |ticks| && history[0] == old(GetLists())
      ensures forall k :: 0 <= k < |history| ==> Safe(config, osds, history[k])
      ensures forall k :: 0 <= k < |actions| ==>
                TurnOk(config, osds, ticks[k], history[k], lows[k], mids[k], actions[k], history[k + 1])
      ensures r == Finished ==> |actions| == |ticks| && deadOsds == [] && outOsds == []
      ensures r == NoOsdToAdd ==> |osds| <= config.minIn
      ensures r == MinSizeTestRaised ==> config.testMinSize > 0.0
      ensures r == NoAction ==> config.reweightOsd == 0.0 || exists k :: 0 <= k < |ticks| && ticks[k].u == 1.0
    {
      hide Partition, TurnOk;
      var rerrOsd := liveOsds[0];
      history, lows, mids, actions := [GetLists()], [], [], [];
      for k := 0 to |ticks|
        invariant Valid() && Floors()
        invariant |history| == k + 1 && |lows| == |mids| == |actions| == k && history[0] == old(GetLists()) && history[k] == GetLists()
        invariant forall j :: 0 <= j < |history| ==> Safe(config, osds, history[j])
        invariant forall j :: 0 <= j < k ==>
                    TurnOk(config, osds, ticks[j], history[j], lows[j], mids[j], actions[j], history[j + 1])
      {
        var raised, low, mid, a := Turn(ticks[k]);
        if raised.Some? {
          return raised.value, history, lows, mids, actions;
        }
        history, lows, mids, actions := history + [GetLists()], lows + [low], mids + [mid], actions + [a];
      }
      PartitionSize(inOsds, outOsds, osds);
      PartitionSize(liveOsds, deadOsds, osds);
      AllUp();
      r := Finished;
    }
  }

  /** Two OSDs, both of which are to stay live: the discontinuity test goes below the floor. */
  method DiscontinuityDips(c: Config) returns (ok: bool, low: Lists)
    requires c.minIn == 1 && c.minLive == 2
    ensures ok && |low.live| == 1
  {
    var t := new Thrasher(c, [0, 1], [], [0, 1], [], {0, 1});
    var killed, revived;
    ok, killed, revived, low := t.TestMapDiscontinuity();
    PartitionSize(t.liveOsds, t.deadOsds, t.osds);
  }
}
