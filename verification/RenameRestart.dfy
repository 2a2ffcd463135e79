// When restarting the renaming phase is harmless: exactly when no two planned
// assets share a target. Otherwise the run behind the failed one deletes an
// asset that was itself due for renaming.

module RenameRestart {
  import opened Prelude
  import opened AssetNames
  import opened RenameProtocol
  import opened RenameSafety

  predicate HasId(assets: seq<Asset>, id: nat) {
    exists i | 0 <= i < |assets| :: assets[i].id == id
  }

  // Every asset that was to be renamed is still there, under whatever name.
  predicate KeepsPlanned(all: seq<Asset>, now: seq<Asset>, v: string) {
    forall i | 0 <= i < |all| && Planned(all[i], v) :: HasId(now, all[i].id)
  }

  // ---- Nothing comes back ---------------------------------------------------------

  lemma {:induction false} WithoutHas(assets: seq<Asset>, id: nat, other: nat)
    ensures HasId(Without(assets, id), other) <==> HasId(assets, other) && other != id
  {
    if assets != [] {
      var rest := Without(assets[1..], id);
      WithoutHas(assets[1..], id, other);
      HasIdFront(assets, other);
      if assets[0].id == id {
        assert [] + rest == rest;
      } else {
        HasIdFront([assets[0]] + rest, other);
        assert ([assets[0]] + rest)[1..] == rest;
      }
    }
  }

  lemma HasIdFront(assets: seq<Asset>, id: nat)
    requires assets != []
    ensures HasId(assets, id) <==> assets[0].id == id || HasId(assets[1..], id)
  {
    if i :| 0 <= i < |assets[1..]| && assets[1..][i].id == id {
      assert assets[i + 1].id == id;
    }
    if i :| 1 <= i < |assets| && assets[i].id == id {
      assert assets[1..][i - 1].id == id;
    }
  }

  lemma {:induction false} WithNameHas(assets: seq<Asset>, id: nat, name: string, other: nat)
    ensures HasId(WithName(assets, id, name), other) <==> HasId(assets, other)
  {
    if assets != [] {
      var rest, now := WithName(assets[1..], id, name), WithName(assets, id, name);
      WithNameHas(assets[1..], id, name, other);
      HasIdFront(assets, other);
      HasIdFront(now, other);
      assert now[1..] == rest;
    }
  }

  lemma ApplyAddsNothing(assets: seq<Asset>, call: Call, id: nat)
    requires Apply(assets, call).Some? && !HasId(assets, id)
    ensures !HasId(Apply(assets, call).value, id)
  {
    match call
    case Delete(gone) => WithoutHas(assets, gone, id);
    case Patch(a, name) => WithNameHas(assets, a, name, id);
  }

  lemma {:induction false} ExecAddsNothing(assets: seq<Asset>, calls: seq<Call>, budget: nat, id: nat)
    requires !HasId(assets, id)
    ensures !HasId(Exec(assets, calls, budget).0, id)
    decreases budget
  {
    hide Apply, HasId;
    if calls != [] && budget > 0 {
      var next := Apply(assets, calls[0]);
      if next.Some? {
        ApplyAddsNothing(assets, calls[0], id);
        ExecAddsNothing(next.value, calls[1..], budget - 1, id);
      }
    }
  }

  // ---- The run behind a failed one ---------------------------------------------------

  // The first planned asset of a partial state is the first one not yet renamed.
  lemma {:induction false} FirstPlanned(all: seq<Asset>, r: set<nat>, x: set<nat>, v: string, k: nat)
    requires k < |all| && Planned(all[k], v) && all[k].id !in r && all[k].id !in x
    requires forall m | 0 <= m < k && Planned(all[m], v) :: all[m].id in r
    ensures var plan := Plan(Partial(all, r, x, v), v); plan != [] && plan[0] == all[k]
  {
    hide Target;
    var rest := Partial(all[1..], r, x, v);
    if k > 0 {
      assert forall m | 0 <= m < k - 1 :: all[1..][m] == all[m + 1];
      FirstPlanned(all[1..], r, x, v, k - 1);
      assert [] + rest == rest;
      if all[0].id !in x {
        NowTarget(all[0], r, v);
        assert ([Now(all[0], r, v)] + rest)[1..] == rest;
        assert [] + Plan(rest, v) == Plan(rest, v);
      }
    }
  }

  // A run deletes at once whoever holds its first target.
  lemma HolderDeleted(now: seq<Asset>, v: string, a: Asset, holder: Asset, budget: nat)
    requires Valid(now) && Plan(now, v) != [] && Plan(now, v)[0] == a && Planned(a, v)
    requires holder in now && holder.id != a.id && Target(a, v) == Some(holder.name) && budget > 0
    ensures !HasId(RunOnce(now, v, budget).0, holder.id)
  {
    hide Target, Plan, Exec, Apply;
    var name, later := holder.name, Calls(now, Plan(now, v)[1..], v);
    var j := NamedIs(now, name);
    var l :| 0 <= l < |now| && now[l] == holder;
    assert Named(now, name) == Some(holder);
    CallsSplit(now, a, v, later);
    ExecCons(now, Delete(holder.id), [Patch(a.id, name)] + later, budget);
    DeleteRemoves(now, holder);
    ExecAddsNothing(Without(now, holder.id), [Patch(a.id, name)] + later, budget - 1, holder.id);
  }

  lemma DeleteRemoves(now: seq<Asset>, holder: Asset)
    requires holder in now
    ensures Apply(now, Delete(holder.id)) == Some(Without(now, holder.id))
    ensures !HasId(Without(now, holder.id), holder.id)
  {
    WithIdIs(now, holder.id);
    WithoutHas(now, holder.id, holder.id);
  }

  // Behind a failed run, every further run that makes a request deletes an
  // asset that was due for renaming and had been renamed: the first of two
  // that share a target.
  lemma FailedRunEndangers(all: seq<Asset>, v: string, budget: nat) returns (i: nat, k: nat)
    requires Valid(all) && RunOnce(all, v, budget).1 == Failed
    ensures i < k < |all| && Planned(all[i], v) && Target(all[i], v) == Target(all[k], v)
    ensures var now := RunOnce(all, v, budget).0;
            && HasId(now, all[i].id)
            && forall last: nat | last > 0 :: !HasId(RunOnce(now, v, last).0, all[i].id)
  {
    hide Target, Partial, RunOnce, Now, Plan, PlannedIds, StaleIds;
    var r, x := RunReaches(all, v, budget);
    var now := RunOnce(all, v, budget).0;
    i, k :| 0 <= i < k < |all| && CollidesAt(all, r, v, i, k);
    SoundIsValid(all, r, x, v);
    StillThere(all, r, x, v, i);
    StillThere(all, r, x, v, k);
    NotDone(all, v, k);
    FirstPlanned(all, r, x, v, k);
    PartialHas(all, r, x, v, i);
    NowId(all[i], r, v);
    var holder := Now(all[i], r, v);
    var l :| 0 <= l < |now| && now[l] == holder;
    assert now[l].id == all[i].id;
    forall last: nat | last > 0 ensures !HasId(RunOnce(now, v, last).0, all[i].id) {
      HolderDeleted(now, v, all[k], holder, last);
    }
  }

  lemma NotDone(all: seq<Asset>, v: string, k: nat)
    requires Valid(all) && k < |all|
    ensures all[k].id !in DoneIds(all, k, v)
    ensures forall m | 0 <= m < k && Planned(all[m], v) :: all[m].id in DoneIds(all, k, v)
  {
    hide Planned;
  }

  // ---- The exact condition ----------------------------------------------------------------

  lemma SettledKeepsPlanned(all: seq<Asset>, now: seq<Asset>, v: string)
    requires Valid(all) && Settled(now, v) == Settled(all, v)
    ensures KeepsPlanned(all, now, v)
  {
    hide Target, Partial, Now, PlannedIds, StaleIds, Planned;
    forall i | 0 <= i < |all| && Planned(all[i], v) ensures HasId(now, all[i].id) {
      InPlanned(all, v, i);
      assert !Stale(all, all[i], v);
      PartialHas(all, PlannedIds(all, v), StaleIds(all, v), v, i);
      var b := Now(all[i], PlannedIds(all, v), v);
      NowId(all[i], PlannedIds(all, v), v);
      var j := PartialFrom(now, PlannedIds(now, v), StaleIds(now, v), v, b);
      NowId(now[j], PlannedIds(now, v), v);
    }
  }

  // However the phase is stopped and rerun, no asset that was due for renaming
  // is lost, if and only if the planned assets have distinct targets.
  lemma RestartSafeIff(all: seq<Asset>, v: string)
    requires Valid(all)
    ensures DistinctTargets(all, v) <==> forall budgets: seq<nat> :: KeepsPlanned(all, RunMany(all, v, budgets), v)
  {
    hide Planned, Target, Settled, DistinctTargets, RunOnce, HasId, RunMany;
    if DistinctTargets(all, v) {
      forall budgets: seq<nat> ensures KeepsPlanned(all, RunMany(all, v, budgets), v) {
        RunManyKeeps(all, v, budgets);
        SettledKeepsPlanned(all, RunMany(all, v, budgets), v);
      }
    } else {
      var n := Enough(all, v);
      CompletesIffDistinct(all, v, n);
      var i, _ := FailedRunEndangers(all, v, n);
      TwoRuns(all, v, n, 1);
      assert !KeepsPlanned(all, RunMany(all, v, [n, 1]), v);
    }
  }

  lemma TwoRuns(all: seq<Asset>, v: string, a: nat, b: nat)
    ensures RunMany(all, v, [a, b]) == RunOnce(RunOnce(all, v, a).0, v, b).0
  {
    hide RunOnce;
    var mid := RunOnce(all, v, a).0;
    assert [a, b][1..] == [b] && [b][1..] == [];
    assert RunMany(mid, v, [b]) == RunMany(RunOnce(mid, v, b).0, v, []);
  }

  // ---- At an input -----------------------------------------------------------------------------

  function Dmg(bundled: string): string {
    APP + (bundled + "_x64.dmg")
  }

  predicate IsBundled(bundled: string) {
    bundled != "" && AllIn(bundled, DigitsDots)
  }

  lemma DmgFits(bundled: string)
    requires IsBundled(bundled)
    ensures Fits([Lit(APP), VERSION, Lit("_x64.dmg")], Dmg(bundled))
  {
    var p, tail := [Lit(APP), VERSION, Lit("_x64.dmg")], "_x64.dmg";
    var s, t := Dmg(bundled), bundled + tail;
    assert s[|APP|..] == t && t[..|bundled|] == bundled && t[|bundled|..] == tail;
    assert p[1..] == [VERSION, Lit(tail)] && p[1..][1..] == [Lit(tail)] && [Lit(tail)][1..] == [];
    assert tail[|tail|..] == "";
    hide APP;
    assert Fits([Lit(tail)], tail);
    assert Fits(p[1..], t);
  }

  lemma DmgTarget(bundled: string, v: string, a: Asset)
    requires IsBundled(bundled) && a.name == Dmg(bundled)
    ensures Target(a, v) == Some(NameFor(Table()[1], v))
  {
    DmgFits(bundled);
    hide Fits, Table, NameFor, APP;
    FirstMatchIs(Table(), a.name, v);
    var i :| 0 <= i < |Table()| && Fits(Table()[i].pattern, a.name)
        && GetNewName(a.name, v) == Some(NameFor(Table()[i], v));
    AtMostOneRow(i, 1, a.name);
    ProducedNameIsFinal(Table()[1], v, v);
  }

  // Two bundles of one architecture, of any two versions: the first run fails
  // at its second request, and the first request of the next run deletes the
  // first bundle.
  lemma TwoBundles(one: Asset, two: Asset, a: string, b: string, v: string)
    requires IsBundled(a) && IsBundled(b) && one.name == Dmg(a) && two.name == Dmg(b)
    requires a != b && one.id != two.id
    ensures Valid([one, two]) && Planned(one, v) && !HasId(RunMany([one, two], v, [2, 1]), one.id)
  {
    var all := [one, two];
    if Dmg(a) == Dmg(b) {
      DmgsDiffer(a, b);
    }
    DmgTarget(a, v, one);
    DmgTarget(b, v, two);
    TwoRequests(one, two, v);
    hide Target, NameFor, Table, Dmg, Named, Plan, Calls, Enough, RunOnce, RunMany;
    assert !DistinctTargets(all, v) by { assert all[0] == one && all[1] == two; }
    CompletesIffDistinct(all, v, 2);
    var i, k := FailedRunEndangers(all, v, 2);
    TwoRuns(all, v, 2, 1);
  }

  // Two planned assets whose targets nobody holds take one request each.
  lemma TwoRequests(one: Asset, two: Asset, v: string)
    requires Planned(one, v) && Planned(two, v)
    ensures Enough([one, two], v) == 2
  {
    var all := [one, two];
    NoHolder(all, v);
    assert Named(all, Target(all[0], v).value) == None && Named(all, Target(all[1], v).value) == None;
    hide Target, Named;
    assert all[1..] == [two] && [two][1..] == [];
    assert Plan([two], v) == [two] + Plan([], v);
    assert Plan(all, v) == [one] + Plan([two], v);
    assert Plan([], v) == [] && [two] + [] == [two] && [one] + [two] == all;
    assert Plan(all, v) == all;
    assert Calls(all, [two], v) == [Patch(two.id, Target(two, v).value)] + Calls(all, [], v);
    assert Calls(all, all, v) == [Patch(one.id, Target(one, v).value)] + Calls(all, [two], v);
  }

  lemma DmgsDiffer(a: string, b: string)
    requires Dmg(a) == Dmg(b)
    ensures a == b
  {
    var s, n := Dmg(a), |APP|;
    assert s[n..] == a + "_x64.dmg" == b + "_x64.dmg";
    assert |a| == |b|;
    assert s[n..][..|a|] == a == b;
  }

  lemma NoHolder(all: seq<Asset>, v: string)
    requires forall i | 0 <= i < |all| :: Planned(all[i], v)
    ensures forall i | 0 <= i < |all| :: Target(all[i], v).Some? && Named(all, Target(all[i], v).value) == None
  {
    hide Target;
    forall i | 0 <= i < |all| ensures Target(all[i], v).Some? && Named(all, Target(all[i], v).value) == None {
      assert Planned(all[i], v);
      var j := NamedIs(all, Target(all[i], v).value);
      if Named(all, Target(all[i], v).value).Some? {
        HolderIsStale(all, v, i, j);
      }
    }
  }
}
