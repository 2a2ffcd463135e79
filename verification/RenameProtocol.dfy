// The renaming phase of main in scripts/rename-release-assets.js against a
// remote release: planned from one snapshot, carried out by DELETE and PATCH
// requests, and free to stop between any two of them.

module RenameProtocol {
  import opened Prelude
  import opened AssetNames

  datatype Asset = Asset(id: nat, name: string, bytes: string)
  datatype Call = Delete(id: nat) | Patch(id: nat, name: string)
  datatype Outcome = Finished | Failed | Stopped

  // What the service guarantees of a release.
  predicate Valid(assets: seq<Asset>) {
    forall i, j | 0 <= i < j < |assets| :: assets[i].id != assets[j].id && assets[i].name != assets[j].name
  }

  // ---- The service ----------------------------------------------------------

  function WithId(assets: seq<Asset>, id: nat): Option<Asset> {
    if assets == [] then None
    else if assets[0].id == id then Some(assets[0])
    else WithId(assets[1..], id)
  }

  predicate NameTaken(assets: seq<Asset>, id: nat, name: string) {
    exists i | 0 <= i < |assets| :: assets[i].id != id && assets[i].name == name
  }

  function Without(assets: seq<Asset>, id: nat): seq<Asset> {
    if assets == [] then []
    else (if assets[0].id == id then [] else [assets[0]]) + Without(assets[1..], id)
  }

  function WithName(assets: seq<Asset>, id: nat, name: string): seq<Asset> {
    if assets == [] then []
    else [if assets[0].id == id then assets[0].(name := name) else assets[0]] + WithName(assets[1..], id, name)
  }

  // A request's effect; None for one the service refuses (no such asset, or a
  // name another asset has).
  function Apply(assets: seq<Asset>, call: Call): Option<seq<Asset>> {
    if WithId(assets, call.id).None? then None
    else match call
      case Delete(id) => Some(Without(assets, id))
      case Patch(id, name) => if NameTaken(assets, id, name) then None else Some(WithName(assets, id, name))
  }

  // ---- The plan ----------------------------------------------------------------

  function Target(a: Asset, v: string): Option<string> {
    var newName := GetNewName(a.name, v);
    if newName.Some? && newName.value != a.name then newName else None
  }

  function Plan(assets: seq<Asset>, v: string): seq<Asset> {
    if assets == [] then []
    else (if Target(assets[0], v).Some? then [assets[0]] else []) + Plan(assets[1..], v)
  }

  // A map filled from the list keeps the last asset of a name.
  function Named(assets: seq<Asset>, name: string): Option<Asset> {
    if assets == [] then None
    else
      var last := assets[|assets| - 1];
      if last.name == name then Some(last) else Named(assets[..|assets| - 1], name)
  }

  function CallsFor(snapshot: seq<Asset>, a: Asset, v: string): seq<Call> {
    if Target(a, v).None? then []
    else
      var newName := Target(a, v).value;
      var conflicting := Named(snapshot, newName);
      (if conflicting.Some? && conflicting.value.id != a.id then [Delete(conflicting.value.id)] else [])
      + [Patch(a.id, newName)]
  }

  function Calls(snapshot: seq<Asset>, plan: seq<Asset>, v: string): seq<Call> {
    if plan == [] then [] else CallsFor(snapshot, plan[0], v) + Calls(snapshot, plan[1..], v)
  }

  // At most `budget` requests are made before the run is stopped.
  function Exec(assets: seq<Asset>, calls: seq<Call>, budget: nat): (seq<Asset>, Outcome)
    decreases budget
  {
    if calls == [] then (assets, Finished)
    else if budget == 0 then (assets, Stopped)
    else
      var next := Apply(assets, calls[0]);
      if next.None? then (assets, Failed) else Exec(next.value, calls[1..], budget - 1)
  }

  lemma ExecCons(assets: seq<Asset>, call: Call, rest: seq<Call>, budget: nat)
    ensures Exec(assets, [call] + rest, budget)
         == if budget == 0 then (assets, Stopped)
            else match Apply(assets, call)
                 case None => (assets, Failed)
                 case Some(after) => Exec(after, rest, budget - 1)
  {
  }

  function RunOnce(assets: seq<Asset>, v: string, budget: nat): (seq<Asset>, Outcome) {
    Exec(assets, Calls(assets, Plan(assets, v), v), budget)
  }

  // ---- The loop -------------------------------------------------------------------

  // The remote release; `requests` counts the requests it still answers.
  class RemoteRelease {
    var assets: seq<Asset>
    var requests: nat

    constructor (assets: seq<Asset>, requests: nat)
      ensures this.assets == assets && this.requests == requests
    {
      this.assets := assets;
      this.requests := requests;
    }

    method Request(call: Call) returns (outcome: Outcome)
      modifies this
      ensures old(requests) == 0 ==> outcome == Stopped && assets == old(assets) && requests == 0
      ensures old(requests) > 0 ==>
                && requests == old(requests) - 1
                && match Apply(old(assets), call)
                   case None => outcome == Failed && assets == old(assets)
                   case Some(after) => outcome == Finished && assets == after
    {
      if requests == 0 {
        return Stopped;
      }
      requests := requests - 1;
      var next := Apply(assets, call);
      if next.None? {
        return Failed;
      }
      assets := next.value;
      outcome := Finished;
    }

    method RenameAssets(v: string) returns (outcome: Outcome)
      modifies this
      ensures (assets, outcome) == RunOnce(old(assets), v, old(requests))
    {
      hide GetNewName, Apply, Plan, Named, Exec, Target;
      var snapshot := assets;
      var renames := BuildPlan(snapshot, v);
      var i := 0;
      while i < |renames|
        invariant i <= |renames|
        invariant Exec(assets, Calls(snapshot, renames[i..], v), requests) == RunOnce(old(assets), v, old(requests))
      {
        var asset := renames[i];
        PlanIsPlanned(snapshot, v, i);
        var newName := Target(asset, v).value;
        assert renames[i..][0] == asset && renames[i..][1..] == renames[i + 1..];
        ghost var later, patch := Calls(snapshot, renames[i + 1..], v), Patch(asset.id, newName);
        var conflicting := Named(snapshot, newName);
        if conflicting.Some? && conflicting.value.id != asset.id {
          ghost var delete := Delete(conflicting.value.id);
          assert Calls(snapshot, renames[i..], v) == [delete] + ([patch] + later);
          ExecCons(assets, delete, [patch] + later, requests);
          outcome := Request(Delete(conflicting.value.id));
          if outcome != Finished {
            return;
          }
        } else {
          assert Calls(snapshot, renames[i..], v) == [patch] + later;
        }
        ExecCons(assets, patch, later, requests);
        outcome := Request(Patch(asset.id, newName));
        if outcome != Finished {
          return;
        }
        i := i + 1;
      }
      assert renames[i..] == [];
      NothingLeft(assets, requests);
      outcome := Finished;
    }
  }

  lemma NothingLeft(assets: seq<Asset>, budget: nat)
    ensures Exec(assets, [], budget) == (assets, Finished)
  {
  }

  method BuildPlan(assets: seq<Asset>, v: string) returns (renames: seq<Asset>)
    ensures renames == Plan(assets, v)
  {
    hide GetNewName;
    renames := [];
    for i := 0 to |assets|
      invariant renames + Plan(assets[i..], v) == Plan(assets, v)
    {
      assert assets[i..][1..] == assets[i + 1..];
      ghost var before := renames;
      if Target(assets[i], v).Some? {
        renames := renames + [assets[i]];
      }
      assert renames + Plan(assets[i + 1..], v) == before + Plan(assets[i..], v);
    }
  }

  lemma {:induction false} PlanIsPlanned(assets: seq<Asset>, v: string, i: nat)
    requires i < |Plan(assets, v)|
    ensures Target(Plan(assets, v)[i], v).Some?
  {
    if Target(assets[0], v).None? {
      PlanIsPlanned(assets[1..], v, i);
    } else if i > 0 {
      PlanIsPlanned(assets[1..], v, i - 1);
    }
  }
}
