// Safety and restart convergence of the renaming phase, for every release the
// service can hold and every way of stopping the runs.

module RenameSafety {
  import opened Prelude
  import opened AssetNames
  import opened RenameProtocol

  // ---- States a run can reach -------------------------------------------------

  predicate Planned(a: Asset, v: string) {
    Target(a, v).Some?
  }

  predicate IsTarget(all: seq<Asset>, name: string, v: string) {
    exists i | 0 <= i < |all| :: Target(all[i], v) == Some(name)
  }

  // An asset left behind under a name that a planned asset is to have.
  predicate Stale(all: seq<Asset>, a: Asset, v: string) {
    !Planned(a, v) && IsTarget(all, a.name, v)
  }

  function PlannedIds(all: seq<Asset>, v: string): set<nat> {
    set i | 0 <= i < |all| && Planned(all[i], v) :: all[i].id
  }

  function StaleIds(all: seq<Asset>, v: string): set<nat> {
    set i | 0 <= i < |all| && Stale(all, all[i], v) :: all[i].id
  }

  function Now(a: Asset, renamed: set<nat>, v: string): Asset {
    if a.id in renamed && Planned(a, v) then a.(name := Target(a, v).value) else a
  }

  // The release with some planned assets renamed and some assets gone.
  function Partial(all: seq<Asset>, renamed: set<nat>, gone: set<nat>, v: string): seq<Asset> {
    if all == [] then []
    else (if all[0].id in gone then [] else [Now(all[0], renamed, v)]) + Partial(all[1..], renamed, gone, v)
  }

  // What the phase is for: every planned asset renamed, every stale one gone.
  function Settled(all: seq<Asset>, v: string): seq<Asset> {
    Partial(all, PlannedIds(all, v), StaleIds(all, v), v)
  }

  predicate DistinctTargets(all: seq<Asset>, v: string) {
    forall i, j | 0 <= i < j < |all| :: Planned(all[i], v) ==> Target(all[i], v) != Target(all[j], v)
  }

  // ---- Partial states under requests ---------------------------------------------

  lemma {:induction false} PartialHas(all: seq<Asset>, r: set<nat>, x: set<nat>, v: string, i: nat)
    requires i < |all| && all[i].id !in x
    ensures Now(all[i], r, v) in Partial(all, r, x, v)
  {
    hide Target;
    if i > 0 {
      PartialHas(all[1..], r, x, v, i - 1);
    }
  }

  lemma {:induction false} PartialFrom(all: seq<Asset>, r: set<nat>, x: set<nat>, v: string, b: Asset) returns (i: nat)
    requires b in Partial(all, r, x, v)
    ensures i < |all| && all[i].id !in x && b == Now(all[i], r, v)
  {
    hide Target;
    if all[0].id !in x && b == Now(all[0], r, v) {
      i := 0;
    } else {
      i := PartialFrom(all[1..], r, x, v, b);
      i := i + 1;
    }
  }

  lemma {:induction false} WithIdIs(all: seq<Asset>, id: nat)
    ensures WithId(all, id).Some? <==> exists i | 0 <= i < |all| :: all[i].id == id
  {
    if all != [] && all[0].id != id {
      WithIdIs(all[1..], id);
      if i :| 0 <= i < |all| && all[i].id == id {
        assert all[1..][i - 1] == all[i];
      }
      if i :| 0 <= i < |all[1..]| && all[1..][i].id == id {
        assert all[i + 1] == all[1..][i];
      }
    }
  }

  lemma PartialHasId(all: seq<Asset>, r: set<nat>, x: set<nat>, v: string, id: nat)
    ensures WithId(Partial(all, r, x, v), id).Some? <==> exists i | 0 <= i < |all| :: all[i].id == id && id !in x
  {
    hide Target, Planned, Partial, WithId;
    var s := Partial(all, r, x, v);
    WithIdIs(s, id);
    if i :| 0 <= i < |all| && all[i].id == id && id !in x {
      PartialHas(all, r, x, v, i);
      var k :| 0 <= k < |s| && s[k] == Now(all[i], r, v);
      assert s[k].id == id;
    }
    if k :| 0 <= k < |s| && s[k].id == id {
      var i := PartialFrom(all, r, x, v, s[k]);
      assert all[i].id == id;
    }
  }

  lemma {:induction false} DeleteGoesOn(all: seq<Asset>, r: set<nat>, x: set<nat>, v: string, id: nat)
    ensures Without(Partial(all, r, x, v), id) == Partial(all, r, x + {id}, v)
  {
    hide Target, Planned;
    if all != [] {
      DeleteGoesOn(all[1..], r, x, v, id);
      var s := Partial(all[1..], r, x, v);
      assert [] + s == s;
      if all[0].id !in x {
        var b := Now(all[0], r, v);
        assert ([b] + s)[1..] == s;
      }
    }
  }

  lemma {:induction false} PatchGoesOn(all: seq<Asset>, r: set<nat>, x: set<nat>, v: string, a: Asset)
    requires Planned(a, v) && a.id !in r
    requires forall i | 0 <= i < |all| :: all[i].id == a.id ==> all[i] == a
    ensures WithName(Partial(all, r, x, v), a.id, Target(a, v).value) == Partial(all, r + {a.id}, x, v)
  {
    hide Target;
    if all != [] {
      assert forall i | 0 <= i < |all[1..]| :: all[1..][i] == all[i + 1];
      PatchGoesOn(all[1..], r, x, v, a);
      var s := Partial(all[1..], r, x, v);
      assert [] + s == s;
      if all[0].id !in x {
        var b := Now(all[0], r, v);
        assert ([b] + s)[1..] == s;
      }
    }
  }

  lemma {:induction false} PartialTwice(all: seq<Asset>, r: set<nat>, x: set<nat>, r': set<nat>, x': set<nat>,
      v: string)
    requires r !! r'
    ensures Partial(Partial(all, r, x, v), r', x', v) == Partial(all, r + r', x + x', v)
  {
    hide Target;
    if all != [] {
      PartialTwice(all[1..], r, x, r', x', v);
      var s := Partial(all[1..], r, x, v);
      assert [] + s == s;
      if all[0].id !in x {
        var b := Now(all[0], r, v);
        assert ([b] + s)[1..] == s;
        assert all[0].id in r ==> b.id !in r';
      }
    }
  }

  // ---- What every reachable state keeps --------------------------------------------

  // Only planned assets are renamed, only stale ones are gone, no two renamed
  // assets share a name, and who held a name now given out is gone.
  predicate Sound(all: seq<Asset>, r: set<nat>, x: set<nat>, v: string) {
    && r <= PlannedIds(all, v)
    && x <= StaleIds(all, v)
    && (forall i, j | 0 <= i < |all| && 0 <= j < |all| && all[i].id in r && all[j].id in r ::
          Target(all[i], v) == Target(all[j], v) ==> all[i].id == all[j].id)
    && (forall i, j | 0 <= i < |all| && 0 <= j < |all| && all[i].id in r ::
          Target(all[i], v) == Some(all[j].name) ==> all[j].id in x)
  }

  lemma InPlanned(all: seq<Asset>, v: string, i: nat)
    requires Valid(all) && i < |all|
    ensures all[i].id in PlannedIds(all, v) <==> Planned(all[i], v)
    ensures all[i].id in StaleIds(all, v) <==> Stale(all, all[i], v)
  {
  }

  // A renamed asset is not planned again.
  lemma NowTarget(a: Asset, r: set<nat>, v: string)
    ensures Target(Now(a, r, v), v) == if a.id in r && Planned(a, v) then None else Target(a, v)
  {
    hide GetNewName;
    if a.id in r && Planned(a, v) {
      RenamedIsFinal(a.name, v, v);
    }
  }

  lemma {:induction false} PartialAt(all: seq<Asset>, r: set<nat>, x: set<nat>, v: string, k: nat) returns (i: nat)
    requires k < |Partial(all, r, x, v)|
    ensures i < |all| && all[i].id !in x && Partial(all, r, x, v)[k] == Now(all[i], r, v)
    ensures k <= i
  {
    hide Target, Planned;
    if all[0].id in x {
      i := PartialAt(all[1..], r, x, v, k);
      i := i + 1;
    } else if k == 0 {
      i := 0;
    } else {
      i := PartialAt(all[1..], r, x, v, k - 1);
      i := i + 1;
    }
  }

  // Two places of a partial state come from two places of the release.
  lemma {:induction false} PartialAtTwo(all: seq<Asset>, r: set<nat>, x: set<nat>, v: string, k: nat, l: nat)
    returns (i: nat, j: nat)
    requires k < l < |Partial(all, r, x, v)|
    ensures i < j < |all| && all[i].id !in x && all[j].id !in x
    ensures Partial(all, r, x, v)[k] == Now(all[i], r, v) && Partial(all, r, x, v)[l] == Now(all[j], r, v)
  {
    hide Target, Planned;
    if all[0].id in x {
      i, j := PartialAtTwo(all[1..], r, x, v, k, l);
      i, j := i + 1, j + 1;
    } else if k == 0 {
      i := 0;
      j := PartialAt(all[1..], r, x, v, l - 1);
      j := j + 1;
    } else {
      i, j := PartialAtTwo(all[1..], r, x, v, k - 1, l - 1);
      i, j := i + 1, j + 1;
    }
  }

  // Names and ids stay unique.
  lemma SoundIsValid(all: seq<Asset>, r: set<nat>, x: set<nat>, v: string)
    requires Valid(all) && Sound(all, r, x, v)
    ensures Valid(Partial(all, r, x, v))
  {
    hide Target, Partial, PlannedIds, StaleIds;
    var s := Partial(all, r, x, v);
    forall k, l | 0 <= k < l < |s| ensures s[k].id != s[l].id && s[k].name != s[l].name {
      var i, j := PartialAtTwo(all, r, x, v, k, l);
      assert all[i].id != all[j].id;
    }
  }

  lemma TargetsLeft(all: seq<Asset>, r: set<nat>, x: set<nat>, v: string, name: string)
    requires Valid(all) && Sound(all, r, x, v)
    ensures IsTarget(Partial(all, r, x, v), name, v)
        <==> exists i | 0 <= i < |all| :: all[i].id !in r && Target(all[i], v) == Some(name)
  {
    hide Target, Partial, PlannedIds, StaleIds, Now;
    var s := Partial(all, r, x, v);
    if k :| 0 <= k < |s| && Target(s[k], v) == Some(name) {
      var i := PartialAt(all, r, x, v, k);
      NowTarget(all[i], r, v);
      assert Target(all[i], v) == Some(name);
    }
    if i :| 0 <= i < |all| && all[i].id !in r && Target(all[i], v) == Some(name) {
      InPlanned(all, v, i);
      NowTarget(all[i], r, v);
      PartialHas(all, r, x, v, i);
      var k :| 0 <= k < |s| && s[k] == Now(all[i], r, v);
    }
  }

  lemma PlannedLeft(all: seq<Asset>, r: set<nat>, x: set<nat>, v: string)
    requires Valid(all) && Sound(all, r, x, v)
    ensures PlannedIds(Partial(all, r, x, v), v) == PlannedIds(all, v) - r
  {
    hide Target, Partial, Now;
    var s := Partial(all, r, x, v);
    forall id | id in PlannedIds(s, v) ensures id in PlannedIds(all, v) - r {
      var k :| 0 <= k < |s| && Planned(s[k], v) && s[k].id == id;
      var i := PartialAt(all, r, x, v, k);
      NowTarget(all[i], r, v);
      NowId(all[i], r, v);
    }
    forall id | id in PlannedIds(all, v) - r ensures id in PlannedIds(s, v) {
      var i :| 0 <= i < |all| && Planned(all[i], v) && all[i].id == id;
      InPlanned(all, v, i);
      PartialHas(all, r, x, v, i);
      NowTarget(all[i], r, v);
      NowId(all[i], r, v);
      var k :| 0 <= k < |s| && s[k] == Now(all[i], r, v);
    }
  }

  lemma NowId(a: Asset, r: set<nat>, v: string)
    ensures Now(a, r, v).id == a.id && Now(a, r, v).bytes == a.bytes
    ensures a.id !in r || !Planned(a, v) ==> Now(a, r, v) == a
    ensures a.id in r && Planned(a, v) ==> Now(a, r, v).name == Target(a, v).value
  {
  }

  // With distinct targets, what is stale in a reachable state is what was
  // stale and is not gone.
  lemma StaleLeft(all: seq<Asset>, r: set<nat>, x: set<nat>, v: string)
    requires Valid(all) && Sound(all, r, x, v) && DistinctTargets(all, v)
    ensures StaleIds(Partial(all, r, x, v), v) == StaleIds(all, v) - x
  {
    hide Target, Partial, Now, PlannedIds, IsTarget;
    var s := Partial(all, r, x, v);
    forall id | id in StaleIds(s, v) ensures id in StaleIds(all, v) - x {
      var k :| 0 <= k < |s| && Stale(s, s[k], v) && s[k].id == id;
      var i := PartialAt(all, r, x, v, k);
      StaleNow(all, r, x, v, i);
      InPlanned(all, v, i);
      NowId(all[i], r, v);
    }
    forall id | id in StaleIds(all, v) - x ensures id in StaleIds(s, v) {
      var i :| 0 <= i < |all| && Stale(all, all[i], v) && all[i].id == id;
      PartialHas(all, r, x, v, i);
      StaleNow(all, r, x, v, i);
      NowId(all[i], r, v);
      var k :| 0 <= k < |s| && s[k] == Now(all[i], r, v);
    }
  }

  lemma StaleNow(all: seq<Asset>, r: set<nat>, x: set<nat>, v: string, i: nat)
    requires Valid(all) && Sound(all, r, x, v) && DistinctTargets(all, v) && i < |all| && all[i].id !in x
    ensures Stale(Partial(all, r, x, v), Now(all[i], r, v), v) <==> Stale(all, all[i], v)
  {
    hide Target, Partial, Now, PlannedIds, StaleIds;
    var b := Now(all[i], r, v);
    NowTarget(all[i], r, v);
    NowId(all[i], r, v);
    InPlanned(all, v, i);
    TargetsLeft(all, r, x, v, b.name);
    if all[i].id in r {
      assert Planned(all[i], v);
    } else if !Planned(all[i], v) && IsTarget(all, all[i].name, v) {
      var j :| 0 <= j < |all| && Target(all[j], v) == Some(all[i].name);
      assert all[j].id !in r;
    }
  }

  // Every reachable state is to be settled the same way.
  lemma SettledAgain(all: seq<Asset>, r: set<nat>, x: set<nat>, v: string)
    requires Valid(all) && Sound(all, r, x, v) && DistinctTargets(all, v)
    ensures Settled(Partial(all, r, x, v), v) == Settled(all, v)
  {
    hide Target, Partial, PlannedIds, StaleIds;
    PlannedLeft(all, r, x, v);
    StaleLeft(all, r, x, v);
    var p, s := PlannedIds(all, v), StaleIds(all, v);
    PartialTwice(all, r, x, p - r, s - x, v);
    assert r + (p - r) == p && x + (s - x) == s;
  }

  lemma DistinctLeft(all: seq<Asset>, r: set<nat>, x: set<nat>, v: string)
    requires DistinctTargets(all, v)
    ensures DistinctTargets(Partial(all, r, x, v), v)
  {
    hide Target, Partial, Now;
    var s := Partial(all, r, x, v);
    forall k, l | 0 <= k < l < |s| && Planned(s[k], v) ensures Target(s[k], v) != Target(s[l], v) {
      var i, j := PartialAtTwo(all, r, x, v, k, l);
      NowTarget(all[i], r, v);
      NowTarget(all[j], r, v);
      assert Planned(all[i], v) ==> Target(all[i], v) != Target(all[j], v);
    }
  }

  // ---- One run ---------------------------------------------------------------------

  // The planned assets in front of place k, and those whose name one of them gets.
  function DoneIds(all: seq<Asset>, k: nat, v: string): set<nat>
    requires k <= |all|
  {
    set i | 0 <= i < k && Planned(all[i], v) :: all[i].id
  }

  function GoneIds(all: seq<Asset>, k: nat, v: string): set<nat>
    requires k <= |all|
  {
    set i, j | 0 <= i < k && 0 <= j < |all| && Target(all[i], v) == Some(all[j].name) :: all[j].id
  }

  // No two planned assets in front of place k share a target.
  predicate DistinctUpTo(all: seq<Asset>, k: nat, v: string)
    requires k <= |all|
  {
    forall i, j | 0 <= i < j < k :: Planned(all[i], v) ==> Target(all[i], v) != Target(all[j], v)
  }

  // A target is nobody's planned name, so its holder is stale.
  lemma HolderIsStale(all: seq<Asset>, v: string, i: nat, j: nat)
    requires i < |all| && j < |all| && Target(all[i], v) == Some(all[j].name)
    ensures Stale(all, all[j], v) && i != j
  {
    hide GetNewName;
    RenamedIsFinal(all[i].name, v, v);
  }

  lemma DoneIsSound(all: seq<Asset>, k: nat, v: string, more: set<nat>)
    requires Valid(all) && k <= |all| && DistinctUpTo(all, k, v) && more <= StaleIds(all, v)
    ensures Sound(all, DoneIds(all, k, v), GoneIds(all, k, v) + more, v)
  {
    hide Target;
    var r, x := DoneIds(all, k, v), GoneIds(all, k, v);
    forall id | id in x ensures id in StaleIds(all, v) {
      var i, j :| 0 <= i < k && 0 <= j < |all| && Target(all[i], v) == Some(all[j].name) && all[j].id == id;
      HolderIsStale(all, v, i, j);
    }
    forall i | 0 <= i < |all| && all[i].id in r ensures i < k && Planned(all[i], v) {
      var l :| 0 <= l < k && Planned(all[l], v) && all[l].id == all[i].id;
    }
  }

  lemma {:induction false} NamedIs(all: seq<Asset>, name: string) returns (j: nat)
    ensures Named(all, name).Some? ==> j < |all| && Named(all, name) == Some(all[j]) && all[j].name == name
    ensures Named(all, name).None? ==> forall i | 0 <= i < |all| :: all[i].name != name
  {
    j := 0;
    if all != [] {
      var front := all[..|all| - 1];
      if all[|all| - 1].name == name {
        j := |all| - 1;
      } else {
        j := NamedIs(front, name);
        assert forall i | 0 <= i < |front| :: all[i] == front[i];
      }
    }
  }

  // A planned asset is still there, under its old name.
  lemma StillThere(all: seq<Asset>, r: set<nat>, x: set<nat>, v: string, k: nat)
    requires Valid(all) && k < |all| && Planned(all[k], v) && x <= StaleIds(all, v)
    ensures WithId(Partial(all, r, x, v), all[k].id).Some?
    ensures all[k].id !in x
  {
    hide Target, Partial, WithId;
    InPlanned(all, v, k);
    PartialHasId(all, r, x, v, all[k].id);
  }

  // A request for a target that no one in front of place k had goes through.
  lemma PatchApplies(all: seq<Asset>, k: nat, v: string, x: set<nat>)
    requires Valid(all) && k < |all| && Planned(all[k], v) && x <= StaleIds(all, v)
    requires forall i | 0 <= i < k :: Target(all[i], v) != Target(all[k], v)
    requires forall j | 0 <= j < |all| && Target(all[k], v) == Some(all[j].name) :: all[j].id in x
    ensures Apply(Partial(all, DoneIds(all, k, v), x, v), Patch(all[k].id, Target(all[k], v).value))
         == Some(Partial(all, DoneIds(all, k, v) + {all[k].id}, x, v))
  {
    hide Target, Partial, WithId, StaleIds, Now;
    var a, r := all[k], DoneIds(all, k, v);
    var s, name := Partial(all, r, x, v), Target(a, v).value;
    StillThere(all, r, x, v, k);
    assert a.id !in r;
    forall l | 0 <= l < |s| && s[l].id != a.id ensures s[l].name != name {
      var i := PartialAt(all, r, x, v, l);
      NowId(all[i], r, v);
      if all[i].id in r {
        var m :| 0 <= m < k && Planned(all[m], v) && all[m].id == all[i].id;
      }
    }
    assert !NameTaken(s, a.id, name);
    forall i | 0 <= i < |all| && all[i].id == a.id ensures all[i] == a {
    }
    PatchGoesOn(all, r, x, v, a);
  }

  lemma DeleteApplies(all: seq<Asset>, r: set<nat>, x: set<nat>, v: string, j: nat)
    requires Valid(all) && j < |all|
    ensures Apply(Partial(all, r, x, v), Delete(all[j].id))
         == if all[j].id in x then None else Some(Partial(all, r, x + {all[j].id}, v))
  {
    hide Target, Partial, WithId;
    PartialHasId(all, r, x, v, all[j].id);
    DeleteGoesOn(all, r, x, v, all[j].id);
  }

  // A second asset for a target that is given out already is refused.
  lemma SecondIsRefused(all: seq<Asset>, k: nat, v: string, i: nat, x: set<nat>)
    requires Valid(all) && i < k < |all| && Planned(all[k], v) && x <= StaleIds(all, v)
    requires Target(all[i], v) == Target(all[k], v)
    ensures Apply(Partial(all, DoneIds(all, k, v), x, v), Patch(all[k].id, Target(all[k], v).value)) == None
  {
    hide Target, Partial, WithId, Now, StaleIds;
    var r, name := DoneIds(all, k, v), Target(all[k], v).value;
    var s := Partial(all, r, x, v);
    StillThere(all, r, x, v, i);
    PartialHas(all, r, x, v, i);
    NowId(all[i], r, v);
    var l :| 0 <= l < |s| && s[l] == Now(all[i], r, v);
    assert all[i].id in r;
    assert s[l].name == name && s[l].id != all[k].id;
    assert NameTaken(s, all[k].id, name);
  }

  lemma NextIds(all: seq<Asset>, k: nat, v: string)
    requires k < |all|
    ensures DoneIds(all, k + 1, v) == DoneIds(all, k, v) + (if Planned(all[k], v) then {all[k].id} else {})
    ensures !Planned(all[k], v) ==> GoneIds(all, k + 1, v) == GoneIds(all, k, v)
  {
  }

  lemma NextGone(all: seq<Asset>, k: nat, v: string, gone: set<nat>)
    requires Valid(all) && k < |all|
    requires gone == set j | 0 <= j < |all| && Target(all[k], v) == Some(all[j].name) :: all[j].id
    ensures GoneIds(all, k + 1, v) == GoneIds(all, k, v) + gone
  {
  }

  lemma PlanStep(all: seq<Asset>, k: nat, v: string)
    requires k < |all|
    ensures Plan(all[k..], v) == (if Planned(all[k], v) then [all[k]] else []) + Plan(all[k + 1..], v)
    ensures Calls(all, Plan(all[k..], v), v) == CallsFor(all, all[k], v) + Calls(all, Plan(all[k + 1..], v), v)
  {
    hide Target;
    assert all[k..][1..] == all[k + 1..];
    var rest := Plan(all[k + 1..], v);
    if Planned(all[k], v) {
      assert ([all[k]] + rest)[1..] == rest;
    } else {
      assert [] + Calls(all, rest, v) == Calls(all, rest, v) && [] + rest == rest;
    }
  }

  // The assets in front of a planned one are done, and one of them got its target.
  predicate CollidesAt(all: seq<Asset>, r: set<nat>, v: string, i: nat, k: nat) {
    i < k < |all| && Planned(all[k], v) && Target(all[i], v) == Target(all[k], v) && r == DoneIds(all, k, v)
  }

  predicate Collision(all: seq<Asset>, r: set<nat>, v: string) {
    exists i, k | 0 <= i < k < |all| :: CollidesAt(all, r, v, i, k)
  }

  // What a run from place k on leaves, whatever budget it has.
  predicate RunsTo(all: seq<Asset>, v: string, end: (seq<Asset>, Outcome), r: set<nat>, x: set<nat>) {
    && end.0 == Partial(all, r, x, v)
    && Sound(all, r, x, v)
    && (end.1.Finished? ==> DistinctTargets(all, v) && r == PlannedIds(all, v) && x == StaleIds(all, v))
    && (end.1.Failed? ==> Collision(all, r, v))
  }

  function State(all: seq<Asset>, k: nat, v: string): seq<Asset>
    requires k <= |all|
  {
    Partial(all, DoneIds(all, k, v), GoneIds(all, k, v), v)
  }

  lemma {:induction false} RunFrom(all: seq<Asset>, k: nat, v: string, budget: nat) returns (r: set<nat>, x: set<nat>)
    requires Valid(all) && k <= |all| && DistinctUpTo(all, k, v)
    ensures RunsTo(all, v, Exec(State(all, k, v), Calls(all, Plan(all[k..], v), v), budget), r, x)
    decreases |all| - k
  {
    hide Target, Partial, Exec, Apply, DoneIds, GoneIds, Sound, Plan, Calls, CallsFor, RunsTo;
    r, x := DoneIds(all, k, v), GoneIds(all, k, v);
    DoneIsSound(all, k, v, {});
    assert x + {} == x;
    if k == |all| {
      RunEnds(all, v, budget);
    } else {
      PlanStep(all, k, v);
      NextIds(all, k, v);
      if !Planned(all[k], v) {
        NotPlannedStep(all, k, v);
        var later := Calls(all, Plan(all[k + 1..], v), v);
        assert [] + later == later;
        r, x := RunFrom(all, k + 1, v, budget);
      } else if i :| 0 <= i < k && Target(all[i], v) == Target(all[k], v) {
        SecondRun(all, k, v, i, Calls(all, Plan(all[k + 1..], v), v), budget);
      } else {
        var next, left, r', x' := FirstRun(all, k, v, Calls(all, Plan(all[k + 1..], v), v), budget);
        if next {
          r, x := RunFrom(all, k + 1, v, left);
        } else {
          r, x := r', x';
          StopRuns(all, v, r, x);
        }
      }
    }
  }

  lemma StopRuns(all: seq<Asset>, v: string, r: set<nat>, x: set<nat>)
    requires Sound(all, r, x, v)
    ensures RunsTo(all, v, (Partial(all, r, x, v), Stopped), r, x)
  {
  }

  lemma RunEnds(all: seq<Asset>, v: string, budget: nat)
    requires Valid(all) && DistinctUpTo(all, |all|, v)
    requires Sound(all, DoneIds(all, |all|, v), GoneIds(all, |all|, v), v)
    ensures RunsTo(all, v, Exec(State(all, |all|, v), Calls(all, Plan(all[|all|..], v), v), budget),
                   DoneIds(all, |all|, v), GoneIds(all, |all|, v))
  {
  }

  lemma NotPlannedStep(all: seq<Asset>, k: nat, v: string)
    requires k < |all| && !Planned(all[k], v)
    ensures CallsFor(all, all[k], v) == [] && State(all, k + 1, v) == State(all, k, v)
    ensures DistinctUpTo(all, k, v) ==> DistinctUpTo(all, k + 1, v)
  {
    hide Target, Partial, DoneIds, GoneIds;
    NextIds(all, k, v);
    assert DoneIds(all, k, v) + {} == DoneIds(all, k, v);
  }

  // The requests of one rename, in order.
  lemma CallsSplit(all: seq<Asset>, a: Asset, v: string, later: seq<Call>)
    requires Planned(a, v)
    ensures var name := Target(a, v).value;
            var holder := Named(all, name);
            CallsFor(all, a, v) + later
            == if holder.Some? && holder.value.id != a.id
               then [Delete(holder.value.id)] + ([Patch(a.id, name)] + later)
               else [Patch(a.id, name)] + later
  {
  }

  // The second asset for a target stops the run; nothing but stale assets is gone.
  lemma SecondRun(all: seq<Asset>, k: nat, v: string, i: nat, later: seq<Call>, budget: nat)
    requires Valid(all) && i < k < |all| && Planned(all[k], v) && Target(all[i], v) == Target(all[k], v)
    requires DistinctUpTo(all, k, v)
    ensures RunsTo(all, v, Exec(State(all, k, v), CallsFor(all, all[k], v) + later, budget), DoneIds(all, k, v),
        GoneIds(all, k, v))
  {
    hide Target, Partial, PlannedIds, StaleIds, Exec, Apply, DoneIds, GoneIds, Named, WithId, DistinctTargets,
        CallsFor, Sound;
    var a, r, x := all[k], DoneIds(all, k, v), GoneIds(all, k, v);
    var name, s := Target(a, v).value, State(all, k, v);
    DoneIsSound(all, k, v, {});
    assert x + {} == x;
    assert CollidesAt(all, r, v, i, k);
    CallsSplit(all, a, v, later);
    var j := NamedIs(all, name);
    if Named(all, name).Some? {
      HolderIsGone(all, k, v, i, j);
      DeleteApplies(all, r, x, v, j);
      ExecCons(s, Delete(all[j].id), [Patch(a.id, name)] + later, budget);
    } else {
      GoneAreStale(all, k, v);
      SecondIsRefused(all, k, v, i, x);
      ExecCons(s, Patch(a.id, name), later, budget);
    }
  }

  lemma HolderIsGone(all: seq<Asset>, k: nat, v: string, i: nat, j: nat)
    requires Valid(all) && i < k < |all| && j < |all|
    requires Target(all[k], v) == Some(all[j].name) == Target(all[i], v)
    ensures all[j].id in GoneIds(all, k, v) && all[j].id != all[k].id
  {
  }

  lemma GoneAreStale(all: seq<Asset>, k: nat, v: string)
    requires k <= |all|
    ensures GoneIds(all, k, v) <= StaleIds(all, v)
  {
    hide Target;
    forall id | id in GoneIds(all, k, v) ensures id in StaleIds(all, v) {
      var i, j :| 0 <= i < k && 0 <= j < |all| && Target(all[i], v) == Some(all[j].name) && all[j].id == id;
      HolderIsStale(all, v, i, j);
    }
  }

  // Once the old holder is gone, the request goes through if it is made.
  lemma PatchRun(all: seq<Asset>, k: nat, v: string, gone: set<nat>, later: seq<Call>, budget: nat)
    requires Valid(all) && k < |all| && Planned(all[k], v)
    requires forall i | 0 <= i < k :: Target(all[i], v) != Target(all[k], v)
    requires gone <= StaleIds(all, v)
    requires gone == set j | 0 <= j < |all| && Target(all[k], v) == Some(all[j].name) :: all[j].id
    ensures var mid := Partial(all, DoneIds(all, k, v), GoneIds(all, k, v) + gone, v);
            Exec(mid, [Patch(all[k].id, Target(all[k], v).value)] + later, budget)
            == if budget == 0 then (mid, Stopped) else Exec(State(all, k + 1, v), later, budget - 1)
  {
    hide Target, Partial, StaleIds, Exec, Apply, DoneIds, GoneIds;
    NextIds(all, k, v);
    NextGone(all, k, v, gone);
    GoneAreStale(all, k, v);
    PatchApplies(all, k, v, GoneIds(all, k, v) + gone);
    ExecCons(Partial(all, DoneIds(all, k, v), GoneIds(all, k, v) + gone, v),
             Patch(all[k].id, Target(all[k], v).value), later, budget);
  }

  // The first asset for a target gets it; the run may stop before the old
  // holder is deleted or before the request itself.
  lemma FirstRun(all: seq<Asset>, k: nat, v: string, later: seq<Call>, budget: nat)
    returns (next: bool, left: nat, r: set<nat>, x: set<nat>)
    requires Valid(all) && k < |all| && Planned(all[k], v) && DistinctUpTo(all, k, v)
    requires forall i | 0 <= i < k :: Target(all[i], v) != Target(all[k], v)
    ensures DistinctUpTo(all, k + 1, v)
    ensures var end := Exec(State(all, k, v), CallsFor(all, all[k], v) + later, budget);
            if next then end == Exec(State(all, k + 1, v), later, left)
            else end == (Partial(all, r, x, v), Stopped) && Sound(all, r, x, v)
  {
    hide Target, Partial, PlannedIds, StaleIds, Exec, Apply, DoneIds, GoneIds, Named, Sound, CallsFor;
    var name := Target(all[k], v).value;
    var j := NamedIs(all, name);
    var gone := if Named(all, name).Some? then {all[j].id} else {};
    HoldersOf(all, k, v, gone, j);
    DoneIsSound(all, k, v, {});
    DoneIsSound(all, k, v, gone);
    r, x := DoneIds(all, k, v), GoneIds(all, k, v);
    assert x + {} == x;
    CallsSplit(all, all[k], v, later);
    var patch := Patch(all[k].id, name);
    var budget' := budget;
    if gone != {} {
      DeleteApplies(all, r, x, v, j);
      ExecCons(State(all, k, v), Delete(all[j].id), [patch] + later, budget);
      budget' := if budget > 0 then budget - 1 else 0;
    }
    PatchRun(all, k, v, gone, later, budget');
    if budget == 0 || budget' == 0 {
      next, left := false, 0;
      x := if budget == 0 then x else x + gone;
    } else {
      next, left := true, budget' - 1;
    }
  }

  // The asset that has a target's name, if any: it is stale, and it is not gone
  // while the target is not given out.
  lemma HoldersOf(all: seq<Asset>, k: nat, v: string, gone: set<nat>, j: nat)
    requires Valid(all) && k < |all| && Planned(all[k], v)
    requires forall i | 0 <= i < k :: Target(all[i], v) != Target(all[k], v)
    requires var name := Target(all[k], v).value;
             if Named(all, name).Some?
             then j < |all| && Named(all, name) == Some(all[j]) && all[j].name == name && gone == {all[j].id}
             else gone == {} && forall i | 0 <= i < |all| :: all[i].name != name
    ensures gone <= StaleIds(all, v) && gone !! GoneIds(all, k, v)
    ensures gone == set i | 0 <= i < |all| && Target(all[k], v) == Some(all[i].name) :: all[i].id
    ensures gone != {} ==> all[j].id != all[k].id
  {
    hide Target, Named;
    if Named(all, Target(all[k], v).value).Some? {
      OneHolder(all, k, v, j);
    }
  }

  lemma OneHolder(all: seq<Asset>, k: nat, v: string, j: nat)
    requires Valid(all) && k < |all| && j < |all| && Target(all[k], v) == Some(all[j].name)
    requires forall i | 0 <= i < k :: Target(all[i], v) != Target(all[k], v)
    ensures all[j].id in StaleIds(all, v) && all[j].id !in GoneIds(all, k, v) && all[j].id != all[k].id
    ensures {all[j].id} == set i | 0 <= i < |all| && Target(all[k], v) == Some(all[i].name) :: all[i].id
  {
    hide Target;
    HolderIsStale(all, v, k, j);
  }

  // ---- The theorems -----------------------------------------------------------------

  lemma RunReaches(all: seq<Asset>, v: string, budget: nat) returns (r: set<nat>, x: set<nat>)
    requires Valid(all)
    ensures RunsTo(all, v, RunOnce(all, v, budget), r, x)
  {
    hide Target, Partial, RunsTo;
    NothingDone(all, v);
    assert all[0..] == all;
    r, x := RunFrom(all, 0, v, budget);
  }

  lemma NothingDone(all: seq<Asset>, v: string)
    ensures State(all, 0, v) == all
  {
    assert DoneIds(all, 0, v) == {} && GoneIds(all, 0, v) == {};
    NothingPartial(all, v);
  }

  lemma {:induction false} NothingPartial(all: seq<Asset>, v: string)
    ensures Partial(all, {}, {}, v) == all
  {
    if all != [] {
      NothingPartial(all[1..], v);
    }
  }

  // Wherever a run stops or fails: names are unique, everything comes from the
  // snapshot with its bytes, under its old name or its target, and only stale
  // assets are missing.
  lemma Safety(all: seq<Asset>, v: string, budget: nat)
    requires Valid(all)
    ensures var now := RunOnce(all, v, budget).0;
            && Valid(now)
            && (forall b | b in now :: exists i | 0 <= i < |all| ::
                  b.id == all[i].id && b.bytes == all[i].bytes
                      && (b.name == all[i].name || Some(b.name) == Target(all[i], v)))
            && (forall i | 0 <= i < |all| && !Stale(all, all[i], v) :: exists b | b in now :: b.id == all[i].id)
  {
    hide Target, Partial, RunOnce, Stale;
    var r, x := RunReaches(all, v, budget);
    var now := RunOnce(all, v, budget).0;
    SoundIsValid(all, r, x, v);
    forall b | b in now
      ensures exists i | 0 <= i < |all| ::
                b.id == all[i].id && b.bytes == all[i].bytes
                    && (b.name == all[i].name || Some(b.name) == Target(all[i], v))
    {
      var i := PartialFrom(all, r, x, v, b);
      NowId(all[i], r, v);
      assert b.id == all[i].id;
    }
    forall i | 0 <= i < |all| && !Stale(all, all[i], v) ensures exists b | b in now :: b.id == all[i].id {
      InPlanned(all, v, i);
      PartialHas(all, r, x, v, i);
      NowId(all[i], r, v);
      assert Now(all[i], r, v) in now;
    }
  }

  lemma {:induction false} EnoughRequests(assets: seq<Asset>, calls: seq<Call>, budget: nat)
    requires |calls| <= budget
    ensures Exec(assets, calls, budget).1 != Stopped
    decreases |calls|
  {
    hide Apply;
    if calls != [] {
      var next := Apply(assets, calls[0]);
      if next.Some? {
        EnoughRequests(next.value, calls[1..], budget - 1);
      }
    }
  }

  function Enough(all: seq<Asset>, v: string): nat {
    |Calls(all, Plan(all, v), v)|
  }

  // An uninterrupted run succeeds exactly when no two planned assets share a
  // target, and then it settles the release.
  lemma CompletesIffDistinct(all: seq<Asset>, v: string, budget: nat)
    requires Valid(all) && Enough(all, v) <= budget
    ensures RunOnce(all, v, budget).1 == (if DistinctTargets(all, v) then Finished else Failed)
    ensures DistinctTargets(all, v) ==> RunOnce(all, v, budget).0 == Settled(all, v)
  {
    hide Target, Partial, Exec, Calls, Plan;
    var r, x := RunReaches(all, v, budget);
    EnoughRequests(all, Calls(all, Plan(all, v), v), budget);
    if RunOnce(all, v, budget).1.Failed? {
      var i, k :| 0 <= i < k < |all| && CollidesAt(all, r, v, i, k);
      assert !DistinctTargets(all, v);
    }
  }

  // Any number of runs, each stopped anywhere.
  function RunMany(all: seq<Asset>, v: string, budgets: seq<nat>): seq<Asset>
    decreases |budgets|
  {
    if budgets == [] then all else RunMany(RunOnce(all, v, budgets[0]).0, v, budgets[1..])
  }

  lemma RunKeeps(all: seq<Asset>, v: string, budget: nat)
    requires Valid(all) && DistinctTargets(all, v)
    ensures var now := RunOnce(all, v, budget).0;
            Valid(now) && DistinctTargets(now, v) && Settled(now, v) == Settled(all, v)
  {
    hide Target, Partial, DistinctTargets, Settled, Sound;
    var r, x := RunReaches(all, v, budget);
    SoundIsValid(all, r, x, v);
    DistinctLeft(all, r, x, v);
    SettledAgain(all, r, x, v);
  }

  lemma {:induction false} RunManyKeeps(all: seq<Asset>, v: string, budgets: seq<nat>)
    requires Valid(all) && DistinctTargets(all, v)
    ensures var now := RunMany(all, v, budgets);
            Valid(now) && DistinctTargets(now, v) && Settled(now, v) == Settled(all, v)
    decreases |budgets|
  {
    hide Target, Partial, DistinctTargets, Settled, RunOnce, Valid;
    if budgets != [] {
      RunKeeps(all, v, budgets[0]);
      RunManyKeeps(RunOnce(all, v, budgets[0]).0, v, budgets[1..]);
    }
  }

  // Restart convergence: however often and wherever the phase was stopped, one
  // run that is let through leaves the release an undisturbed run would have.
  lemma RestartConverges(all: seq<Asset>, v: string, budgets: seq<nat>, last: nat)
    requires Valid(all) && DistinctTargets(all, v) && Enough(RunMany(all, v, budgets), v) <= last
    ensures RunOnce(RunMany(all, v, budgets), v, last) == (Settled(all, v), Finished)
  {
    hide Target, Partial, DistinctTargets, Settled, RunOnce, RunMany, Enough, Valid;
    RunManyKeeps(all, v, budgets);
    CompletesIffDistinct(RunMany(all, v, budgets), v, last);
  }

  // Which bytes stand behind a name in the settled release: those planned for
  // it, or else those of the unplanned asset that has it.
  lemma SettledMeaning(all: seq<Asset>, v: string, name: string, bytes: string)
    requires Valid(all)
    ensures (exists b | b in Settled(all, v) :: b.name == name && b.bytes == bytes)
        <==> exists i | 0 <= i < |all| :: all[i].bytes == bytes
               && (Target(all[i], v) == Some(name)
                   || (all[i].name == name && !Planned(all[i], v) && !IsTarget(all, name, v)))
  {
    hide Target, Partial, Now, PlannedIds, StaleIds, IsTarget;
    var p, s, done := PlannedIds(all, v), StaleIds(all, v), Settled(all, v);
    if b :| b in done && b.name == name && b.bytes == bytes {
      var i := PartialFrom(all, p, s, v, b);
      InPlanned(all, v, i);
      NowId(all[i], p, v);
    }
    if i :| 0 <= i < |all| && all[i].bytes == bytes
            && (Target(all[i], v) == Some(name)
                || (all[i].name == name && !Planned(all[i], v) && !IsTarget(all, name, v))) {
      InPlanned(all, v, i);
      NowId(all[i], p, v);
      PartialHas(all, p, s, v, i);
    }
  }
}
