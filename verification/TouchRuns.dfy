// What a call of the patched addEventListener or removeEventListener in
// e2e/scroll-touch-start.ts records, and which listeners are installed after
// any calls.

module TouchRuns {
  import opened Prelude
  import opened TouchRegistry

  // ---- One call ------------------------------------------------------------------

  // The touch and gesture events that can hold a scroll back.
  predicate CanHold(kind: string) {
    kind in ["touchstart", "touchmove", "gesturestart", "gesturechange"]
  }

  // What the call asks for; the default on the page's root targets.
  predicate AskedPassive(target: Target, kind: string, passive: Option<bool>) {
    passive == Some(true) || (passive == None && target.isRoot && kind in ["touchstart", "touchmove"])
  }

  // An add by the page, with a listener, for one of the four kinds is recorded
  // last, and no other call records anything.
  lemma AddRecords(r: Registry, target: Target, kind: string, callback: Option<nat>, capture: bool,
      passive: Option<bool>, byPage: bool)
    ensures var after := Step(r, Add(target, kind, callback, capture, passive, byPage));
            after.entries
            == if callback.Some? && byPage && CanHold(kind)
               then r.entries + [Entry(Key(target, kind, callback.value, capture), AskedPassive(target, kind, passive))]
               else r.entries
  {
  }

  // A remove drops the first entry recorded for its key and no other.
  lemma RemoveDrops(r: Registry, key: Key, before: seq<Entry>, e: Entry, behind: seq<Entry>)
    requires r.entries == before + ([e] + behind) && e.key == key
    requires forall i | 0 <= i < |before| :: before[i].key != key
    ensures Step(r, Remove(key)).entries == before + behind
  {
    FirstEntryIs(r.entries, key);
    var i := FirstEntry(r.entries, key);
    FoundAt(r.entries, key, |before|);
    assert r.entries[|before|] == e;
    assert forall k | 0 <= k < |before| :: r.entries[k] == before[k];
    assert i == |before|;
    assert r.entries[..i] == before && r.entries[i + 1..] == behind;
  }

  lemma {:induction false} FoundAt(entries: seq<Entry>, key: Key, k: nat)
    requires k < |entries| && entries[k].key == key
    ensures FirstEntry(entries, key) <= k
  {
    if entries[0].key != key {
      FoundAt(entries[1..], key, k - 1);
    }
  }

  // Without an entry for the key nothing is dropped; nor is it when a listener
  // goes by itself.
  lemma NothingDrops(r: Registry, key: Key)
    ensures Step(r, Expire(key)).entries == r.entries
    ensures (forall i | 0 <= i < |r.entries| :: r.entries[i].key != key) ==>
              Step(r, Remove(key)).entries == r.entries
  {
    FirstEntryIs(r.entries, key);
  }

  // ---- Every run ---------------------------------------------------------------------

  // The op adds a listener under the key.
  predicate Adds(op: Op, key: Key) {
    op.Add? && op.callback.Some? && Key(op.target, op.kind, op.callback.value, op.capture) == key
  }

  predicate Drops(op: Op, key: Key) {
    (op.Remove? || op.Expire?) && op.key == key
  }

  // Op i adds under the key where nothing is, and nothing drops it afterwards.
  predicate Stays(ops: seq<Op>, key: Key, i: nat) {
    && i < |ops| && Adds(ops[i], key)
    && (forall j | i < j < |ops| :: !Drops(ops[j], key))
    && forall j | 0 <= j < i && Adds(ops[j], key) :: exists k | j < k < i :: Drops(ops[k], key)
  }

  // The flag the engine gives it.
  predicate IsPassive(op: Op)
    requires op.Add?
  {
    op.passive == Some(true)
    || (op.passive == None && op.target.isRoot && op.kind in ["touchstart", "touchmove", "wheel", "mousewheel"])
  }

  ghost predicate Put(ops: seq<Op>, x: Installed) {
    exists i: nat :: Stays(ops, x.entry.key, i) && x == Installed(Entry(x.entry.key, IsPassive(ops[i])), ops[i].byPage)
  }

  // One more op keeps what it does not drop, and puts a listener only where
  // none stays.
  lemma PutStep(ops: seq<Op>, x: Installed)
    requires ops != []
    ensures var before, op := ops[..|ops| - 1], ops[|ops| - 1];
            var key := x.entry.key;
            Put(ops, x)
            <==> || (Put(before, x) && !Drops(op, key))
                 || (Adds(op, key) && !Kept(before, key) && x == Installed(Entry(key, IsPassive(op)), op.byPage))
  {
    var m := |ops| - 1;
    var before, op, key := ops[..m], ops[m], x.entry.key;
    assert forall j | 0 <= j < m :: before[j] == ops[j];
    forall i: nat | i < m
      ensures Stays(ops, key, i) <==> Stays(before, key, i) && !Drops(op, key)
    {
      EarlierStays(ops, key, i);
    }
    LastStays(ops, key);
  }

  // Something stays under the key.
  ghost predicate Kept(ops: seq<Op>, key: Key) {
    exists i: nat :: Stays(ops, key, i)
  }

  lemma EarlierStays(ops: seq<Op>, key: Key, i: nat)
    requires ops != [] && i < |ops| - 1
    ensures Stays(ops, key, i) <==> Stays(ops[..|ops| - 1], key, i) && !Drops(ops[|ops| - 1], key)
  {
    var before := ops[..|ops| - 1];
    assert forall j | 0 <= j < |before| :: before[j] == ops[j];
    if Stays(ops, key, i) {
      forall j | 0 <= j < i && Adds(before[j], key) ensures exists k | j < k < i :: Drops(before[k], key) {
        var k :| j < k < i && Drops(ops[k], key);
        assert Drops(before[k], key);
      }
    }
    if Stays(before, key, i) && !Drops(ops[|ops| - 1], key) {
      forall j | 0 <= j < i && Adds(ops[j], key) ensures exists k | j < k < i :: Drops(ops[k], key) {
        var k :| j < k < i && Drops(before[k], key);
        assert Drops(ops[k], key);
      }
    }
  }

  lemma LastStays(ops: seq<Op>, key: Key)
    requires ops != []
    ensures Stays(ops, key, |ops| - 1) <==> Adds(ops[|ops| - 1], key) && !Kept(ops[..|ops| - 1], key)
  {
    var m := |ops| - 1;
    var before := ops[..m];
    assert forall j | 0 <= j < m :: before[j] == ops[j];
    if i: nat :| Stays(before, key, i) {
      assert Adds(ops[i], key) && forall k | i < k < m :: !Drops(before[k], key);
    }
    if Adds(ops[m], key) && !Stays(ops, key, m) {
      var j :| 0 <= j < m && Adds(ops[j], key) && forall k | j < k < m :: !Drops(ops[k], key);
      assert Adds(before[j], key);
      FirstStays(before, key, j);
    }
  }

  // Of the adds behind the last drop, the first stays.
  lemma {:induction false} FirstStays(ops: seq<Op>, key: Key, j: nat)
    requires j < |ops| && Adds(ops[j], key) && forall k | j < k < |ops| :: !Drops(ops[k], key)
    ensures Kept(ops, key)
    decreases j
  {
    if !Stays(ops, key, j) {
      var i :| 0 <= i < j && Adds(ops[i], key) && forall k | i < k < j :: !Drops(ops[k], key);
      FirstStays(ops, key, i);
    }
  }

  lemma KeptStep(ops: seq<Op>, key: Key)
    requires ops != []
    ensures var before, op := ops[..|ops| - 1], ops[|ops| - 1];
            Kept(ops, key) <==> Adds(op, key) || (Kept(before, key) && !Drops(op, key))
  {
    var m := |ops| - 1;
    var before, op := ops[..m], ops[m];
    forall i: nat | i < m ensures Stays(ops, key, i) <==> Stays(before, key, i) && !Drops(op, key) {
      EarlierStays(ops, key, i);
    }
    LastStays(ops, key);
    assert forall i: nat | Stays(ops, key, i) :: i < m || i == m;
    assert forall i: nat | Stays(before, key, i) :: i < m;
  }

  lemma InstallStep(r: Registry, op: Op, x: Installed)
    ensures var key := x.entry.key;
            x in Step(r, op).installed
            <==> || (x in r.installed && !Drops(op, key))
                 || (Adds(op, key) && !IsInstalled(r.installed, key)
                     && x == Installed(Entry(key, IsPassive(op)), op.byPage))
  {
    if op.Remove? || op.Expire? {
      UninstallIs(r.installed, op.key, x);
    }
  }

  lemma IsInstalledIs(installed: seq<Installed>, key: Key)
    ensures IsInstalled(installed, key) <==> exists x :: x in installed && x.entry.key == key
  {
    if IsInstalled(installed, key) {
      var i :| 0 <= i < |installed| && installed[i].entry.key == key;
      assert installed[i] in installed;
    }
  }

  lemma IsInstalledStep(r: Registry, op: Op, key: Key)
    ensures IsInstalled(Step(r, op).installed, key)
       <==> Adds(op, key) || (IsInstalled(r.installed, key) && !Drops(op, key))
  {
    var after := Step(r, op);
    IsInstalledIs(r.installed, key);
    IsInstalledIs(after.installed, key);
    hide IsInstalled, Step;
    forall x: Installed | x.entry.key == key
      ensures x in after.installed
         <==> || (x in r.installed && !Drops(op, key))
              || (Adds(op, key) && !IsInstalled(r.installed, key)
                  && x == Installed(Entry(key, IsPassive(op)), op.byPage))
    {
      InstallStep(r, op, x);
    }
    if Adds(op, key) && !IsInstalled(r.installed, key) {
      assert Installed(Entry(key, IsPassive(op)), op.byPage) in after.installed;
    }
  }

  // A key has a listener after any run exactly if one was put and stays.
  lemma {:induction false} KeptIff(ops: seq<Op>, key: Key)
    ensures IsInstalled(Run(EMPTY, ops).installed, key) <==> Kept(ops, key)
    decreases |ops|
  {
    hide Kept, Adds, Drops, Step;
    if ops == [] {
      NothingPut(key);
    } else {
      var m := |ops| - 1;
      KeptIff(ops[..m], key);
      KeptStep(ops, key);
      IsInstalledStep(Run(EMPTY, ops[..m]), ops[m], key);
      hide IsInstalled;
    }
  }

  lemma NothingPut(key: Key)
    ensures !Kept([], key) && forall x :: !Put([], x)
  {
  }

  // After any calls and implicit removals from the start, exactly the
  // listeners that were put and not dropped are installed, each with the flags
  // of the add that put it.
  lemma {:induction false} InstalledIff(ops: seq<Op>, x: Installed)
    ensures x in Run(EMPTY, ops).installed <==> Put(ops, x)
    decreases |ops|
  {
    hide Put, Kept, Adds, Drops, Step, IsInstalled;
    if ops == [] {
      NothingPut(x.entry.key);
    } else {
      var m := |ops| - 1;
      InstalledIff(ops[..m], x);
      PutStep(ops, x);
      KeptIff(ops[..m], x.entry.key);
      InstallStep(Run(EMPTY, ops[..m]), ops[m], x);
    }
  }

  // A page listener that is put and stays is recorded with its flag.
  lemma PutIsRecorded(ops: seq<Op>, x: Installed)
    requires Put(ops, x) && x.byPage && CanHold(x.entry.key.kind)
    ensures x.entry in Run(EMPTY, ops).entries
  {
    hide Put;
    InstalledIff(ops, x);
    RunSound(EMPTY, ops);
    var r := Run(EMPTY, ops);
    var i :| 0 <= i < |r.installed| && r.installed[i] == x;
    assert Tracked(r.installed[i]);
  }
}
