// recordTouchListeners of e2e/scroll-touch-start.ts: a shadow list of the
// page's scroll-holding listeners beside the engine's own listener list, whose
// rules are those of section 2.7 of the WHATWG DOM Standard.

module TouchRegistry {
  import opened Prelude

  // A target, and whether it is the window, document, html or body.
  datatype Target = Target(id: nat, isRoot: bool)

  // What the standard compares to tell listeners apart.
  datatype Key = Key(target: Target, kind: string, callback: nat, capture: bool)

  datatype Entry = Entry(key: Key, passive: bool)

  // An installed listener, and whether the page's own scripts installed it.
  datatype Installed = Installed(entry: Entry, byPage: bool)

  datatype Registry = Registry(entries: seq<Entry>, installed: seq<Installed>)

  const EMPTY := Registry([], [])

  // addEventListener(kind, callback, options); callback None is a null listener.
  datatype Op =
    | Add(target: Target, kind: string, callback: Option<nat>, capture: bool, passive: Option<bool>, byPage: bool)
    | Remove(key: Key)
    | Expire(key: Key) // a once listener that ran, or an aborted signal

  predicate Holding(kind: string) {
    kind == "touchstart" || kind == "touchmove" || kind == "gesturestart" || kind == "gesturechange"
  }

  // explicit ?? default, as the script computes it
  function RecordedPassive(target: Target, kind: string, passive: Option<bool>): bool {
    match passive
    case Some(explicit) => explicit
    case None => (kind == "touchstart" || kind == "touchmove") && target.isRoot
  }

  // The standard's default passive value.
  function EffectivePassive(target: Target, kind: string, passive: Option<bool>): bool {
    match passive
    case Some(explicit) => explicit
    case None => kind in {"touchstart", "touchmove", "wheel", "mousewheel"} && target.isRoot
  }

  // findIndex; |entries| stands for -1.
  function FirstEntry(entries: seq<Entry>, key: Key): (i: nat)
    ensures i <= |entries|
  {
    if entries == [] || entries[0].key == key then 0 else 1 + FirstEntry(entries[1..], key)
  }

  function Splice(entries: seq<Entry>, key: Key): seq<Entry> {
    var i := FirstEntry(entries, key);
    if i == |entries| then entries else entries[..i] + entries[i + 1..]
  }

  predicate IsInstalled(installed: seq<Installed>, key: Key) {
    exists i | 0 <= i < |installed| :: installed[i].entry.key == key
  }

  // The standard's "add an event listener": the same key is added once.
  function Install(installed: seq<Installed>, x: Installed): seq<Installed> {
    if IsInstalled(installed, x.entry.key) then installed else installed + [x]
  }

  function Uninstall(installed: seq<Installed>, key: Key): seq<Installed> {
    if installed == [] then []
    else (if installed[0].entry.key == key then [] else [installed[0]]) + Uninstall(installed[1..], key)
  }

  function Step(r: Registry, op: Op): Registry {
    match op
    case Add(target, kind, None, capture, passive, byPage) => r
    case Add(target, kind, Some(callback), capture, passive, byPage) =>
      var key := Key(target, kind, callback, capture);
      Registry(
        if Holding(kind) && byPage then r.entries + [Entry(key, RecordedPassive(target, kind, passive))] else r.entries,
        Install(r.installed, Installed(Entry(key, EffectivePassive(target, kind, passive)), byPage)))
    case Remove(key) => Registry(Splice(r.entries, key), Uninstall(r.installed, key))
    case Expire(key) => r.(installed := Uninstall(r.installed, key))
  }

  function Run(r: Registry, ops: seq<Op>): Registry
    decreases |ops|
  {
    if ops == [] then r else Step(Run(r, ops[..|ops| - 1]), ops[|ops| - 1])
  }

  class Recorder {
    var entries: seq<Entry>
    var installed: seq<Installed>

    function State(): Registry
      reads this
    {
      Registry(entries, installed)
    }

    constructor ()
      ensures State() == EMPTY
    {
      entries, installed := [], [];
    }

    // The engine's own add and remove.
    method Native(op: Op)
      modifies this`installed
      ensures installed == Step(old(State()), op).installed
    {
      installed := Step(Registry([], installed), op).installed;
    }

    method AddEventListener(target: Target, kind: string, callback: Option<nat>, capture: bool, passive: Option<bool>,
        byPage: bool)
      modifies this
      ensures State() == Step(old(State()), Add(target, kind, callback, capture, passive, byPage))
    {
      if Holding(kind) && callback.Some? && byPage {
        var recorded := if passive.Some? then passive.value
                        else (kind == "touchstart" || kind == "touchmove") && target.isRoot;
        entries := entries + [Entry(Key(target, kind, callback.value, capture), recorded)];
      }
      Native(Add(target, kind, callback, capture, passive, byPage));
    }

    method RemoveEventListener(key: Key)
      modifies this
      ensures State() == Step(old(State()), Remove(key))
    {
      var index := 0;
      while index < |entries| && entries[index].key != key
        invariant index <= |entries|
        invariant FirstEntry(entries, key) == index + FirstEntry(entries[index..], key)
      {
        index := index + 1;
      }
      if index < |entries| {
        entries := entries[..index] + entries[index + 1..];
      }
      Native(Remove(key));
    }
  }

  // ---- Soundness -----------------------------------------------------------------

  predicate Tracked(x: Installed) {
    x.byPage && Holding(x.entry.key.kind)
  }

  // Every holding listener the page has installed is recorded, with the
  // passive flag the engine uses.
  predicate Sound(r: Registry) {
    forall i | 0 <= i < |r.installed| && Tracked(r.installed[i]) :: r.installed[i].entry in r.entries
  }

  lemma PassiveAgrees(target: Target, kind: string, passive: Option<bool>)
    requires Holding(kind)
    ensures RecordedPassive(target, kind, passive) == EffectivePassive(target, kind, passive)
  {
  }

  lemma {:induction false} FirstEntryIs(entries: seq<Entry>, key: Key)
    ensures var i := FirstEntry(entries, key); i < |entries| ==> entries[i].key == key
    ensures forall k | 0 <= k < FirstEntry(entries, key) :: entries[k].key != key
  {
    if entries != [] && entries[0].key != key {
      FirstEntryIs(entries[1..], key);
      forall k | 0 <= k < FirstEntry(entries, key) ensures entries[k].key != key {
        assert k > 0 ==> entries[k] == entries[1..][k - 1];
      }
    }
  }

  lemma SpliceKeeps(entries: seq<Entry>, key: Key, e: Entry)
    requires e in entries && e.key != key
    ensures e in Splice(entries, key)
  {
    FirstEntryIs(entries, key);
    var i := FirstEntry(entries, key);
    var at :| 0 <= at < |entries| && entries[at] == e;
    if i < |entries| {
      assert at != i;
      assert at < i ==> Splice(entries, key)[at] == e;
      assert at > i ==> Splice(entries, key)[at - 1] == e;
    }
  }

  lemma {:induction false} UninstallIs(installed: seq<Installed>, key: Key, x: Installed)
    ensures x in Uninstall(installed, key) <==> x in installed && x.entry.key != key
  {
    if installed != [] {
      UninstallIs(installed[1..], key, x);
      assert x in installed <==> x == installed[0] || x in installed[1..];
    }
  }

  lemma StepSound(r: Registry, op: Op)
    requires Sound(r)
    ensures Sound(Step(r, op))
  {
    var q := Step(r, op);
    forall i | 0 <= i < |q.installed| && Tracked(q.installed[i]) ensures q.installed[i].entry in q.entries {
      var x := q.installed[i];
      if op.Add? {
        if x !in r.installed {
          PassiveAgrees(op.target, op.kind, op.passive);
          assert q.entries[|r.entries|] == x.entry;
        } else {
          var k :| 0 <= k < |r.installed| && r.installed[k] == x;
        }
      } else {
        UninstallIs(r.installed, op.key, x);
        var k :| 0 <= k < |r.installed| && r.installed[k] == x;
        if op.Remove? {
          SpliceKeeps(r.entries, op.key, x.entry);
        }
      }
    }
  }

  // Over every run of adds, removes and implicit removals.
  lemma {:induction false} RunSound(r: Registry, ops: seq<Op>)
    requires Sound(r)
    ensures Sound(Run(r, ops))
    decreases |ops|
  {
    hide Sound, Step;
    if ops != [] {
      RunSound(r, ops[..|ops| - 1]);
      StepSound(Run(r, ops[..|ops| - 1]), ops[|ops| - 1]);
    }
  }

  // What the suite concludes: when the shadow list holds no non-passive entry,
  // no listener of the page makes the engine wait.
  lemma NothingWaits(ops: seq<Op>, x: Installed)
    requires var r := Run(EMPTY, ops);
             (forall i | 0 <= i < |r.entries| :: r.entries[i].passive) && x in r.installed && Tracked(x)
    ensures x.entry.passive
  {
    RunSound(EMPTY, ops);
  }

  // ---- Exactness -------------------------------------------------------------------

  // The page's holding listeners the engine has, in order.
  function TrackedEntries(installed: seq<Installed>): seq<Entry> {
    if installed == [] then []
    else (if Tracked(installed[0]) then [installed[0].entry] else []) + TrackedEntries(installed[1..])
  }

  predicate Unique(installed: seq<Installed>) {
    forall i, j | 0 <= i < j < |installed| :: installed[i].entry.key != installed[j].entry.key
  }

  predicate Exact(r: Registry) {
    r.entries == TrackedEntries(r.installed)
  }

  // The page adds a holding listener that is already there.
  predicate AddsTwice(r: Registry, op: Op) {
    op.Add? && op.callback.Some? && op.byPage && Holding(op.kind)
    && IsInstalled(r.installed, Key(op.target, op.kind, op.callback.value, op.capture))
  }

  // A holding listener of the page goes without being removed.
  predicate GoesUnseen(r: Registry, op: Op) {
    op.Expire? && HasTracked(r.installed, op.key)
  }

  lemma {:induction false} TrackedLast(installed: seq<Installed>, x: Installed)
    ensures TrackedEntries(installed + [x]) == TrackedEntries(installed) + (if Tracked(x) then [x.entry] else [])
  {
    hide Tracked;
    if installed == [] {
      assert installed + [x] == [x];
    } else {
      var front := if Tracked(installed[0]) then [installed[0].entry] else [];
      var more, last := TrackedEntries(installed[1..]), if Tracked(x) then [x.entry] else [];
      assert (installed + [x])[1..] == installed[1..] + [x];
      TrackedLast(installed[1..], x);
      assert front + (more + last) == (front + more) + last;
    }
  }

  lemma {:induction false} NotInstalled(installed: seq<Installed>, key: Key)
    requires !IsInstalled(installed, key)
    ensures Uninstall(installed, key) == installed
    ensures FirstEntry(TrackedEntries(installed), key) == |TrackedEntries(installed)|
  {
    if installed != [] {
      assert installed[0].entry.key != key;
      forall i | 0 <= i < |installed[1..]| ensures installed[1..][i].entry.key != key {
        assert installed[1..][i] == installed[i + 1];
      }
      NotInstalled(installed[1..], key);
      TrackedFront(installed);
    }
  }

  lemma TrackedFront(installed: seq<Installed>)
    requires installed != []
    ensures var t, x := TrackedEntries(installed), installed[0];
            if Tracked(x) then t != [] && t[0] == x.entry && t[1..] == TrackedEntries(installed[1..])
            else t == TrackedEntries(installed[1..])
  {
  }

  lemma TailUnique(installed: seq<Installed>)
    requires Unique(installed) && installed != []
    ensures Unique(installed[1..]) && !IsInstalled(installed[1..], installed[0].entry.key)
  {
  }

  // Removing the first recorded match removes the listener the engine removes.
  lemma {:induction false} RemoveAgrees(installed: seq<Installed>, key: Key)
    requires Unique(installed)
    ensures TrackedEntries(Uninstall(installed, key)) == Splice(TrackedEntries(installed), key)
  {
    if installed != [] {
      var x, rest := installed[0], installed[1..];
      TailUnique(installed);
      var t := TrackedEntries(rest);
      if x.entry.key == key {
        NotInstalled(rest, key);
        TrackedFront(installed);
        assert Uninstall(installed, key) == rest;
        assert [] + t == t;
      } else {
        RemoveAgrees(rest, key);
        var kept := Uninstall(rest, key);
        assert ([x] + kept)[1..] == kept;
        SpliceBehind(x.entry, t, key);
        assert [] + t == t && [] + TrackedEntries(kept) == TrackedEntries(kept);
      }
    }
  }

  lemma SpliceBehind(e: Entry, t: seq<Entry>, key: Key)
    requires e.key != key
    ensures Splice([e] + t, key) == [e] + Splice(t, key)
  {
  }

  lemma {:induction false} UninstallUnique(installed: seq<Installed>, key: Key)
    requires Unique(installed)
    ensures Unique(Uninstall(installed, key))
  {
    if installed != [] {
      var x, rest := installed[0], Uninstall(installed[1..], key);
      TailUnique(installed);
      UninstallUnique(installed[1..], key);
      forall i | 0 <= i < |rest| ensures rest[i].entry.key != x.entry.key {
        UninstallIs(installed[1..], key, rest[i]);
        var k :| 0 <= k < |installed[1..]| && installed[1..][k] == rest[i];
        assert installed[k + 1].entry.key == rest[i].entry.key;
      }
    }
  }

  lemma StepUnique(r: Registry, op: Op)
    requires Unique(r.installed)
    ensures Unique(Step(r, op).installed)
  {
    if op.Add? {
    } else {
      UninstallUnique(r.installed, op.key);
    }
  }

  predicate HasTracked(installed: seq<Installed>, key: Key) {
    exists i | 0 <= i < |installed| :: Tracked(installed[i]) && installed[i].entry.key == key
  }

  lemma {:induction false} RecordedIffTracked(installed: seq<Installed>, key: Key)
    ensures FirstEntry(TrackedEntries(installed), key) < |TrackedEntries(installed)| <==> HasTracked(installed, key)
  {
    if installed != [] {
      var x, rest := installed[0], installed[1..];
      RecordedIffTracked(rest, key);
      assert HasTracked(installed, key) <==> (Tracked(x) && x.entry.key == key) || HasTracked(rest, key) by {
        if i :| 0 <= i < |rest| && Tracked(rest[i]) && rest[i].entry.key == key {
          assert installed[i + 1] == rest[i];
        }
        if i :| 1 <= i < |installed| && Tracked(installed[i]) && installed[i].entry.key == key {
          assert rest[i - 1] == installed[i];
        }
      }
      var t := TrackedEntries(rest);
      assert Tracked(x) ==> ([x.entry] + t)[0] == x.entry && ([x.entry] + t)[1..] == t;
      assert [] + t == t;
    }
  }

  // From equal lists, a step keeps them equal exactly if it neither adds a
  // listener that is there nor loses one unseen.
  lemma StaysExact(r: Registry, op: Op)
    requires Exact(r) && Unique(r.installed)
    ensures Exact(Step(r, op)) <==> !AddsTwice(r, op) && !GoesUnseen(r, op)
  {
    match op
    case Add(target, kind, callback, capture, passive, byPage) =>
      if callback.Some? {
        AddExact(r, op);
      }
    case Remove(key) => RemoveAgrees(r.installed, key);
    case Expire(key) =>
      RemoveAgrees(r.installed, key);
      RecordedIffTracked(r.installed, key);
  }

  lemma AddExact(r: Registry, op: Op)
    requires Exact(r) && op.Add? && op.callback.Some?
    ensures Exact(Step(r, op)) <==> !AddsTwice(r, op)
  {
    var key := Key(op.target, op.kind, op.callback.value, op.capture);
    var x := Installed(Entry(key, EffectivePassive(op.target, op.kind, op.passive)), op.byPage);
    TrackedLast(r.installed, x);
    if Holding(op.kind) {
      PassiveAgrees(op.target, op.kind, op.passive);
    }
    hide Holding, RecordedPassive, EffectivePassive;
    if IsInstalled(r.installed, key) && Holding(op.kind) && op.byPage {
      assert |Step(r, op).entries| == |r.entries| + 1;
    }
  }

  // No step of the run adds a listener twice or loses one unseen.
  predicate Disciplined(ops: seq<Op>) {
    forall i | 0 <= i < |ops| :: var r := Run(EMPTY, ops[..i]); !AddsTwice(r, ops[i]) && !GoesUnseen(r, ops[i])
  }

  // On disciplined runs the shadow list is the engine's, entry for entry.
  lemma {:induction false} RunExact(ops: seq<Op>)
    requires Disciplined(ops)
    ensures Exact(Run(EMPTY, ops)) && Unique(Run(EMPTY, ops).installed)
    decreases |ops|
  {
    hide Exact, Unique, AddsTwice, GoesUnseen, Step;
    if ops != [] {
      var n := |ops| - 1;
      forall i | 0 <= i < n
        ensures var r := Run(EMPTY, ops[..n][..i]); !AddsTwice(r, ops[..n][i]) && !GoesUnseen(r, ops[..n][i]) {
        assert ops[..n][..i] == ops[..i];
      }
      RunExact(ops[..n]);
      StaysExact(Run(EMPTY, ops[..n]), ops[n]);
      StepUnique(Run(EMPTY, ops[..n]), ops[n]);
    } else {
      EmptyIsExact();
    }
  }

  lemma EmptyIsExact()
    ensures Exact(EMPTY) && Unique(EMPTY.installed)
  {
  }
}
