// Who is typing after any calls of emitRoomTyping in e2e/scroll-live-edge.ts,
// and what one call emits, starts and clears.

module TypingRuns {
  import opened TypingFixtures

  // ---- One call ------------------------------------------------------------------

  // One event per name, in the call's order.
  function Said(keys: seq<Key>, on: bool): seq<Event> {
    seq(|keys|, i requires 0 <= i < |keys| => Event(keys[i], on))
  }

  lemma SaidLast(keys: seq<Key>, on: bool)
    requires keys != []
    ensures Said(keys, on) == Said(keys[..|keys| - 1], on) + [Event(keys[|keys| - 1], on)]
  {
  }

  lemma {:induction false} EmitSays(p: Page, keys: seq<Key>, on: bool)
    ensures EmitAll(p, keys, on).log == p.log + Said(keys, on)
    decreases |keys|
  {
    if keys != [] {
      EmitSays(p, keys[..|keys| - 1], on);
      SaidLast(keys, on);
    }
  }

  // A named participant is in the map exactly if the call starts, with a new
  // fixture of its own.
  predicate Started(p: Page, after: Page, key: Key, on: bool) {
    && (key in after.fixtures <==> on)
    && (on ==> |p.made| <= after.fixtures[key] < |after.made| && after.made[after.fixtures[key]] == Fixture(key, 0))
  }

  // Any other participant keeps its fixture.
  predicate Untouched(p: Page, after: Page, key: Key) {
    && (key in after.fixtures <==> key in p.fixtures)
    && (key in p.fixtures ==> after.fixtures[key] == p.fixtures[key])
  }

  lemma {:induction false} EmitStarts(p: Page, keys: seq<Key>, on: bool, key: Key)
    ensures var after := EmitAll(p, keys, on);
            && |after.made| == |p.made| + (if on then |keys| else 0)
            && after.made[..|p.made|] == p.made
            && (key in keys ==> Started(p, after, key, on))
            && (key !in keys ==> Untouched(p, after, key))
    decreases |keys|
  {
    if keys != [] {
      var m := |keys| - 1;
      var before, last := EmitAll(p, keys[..m], on), keys[m];
      EmitStarts(p, keys[..m], on, key);
      assert keys == keys[..m] + [last];
      var after := EmitAll(p, keys, on);
      assert after.made[..|before.made|] == before.made;
      assert after.made[..|p.made|] == before.made[..|p.made|];
    }
  }

  // One call: its events; fixtures and timers of the named participants, old
  // timers cleared; everyone else's fixtures and timers as they were.
  lemma EmitIs(p: Page, keys: seq<Key>, on: bool)
    requires Sound(p)
    ensures var after := EmitAll(p, keys, on);
            && after.log == p.log + Said(keys, on)
            && (forall key | key in keys :: Started(p, after, key, on) && (on ==> after.fixtures[key] in after.live))
            && (forall key | key !in keys :: Untouched(p, after, key))
            && (forall n: nat | n < |p.made| ::
                  && n < |after.made| && after.made[n] == p.made[n]
                  && (n in after.live <==> n in p.live && p.made[n].key !in keys))
  {
    hide EmitAll;
    var after := EmitAll(p, keys, on);
    EmitSays(p, keys, on);
    EmitAllSound(p, keys, on);
    EmitStarts(p, keys, on, Key("", ""));
    forall key
      ensures key in keys ==> Started(p, after, key, on) && (on ==> after.fixtures[key] in after.live)
      ensures key !in keys ==> Untouched(p, after, key)
    {
      EmitStarts(p, keys, on, key);
      assert key in after.fixtures ==> Current(after, after.fixtures[key]);
    }
    forall n: nat | n < |p.made|
      ensures n < |after.made| && after.made[n] == p.made[n]
      ensures n in after.live <==> n in p.live && p.made[n].key !in keys
    {
      EmitStarts(p, keys, on, p.made[n].key);
      assert after.made[n] == after.made[..|p.made|][n];
      assert n in after.live <==> Current(after, n);
      assert n in p.live <==> Current(p, n);
    }
  }

  // A callback of a live timer says typing and counts one renewal; no callback
  // changes who is in the map or which timers live.
  lemma CallbackIs(p: Page, n: nat)
    requires Sound(p)
    ensures var after := Fire(p, n);
            && after.fixtures == p.fixtures && after.live == p.live
            && (n !in p.live ==> after == p)
            && (n in p.live ==>
                  && n < |p.made|
                  && after.log == p.log + [Event(p.made[n].key, true)]
                  && after.made == p.made[n := Fixture(p.made[n].key, p.made[n].renewals + 1)])
  {
    assert n in p.live <==> Current(p, n);
  }

  // ---- Every run ---------------------------------------------------------------------

  // Op i is the last call that names the participant.
  predicate LastNamed(ops: seq<Op>, key: Key, i: nat) {
    && i < |ops| && ops[i].Emit? && key in ops[i].keys
    && forall j | i < j < |ops| && ops[j].Emit? :: key !in ops[j].keys
  }

  ghost predicate LastStarted(ops: seq<Op>, key: Key) {
    exists i: nat :: LastNamed(ops, key, i) && ops[i].on
  }

  lemma LastNamedStep(ops: seq<Op>, key: Key)
    requires ops != []
    ensures var before, op := ops[..|ops| - 1], ops[|ops| - 1];
            LastStarted(ops, key) <==> if op.Emit? && key in op.keys then op.on else LastStarted(before, key)
  {
    var m := |ops| - 1;
    var before, op := ops[..m], ops[m];
    if op.Emit? && key in op.keys {
      assert LastNamed(ops, key, m);
      assert forall i: nat | i < m :: !LastNamed(ops, key, i);
    } else {
      assert forall j | 0 <= j < m :: before[j] == ops[j];
      forall i: nat ensures LastNamed(ops, key, i) <==> LastNamed(before, key, i) {
      }
    }
  }

  // After any calls and callbacks from a fresh page, a participant is in the
  // map, with a live timer and typing said last, exactly if the last call that
  // names it starts.
  lemma {:induction false} InMapIff(ops: seq<Op>, key: Key)
    ensures var p := Run(EMPTY, ops);
            && (key in p.fixtures <==> LastStarted(ops, key))
            && (LastTyping(p.log, key) <==> LastStarted(ops, key))
            && ((exists n :: n in p.live && n < |p.made| && p.made[n].key == key) <==> LastStarted(ops, key))
    decreases |ops|
  {
    hide LastStarted, EmitAll, LastTyping, Fire;
    var p := Run(EMPTY, ops);
    if ops == [] {
      assert !LastStarted(ops, key) by { NothingStarted(key); }
    } else {
      var m := |ops| - 1;
      var before, op := Run(EMPTY, ops[..m]), ops[m];
      InMapIff(ops[..m], key);
      LastNamedStep(ops, key);
      RunSound(EMPTY, ops[..m]) by { FreshIsSound(); }
      match op
      case Emit(keys, on) => EmitIs(before, keys, on);
      case Callback(n) => CallbackIs(before, n);
    }
    RunSound(EMPTY, ops) by { FreshIsSound(); }
    hide Run;
    if key in p.fixtures {
      assert Current(p, p.fixtures[key]);
    }
    if n :| n in p.live && n < |p.made| && p.made[n].key == key {
      assert Current(p, n);
    }
  }

  lemma FreshIsSound()
    ensures Sound(EMPTY)
  {
  }

  lemma NothingStarted(key: Key)
    ensures !LastStarted([], key)
  {
  }

  // The first call of the suite on a fresh page starts its participant.
  lemma FirstCallStarts(key: Key)
    ensures EmitAll(EMPTY, [key], true) == Page(map[key := 0], {0}, [Fixture(key, 0)], [Event(key, true)])
  {
    assert [key][..0] == [];
    assert EmitAll(EMPTY, [], true) == EMPTY;
  }
}
