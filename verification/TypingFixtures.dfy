// emitRoomTyping of e2e/scroll-live-edge.ts: renewal timers per participant,
// started and stopped through a shared map, with callbacks that may come late.

module TypingFixtures {

  // The text JSON.stringify([jid, nick]) names the pair.
  datatype Key = Key(jid: string, nick: string)

  datatype Event = Event(key: Key, isTyping: bool)

  // A fixture, whoever it was made for; its timer has its number.
  datatype Fixture = Fixture(key: Key, renewals: nat)

  datatype Page = Page(fixtures: map<Key, nat>, live: set<nat>, made: seq<Fixture>, log: seq<Event>)

  const EMPTY := Page(map[], {}, [], [])

  // One name of one call.
  function EmitOne(p: Page, key: Key, on: bool): Page {
    var live := if key in p.fixtures then p.live - {p.fixtures[key]} else p.live;
    var log := p.log + [Event(key, on)];
    if !on then p.(fixtures := p.fixtures - {key}, live := live, log := log)
    else
      var n := |p.made|;
      Page((p.fixtures - {key})[key := n], live + {n}, p.made + [Fixture(key, 0)], log)
  }

  function EmitAll(p: Page, keys: seq<Key>, on: bool): Page
    decreases |keys|
  {
    if keys == [] then p else EmitOne(EmitAll(p, keys[..|keys| - 1], on), keys[|keys| - 1], on)
  }

  // The callback of timer n, live or cleared.
  function Fire(p: Page, n: nat): Page {
    if n < |p.made| && p.made[n].key in p.fixtures && p.fixtures[p.made[n].key] == n then
      var fixture := p.made[n];
      p.(log := p.log + [Event(fixture.key, true)], made := p.made[n := fixture.(renewals := fixture.renewals + 1)])
    else p
  }

  datatype Op = Emit(keys: seq<Key>, on: bool) | Callback(n: nat)

  function Step(p: Page, op: Op): Page {
    match op
    case Emit(keys, on) => EmitAll(p, keys, on)
    case Callback(n) => Fire(p, n)
  }

  function Run(p: Page, ops: seq<Op>): Page
    decreases |ops|
  {
    if ops == [] then p else Step(Run(p, ops[..|ops| - 1]), ops[|ops| - 1])
  }

  class RoomTyping {
    var fixtures: map<Key, nat>
    var live: set<nat>
    var made: seq<Fixture>
    var log: seq<Event>

    function State(): Page
      reads this
    {
      Page(fixtures, live, made, log)
    }

    constructor ()
      ensures State() == EMPTY
    {
      fixtures, live, made, log := map[], {}, [], [];
    }

    method EmitRoomTyping(jid: string, nicks: seq<string>, isTyping: bool)
      modifies this
      ensures State() == Step(old(State()), Emit(KeysOf(jid, nicks), isTyping))
    {
      hide KeysOf, EmitAll;
      NoKeys(jid, State(), isTyping);
      for i := 0 to |nicks|
        invariant State() == EmitAll(old(State()), KeysOf(jid, nicks[..i]), isTyping)
      {
        var key := Key(jid, nicks[i]);
        OneMoreKey(jid, nicks, i, old(State()), isTyping);
        if key in fixtures {
          live := live - {fixtures[key]};
        }
        fixtures := fixtures - {key};
        log := log + [Event(key, isTyping)];
        if isTyping {
          var fixture := |made|;
          made := made + [Fixture(key, 0)];
          fixtures := fixtures[key := fixture];
          live := live + {fixture};
        }
      }
      assert nicks[..|nicks|] == nicks;
    }

    method OnInterval(n: nat)
      requires n < |made|
      modifies this
      ensures State() == Step(old(State()), Callback(n))
    {
      var fixture := made[n];
      if fixture.key !in fixtures || fixtures[fixture.key] != n {
        return;
      }
      log := log + [Event(fixture.key, true)];
      made := made[n := fixture.(renewals := fixture.renewals + 1)];
    }
  }

  function KeysOf(jid: string, nicks: seq<string>): seq<Key> {
    seq(|nicks|, i requires 0 <= i < |nicks| => Key(jid, nicks[i]))
  }

  lemma NoKeys(jid: string, p: Page, on: bool)
    ensures EmitAll(p, KeysOf(jid, []), on) == p
  {
  }

  lemma OneMoreKey(jid: string, nicks: seq<string>, i: nat, p: Page, on: bool)
    requires i < |nicks|
    ensures EmitAll(p, KeysOf(jid, nicks[..i + 1]), on)
         == EmitOne(EmitAll(p, KeysOf(jid, nicks[..i]), on), Key(jid, nicks[i]), on)
  {
    var before, key := KeysOf(jid, nicks[..i]), Key(jid, nicks[i]);
    assert KeysOf(jid, nicks[..i + 1]) == before + [key] && (before + [key])[..i] == before;
  }

  // ---- What every run keeps ------------------------------------------------------

  // Whether the last event emitted for the participant says typing.
  predicate LastTyping(log: seq<Event>, key: Key) {
    log != [] &&
      (if log[|log| - 1].key == key then log[|log| - 1].isTyping else LastTyping(log[..|log| - 1], key))
  }

  // Fixture n is its participant's current one.
  predicate Current(p: Page, n: nat) {
    n < |p.made| && p.made[n].key in p.fixtures && p.fixtures[p.made[n].key] == n
  }

  // The live timers are those of the current fixtures.
  ghost predicate OneTimerEach(p: Page) {
    && (forall key | key in p.fixtures :: p.fixtures[key] < |p.made| && p.made[p.fixtures[key]].key == key)
    && forall n: nat :: n in p.live <==> Current(p, n)
  }

  // The last event says typing for exactly the participants in the map.
  ghost predicate LogAgrees(p: Page) {
    forall key :: LastTyping(p.log, key) <==> key in p.fixtures
  }

  ghost predicate Sound(p: Page) {
    OneTimerEach(p) && LogAgrees(p)
  }

  lemma {:induction false} EmitAllSound(p: Page, keys: seq<Key>, on: bool)
    requires Sound(p)
    ensures Sound(EmitAll(p, keys, on))
    decreases |keys|
  {
    hide Sound, EmitOne;
    if keys != [] {
      EmitAllSound(p, keys[..|keys| - 1], on);
      EmitOneSound(EmitAll(p, keys[..|keys| - 1], on), keys[|keys| - 1], on);
    }
  }

  lemma EmitOneSound(p: Page, key: Key, on: bool)
    requires Sound(p)
    ensures Sound(EmitOne(p, key, on))
  {
  }

  lemma FireSound(p: Page, n: nat)
    requires Sound(p)
    ensures Sound(Fire(p, n))
  {
  }

  // Over every run of calls and callbacks.
  lemma {:induction false} RunSound(p: Page, ops: seq<Op>)
    requires Sound(p)
    ensures Sound(Run(p, ops))
    decreases |ops|
  {
    hide Sound, EmitAll, Fire;
    if ops != [] {
      RunSound(p, ops[..|ops| - 1]);
      match ops[|ops| - 1]
      case Emit(keys, on) => EmitAllSound(Run(p, ops[..|ops| - 1]), keys, on);
      case Callback(n) => FireSound(Run(p, ops[..|ops| - 1]), n);
    }
  }

  // After any run from a fresh page: live timers are the map's entries, no two
  // participants share one, and a callback emits exactly if its timer is live.
  lemma Reached(ops: seq<Op>, n: nat)
    ensures var p := Run(EMPTY, ops);
            && p.live == p.fixtures.Values
            && (forall key :: LastTyping(p.log, key) <==> key in p.fixtures)
            && (forall a, b | a in p.fixtures && b in p.fixtures && a != b :: p.fixtures[a] != p.fixtures[b])
            && (n !in p.live ==> Fire(p, n) == p)
            && (n in p.live ==> n < |p.made| && p.made[n].key in p.fixtures
                                && Fire(p, n).log == p.log + [Event(p.made[n].key, true)])
  {
    RunSound(EMPTY, ops);
    var p := Run(EMPTY, ops);
    hide Run;
    forall m ensures m in p.live <==> m in p.fixtures.Values {
      assert m in p.live <==> Current(p, m);
    }
  }

  // ---- After a stop -------------------------------------------------------------------

  predicate NeverStarted(ops: seq<Op>, key: Key) {
    forall i | 0 <= i < |ops| :: ops[i].Emit? && ops[i].on ==> key !in ops[i].keys
  }

  // No event from index `from` on says the participant types.
  predicate SilentFrom(log: seq<Event>, from: nat, key: Key) {
    forall i | from <= i < |log| :: log[i] != Event(key, true)
  }

  predicate Stopped(p: Page, from: nat, key: Key) {
    key !in p.fixtures && from <= |p.log| && SilentFrom(p.log, from, key)
  }

  lemma {:induction false} EmitAllStopped(p: Page, keys: seq<Key>, on: bool, from: nat, key: Key)
    requires Stopped(p, from, key) && (on ==> key !in keys)
    ensures Stopped(EmitAll(p, keys, on), from, key)
    decreases |keys|
  {
    if keys != [] {
      EmitAllStopped(p, keys[..|keys| - 1], on, from, key);
      assert keys[|keys| - 1] in keys;
    }
  }

  // Nothing is emitted as typing from a stop to the next start, whatever
  // callbacks of cleared timers still run.
  lemma {:induction false} SilentUntilStart(p: Page, ops: seq<Op>, from: nat, key: Key)
    requires Stopped(p, from, key) && NeverStarted(ops, key)
    ensures Stopped(Run(p, ops), from, key)
    decreases |ops|
  {
    if ops != [] {
      var before, op := ops[..|ops| - 1], ops[|ops| - 1];
      SilentUntilStart(p, before, from, key);
      if op.Emit? {
        EmitAllStopped(Run(p, before), op.keys, op.on, from, key);
      }
    }
  }

  // ---- Counting --------------------------------------------------------------------------

  function TypingEvents(log: seq<Event>, key: Key): nat {
    if log == [] then 0
    else TypingEvents(log[..|log| - 1], key) + (if log[|log| - 1] == Event(key, true) then 1 else 0)
  }

  // Each fixture made for the participant emitted once and once per renewal.
  function StartsAndRenewals(made: seq<Fixture>, key: Key): nat {
    if made == [] then 0
    else StartsAndRenewals(made[..|made| - 1], key)
         + (if made[|made| - 1].key == key then 1 + made[|made| - 1].renewals else 0)
  }

  lemma {:induction false} RenewedOnce(made: seq<Fixture>, n: nat, key: Key)
    requires n < |made|
    ensures StartsAndRenewals(made[n := made[n].(renewals := made[n].renewals + 1)], key)
         == StartsAndRenewals(made, key) + (if made[n].key == key then 1 else 0)
  {
    var m := |made| - 1;
    var after := made[n := made[n].(renewals := made[n].renewals + 1)];
    if n == m {
      assert after[..m] == made[..m];
    } else {
      assert after[..m] == made[..m][n := made[n].(renewals := made[n].renewals + 1)];
      RenewedOnce(made[..m], n, key);
    }
  }

  predicate Counted(p: Page, key: Key) {
    TypingEvents(p.log, key) == StartsAndRenewals(p.made, key)
  }

  lemma {:induction false} EmitAllCounted(p: Page, keys: seq<Key>, on: bool, key: Key)
    requires Counted(p, key)
    ensures Counted(EmitAll(p, keys, on), key)
    decreases |keys|
  {
    if keys != [] {
      var before, k := EmitAll(p, keys[..|keys| - 1], on), keys[|keys| - 1];
      EmitAllCounted(p, keys[..|keys| - 1], on, key);
    }
  }

  // Over every run, the typing events of a participant are its starts and its
  // recorded renewals: none lost, none from a replaced timer.
  lemma {:induction false} EveryEventCounted(p: Page, ops: seq<Op>, key: Key)
    requires Counted(p, key)
    ensures Counted(Run(p, ops), key)
    decreases |ops|
  {
    hide Counted;
    if ops != [] {
      var before, op := ops[..|ops| - 1], ops[|ops| - 1];
      EveryEventCounted(p, before, key);
      match op
      case Emit(keys, on) => EmitAllCounted(Run(p, before), keys, on, key);
      case Callback(n) => FireCounted(Run(p, before), n, key);
    }
  }

  lemma FireCounted(p: Page, n: nat, key: Key)
    requires Counted(p, key)
    ensures Counted(Fire(p, n), key)
  {
    if n < |p.made| {
      RenewedOnce(p.made, n, key);
    }
  }
}
