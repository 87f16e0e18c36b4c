/** The two-level option cache (app/main.py:277-304, 403-483): a dictionary in front of a table. Both clocks of the
    source are one here, calls do not overlap, and the database works. */
module OptionCache {
  import opened Wrappers

  type Value = seq<string>

  /** A cache key; the source builds them with the kind in fourth place. */
  datatype Key = Key(account: string, kind: string, rest: seq<string>)

  datatype Entry = Entry(expiresAt: real, value: Value)

  datatype Row = Row(kind: string, entry: Entry)

  datatype Levels = Levels(memory: map<Key, Entry>, rows: map<Key, Row>)

  /** PERSISTENT_OPTION_KINDS and OPTION_CACHE_TTLS. */
  datatype Config = Config(persistent: set<string>, ttls: map<string, real>)

  const CAPACITY: nat := 2000

  function Max(a: real, b: real): real {
    if a < b then b else a
  }

  // ---------------------------------------------------------------- the operations as functions

  function Looked(c: Config, s: Levels, key: Key, now: real): (Levels, Option<Value>) {
    if key in s.memory && s.memory[key].expiresAt > now then (s, Some(s.memory[key].value))
    else
      var dropped := s.(memory := s.memory - {key});
      if key.kind !in c.persistent then (dropped, None)
      else if key in s.rows && s.rows[key].entry.expiresAt > now then
        var entry := s.rows[key].entry;
        (dropped.(memory := dropped.memory[key := Entry(now + Max(1.0, entry.expiresAt - now), entry.value)]),
         Some(entry.value))
      else (dropped, None)
  }

  function Ttl(c: Config, kind: string, override: Option<real>): real {
    match override
    case Some(ttl) => ttl
    case None => if kind in c.ttls then c.ttls[kind] else 0.0
  }

  function Stored(c: Config, s: Levels, kind: string, key: Key, value: Value, override: Option<real>, now: real): Levels {
    var ttl := Ttl(c, kind, override);
    if ttl <= 0.0 then s
    else
      var entry := Entry(now + ttl, value);
      var memory := if |s.memory| > CAPACITY then map[] else s.memory;
      Levels(memory[key := entry],
            if kind in c.persistent && value != [] then s.rows[key := Row(kind, entry)] else s.rows)
  }

  predicate Covered(account: Option<string>, kinds: set<string>, key: Key) {
    (account == None || account == Some(key.account)) && (kinds == {} || key.kind in kinds)
  }

  function Cleared(s: Levels, account: Option<string>, kinds: set<string>): Levels {
    Levels(map key | key in s.memory && !Covered(account, kinds, key) :: s.memory[key],
          map key | key in s.rows && s.rows[key].kind !in kinds :: s.rows[key])
  }

  // ---------------------------------------------------------------- the operations as the source runs them

  class Cache {
    const config: Config
    var memory: map<Key, Entry>
    var rows: map<Key, Row>

    function Held(): Levels
      reads this
    {
      Levels(memory, rows)
    }

    constructor (config: Config)
      ensures this.config == config && Held() == Levels(map[], map[])
    {
      this.config := config;
      memory, rows := map[], map[];
    }

    method Lookup(key: Key, now: real) returns (found: Option<Value>)
      modifies this
      ensures (Held(), found) == Looked(config, old(Held()), key, now)
    {
      if key in memory {
        if memory[key].expiresAt > now { return Some(memory[key].value); }
        memory := memory - {key};
      }
      assert key !in memory ==> memory - {key} == memory;
      if key.kind !in config.persistent { return None; }
      if key !in rows || rows[key].entry.expiresAt <= now { return None; }
      var value := rows[key].entry.value;
      var ttl := Max(1.0, rows[key].entry.expiresAt - now);
      memory := memory[key := Entry(now + ttl, value)];
      return Some(value);
    }

    method Set(kind: string, key: Key, value: Value, override: Option<real>, now: real)
      modifies this
      ensures Held() == Stored(config, old(Held()), kind, key, value, override, now)
    {
      var ttl := Ttl(config, kind, override);
      if ttl <= 0.0 { return; }
      if |memory| > CAPACITY { memory := map[]; }
      memory := memory[key := Entry(now + ttl, value)];
      if kind in config.persistent && value != [] { rows := rows[key := Row(kind, Entry(now + ttl, value))]; }
    }

    method Clear(account: Option<string>, kinds: set<string>)
      modifies this
      ensures Held() == Cleared(old(Held()), account, kinds)
    {
      if account == None && kinds == {} {
        memory := map[];
        assert Held().memory == Cleared(old(Held()), account, kinds).memory;
        assert Held().rows == Cleared(old(Held()), account, kinds).rows;
        return;
      }
      var keys := memory.Keys;
      while keys != {}
        invariant keys <= memory.Keys <= old(memory).Keys && rows == old(rows)
        invariant forall key :: key in memory ==> memory[key] == old(memory)[key]
        invariant forall key :: key in old(memory) && key !in keys ==> (key in memory <==> !Covered(account, kinds, key))
        decreases |keys|
      {
        var key :| key in keys;
        keys := keys - {key};
        if account != None && account != Some(key.account) { continue; }
        if kinds != {} && key.kind !in kinds { continue; }
        memory := memory - {key};
      }
      assert memory == Cleared(old(Held()), account, kinds).memory;
      if kinds != {} {
        rows := map key | key in rows && rows[key].kind !in kinds :: rows[key];
      }
      assert rows == Cleared(old(Held()), account, kinds).rows;
    }
  }

  // ---------------------------------------------------------------- runs

  datatype Operation =
    | Get(key: Key, now: real)
    | Put(key: Key, value: Value, override: Option<real>, now: real)
    | Forget(account: Option<string>, kinds: set<string>)

  /** The source always stores a value under the kind its key names. */
  function Step(c: Config, s: Levels, op: Operation): Levels {
    match op
    case Get(key, now) => Looked(c, s, key, now).0
    case Put(key, value, override, now) => Stored(c, s, key.kind, key, value, override, now)
    case Forget(account, kinds) => Cleared(s, account, kinds)
  }

  function Run(c: Config, ops: seq<Operation>): Levels {
    if ops == [] then Levels(map[], map[]) else Step(c, Run(c, ops[..|ops| - 1]), ops[|ops| - 1])
  }

  /**
   * The reference: what was set last under each key, and until when it may be served. Forgetting a kind for every
   * account forgets all of it.
   */
  function Latest(c: Config, ops: seq<Operation>): map<Key, Entry> {
    if ops == [] then map[] else Noted(c, Latest(c, ops[..|ops| - 1]), ops[|ops| - 1])
  }

  function Noted(c: Config, latest: map<Key, Entry>, op: Operation): map<Key, Entry> {
    match op
    case Get(_, _) => latest
    case Put(key, value, override, now) =>
      var ttl := if override.Some? then override.value else if key.kind in c.ttls then c.ttls[key.kind] else 0.0;
      if ttl > 0.0 then latest[key := Entry(now + ttl, value)] else latest
    case Forget(account, kinds) =>
      if account == None then map key | key in latest && key.kind !in kinds :: latest[key] else latest
  }

  /** Both levels hold nothing but what was set last, and the dictionary outlives it by less than a second. */
  predicate Refines(c: Config, s: Levels, latest: map<Key, Entry>) {
    && (forall key :: key in s.memory ==>
          && key in latest && s.memory[key].value == latest[key].value
          && s.memory[key].expiresAt < latest[key].expiresAt + 1.0)
    && (forall key :: key in s.rows ==>
          && key in latest && s.rows[key].entry == latest[key] && s.rows[key].entry.value != []
          && s.rows[key].kind == key.kind && key.kind in c.persistent)
  }

  /** The one call that can leave an old row behind a new value: an empty value is not written to the table. */
  predicate LeavesOldRow(c: Config, s: Levels, op: Operation) {
    op.Put? && op.value == [] && Ttl(c, op.key.kind, op.override) > 0.0 && op.key in s.rows
  }

  lemma PutRefines(c: Config, s: Levels, latest: map<Key, Entry>, op: Operation)
    requires Refines(c, s, latest) && op.Put?
    ensures Refines(c, Step(c, s, op), Noted(c, latest, op)) <==> !LeavesOldRow(c, s, op)
  {
    if LeavesOldRow(c, s, op) {
      assert op.key in Step(c, s, op).rows && Step(c, s, op).rows[op.key].entry.value != [];
    }
  }

  lemma GetRefines(c: Config, s: Levels, latest: map<Key, Entry>, op: Operation)
    requires Refines(c, s, latest) && op.Get?
    ensures Refines(c, Step(c, s, op), Noted(c, latest, op))
  {
    hide Ttl, Stored, Cleared;
  }

  /** Every call keeps the levels in step with what was set last, except exactly the one that leaves an old row. */
  lemma StepRefines(c: Config, s: Levels, latest: map<Key, Entry>, op: Operation)
    requires Refines(c, s, latest)
    ensures Refines(c, Step(c, s, op), Noted(c, latest, op)) <==> !LeavesOldRow(c, s, op)
  {
    match op
    case Get(_, _) =>
      GetRefines(c, s, latest, op);
    case Put(_, _, _, _) =>
      PutRefines(c, s, latest, op);
    case Forget(account, kinds) =>
      hide Ttl, Stored, Looked;
  }

  /** No call of the run left an old row behind a new, empty value. */
  predicate Tidy(c: Config, ops: seq<Operation>) {
    forall i :: 0 <= i < |ops| ==> !LeavesOldRow(c, Run(c, ops[..i]), ops[i])
  }

  lemma {:induction false} RunRefines(c: Config, ops: seq<Operation>)
    requires Tidy(c, ops)
    ensures Refines(c, Run(c, ops), Latest(c, ops))
  {
    assert Refines(c, Levels(map[], map[]), map[]);
    hide Refines, Step, Noted, LeavesOldRow;
    if ops != [] {
      var n := |ops| - 1;
      forall i | 0 <= i < n ensures !LeavesOldRow(c, Run(c, ops[..n][..i]), ops[..n][i]) {
        assert ops[..n][..i] == ops[..i];
      }
      RunRefines(c, ops[..n]);
      StepRefines(c, Run(c, ops[..n]), Latest(c, ops[..n]), ops[n]);
    }
  }

  /**
   * After any run of calls, a look-up finds nothing or the value set last under the key, less than one second past its
   * expiry, and never one from before its kind was forgotten for all accounts.
   */
  lemma FindsLatest(c: Config, ops: seq<Operation>, key: Key, now: real)
    requires Tidy(c, ops)
    ensures var found := Looked(c, Run(c, ops), key, now).1;
      found.Some? ==>
        && key in Latest(c, ops) && found.value == Latest(c, ops)[key].value
        && now < Latest(c, ops)[key].expiresAt + 1.0
  {
    RunRefines(c, ops);
  }

  /** The call clears rows of this kind for the sake of one account. */
  predicate ClearsForOne(op: Operation, kind: string) {
    op.Forget? && op.account != None && kind in op.kinds
  }

  lemma StepCompletes(c: Config, s: Levels, latest: map<Key, Entry>, op: Operation, key: Key)
    requires Refines(c, s, latest) && !ClearsForOne(op, key.kind)
    requires key in latest && key.kind in c.persistent && latest[key].value != [] ==>
      key in s.rows && s.rows[key].entry == latest[key]
    ensures var after := Noted(c, latest, op);
      key in after && key.kind in c.persistent && after[key].value != [] ==>
        key in Step(c, s, op).rows && Step(c, s, op).rows[key].entry == after[key]
  {
  }

  lemma {:induction false} RunCompletes(c: Config, ops: seq<Operation>, key: Key)
    requires Tidy(c, ops) && forall i :: 0 <= i < |ops| ==> !ClearsForOne(ops[i], key.kind)
    ensures key in Latest(c, ops) && key.kind in c.persistent && Latest(c, ops)[key].value != [] ==>
      key in Run(c, ops).rows && Run(c, ops).rows[key].entry == Latest(c, ops)[key]
  {
    hide Refines, Step, Noted, LeavesOldRow, ClearsForOne;
    if ops != [] {
      var n := |ops| - 1;
      forall i | 0 <= i < n ensures !LeavesOldRow(c, Run(c, ops[..n][..i]), ops[..n][i]) {
        assert ops[..n][..i] == ops[..i];
      }
      RunCompletes(c, ops[..n], key);
      RunRefines(c, ops[..n]);
      StepCompletes(c, Run(c, ops[..n]), Latest(c, ops[..n]), ops[n], key);
    }
  }

  /**
   * The other half: a value of a persistent kind is found from when it was set until it expires or its kind is
   * cleared, however full the dictionary gets.
   */
  lemma FindsFresh(c: Config, ops: seq<Operation>, key: Key, now: real)
    requires Tidy(c, ops) && forall i :: 0 <= i < |ops| ==> !ClearsForOne(ops[i], key.kind)
    requires key.kind in c.persistent && key in Latest(c, ops) && Latest(c, ops)[key].value != []
    requires now < Latest(c, ops)[key].expiresAt
    ensures Looked(c, Run(c, ops), key, now).1 == Some(Latest(c, ops)[key].value)
  {
    hide Tidy, Run, Latest;
    RunRefines(c, ops);
    RunCompletes(c, ops, key);
  }

  /** Exactly when a key survives a clearing: in the dictionary unless it is covered, in the table unless its kind is. */
  lemma ClearedExactly(c: Config, s: Levels, account: Option<string>, kinds: set<string>, key: Key, now: real)
    requires key in s.rows ==> s.rows[key].kind == key.kind
    ensures Looked(c, Cleared(s, account, kinds), key, now).1.Some?
       <==> || (key in s.memory && s.memory[key].expiresAt > now && !Covered(account, kinds, key))
            || (key.kind in c.persistent && key.kind !in kinds && key in s.rows && s.rows[key].entry.expiresAt > now)
  {
  }

  /** What a value does to the other keys of the dictionary: nothing, unless it holds more than 2000 and all of them go. A
      value read back from the table is kept until its expiry, but at least for a second. */
  lemma OthersInMemory(c: Config, s: Levels, key: Key, value: Value, override: Option<real>, now: real, other: Key)
    requires other != key
    ensures
      var after := Step(c, s, Put(key, value, override, now));
      && (other in after.memory <==> other in s.memory && (after == s || |s.memory| <= 2000))
      && (other in after.memory ==> after.memory[other] == s.memory[other])
    ensures
      key !in s.memory && Looked(c, s, key, now).1.Some? ==>
        && key in s.rows && key in Looked(c, s, key, now).0.memory
        && var expiry := s.rows[key].entry.expiresAt;
           Looked(c, s, key, now).0.memory[key].expiresAt == if expiry < now + 1.0 then now + 1.0 else expiry
  {
  }

  /** An empty list does not replace the stored row: once the dictionary forgets it, the older value comes back. */
  lemma EmptyValueRevivesOld()
    ensures var c := Config({"flavors"}, map["flavors" := 100.0]);
      var key := Key("shared", "flavors", []);
      var ops := [Put(key, ["old"], None, 0.0), Put(key, [], Some(10.0), 1.0)];
      && !Tidy(c, ops)
      && Latest(c, ops)[key].value == []
      && Looked(c, Run(c, ops), key, 20.0).1 == Some(["old"])
  {
    var c := Config({"flavors"}, map["flavors" := 100.0]);
    var key := Key("shared", "flavors", []);
    var ops := [Put(key, ["old"], None, 0.0), Put(key, [], Some(10.0), 1.0)];
    assert ops[..1] == [ops[0]] && ops[..1][..0] == [];
    assert Run(c, ops[..1]) == Step(c, Levels(map[], map[]), ops[0]);
    assert LeavesOldRow(c, Run(c, ops[..1]), ops[1]);
    assert Latest(c, ops[..1]) == Noted(c, map[], ops[0]);
  }
}
