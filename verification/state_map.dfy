/**
 The shared server state `StateMap` (src/main.rs:146-175).

 The read-only part is `Config`: the two hosts, the template, the charset and
 the two URL builders of the `url` crate, which are parameters of the model.
 The shared mutable part is `Server`: the token registry (a map from session
 id to the latest token) and the wait queue of parked tasks. The locks around
 them are left out: the model is sequential.
 */
module StateMap {
  import opened Wrappers
  import opened Numbers

  /** An opaque handle for a suspended request (a `futures::task::Task`). */
  type TaskId = nat

  type Registry = map<string, string>

  datatype Config = Config(
    pollingHost: string,
    callbackHost: string,
    template: string,
    charset: string,
    /** `craft_polling_url(host, id, len).to_string()` */
    pollingUrl: (string, string, u32) -> string,
    /** `craft_callback_url(host, id, token).to_string()` */
    callbackUrl: (string, string, string) -> string)

  datatype Server = Server(registry: Registry, queue: seq<TaskId>)

  /** The state `StateMap::new` starts from: no tokens, no parked tasks. */
  const Initial: Server := Server(map[], [])

  /** `get_token`: the token stored for `id`, if any callback recorded one. */
  function GetToken(reg: Registry, id: string): (r: Option<string>)
    ensures r.Some? <==> id in reg
    ensures r.Some? ==> r.value == reg[id]
  {
    if id in reg then Some(reg[id]) else None
  }

  /** `insert_or_update_token`: replaces the token stored for `id`; other ids are untouched. */
  function InsertOrUpdate(reg: Registry, id: string, value: string): (r: Registry)
    ensures GetToken(r, id) == Some(value)
    ensures forall other :: other != id ==> GetToken(r, other) == GetToken(reg, other)
    ensures r.Keys == reg.Keys + {id}
  {
    reg[id := value]
  }

  /** Inserts the pairs one after the other, as `HashMap::insert` in a loop does. */
  function InsertAll(reg: Registry, pairs: seq<(string, string)>): Registry
    decreases |pairs|
  {
    if |pairs| == 0 then reg else InsertAll(InsertOrUpdate(reg, pairs[0].0, pairs[0].1), pairs[1..])
  }

  /** The value of the last pair whose key is `key`, searching from the back. */
  function LastValue(pairs: seq<(string, string)>, key: string): Option<string>
    decreases |pairs|
  {
    if |pairs| == 0 then None
    else if pairs[|pairs| - 1].0 == key then Some(pairs[|pairs| - 1].1)
    else LastValue(pairs[..|pairs| - 1], key)
  }

  /** Looking at the front pair: a later pair for the key overrides it. */
  lemma {:induction false} LastValueFront(pairs: seq<(string, string)>, key: string)
    requires |pairs| > 0
    ensures LastValue(pairs, key) ==
      if LastValue(pairs[1..], key).Some? then LastValue(pairs[1..], key)
      else if pairs[0].0 == key then Some(pairs[0].1)
      else None
    decreases |pairs|
  {
    if |pairs| > 1 {
      var init := pairs[..|pairs| - 1];
      LastValueFront(init, key);
      assert init[1..] == pairs[1..][..|pairs[1..]| - 1];
    }
  }

  /**
   After a run of upserts, the registry holds for each id the value of the last
   upsert for it, or what it held before if there was none: last write wins.
   */
  lemma {:induction false} InsertAllLastWins(reg: Registry, pairs: seq<(string, string)>, key: string)
    ensures GetToken(InsertAll(reg, pairs), key) ==
      if LastValue(pairs, key).Some? then LastValue(pairs, key) else GetToken(reg, key)
    decreases |pairs|
  {
    if |pairs| > 0 {
      InsertAllLastWins(InsertOrUpdate(reg, pairs[0].0, pairs[0].1), pairs[1..], key);
      LastValueFront(pairs, key);
    }
  }

  /** An id that no upsert names is absent from a registry built from nothing. */
  lemma NeverInserted(pairs: seq<(string, string)>, key: string)
    requires forall i :: 0 <= i < |pairs| ==> pairs[i].0 != key
    ensures GetToken(InsertAll(Initial.registry, pairs), key) == None
  {
    InsertAllLastWins(Initial.registry, pairs, key);
    LastValueAbsent(pairs, key);
  }

  lemma {:induction false} LastValueAbsent(pairs: seq<(string, string)>, key: string)
    requires forall i :: 0 <= i < |pairs| ==> pairs[i].0 != key
    ensures LastValue(pairs, key) == None
    decreases |pairs|
  {
    if |pairs| > 0 {
      LastValueAbsent(pairs[..|pairs| - 1], key);
    }
  }
}
