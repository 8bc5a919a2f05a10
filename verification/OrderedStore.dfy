/**
 * The meaning of the script variables: a map from hash names to
 * insertion-ordered key/value lists. Scripts are given their semantics over
 * this store; the symbol table of the p-code header is proved to refine it.
 */
module OrderedStore {
  import opened Common

  datatype Pair = Pair(key: string, value: string)
  type Store = map<string, seq<Pair>>

  function Find(pairs: seq<Pair>, key: string): Option<string> {
    if pairs == [] then None
    else if pairs[0].key == key then Some(pairs[0].value)
    else Find(pairs[1..], key)
  }

  /** Overwrites the value of key in place, or adds the key at the end. */
  function Upsert(pairs: seq<Pair>, key: string, value: string): seq<Pair> {
    if pairs == [] then [Pair(key, value)]
    else if pairs[0].key == key then [Pair(key, value)] + pairs[1..]
    else [pairs[0]] + Upsert(pairs[1..], key, value)
  }

  function Contents(store: Store, name: string): seq<Pair> {
    if name in store then store[name] else []
  }

  function Lookup(store: Store, name: string, key: string): Option<string> {
    Find(Contents(store, name), key)
  }

  function Put(store: Store, name: string, key: string, value: string): Store {
    store[name := Upsert(Contents(store, name), key, value)]
  }

  /** xplcmd empties the hash it sends; a hash that was never stored to stays undefined. */
  function Clear(store: Store, name: string): Store {
    if name in store then store[name := []] else store
  }

  function Keys(pairs: seq<Pair>): (keys: seq<string>)
    ensures |keys| == |pairs|
  {
    seq(|pairs|, i requires 0 <= i < |pairs| => pairs[i].key)
  }

  // What a history of updates means, read off the history itself.

  datatype Update =
    | PutUpdate(name: string, key: string, value: string)
    | ClearUpdate(name: string)

  /** A store after a history of updates. */
  function Replay(start: Store, history: seq<Update>): Store
    decreases |history|
  {
    if history == [] then start
    else
      var before := Replay(start, history[..|history| - 1]);
      match history[|history| - 1]
      case PutUpdate(name, key, value) => Put(before, name, key, value)
      case ClearUpdate(name) => Clear(before, name)
  }

  /**
   * The value most recently stored under the key, unless the hash was cleared
   * since; with neither, the value at the start.
   */
  function LastStored(start: Store, history: seq<Update>, name: string, key: string): Option<string>
    decreases |history|
  {
    if history == [] then Lookup(start, name, key)
    else
      match history[|history| - 1]
      case PutUpdate(n, k, v) =>
        if n == name && k == key then Some(v)
        else LastStored(start, history[..|history| - 1], name, key)
      case ClearUpdate(n) =>
        if n == name then None else LastStored(start, history[..|history| - 1], name, key)
  }

  /** The keys stored since the last clear, in the order of their first store, behind those at the start. */
  function FirstStoredOrder(start: Store, history: seq<Update>, name: string): seq<string>
    decreases |history|
  {
    if history == [] then Keys(Contents(start, name))
    else
      var before := FirstStoredOrder(start, history[..|history| - 1], name);
      match history[|history| - 1]
      case PutUpdate(n, k, _) => if n == name && k !in before then before + [k] else before
      case ClearUpdate(n) => if n == name then [] else before
  }

  predicate EverStored(start: Store, history: seq<Update>, name: string) {
    name in start || exists i :: 0 <= i < |history| && history[i].PutUpdate? && history[i].name == name
  }

  lemma {:induction false} FindUpsert(pairs: seq<Pair>, key: string, value: string, k: string)
    ensures Find(Upsert(pairs, key, value), k) == if k == key then Some(value) else Find(pairs, k)
  {
    if pairs != [] && pairs[0].key != key {
      FindUpsert(pairs[1..], key, value, k);
      assert Upsert(pairs, key, value)[1..] == Upsert(pairs[1..], key, value);
    }
  }

  /** Overwriting keeps every position; a new key goes to the end. */
  lemma {:induction false} KeysUpsert(pairs: seq<Pair>, key: string, value: string)
    ensures Keys(Upsert(pairs, key, value))
         == if key in Keys(pairs) then Keys(pairs) else Keys(pairs) + [key]
  {
    if pairs != [] {
      var rest := pairs[1..];
      assert Keys(pairs) == [pairs[0].key] + Keys(rest);
      if pairs[0].key == key {
        assert Keys(Upsert(pairs, key, value)) == Keys(pairs);
      } else {
        KeysUpsert(rest, key, value);
        assert key in Keys(pairs) <==> key in Keys(rest);
        assert Keys(Upsert(pairs, key, value)) == [pairs[0].key] + Keys(Upsert(rest, key, value));
      }
    }
  }

  lemma EverStoredStep(start: Store, history: seq<Update>, name: string)
    requires history != []
    ensures
      var init, last := history[..|history| - 1], history[|history| - 1];
      EverStored(start, history, name) <==> EverStored(start, init, name) || (last.PutUpdate? && last.name == name)
  {
    var n := |history| - 1;
    var init := history[..n];
    assert forall i :: 0 <= i < n ==> init[i] == history[i];
    if name !in start && EverStored(start, init, name) {
      var i :| 0 <= i < |init| && init[i].PutUpdate? && init[i].name == name;
      assert history[i].PutUpdate? && history[i].name == name;
    }
    if history[n].PutUpdate? && history[n].name == name {
      assert EverStored(start, history, name);
    }
  }

  lemma {:induction false} ReplayDefined(start: Store, history: seq<Update>, name: string)
    ensures name in Replay(start, history) <==> EverStored(start, history, name)
    decreases |history|
  {
    if history != [] {
      ReplayDefined(start, history[..|history| - 1], name);
      EverStoredStep(start, history, name);
    }
  }

  lemma {:induction false} ReplayKeys(start: Store, history: seq<Update>, name: string)
    ensures Keys(Contents(Replay(start, history), name)) == FirstStoredOrder(start, history, name)
    decreases |history|
  {
    if history != [] {
      var init, last := history[..|history| - 1], history[|history| - 1];
      ReplayKeys(start, init, name);
      if last.PutUpdate? && last.name == name {
        KeysUpsert(Contents(Replay(start, init), name), last.key, last.value);
      }
    }
  }

  lemma {:induction false} OrderDistinct(start: Store, history: seq<Update>, name: string)
    requires Distinct(Keys(Contents(start, name)))
    ensures Distinct(FirstStoredOrder(start, history, name))
    decreases |history|
  {
    if history != [] {
      var init, last := history[..|history| - 1], history[|history| - 1];
      OrderDistinct(start, init, name);
      if last.PutUpdate? && last.key !in FirstStoredOrder(start, init, name) {
        DistinctAppended(FirstStoredOrder(start, init, name), last.key);
      }
    }
  }

  lemma {:induction false} ReplayLookup(start: Store, history: seq<Update>, name: string, key: string)
    ensures Lookup(Replay(start, history), name, key) == LastStored(start, history, name, key)
    decreases |history|
  {
    if history != [] {
      var init, last := history[..|history| - 1], history[|history| - 1];
      ReplayLookup(start, init, name, key);
      if last.PutUpdate? && last.name == name {
        FindUpsert(Contents(Replay(start, init), name), last.key, last.value, key);
      }
    }
  }

  /**
   * After any history of stores and clears: a hash is defined exactly when it
   * was at the start or something was ever stored in it; it lists each of its
   * keys once, in order of first store, if it did at the start; and looking a
   * key up gives the last value stored.
   */
  lemma ReplayMeaning(start: Store, history: seq<Update>, name: string)
    ensures name in Replay(start, history) <==> EverStored(start, history, name)
    ensures Keys(Contents(Replay(start, history), name)) == FirstStoredOrder(start, history, name)
    ensures Distinct(Keys(Contents(start, name))) ==> Distinct(FirstStoredOrder(start, history, name))
    ensures forall key :: Lookup(Replay(start, history), name, key) == LastStored(start, history, name, key)
  {
    ReplayDefined(start, history, name);
    ReplayKeys(start, history, name);
    if Distinct(Keys(Contents(start, name))) {
      OrderDistinct(start, history, name);
    }
    forall key ensures Lookup(Replay(start, history), name, key) == LastStored(start, history, name, key) {
      ReplayLookup(start, history, name, key);
    }
  }
}
