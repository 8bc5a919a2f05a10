/**
 * The symbol table of the p-code header (parser.c): a list of hashes, each a
 * list of key/value entries, both with cached hash words that are compared
 * before the strings are.
 */
module SymbolTable {
  import opened Common
  import opened StringHash
  import opened OrderedStore

  datatype KeyValue = KeyValue(hash: bv32, key: string, value: string)
  datatype Entry = Entry(hash: bv32, name: string, head: seq<KeyValue>)

  function NamesOf(entries: seq<Entry>): (names: seq<string>)
    ensures |names| == |entries|
  {
    seq(|entries|, i requires 0 <= i < |entries| => entries[i].name)
  }

  /** Names are unique in the table and keys in every hash. */
  ghost predicate UniqueNames(entries: seq<Entry>) {
    Distinct(NamesOf(entries)) && forall i :: 0 <= i < |entries| ==> Distinct(KeysOf(entries[i].head))
  }

  /** Every cached hash word is the hash of the string beside it. */
  ghost predicate Cached(entries: seq<Entry>) {
    forall i :: 0 <= i < |entries| ==>
      entries[i].hash == HashOf(entries[i].name) && CachedKeys(entries[i].head)
  }

  ghost predicate CachedKeys(kvs: seq<KeyValue>) {
    forall i :: 0 <= i < |kvs| ==> kvs[i].hash == HashOf(kvs[i].key)
  }

  function PairsOf(kvs: seq<KeyValue>): (pairs: seq<Pair>)
    ensures |pairs| == |kvs|
  {
    seq(|kvs|, i requires 0 <= i < |kvs| => Pair(kvs[i].key, kvs[i].value))
  }

  function KeysOf(kvs: seq<KeyValue>): seq<string> {
    Keys(PairsOf(kvs))
  }

  /** The store a list of entries stands for. */
  ghost function StoreOf(entries: seq<Entry>): Store {
    if entries == [] then map[]
    else
      var init, last := entries[..|entries| - 1], entries[|entries| - 1];
      StoreOf(init)[last.name := PairsOf(last.head)]
  }

  lemma {:induction false} StoreOfMissing(entries: seq<Entry>, name: string)
    requires forall i :: 0 <= i < |entries| ==> entries[i].name != name
    ensures name !in StoreOf(entries)
  {
    if entries != [] {
      StoreOfMissing(entries[..|entries| - 1], name);
    }
  }

  lemma UniqueNamesInit(entries: seq<Entry>)
    requires UniqueNames(entries) && entries != []
    ensures UniqueNames(entries[..|entries| - 1])
    ensures forall i :: 0 <= i < |entries| - 1 ==> entries[i].name != entries[|entries| - 1].name
  {
    var n := |entries| - 1;
    assert NamesOf(entries[..n]) == NamesOf(entries)[..n];
    forall i | 0 <= i < n ensures entries[i].name != entries[n].name {
      assert NamesOf(entries)[i] != NamesOf(entries)[n];
    }
  }

  lemma {:induction false} StoreOfAt(entries: seq<Entry>, i: nat)
    requires UniqueNames(entries) && i < |entries|
    ensures entries[i].name in StoreOf(entries)
    ensures StoreOf(entries)[entries[i].name] == PairsOf(entries[i].head)
  {
    UniqueNamesInit(entries);
    if i < |entries| - 1 {
      StoreOfAt(entries[..|entries| - 1], i);
    }
  }

  /** Replacing the list of one hash changes the store at that name only. */
  lemma {:induction false} StoreOfUpdate(entries: seq<Entry>, i: nat, head: seq<KeyValue>)
    requires UniqueNames(entries) && i < |entries| && Distinct(KeysOf(head))
    ensures UniqueNames(entries[i := entries[i].(head := head)])
    ensures StoreOf(entries[i := entries[i].(head := head)])
         == StoreOf(entries)[entries[i].name := PairsOf(head)]
  {
    var n := |entries| - 1;
    var updated := entries[i := entries[i].(head := head)];
    UniqueNamesInit(entries);
    assert NamesOf(updated) == NamesOf(entries);
    if i == n {
      assert updated[..n] == entries[..n];
      assert StoreOf(updated) == StoreOf(entries[..n])[entries[n].name := PairsOf(head)];
    } else {
      StoreOfUpdate(entries[..n], i, head);
      assert updated[..n] == entries[..n][i := entries[i].(head := head)];
      assert StoreOf(updated) == StoreOf(updated[..n])[entries[n].name := PairsOf(entries[n].head)];
    }
  }

  lemma {:induction false} FindPairs(kvs: seq<KeyValue>, i: nat, key: string)
    requires i <= |kvs|
    requires forall j :: 0 <= j < i ==> kvs[j].key != key
    requires i < |kvs| ==> kvs[i].key == key
    ensures Find(PairsOf(kvs), key) == if i < |kvs| then Some(kvs[i].value) else None
  {
    if kvs != [] {
      assert PairsOf(kvs)[1..] == PairsOf(kvs[1..]);
      if i > 0 {
        FindPairs(kvs[1..], i - 1, key);
      }
    }
  }

  lemma PairsCons(kv: KeyValue, rest: seq<KeyValue>)
    ensures PairsOf([kv] + rest) == [Pair(kv.key, kv.value)] + PairsOf(rest)
  {
  }

  /** The list with the entry put at position i, or behind the end. */
  function Replaced(kvs: seq<KeyValue>, i: nat, kv: KeyValue): seq<KeyValue>
    requires i <= |kvs|
  {
    if i < |kvs| then kvs[i := kv] else kvs + [kv]
  }

  lemma ReplacedCons(kvs: seq<KeyValue>, i: nat, kv: KeyValue)
    requires 0 < i <= |kvs|
    ensures Replaced(kvs, i, kv) == [kvs[0]] + Replaced(kvs[1..], i - 1, kv)
  {
  }

  lemma {:induction false} UpsertPairs(kvs: seq<KeyValue>, i: nat, kv: KeyValue)
    requires i <= |kvs|
    requires forall j :: 0 <= j < i ==> kvs[j].key != kv.key
    requires i < |kvs| ==> kvs[i].key == kv.key
    ensures Upsert(PairsOf(kvs), kv.key, kv.value) == PairsOf(Replaced(kvs, i, kv))
    decreases i
  {
    if kvs != [] {
      var rest := kvs[1..];
      assert kvs == [kvs[0]] + rest;
      PairsCons(kvs[0], rest);
      if i > 0 {
        UpsertPairs(rest, i - 1, kv);
        ReplacedCons(kvs, i, kv);
        PairsCons(kvs[0], Replaced(rest, i - 1, kv));
      } else {
        assert Replaced(kvs, 0, kv) == [kv] + rest;
        PairsCons(kv, rest);
      }
    }
  }

  class Table {
    var steHead: seq<Entry>

    ghost predicate Valid()
      reads this
    {
      UniqueNames(steHead) && Cached(steHead)
    }

    ghost function Store(): Store
      reads this
    {
      StoreOf(steHead)
    }

    constructor ()
      ensures Valid() && Store() == map[]
    {
      steHead := [];
    }

    /** The position of the hash, or the end of the list when it is not defined. */
    method FindHash(hashName: string) returns (i: nat)
      requires Valid()
      ensures i <= |steHead|
      ensures i < |steHead| <==> hashName in Store()
      ensures forall j :: 0 <= j < i ==> steHead[j].name != hashName
      ensures i < |steHead| ==>
        steHead[i].name == hashName && Contents(Store(), hashName) == PairsOf(steHead[i].head)
    {
      var hashVal := UtilHash(hashName);
      i := 0;
      while i < |steHead| && !(steHead[i].hash == hashVal && steHead[i].name == hashName)
        invariant i <= |steHead|
        invariant forall j :: 0 <= j < i ==> steHead[j].name != hashName
      {
        i := i + 1;
      }
      if i < |steHead| {
        StoreOfAt(steHead, i);
      } else {
        StoreOfMissing(steHead, hashName);
      }
    }

    method FindKey(kvs: seq<KeyValue>, key: string) returns (i: nat)
      requires CachedKeys(kvs)
      ensures i <= |kvs|
      ensures forall j :: 0 <= j < i ==> kvs[j].key != key
      ensures i < |kvs| ==> kvs[i].key == key
    {
      var kh := UtilHash(key);
      i := 0;
      while i < |kvs| && !(kh == kvs[i].hash && kvs[i].key == key)
        invariant i <= |kvs|
        invariant forall j :: 0 <= j < i ==> kvs[j].key != key
      {
        i := i + 1;
      }
    }

    method GetValue(hashName: string, key: string) returns (value: Option<string>)
      requires Valid()
      ensures value == Lookup(Store(), hashName, key)
    {
      var h := FindHash(hashName);
      if h == |steHead| {
        return None;
      }
      var kvs := steHead[h].head;
      var k := FindKey(kvs, key);
      FindPairs(kvs, k, key);
      value := if k < |kvs| then Some(kvs[k].value) else None;
    }

    method HashAppend(name: string)
      requires Valid() && forall j :: 0 <= j < |steHead| ==> steHead[j].name != name
      modifies this
      ensures Valid() && |steHead| == old(|steHead|) + 1
      ensures steHead[old(|steHead|)].name == name && steHead[old(|steHead|)].head == []
      ensures Store() == old(Store())[name := []]
    {
      var word := UtilHash(name);
      var appended := steHead + [Entry(word, name, [])];
      assert appended[..|steHead|] == steHead;
      assert name !in NamesOf(steHead);
      DistinctAppended(NamesOf(steHead), name);
      assert NamesOf(appended) == NamesOf(steHead) + [name];
      steHead := appended;
    }

    /** Replaces the entry with the same key, or appends a new one. */
    method InsertKey(kvs: seq<KeyValue>, key: string, value: string) returns (changed: seq<KeyValue>)
      requires Distinct(KeysOf(kvs)) && CachedKeys(kvs)
      ensures Distinct(KeysOf(changed)) && CachedKeys(changed)
      ensures PairsOf(changed) == Upsert(PairsOf(kvs), key, value)
    {
      var word := UtilHash(key);
      var kvNew := KeyValue(word, key, value);
      var k := FindKey(kvs, key);
      UpsertPairs(kvs, k, kvNew);
      changed := if k < |kvs| then kvs[k := kvNew] else kvs + [kvNew];
      if k < |kvs| {
        assert KeysOf(changed) == KeysOf(kvs);
      } else {
        assert key !in KeysOf(kvs);
        DistinctAppended(KeysOf(kvs), key);
        assert KeysOf(changed) == KeysOf(kvs) + [key];
      }
    }

    method ReplaceContents(h: nat, changed: seq<KeyValue>)
      requires Valid() && h < |steHead| && Distinct(KeysOf(changed)) && CachedKeys(changed)
      modifies this
      ensures Valid() && Store() == old(Store())[old(steHead[h].name) := PairsOf(changed)]
    {
      StoreOfUpdate(steHead, h, changed);
      steHead := steHead[h := steHead[h].(head := changed)];
    }

    method AddKeyValue(hashName: string, key: string, value: string)
      requires Valid()
      modifies this
      ensures Valid() && Store() == Put(old(Store()), hashName, key, value)
    {
      var h := FindHash(hashName);
      if h == |steHead| {
        HashAppend(hashName);
        assert PairsOf([]) == [];
      }
      var changed := InsertKey(steHead[h].head, key, value);
      ReplaceContents(h, changed);
    }

    /** Empties the hash at the given position; its entry stays. */
    method DeleteHashContents(h: nat)
      requires Valid() && h < |steHead|
      modifies this
      ensures Valid()
      ensures Store() == Clear(old(Store()), old(steHead[h].name))
    {
      StoreOfAt(steHead, h);
      assert PairsOf([]) == [];
      ReplaceContents(h, []);
    }
  }
}
