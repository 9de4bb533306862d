/** The key store of packages/crypto/src/proxy/endpoint/api.ts: a map with its own counter of identifiers. */
module KeyStores {
  import opened Results

  /** A key: what it is, the user IDs on it, and whether its secret part is there. */
  datatype Key = Key(fingerprint: int, users: seq<string>, isPrivate: bool)

  datatype Store = Store(keys: map<nat, Key>, nextIdx: nat)

  /** The identifier under which a key is to be added. */
  function ChosenIdx(s: Store, customIdx: Option<nat>): nat {
    if customIdx.Some? then customIdx.value else s.nextIdx
  }

  /** The store with the key added; the counter moves on either way. */
  function Add(s: Store, key: Key, customIdx: Option<nat>): Result<Store, string> {
    var idx := ChosenIdx(s, customIdx);
    if idx in s.keys then Failure("already in use") else Success(Store(s.keys[idx := key], s.nextIdx + 1))
  }

  function Lookup(keys: map<nat, Key>, idx: nat): Option<Key> {
    if idx in keys then Some(keys[idx]) else None
  }

  /** What the worker does to its keys in one go, between two other messages. */
  datatype Command = Clear(idx: nat) | ClearAll | ReplaceUserIDs(source: nat, target: nat) | Read(idx: nat, worker: nat)

  /** The keys after a command; a command that throws leaves them as they were. */
  function Apply(keys: map<nat, Key>, c: Command): map<nat, Key> {
    match c
    case Clear(idx) => keys - {idx}
    case ClearAll => map[]
    case ReplaceUserIDs(source, target) =>
      if source in keys && target in keys && keys[source].fingerprint == keys[target].fingerprint then
        keys[target := keys[target].(users := keys[source].users)]
      else keys
    case Read(_, _) => keys
  }

  class KeyStore {
    var store: map<nat, Key>
    var nextIdx: nat
    /** The keys whose secret part has been erased. */
    var erased: set<Key>

    function State(): Store
      reads this
    {
      Store(store, nextIdx)
    }

    /** The counter starts at random. */
    constructor (start: nat)
      ensures State() == Store(map[], start) && erased == {}
    {
      store := map[];
      nextIdx := start;
      erased := {};
    }

    method AddKey(key: Key, customIdx: Option<nat>) returns (idx: Result<nat, string>)
      modifies `store, `nextIdx
      ensures var r := Add(old(State()), key, customIdx);
              && (r.Success? ==> State() == r.value && idx == Success(ChosenIdx(old(State()), customIdx)))
              && (r.Failure? ==> State() == old(State()) && idx == Failure(r.error))
    {
      var i := if customIdx.Some? then customIdx.value else nextIdx;
      if i in store {
        return Failure("already in use");
      }
      store := store[i := key];
      nextIdx := nextIdx + 1;
      return Success(i);
    }

    method Get(idx: nat) returns (key: Option<Key>)
      ensures key == Lookup(store, idx)
    {
      key := if idx in store then Some(store[idx]) else None;
    }

    method ClearStore()
      modifies `store, `erased
      ensures State() == Store(Apply(old(store), ClearAll), old(nextIdx))
      ensures forall key :: key in erased <==> key in old(erased) || (key in old(store).Values && key.isPrivate)
    {
      erased := erased + set key | key in store.Values && key.isPrivate;
      store := map[];
    }

    /** Throws, and changes nothing, if there is no such key. */
    method ClearKey(idx: nat) returns (ok: bool)
      modifies `store, `erased
      ensures ok == (idx in old(store))
      ensures State() == Store(Apply(old(store), Clear(idx)), old(nextIdx))
      ensures erased == old(erased) + if ok && old(store)[idx].isPrivate then {old(store)[idx]} else {}
    {
      ok := idx in store;
      if !ok {
        assert store - {idx} == store;
        return;
      }
      if store[idx].isPrivate {
        erased := erased + {store[idx]};
      }
      store := store - {idx};
    }

    method ReplaceUsers(source: nat, target: nat) returns (ok: bool)
      modifies `store
      ensures ok <==> source in old(store) && target in old(store)
                      && old(store)[source].fingerprint == old(store)[target].fingerprint
      ensures State() == Store(Apply(old(store), ReplaceUserIDs(source, target)), old(nextIdx))
    {
      if source !in store || target !in store || store[source].fingerprint != store[target].fingerprint {
        return false;
      }
      store := store[target := store[target].(users := store[source].users)];
      return true;
    }
  }
}
