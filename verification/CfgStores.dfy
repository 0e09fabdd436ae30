// The reference-counted configuration stores of cfg/src/cfg.c, and the items parsed into them.

module CfgStores {
  import opened Common

  // ---------- items ----------

  datatype Fallback = ValueOrDefault | ValueOrClamp
  datatype Kind = Int32 | Uint32 | Bool | String | Mac | Ipv4 | Ipv6

  /** struct cfg_meta; min and max are int32_t whatever the kind, and lengths for a string. */
  datatype Meta = Meta(kind: Kind, min: int, max: int, fallback: Fallback)

  datatype Value = Number(n: int) | Flag(b: bool) | Text(s: string) | Address(bytes: seq<bv8>)

  /** A line of an INI file: a name and a text, with what the parsers of qdf_types.c make of the
      text for an item of the kind: nothing if it has not their format. */
  datatype Item = Item(name: string, text: string, number: Option<int>, flag: Option<bool>, address: Option<seq<bv8>>)

  function AddressLength(kind: Kind): nat {
    match kind
    case Mac => 6
    case Ipv4 => 4
    case Ipv6 => 16
    case _ => 0
  }

  /** A bound of the item, cast to uint32_t for an unsigned one. */
  function Bound(kind: Kind, n: int): int {
    if kind == Uint32 then n % UINT32 else n
  }

  predicate InBounds(m: Meta, v: int) {
    Bound(m.kind, m.min) <= v <= Bound(m.kind, m.max)
  }

  /** A value of the item's kind. */
  predicate Fitting(m: Meta, v: Value) {
    match m.kind
    case Int32 => v.Number?
    case Uint32 => v.Number?
    case Bool => v.Flag?
    case String => v.Text?
    case _ => v.Address? && |v.bytes| == AddressLength(m.kind)
  }

  /** A value the item may have: numbers within their bounds, texts within their lengths. */
  predicate Good(m: Meta, v: Value) {
    Fitting(m, v) && (v.Number? ==> InBounds(m, v.n)) && (v.Text? ==> m.min <= |v.s| <= m.max)
  }

  /** cfg_int_item_handler and cfg_uint_item_handler. */
  function NewNumber(m: Meta, before: Value, parsed: Option<int>): Value {
    var lo, hi := Bound(m.kind, m.min), Bound(m.kind, m.max);
    if parsed.None? || lo > hi then before
    else if lo <= parsed.value <= hi then Number(parsed.value)
    else if m.fallback == ValueOrDefault then before
    else if parsed.value < lo then Number(lo)
    else Number(hi)
  }

  /** The value an item has after its handler saw a line. */
  function NewValue(m: Meta, before: Value, it: Item): Value {
    match m.kind
    case Int32 => NewNumber(m, before, it.number)
    case Uint32 => NewNumber(m, before, it.number)
    case Bool => if it.flag.Some? then Flag(it.flag.value) else before
    case String => if 0 <= m.min <= m.max && m.min <= |it.text| <= m.max then Text(it.text) else before
    case _ =>
      if it.address.Some? && |it.address.value| == AddressLength(m.kind) then Address(it.address.value) else before
  }

  /** What is worth storing of a line: a number that fits or is clamped between bounds that make
      sense, a text whose length fits, a flag or an address that could be parsed. */
  predicate Acceptable(m: Meta, it: Item) {
    match m.kind
    case Bool => it.flag.Some?
    case String => 0 <= m.min && m.min <= |it.text| <= m.max
    case Mac => it.address.Some? && |it.address.value| == 6
    case Ipv4 => it.address.Some? && |it.address.value| == 4
    case Ipv6 => it.address.Some? && |it.address.value| == 16
    case _ =>
      it.number.Some? && Bound(m.kind, m.min) <= Bound(m.kind, m.max)
      && (InBounds(m, it.number.value) || m.fallback == ValueOrClamp)
  }

  /** Whatever the line, the item ends with a good value exactly when it had one or the line is
      acceptable, and the value is of the item's kind in any case. */
  lemma NewValueGoodIff(m: Meta, before: Value, it: Item)
    requires Fitting(m, before)
    ensures Fitting(m, NewValue(m, before, it))
    ensures Good(m, NewValue(m, before, it)) <==> Good(m, before) || Acceptable(m, it)
  {
  }

  type Values = map<string, Value>

  /** The values after the items of an INI file; unknown names are skipped. */
  function Parsed(metas: map<string, Meta>, values: Values, items: seq<Item>): Values {
    if items == [] then values
    else
      var it, before := items[|items| - 1], Parsed(metas, values, items[..|items| - 1]);
      if it.name in metas && it.name in before
      then before[it.name := NewValue(metas[it.name], before[it.name], it)]
      else before
  }

  /** Every item has a good value. */
  ghost predicate WellFormed(metas: map<string, Meta>, values: Values) {
    && values.Keys == metas.Keys
    && forall n | n in metas :: Good(metas[n], values[n])
  }

  /** Parsing any file into a store of good values leaves good values. */
  lemma {:induction false} ParsedWellFormed(metas: map<string, Meta>, values: Values, items: seq<Item>)
    requires WellFormed(metas, values)
    ensures WellFormed(metas, Parsed(metas, values, items))
  {
    if items != [] {
      var it := items[|items| - 1];
      ParsedWellFormed(metas, values, items[..|items| - 1]);
      if it.name in metas {
        NewValueGoodIff(metas[it.name], Parsed(metas, values, items[..|items| - 1])[it.name], it);
      }
    }
  }

  // ---------- counting ----------

  /** The psocs that use store `s`. */
  ghost function Using(psocs: map<nat, Store>, s: Store): set<nat> {
    set p | p in psocs && psocs[p] == s
  }

  lemma InUse(psocs: map<nat, Store>, p: nat)
    requires p in psocs
    ensures |Using(psocs, psocs[p])| > 0
  {
    assert p in Using(psocs, psocs[p]);
  }

  lemma NobodyUses(s: Store, stores: seq<Store>)
    requires s in stores
    ensures |Using(map[], s)| == 0
  {
    assert Using(map[], s) == {};
  }

  lemma UsingAfterSet(psocs: map<nat, Store>, p: nat, to: Store, s: Store)
    requires p !in psocs
    ensures |Using(psocs[p := to], s)| == |Using(psocs, s)| + if s == to then 1 else 0
  {
    assert Using(psocs[p := to], s) == Using(psocs, s) + if s == to then {p} else {};
  }

  lemma UsingAfterRemove(psocs: map<nat, Store>, p: nat, s: Store)
    requires p in psocs
    ensures |Using(psocs - {p}, s)| == |Using(psocs, s)| - if s == psocs[p] then 1 else 0
  {
    assert Using(psocs, s) == Using(psocs - {p}, s) + if s == psocs[p] then {p} else {};
  }

  lemma UsingAfterMove(psocs: map<nat, Store>, p: nat, to: Store, s: Store)
    requires p in psocs
    ensures |Using(psocs[p := to], s)|
            == |Using(psocs, s)| + (if s == to then 1 else 0) - (if s == psocs[p] then 1 else 0)
  {
    UsingAfterRemove(psocs, p, s);
    UsingAfterSet(psocs - {p}, p, to, s);
    assert (psocs - {p})[p := to] == psocs[p := to];
  }

  // ---------- stores ----------

  /** struct cfg_value_store. */
  class Store {
    const path: string
    var users: int
    var values: Values

    constructor (path: string, values: Values)
      ensures this.path == path && users == 1 && this.values == values
    {
      this.path, users, this.values := path, 1, values;
    }
  }

  /** The first store parsed from `path`. */
  function First(stores: seq<Store>, path: string): Store? {
    if stores == [] then null
    else if stores[0].path == path then stores[0]
    else First(stores[1..], path)
  }

  lemma {:induction false} FirstIsFirst(stores: seq<Store>, path: string)
    ensures var s := First(stores, path);
      if s == null then forall t | t in stores :: t.path != path
      else exists k :: 0 <= k < |stores| && stores[k] == s && s.path == path
                       && forall i | 0 <= i < k :: stores[i].path != path
  {
    if stores != [] {
      if stores[0].path == path {
        assert stores[0] == First(stores, path);
      } else {
        FirstIsFirst(stores[1..], path);
        var s := First(stores, path);
        if s != null {
          var k :| 0 <= k < |stores[1..]| && stores[1..][k] == s && s.path == path
                   && forall i | 0 <= i < k :: stores[1..][i].path != path;
          assert stores[k + 1] == s;
          assert forall i | 0 < i < k + 1 :: stores[i] == stores[1..][i - 1];
        } else {
          assert forall t | t in stores :: t == stores[0] || t in stores[1..];
        }
      }
    }
  }

  /** The list with one store taken off it. */
  function Removed(stores: seq<Store>, store: Store): seq<Store> {
    if stores == [] then []
    else if stores[0] == store then stores[1..]
    else [stores[0]] + Removed(stores[1..], store)
  }

  lemma {:induction false} RemovedSplices(stores: seq<Store>, i: nat)
    requires i < |stores| && stores[i] !in stores[..i]
    ensures Removed(stores, stores[i]) == stores[..i] + stores[i + 1..]
  {
    if i > 0 {
      assert stores[1..][..i - 1] == stores[..i][1..] && stores[0] == stores[..i][0];
      RemovedSplices(stores[1..], i - 1);
    }
  }

  lemma {:induction false} RemovedLast(stores: seq<Store>, store: Store)
    requires store !in stores
    ensures Removed(stores + [store], store) == stores
  {
    if stores == [] {
      assert stores + [store] == [store];
    } else {
      RemovedLast(stores[1..], store);
      assert (stores + [store])[1..] == stores[1..] + [store];
    }
  }

  // ---------- references add up ----------

  ghost function TotalUsing(stores: seq<Store>, psocs: map<nat, Store>): nat {
    if stores == [] then 0 else |Using(psocs, stores[0])| + TotalUsing(stores[1..], psocs)
  }

  lemma {:induction false} TotalAfterRemove(stores: seq<Store>, psocs: map<nat, Store>, p: nat)
    requires p in psocs && Distinct(stores)
    ensures TotalUsing(stores, psocs) == TotalUsing(stores, psocs - {p}) + if psocs[p] in stores then 1 else 0
  {
    if stores != [] {
      UsingAfterRemove(psocs, p, stores[0]);
      assert forall i | 0 <= i < |stores| - 1 :: stores[1..][i] == stores[i + 1];
      TotalAfterRemove(stores[1..], psocs, p);
    }
  }

  /** Every psoc uses exactly one listed store. */
  lemma {:induction false} PsocsAddUp(stores: seq<Store>, psocs: map<nat, Store>)
    requires Distinct(stores) && forall p | p in psocs :: psocs[p] in stores
    ensures TotalUsing(stores, psocs) == |psocs|
    decreases |psocs|
  {
    if psocs == map[] {
      NothingUsed(stores);
    } else {
      var p :| p in psocs;
      TotalAfterRemove(stores, psocs, p);
      PsocsAddUp(stores, psocs - {p});
      assert psocs == (psocs - {p})[p := psocs[p]];
    }
  }

  lemma {:induction false} NothingUsed(stores: seq<Store>)
    ensures TotalUsing(stores, map[]) == 0
  {
    if stores != [] {
      NobodyUses(stores[0], stores);
      NothingUsed(stores[1..]);
    }
  }

  function TotalUsers(stores: seq<Store>): int
    reads stores
  {
    if stores == [] then 0 else stores[0].users + TotalUsers(stores[1..])
  }

  class Config {
    const metas: map<string, Meta>
    const defaults: Values
    var globalStore: Store?
    var stores: seq<Store>
    var psocs: map<nat, Store>
    var isInit: bool

    /** The references a store should have: the global pointer and the psocs. */
    ghost function References(s: Store): nat
      reads this
    {
      (if globalStore == s then 1 else 0) + |Using(psocs, s)|
    }

    /** Every store in use is listed, every listed store is in use and counts its users exactly,
        `held` having one more that is the caller's. */
    ghost predicate Held(held: Store?)
      reads this, stores
    {
      && WellFormed(metas, defaults)
      && Distinct(stores)
      && (globalStore != null ==> globalStore in stores)
      && (forall p | p in psocs :: psocs[p] in stores)
      && (forall s | s in stores :: s.users == References(s) + (if s == held then 1 else 0) > 0)
      && (forall s | s in stores :: WellFormed(metas, s.values))
      && (!isInit ==> psocs == map[])
    }

    ghost predicate Valid()
      reads this, stores
    {
      Held(null)
    }

    constructor (metas: map<string, Meta>, defaults: Values)
      requires WellFormed(metas, defaults)
      ensures Valid() && this.metas == metas && this.defaults == defaults
      ensures globalStore == null && stores == [] && psocs == map[] && !isInit
    {
      this.metas, this.defaults := metas, defaults;
      globalStore, stores, psocs, isInit := null, [], map[], false;
    }

    /** No reference is lost or counted twice: the users of all stores are the global pointer
        and one per psoc. */
    lemma UsersAddUp()
      requires Valid()
      ensures TotalUsers(stores) == |psocs| + if globalStore == null then 0 else 1
    {
      PsocsAddUp(stores, psocs);
      CountedTotal(stores);
      assert globalStore != null ==> globalStore in stores;
    }

    lemma {:induction false} CountedTotal(some: seq<Store>)
      requires Distinct(some) && forall s | s in some :: s.users == References(s)
      ensures TotalUsers(some) == TotalUsing(some, psocs) + if globalStore in some then 1 else 0
    {
      if some != [] {
        assert forall i | 0 <= i < |some| - 1 :: some[1..][i] == some[i + 1];
        CountedTotal(some[1..]);
      }
    }

    /** A store no psoc can know of yet. */
    lemma Unused(store: Store)
      requires forall p | p in psocs :: psocs[p] != store
      ensures Using(psocs, store) == {}
    {
    }

    /** When nothing uses a store, none is left: what cfg_dispatcher_deinit asserts. */
    lemma NothingLeft()
      requires Valid() && globalStore == null && psocs == map[]
      ensures stores == []
    {
      if stores != [] {
        NobodyUses(stores[0], stores);
      }
    }

    /** cfg_store_alloc, which may run out of memory. */
    method StoreAlloc(path: string, values: Values, memory: bool) returns (store: Store?)
      modifies this`stores
      ensures store == null <==> !memory
      ensures store != null ==> fresh(store) && store.path == path && store.users == 1 && store.values == values
      ensures stores == old(stores) + if store == null then [] else [store]
    {
      if !memory {
        return null;
      }
      store := new Store(path, values);
      stores := stores + [store];
    }

    /** cfg_store_free. */
    method StoreFree(store: Store)
      requires store in stores && Distinct(stores)
      modifies this`stores
      ensures Distinct(stores) && store !in stores
      ensures forall s :: s in stores <==> s in old(stores) && s != store
      ensures stores == Removed(old(stores), store)
    {
      var i := 0;
      while stores[i] != store
        invariant 0 <= i < |stores| && store !in stores[..i]
        decreases |stores| - i
      {
        i := i + 1;
      }
      RemovedSplices(stores, i);
      stores := stores[..i] + stores[i + 1..];
    }

    /** cfg_store_get: the first store with the path, with one more user. */
    method StoreGet(path: string) returns (store: Store?)
      modifies stores`users
      ensures store == First(stores, path)
      ensures store != null ==> store in stores && store.path == path && store.users == old(store.users) + 1
      ensures forall s | s in stores && s != store :: s.users == old(s.users)
    {
      store := null;
      var i := 0;
      while i < |stores|
        invariant 0 <= i <= |stores| && store == null
        invariant First(stores[i..], path) == First(stores, path)
        invariant forall s | s in stores :: s.users == old(s.users)
      {
        if stores[i].path == path {
          stores[i].users := stores[i].users + 1;
          return stores[i];
        }
        i := i + 1;
      }
    }

    /** cfg_store_put: the last user frees the store. */
    method StorePut(store: Store)
      requires store in stores && Distinct(stores)
      modifies this`stores, store`users
      ensures store.users == old(store.users) - 1 && Distinct(stores)
      ensures forall s :: s in stores <==> s in old(stores) && (s != store || store.users != 0)
      ensures stores == if store.users == 0 then Removed(old(stores), store) else old(stores)
    {
      store.users := store.users - 1;
      if store.users == 0 {
        StoreFree(store);
      }
    }

    /** cfg_ini_parse_to_store: each item is handled as it is read; the file may fail at its end. */
    method ParseToStore(store: Store, items: seq<Item>)
      modifies store`values
      ensures store.values == Parsed(metas, old(store.values), items)
    {
      var i := 0;
      while i < |items|
        invariant 0 <= i <= |items| && store.values == Parsed(metas, old(store.values), items[..i])
      {
        assert items[..i + 1][..i] == items[..i];
        var it := items[i];
        if it.name in metas && it.name in store.values {
          store.values := store.values[it.name := NewValue(metas[it.name], store.values[it.name], it)];
        }
        i := i + 1;
      }
      assert items[..|items|] == items;
    }

    /** A new store with the values a file makes of given ones. */
    method ParsedStore(path: string, values: Values, memory: bool, items: seq<Item>) returns (store: Store?)
      requires WellFormed(metas, values)
      modifies this`stores
      ensures store == null <==> !memory
      ensures store != null ==> fresh(store) && store.path == path && store.users == 1
      ensures store != null ==> store.values == Parsed(metas, values, items) && WellFormed(metas, store.values)
      ensures stores == old(stores) + if store == null then [] else [store]
    {
      store := StoreAlloc(path, values, memory);
      if store != null {
        ParseToStore(store, items);
        ParsedWellFormed(metas, values, items);
      }
    }

    method DispatcherInit(registered: bool) returns (ok: bool)
      requires Valid()
      modifies this`isInit
      ensures Valid() && ok == (!old(isInit) && registered) && isInit == (old(isInit) || ok)
    {
      if isInit || !registered {
        return false;
      }
      isInit := true;
      ok := true;
    }

    /** cfg_dispatcher_deinit, once every psoc is gone: the list is empty if the global store was
        released, which the code asserts. */
    method DispatcherDeinit() returns (ok: bool)
      requires Valid() && psocs == map[]
      modifies this`isInit
      ensures Valid() && ok == old(isInit) && !isInit
      ensures stores == [] <==> globalStore == null
    {
      ok := isInit;
      isInit := false;
      if globalStore == null {
        NothingLeft();
      }
    }

    /** cfg_parse: `parsed` says whether the file could be parsed to its end. */
    method CfgParse(path: string, memory: bool, items: seq<Item>, parsed: bool) returns (ok: bool)
      requires Valid()
      modifies this`globalStore, this`stores
      ensures Valid() && ok == (old(globalStore) == null && memory && parsed)
      ensures ok ==> globalStore != null && fresh(globalStore) && stores == old(stores) + [globalStore]
                     && globalStore.path == path && globalStore.values == Parsed(metas, defaults, items)
      ensures !ok ==> globalStore == old(globalStore) && stores == old(stores)
    {
      if globalStore != null {
        return false;
      }
      var store := ParsedStore(path, defaults, memory, items);
      if store == null {
        return false;
      }
      if !parsed {
        RemovedLast(old(stores), store);
        StoreFree(store);
        return false;
      }
      globalStore := store;
      ok := true;
    }

    /** cfg_release. */
    method CfgRelease()
      requires Valid()
      modifies this`globalStore, this`stores, stores`users
      ensures Valid() && globalStore == null
      ensures stores == if old(globalStore) != null && Using(psocs, old(globalStore)) == {}
                        then Removed(old(stores), old(globalStore)) else old(stores)
    {
      if globalStore == null {
        return;
      }
      forall p | p in psocs ensures |Using(psocs, psocs[p])| > 0 {
        InUse(psocs, p);
      }
      StorePut(globalStore);
      globalStore := null;
    }

    /** cfg_on_psoc_create: the new psoc uses the global store. */
    method OnPsocCreate(psoc: nat, memory: bool, attached: bool) returns (ok: bool)
      requires Valid() && isInit && psoc !in psocs
      modifies this`psocs, this`stores, stores`users
      ensures Valid() && ok == (globalStore != null && memory && attached)
      ensures psocs == (if ok then old(psocs)[psoc := globalStore] else old(psocs)) && stores == old(stores)
    {
      if globalStore == null || !memory {
        return false;
      }
      globalStore.users := globalStore.users + 1;
      if !attached {
        StorePut(globalStore);
        return false;
      }
      forall s | s in stores
        ensures |Using(psocs[psoc := globalStore], s)| == |Using(psocs, s)| + if s == globalStore then 1 else 0
      {
        UsingAfterSet(psocs, psoc, globalStore, s);
      }
      psocs := psocs[psoc := globalStore];
      ok := true;
    }

    /** cfg_on_psoc_destroy. */
    method OnPsocDestroy(psoc: nat)
      requires Valid() && psoc in psocs
      modifies this`psocs, this`stores, stores`users
      ensures Valid() && psocs == old(psocs) - {psoc}
      ensures var s := old(psocs[psoc]);
        stores == if s != globalStore && Using(psocs, s) == {} then Removed(old(stores), s) else old(stores)
    {
      var store := psocs[psoc];
      forall s | s in stores ensures |Using(psocs - {psoc}, s)| == |Using(psocs, s)| - if s == store then 1 else 0 {
        UsingAfterRemove(psocs, psoc, s);
      }
      StorePut(store);
      psocs := psocs - {psoc};
    }

    /** The part of cfg_psoc_parse for a path not parsed before: a new store inherits the global
        values. */
    method InheritingStore(path: string, memory: bool, items: seq<Item>, parsed: bool) returns (store: Store?)
      requires Valid() && globalStore != null
      modifies this`stores
      ensures Held(store)
      ensures store == null <==> !(memory && parsed)
      ensures store == null ==> stores == old(stores)
      ensures store != null ==>
        fresh(store) && store.path == path && store.values == Parsed(metas, globalStore.values, items)
        && stores == old(stores) + [store]
    {
      store := ParsedStore(path, globalStore.values, memory, items);
      if store == null {
        return null;
      }
      if !parsed {
        RemovedLast(old(stores), store);
        StorePut(store);
        return null;
      }
      Unused(store);
    }

    /** The store of a path, with a reference for the caller. */
    method StoreFor(path: string, memory: bool, items: seq<Item>, parsed: bool) returns (store: Store?)
      requires Valid() && globalStore != null
      modifies this`stores, stores`users
      ensures Held(store)
      ensures store != null <==> First(old(stores), path) != null || (memory && parsed)
      ensures store != null ==> store in stores && store.path == path
      ensures First(old(stores), path) != null ==> store == First(old(stores), path)
      ensures stores == if store != null && First(old(stores), path) == null then old(stores) + [store] else old(stores)
      ensures store != null && First(old(stores), path) == null ==>
        fresh(store) && store.values == Parsed(metas, globalStore.values, items)
    {
      store := StoreGet(path);
      if store == null {
        store := InheritingStore(path, memory, items, parsed);
      }
    }

    /** The end of cfg_psoc_parse: the psoc takes the caller's reference and drops the global
        store. */
    method MovePsoc(psoc: nat, store: Store)
      requires Held(store) && store in stores && psoc in psocs && psocs[psoc] == globalStore
      modifies this`psocs, this`stores, stores`users
      ensures Valid() && psocs == old(psocs)[psoc := store] && stores == old(stores)
    {
      forall s | s in stores
        ensures |Using(psocs[psoc := store], s)|
                == |Using(psocs, s)| + (if s == store then 1 else 0) - (if s == globalStore then 1 else 0)
      {
        UsingAfterMove(psocs, psoc, store, s);
      }
      psocs := psocs[psoc := store];
      StorePut(globalStore);
    }

    /** cfg_psoc_parse for a psoc on the global store, from looking for the store of `path` on. */
    method MoveToPath(psoc: nat, path: string, memory: bool, items: seq<Item>, parsed: bool) returns (ok: bool)
      requires Valid() && psoc in psocs && globalStore != null && psocs[psoc] == globalStore
      modifies this`psocs, this`stores, stores`users
      ensures Valid() && ok == (First(old(stores), path) != null || (memory && parsed))
      ensures !ok ==> psocs == old(psocs) && stores == old(stores)
      ensures ok ==> psoc in psocs && psocs == old(psocs)[psoc := psocs[psoc]] && psocs[psoc].path == path
      ensures ok && First(old(stores), path) != null ==>
        psocs[psoc] == First(old(stores), path) && stores == old(stores)
      ensures ok && First(old(stores), path) == null ==>
        psocs[psoc].values == Parsed(metas, globalStore.values, items) && stores == old(stores) + [psocs[psoc]]
    {
      var store := StoreFor(path, memory, items, parsed);
      if store == null {
        return false;
      }
      MovePsoc(psoc, store);
      ok := true;
    }

    /** cfg_psoc_parse: a psoc on the global store moves to the store of `path`, which is made
        from the global values if no store has that path; any other stays.  Nobody else sees
        other values. */
    method PsocParse(psoc: nat, path: string, memory: bool, items: seq<Item>, parsed: bool) returns (ok: bool)
      requires Valid() && psoc in psocs
      modifies this`psocs, this`stores, stores`users
      ensures Valid()
      ensures globalStore == null ==> !ok
      ensures globalStore != null && old(psocs[psoc]) != globalStore ==> ok
      ensures globalStore != null && old(psocs[psoc]) == globalStore ==>
        ok == (First(old(stores), path) != null || (memory && parsed))
      ensures !ok || old(psocs[psoc]) != globalStore ==> psocs == old(psocs) && stores == old(stores)
      ensures ok && old(psocs[psoc]) == globalStore ==>
        && psoc in psocs && psocs == old(psocs)[psoc := psocs[psoc]] && psocs[psoc].path == path
        && if First(old(stores), path) != null
           then psocs[psoc] == First(old(stores), path) && stores == old(stores)
           else psocs[psoc].values == Parsed(metas, globalStore.values, items) && stores == old(stores) + [psocs[psoc]]
    {
      if globalStore == null {
        ok := false;
      } else if psocs[psoc] != globalStore {
        ok := true;
      } else {
        ok := MoveToPath(psoc, path, memory, items, parsed);
      }
    }
  }
}
