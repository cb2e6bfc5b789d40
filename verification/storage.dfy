/**
 * The keyed collection store (src/lib/storage.ts): an in-memory collection mirrored to a
 * key-value store, an index record `{lastId, collection}`, and change listeners.
 *
 * Each operation is given twice: as a transition on a `State` value (AddStep, RemoveStep,
 * ...), about which the lemmas speak, and as a method of the `Storage` class that performs
 * it step by step on the object's fields and promises that transition.
 */
module Storage {
  import opened Wrappers
  import opened JsString
  import opened JsonPath
  import GroupBy

  /** The index record: the last id handed out and the ids of the stored items, as strings. */
  datatype Indexer = Indexer(lastId: int, collection: seq<string>)

  /** `JSON.stringify` and `JSON.parse` for one type; parsing may fail. */
  datatype Codec<!T> = Codec(encode: T -> string, decode: string -> Option<T>)

  /**
   * What one store instance is built from: its collection key, the codecs of its items and
   * of its index record, and the `id` field of an item (read by `idOf`, written by `withId`,
   * which is `{ ...value, id }`).
   */
  datatype Config<!T> = Config(
    collectionKey: string,
    items: Codec<T>,
    index: Codec<Indexer>,
    idOf: T -> int,
    withId: (T, int) -> T)

  /** `withId` sets the id that `idOf` reads. */
  ghost predicate Lawful<T(!new)>(cfg: Config<T>)
  {
    forall v: T, id: int :: cfg.idOf(cfg.withId(v, id)) == id
  }

  /** One call of a listener: which listener, and the collection it was handed. */
  datatype Notification<T> = Notification(listener: nat, snapshot: seq<T>)

  /**
   * The store's state: the index record, the in-memory collection, the registered listeners
   * (by identity, in registration order), the persisted key-value store, and every listener
   * call made so far, oldest first.
   */
  datatype State<T> = State(
    indexer: Indexer,
    collection: seq<T>,
    listeners: seq<nat>,
    kv: map<string, string>,
    log: seq<Notification<T>>)

  /** The state after an operation, and the boolean the operation returns. */
  datatype Outcome<T> = Outcome(next: State<T>, ok: bool)

  /** `${collectionKey}Index`: where the index record is persisted. */
  function IndexKey(collectionKey: string): string { collectionKey + "Index" }

  /** `${collectionKey}-${id}`: where one item is persisted. */
  function ItemKey(collectionKey: string, id: string): string { collectionKey + "-" + id }

  /** Distinct ids are persisted under distinct keys. */
  lemma ItemKeyInjective(collectionKey: string, a: string, b: string)
    requires ItemKey(collectionKey, a) == ItemKey(collectionKey, b)
    ensures a == b
  {
    assert a == ItemKey(collectionKey, a)[|collectionKey| + 1..];
    assert b == ItemKey(collectionKey, b)[|collectionKey| + 1..];
  }

  // ----- helpers over sequences -------------------------------------------------------

  /** `emit`: every registered listener, in order, is called with the collection. */
  function Broadcast<T>(listeners: seq<nat>, snapshot: seq<T>): (r: seq<Notification<T>>)
    ensures |r| == |listeners|
    ensures forall i :: 0 <= i < |r| ==> r[i] == Notification(listeners[i], snapshot)
  {
    if listeners == [] then []
    else Broadcast(listeners[..|listeners| - 1], snapshot) + [Notification(listeners[|listeners| - 1], snapshot)]
  }

  /** `findIndex(it => it.id === id)`: the first position holding that id. */
  function FindIndexById<T>(c: seq<T>, idOf: T -> int, id: int): (r: Option<nat>)
    ensures r.Some? ==> r.value < |c| && idOf(c[r.value]) == id
    ensures r.Some? ==> forall j :: 0 <= j < r.value ==> idOf(c[j]) != id
    ensures r.None? ==> forall j :: 0 <= j < |c| ==> idOf(c[j]) != id
  {
    if c == [] then None
    else if idOf(c[0]) == id then Some(0)
    else match FindIndexById(c[1..], idOf, id)
      case None => None
      case Some(i) => Some(i + 1)
  }

  /** `filter(it => it !== x)`: every occurrence of `x` removed, the rest kept in order. */
  function RemoveAll<X(==,!new)>(s: seq<X>, x: X): (r: seq<X>)
    ensures forall y :: y in r <==> y in s && y != x
    ensures multiset(r) == multiset(s)[x := 0]
  {
    if s == [] then []
    else
      assert s == [s[0]] + s[1..];
      (if s[0] == x then [] else [s[0]]) + RemoveAll(s[1..], x)
  }

  /** The present values of a sequence of optional values, in order. */
  function Somes<T>(s: seq<Option<T>>): (r: seq<T>)
    ensures |r| <= |s|
  {
    if s == [] then [] else (if s[0].Some? then [s[0].value] else []) + Somes(s[1..])
  }

  // ----- loading ------------------------------------------------------------------------

  /**
   * `setupCollection` as written: one entry per indexed id, in index order; an entry is
   * `None` (the `undefined` that `flatMap` keeps when its callback returns nothing) when the
   * record is missing or does not parse.
   */
  function LoadedAsWritten<T>(collectionKey: string, ids: seq<string>, kv: map<string, string>, decode: string -> Option<T>): seq<Option<T>>
  {
    seq(|ids|, i requires 0 <= i < |ids| =>
      if ItemKey(collectionKey, ids[i]) in kv then decode(kv[ItemKey(collectionKey, ids[i])]) else None)
  }

  /**
   * `setupCollection` as intended: the records of the indexed ids that are present and
   * parse, in index order, the others skipped.
   */
  function Loaded<T>(collectionKey: string, ids: seq<string>, kv: map<string, string>, decode: string -> Option<T>): seq<T>
  {
    Somes(LoadedAsWritten(collectionKey, ids, kv, decode))
  }

  /** The index record `setupIndexer` ends with: the persisted one when it is read and parses. */
  function LoadedIndexer<T>(cfg: Config<T>, current: Indexer, kv: map<string, string>, getFails: bool): Indexer
  {
    var key := IndexKey(cfg.collectionKey);
    if !getFails && key in kv && cfg.index.decode(kv[key]).Some? then cfg.index.decode(kv[key]).value
    else current
  }

  // ----- transitions ----------------------------------------------------------------------

  /** `setup`: load the index record, then the collection (empty if `multiGet` fails), then emit. */
  function SetupStep<T>(cfg: Config<T>, s: State<T>, getFails: bool, multiGetFails: bool): State<T>
  {
    var indexer := LoadedIndexer(cfg, s.indexer, s.kv, getFails);
    var collection := if multiGetFails then [] else Loaded(cfg.collectionKey, indexer.collection, s.kv, cfg.items.decode);
    s.(indexer := indexer, collection := collection, log := s.log + Broadcast(s.listeners, collection))
  }

  /**
   * `addItem`: the item gets id `lastId + 1`; the record write comes first, and when it fails
   * nothing changes. Otherwise the item and its id string are appended, `lastId` advances,
   * the index record is saved (a write whose failure is swallowed) and listeners are called.
   */
  function AddStep<T>(cfg: Config<T>, s: State<T>, value: T, writeFails: bool): Outcome<T>
  {
    var id := s.indexer.lastId + 1;
    var item := cfg.withId(value, id);
    if writeFails then Outcome(s, false)
    else
      var indexer := Indexer(id, s.indexer.collection + [NumberToString(id)]);
      var collection := s.collection + [item];
      var kv := s.kv[ItemKey(cfg.collectionKey, NumberToString(id)) := cfg.items.encode(item)]
                    [IndexKey(cfg.collectionKey) := cfg.index.encode(indexer)];
      Outcome(State(indexer, collection, s.listeners, kv, s.log + Broadcast(s.listeners, collection)), true)
  }

  /**
   * `removeItem`: fails without effect when no item has the id or the record removal fails;
   * otherwise the first item with the id leaves the collection, every copy of its id string
   * leaves the index (`lastId` stays), the index is saved and listeners are called.
   */
  function RemoveStep<T>(cfg: Config<T>, s: State<T>, id: int, writeFails: bool): Outcome<T>
  {
    match FindIndexById(s.collection, cfg.idOf, id)
    case None => Outcome(s, false)
    case Some(i) =>
      if writeFails then Outcome(s, false)
      else
        var collection := s.collection[..i] + s.collection[i + 1..];
        var indexer := Indexer(s.indexer.lastId, RemoveAll(s.indexer.collection, NumberToString(id)));
        var kv := (s.kv - {ItemKey(cfg.collectionKey, NumberToString(id))})
                    [IndexKey(cfg.collectionKey) := cfg.index.encode(indexer)];
        Outcome(State(indexer, collection, s.listeners, kv, s.log + Broadcast(s.listeners, collection)), true)
  }

  /**
   * `updateItem`: fails without effect when no item has the value's id or the record write
   * fails; otherwise the value replaces the first item with that id and listeners are called.
   */
  function UpdateStep<T>(cfg: Config<T>, s: State<T>, value: T, writeFails: bool): Outcome<T>
  {
    var id := cfg.idOf(value);
    match FindIndexById(s.collection, cfg.idOf, id)
    case None => Outcome(s, false)
    case Some(i) =>
      if writeFails then Outcome(s, false)
      else
        var collection := s.collection[i := value];
        var kv := s.kv[ItemKey(cfg.collectionKey, NumberToString(id)) := cfg.items.encode(value)];
        Outcome(s.(collection := collection, kv := kv, log := s.log + Broadcast(s.listeners, collection)), true)
  }

  /** `setCollection`: replace the in-memory collection (nothing is persisted) and emit. */
  function SetCollectionStep<T>(s: State<T>, c: seq<T>): State<T>
  {
    s.(collection := c, log := s.log + Broadcast(s.listeners, c))
  }

  /** `on`: register the listener and call it at once with the current collection. */
  function OnStep<T>(s: State<T>, listener: nat): State<T>
  {
    s.(listeners := s.listeners + [listener], log := s.log + [Notification(listener, s.collection)])
  }

  /** `off`: remove every registration of the listener. */
  function OffStep<T>(s: State<T>, listener: nat): State<T>
  {
    s.(listeners := RemoveAll(s.listeners, listener))
  }

  /** `getCollectionById`'s key lookup: `resolvePath(item, 'id', null)` on the item's id field. */
  function IdLookup<T>(idOf: T -> int): T -> Option<Json>
  {
    it => ResolvePath(Obj(map["id" := Num(idOf(it))]), "id", Null)
  }

  /** The key `groupBy` files an item under is its id as a string, and there is none for id 0. */
  lemma IdLookupKey<T>(idOf: T -> int, x: T)
    ensures GroupBy.FiledKey(IdLookup(idOf), x) ==
      if idOf(x) != 0 then Some(NumberToString(idOf(x))) else None
  {
    ResolveSingleSegment(Obj(map["id" := Num(idOf(x))]), "id", Null);
  }

  /** `getCollectionById`: `groupBy(collection, 'id')`. */
  function CollectionById<T>(idOf: T -> int, c: seq<T>): map<string, T>
  {
    var lookup := IdLookup(idOf);
    assert forall i :: 0 <= i < |c| ==> lookup(c[i]).Some? by {
      forall i | 0 <= i < |c| ensures lookup(c[i]).Some? {
        ResolveSingleSegment(Obj(map["id" := Num(idOf(c[i]))]), "id", Null);
      }
    }
    GroupBy.GroupByContents(c, lookup, (it: T) => it);
    GroupBy.GroupByResolved(c, lookup, (it: T) => it).value
  }

  /** Every item's id resolves, so `groupBy` does not throw. */
  lemma IdLookupResolves<T>(idOf: T -> int, c: seq<T>)
    ensures forall i :: 0 <= i < |c| ==> IdLookup(idOf)(c[i]).Some?
  {
    forall i | 0 <= i < |c| ensures IdLookup(idOf)(c[i]).Some? {
      ResolveSingleSegment(Obj(map["id" := Num(idOf(c[i]))]), "id", Null);
    }
  }

  /** The lookup's keys are the ids (as strings) of the items whose id is not 0. */
  lemma CollectionByIdKeys<T>(idOf: T -> int, c: seq<T>)
    ensures forall k :: k in CollectionById(idOf, c) <==>
      exists i :: 0 <= i < |c| && idOf(c[i]) != 0 && k == NumberToString(idOf(c[i]))
    ensures |CollectionById(idOf, c)| <= |c|
  {
    var lookup := IdLookup(idOf);
    var m := CollectionById(idOf, c);
    IdLookupResolves(idOf, c);
    GroupBy.GroupByKeys(c, lookup, (it: T) => it);
    GroupBy.GroupBySize(c, lookup, (it: T) => it);
    forall i | 0 <= i < |c| {
      IdLookupKey(idOf, c[i]);
    }
    forall k ensures k in m <==> exists i :: 0 <= i < |c| && idOf(c[i]) != 0 && k == NumberToString(idOf(c[i])) {
      if k in m {
        var i :| 0 <= i < |c| && GroupBy.FiledKey(lookup, c[i]) == Some(k);
      }
      if exists i :: 0 <= i < |c| && idOf(c[i]) != 0 && k == NumberToString(idOf(c[i])) {
        var i :| 0 <= i < |c| && idOf(c[i]) != 0 && k == NumberToString(idOf(c[i]));
        assert GroupBy.FiledKey(lookup, c[i]) == Some(k);
      }
    }
  }

  /** With distinct ids, each item with a non-zero id is found under its own id. */
  lemma CollectionByIdStores<T>(idOf: T -> int, c: seq<T>)
    requires forall i, j :: 0 <= i < j < |c| ==> idOf(c[i]) != idOf(c[j])
    ensures forall i :: 0 <= i < |c| && idOf(c[i]) != 0 ==>
      NumberToString(idOf(c[i])) in CollectionById(idOf, c) && CollectionById(idOf, c)[NumberToString(idOf(c[i]))] == c[i]
  {
    var lookup := IdLookup(idOf);
    IdLookupResolves(idOf, c);
    GroupBy.GroupByLastWins(c, lookup, (it: T) => it);
    forall i | 0 <= i < |c| && idOf(c[i]) != 0
      ensures NumberToString(idOf(c[i])) in CollectionById(idOf, c) && CollectionById(idOf, c)[NumberToString(idOf(c[i]))] == c[i]
    {
      IdLookupKey(idOf, c[i]);
      forall j | i < j < |c| ensures GroupBy.FiledKey(lookup, c[j]) != GroupBy.FiledKey(lookup, c[i]) {
        IdLookupKey(idOf, c[j]);
        NumberToStringInjective(idOf(c[i]), idOf(c[j]));
      }
      assert GroupBy.LastWithKey(c, lookup, i);
    }
  }

  /** Where an item is persisted: under its own id. */
  function KeyOf<T>(cfg: Config<T>, x: T): string
  {
    ItemKey(cfg.collectionKey, NumberToString(cfg.idOf(x)))
  }

  /**
   * `saveCollection`'s `multiSet`: every item written under its key, in collection order,
   * so that of two items with the same id the later one is what remains.
   */
  function SaveAll<T>(cfg: Config<T>, c: seq<T>, kv: map<string, string>): map<string, string>
  {
    if c == [] then kv
    else SaveAll(cfg, c[..|c| - 1], kv)[KeyOf(cfg, c[|c| - 1]) := cfg.items.encode(c[|c| - 1])]
  }

  /** After `saveCollection` the store holds the old keys plus one key per item. */
  lemma {:induction false} SaveAllKeys<T>(cfg: Config<T>, c: seq<T>, kv: map<string, string>)
    ensures forall k :: k in SaveAll(cfg, c, kv) <==> k in kv || exists i :: 0 <= i < |c| && k == KeyOf(cfg, c[i])
  {
    if c != [] {
      var init := c[..|c| - 1];
      SaveAllKeys(cfg, init, kv);
      forall i | 0 <= i < |c| ensures KeyOf(cfg, c[i]) in SaveAll(cfg, c, kv) {
        if i < |init| { assert init[i] == c[i]; }
      }
      forall k | k in SaveAll(cfg, c, kv) && k !in kv ensures exists i :: 0 <= i < |c| && k == KeyOf(cfg, c[i]) {
        if k != KeyOf(cfg, c[|c| - 1]) {
          var i :| 0 <= i < |init| && k == KeyOf(cfg, init[i]);
          assert init[i] == c[i];
        }
      }
    }
  }

  /** Each item that no later item shares an id with is stored, encoded, under its own key. */
  lemma {:induction false} SaveAllStoresItem<T>(cfg: Config<T>, c: seq<T>, kv: map<string, string>, i: nat)
    requires i < |c|
    requires forall j :: i < j < |c| ==> cfg.idOf(c[j]) != cfg.idOf(c[i])
    ensures KeyOf(cfg, c[i]) in SaveAll(cfg, c, kv)
    ensures SaveAll(cfg, c, kv)[KeyOf(cfg, c[i])] == cfg.items.encode(c[i])
  {
    if i < |c| - 1 {
      var init := c[..|c| - 1];
      if KeyOf(cfg, c[i]) == KeyOf(cfg, c[|c| - 1]) {
        ItemKeyInjective(cfg.collectionKey, NumberToString(cfg.idOf(c[i])), NumberToString(cfg.idOf(c[|c| - 1])));
        NumberToStringInjective(cfg.idOf(c[i]), cfg.idOf(c[|c| - 1]));
        assert false;
      }
      assert init[i] == c[i];
      SaveAllStoresItem(cfg, init, kv, i);
    }
  }

  /** Keys that belong to no item keep their old value. */
  lemma {:induction false} SaveAllKeepsOthers<T>(cfg: Config<T>, c: seq<T>, kv: map<string, string>, k: string)
    requires k in kv
    requires forall i :: 0 <= i < |c| ==> k != KeyOf(cfg, c[i])
    ensures k in SaveAll(cfg, c, kv) && SaveAll(cfg, c, kv)[k] == kv[k]
  {
    if c != [] {
      var init := c[..|c| - 1];
      forall i | 0 <= i < |init| ensures k != KeyOf(cfg, init[i]) {
        assert init[i] == c[i];
      }
      SaveAllKeepsOthers(cfg, init, kv, k);
    }
  }

  // ----- loading: the finding --------------------------------------------------------

  /**
   * With one indexed id whose record is missing, `setupCollection` as written yields a
   * one-entry collection whose entry is `undefined`, where the intended result is empty.
   */
  lemma LoadedAsWrittenKeepsUndefined<T>(collectionKey: string, decode: string -> Option<T>)
    ensures LoadedAsWritten(collectionKey, ["1"], map[], decode) == [None]
    ensures Loaded(collectionKey, ["1"], map[], decode) == []
  {
    assert LoadedAsWritten(collectionKey, ["1"], map[], decode)[0] == None;
  }

  /** The present values, and nothing else, in order; all of them when none is absent. */
  lemma {:induction false} SomesContents<T>(s: seq<Option<T>>)
    ensures forall x :: x in Somes(s) <==> Some(x) in s
    ensures (forall i :: 0 <= i < |s| ==> s[i].Some?) ==>
      |Somes(s)| == |s| && forall i :: 0 <= i < |s| ==> Somes(s)[i] == s[i].value
  {
    if s != [] {
      SomesContents(s[1..]);
      assert s == [s[0]] + s[1..];
      if forall i :: 0 <= i < |s| ==> s[i].Some? {
        assert forall i :: 0 <= i < |s[1..]| ==> s[1..][i].Some? by {
          forall i | 0 <= i < |s[1..]| ensures s[1..][i].Some? { assert s[1..][i] == s[i + 1]; }
        }
        forall i | 0 <= i < |s| ensures Somes(s)[i] == s[i].value {
          if i > 0 { assert s[1..][i - 1] == s[i]; }
        }
      }
    }
  }

  /**
   * The loaded collection holds exactly the parsed records of indexed ids; when every
   * indexed record is present and parses, it has one entry per indexed id, in index order.
   */
  lemma LoadedContents<T>(collectionKey: string, ids: seq<string>, kv: map<string, string>, decode: string -> Option<T>)
    ensures forall x :: x in Loaded(collectionKey, ids, kv, decode) <==>
      exists i :: 0 <= i < |ids| && ItemKey(collectionKey, ids[i]) in kv && decode(kv[ItemKey(collectionKey, ids[i])]) == Some(x)
    ensures (forall i :: 0 <= i < |ids| ==> ItemKey(collectionKey, ids[i]) in kv && decode(kv[ItemKey(collectionKey, ids[i])]).Some?) ==>
      |Loaded(collectionKey, ids, kv, decode)| == |ids| &&
      forall i :: 0 <= i < |ids| ==> Loaded(collectionKey, ids, kv, decode)[i] == decode(kv[ItemKey(collectionKey, ids[i])]).value
  {
    var w := LoadedAsWritten(collectionKey, ids, kv, decode);
    SomesContents(w);
    forall x ensures Some(x) in w <==>
      exists i :: 0 <= i < |ids| && ItemKey(collectionKey, ids[i]) in kv && decode(kv[ItemKey(collectionKey, ids[i])]) == Some(x)
    {
      if Some(x) in w {
        var i :| 0 <= i < |w| && w[i] == Some(x);
      }
      if exists i :: 0 <= i < |ids| && ItemKey(collectionKey, ids[i]) in kv && decode(kv[ItemKey(collectionKey, ids[i])]) == Some(x) {
        var i :| 0 <= i < |ids| && ItemKey(collectionKey, ids[i]) in kv && decode(kv[ItemKey(collectionKey, ids[i])]) == Some(x);
        assert w[i] == Some(x);
      }
    }
  }

  // ----- listeners ----------------------------------------------------------------------

  /** The collection the listener was handed most recently, if it was ever called. */
  function LastSnapshot<T>(log: seq<Notification<T>>, listener: nat): Option<seq<T>>
  {
    if log == [] then None
    else if log[|log| - 1].listener == listener then Some(log[|log| - 1].snapshot)
    else LastSnapshot(log[..|log| - 1], listener)
  }

  /**
   * Every registered listener has been handed the current collection last: subscribe
   * replays it, and each change is broadcast to all.
   */
  ghost predicate Synced<T>(s: State<T>)
  {
    forall l :: l in s.listeners ==> LastSnapshot(s.log, l) == Some(s.collection)
  }

  lemma LastSnapshotAfterCall<T>(log: seq<Notification<T>>, n: Notification<T>, l: nat)
    ensures LastSnapshot(log + [n], l) == if n.listener == l then Some(n.snapshot) else LastSnapshot(log, l)
  {
    assert (log + [n])[..|log|] == log;
  }

  /** After a broadcast, a listener it reached was last handed its collection; others are unaffected. */
  lemma {:induction false} LastSnapshotAfterBroadcast<T>(log: seq<Notification<T>>, ls: seq<nat>, c: seq<T>, l: nat)
    ensures LastSnapshot(log + Broadcast(ls, c), l) == if l in ls then Some(c) else LastSnapshot(log, l)
    decreases |ls|
  {
    if ls == [] {
      assert log + Broadcast(ls, c) == log;
    } else {
      var init := ls[..|ls| - 1];
      var last := ls[|ls| - 1];
      assert ls == init + [last];
      assert log + Broadcast(ls, c) == (log + Broadcast(init, c)) + [Notification(last, c)];
      LastSnapshotAfterCall(log + Broadcast(init, c), Notification(last, c), l);
      if last != l {
        LastSnapshotAfterBroadcast(log, init, c, l);
      }
    }
  }

  /** A broadcast of the new collection to the unchanged listeners keeps them in step. */
  lemma BroadcastSyncs<T>(s: State<T>, c: seq<T>)
    ensures Synced(s.(collection := c, log := s.log + Broadcast(s.listeners, c)))
  {
    forall l | l in s.listeners {
      LastSnapshotAfterBroadcast(s.log, s.listeners, c, l);
    }
  }

  /** `on` replays the collection to the new listener, so a synced store stays synced. */
  lemma OnKeepsSynced<T>(s: State<T>, listener: nat)
    requires Synced(s)
    ensures Synced(OnStep(s, listener))
  {
    forall l | l in s.listeners + [listener] {
      LastSnapshotAfterCall(s.log, Notification(listener, s.collection), l);
    }
  }

  /** `setup` broadcasts what it loaded. */
  lemma SetupKeepsSynced<T>(cfg: Config<T>, s: State<T>, getFails: bool, multiGetFails: bool)
    ensures Synced(SetupStep(cfg, s, getFails, multiGetFails))
  {
    var indexer := LoadedIndexer(cfg, s.indexer, s.kv, getFails);
    var collection := if multiGetFails then [] else Loaded(cfg.collectionKey, indexer.collection, s.kv, cfg.items.decode);
    BroadcastSyncs(s.(indexer := indexer), collection);
  }

  // ----- sequences of operations -------------------------------------------------------

  /** The store's public mutators, each with the outcome of the write it makes. */
  datatype Op<T> =
    | Add(value: T, fails: bool)
    | Remove(id: int, fails: bool)
    | Update(value: T, fails: bool)
    | Replace(c: seq<T>)
    | Subscribe(listener: nat)
    | Unsubscribe(listener: nat)

  function Apply<T>(cfg: Config<T>, s: State<T>, op: Op<T>): Outcome<T>
  {
    match op
    case Add(v, f) => AddStep(cfg, s, v, f)
    case Remove(id, f) => RemoveStep(cfg, s, id, f)
    case Update(v, f) => UpdateStep(cfg, s, v, f)
    case Replace(c) => Outcome(SetCollectionStep(s, c), true)
    case Subscribe(l) => Outcome(OnStep(s, l), true)
    case Unsubscribe(l) => Outcome(OffStep(s, l), true)
  }

  /** The state after the operations, one after the other. */
  function Run<T>(cfg: Config<T>, s: State<T>, ops: seq<Op<T>>): State<T>
    decreases |ops|
  {
    if ops == [] then s else Run(cfg, Apply(cfg, s, ops[0]).next, ops[1..])
  }

  /** The ids the successful `addItem` calls among the operations hand out, in order. */
  function IssuedIds<T>(cfg: Config<T>, s: State<T>, ops: seq<Op<T>>): seq<int>
    decreases |ops|
  {
    if ops == [] then []
    else
      var o := Apply(cfg, s, ops[0]);
      (if ops[0].Add? && o.ok then [s.indexer.lastId + 1] else []) + IssuedIds(cfg, o.next, ops[1..])
  }

  /** Every mutator keeps every registered listener in step with the collection. */
  lemma ApplyKeepsSynced<T>(cfg: Config<T>, s: State<T>, op: Op<T>)
    requires Synced(s)
    ensures Synced(Apply(cfg, s, op).next)
  {
    var o := Apply(cfg, s, op);
    match op
    case Subscribe(l) => OnKeepsSynced(s, l);
    case Unsubscribe(l) =>
    case Replace(c) => BroadcastSyncs(s, c);
    case _ =>
      if o.ok {
        assert o.next.listeners == s.listeners;
        BroadcastSyncs(o.next.(log := s.log), o.next.collection);
        assert o.next == o.next.(log := s.log).(log := s.log + Broadcast(s.listeners, o.next.collection));
      }
  }

  /**
   * Whatever the operations and whatever their writes do, every listener registered at the
   * end was last handed the final collection.
   */
  lemma {:induction false} RunKeepsSynced<T>(cfg: Config<T>, s: State<T>, ops: seq<Op<T>>)
    requires Synced(s)
    ensures Synced(Run(cfg, s, ops))
    decreases |ops|
  {
    if ops != [] {
      ApplyKeepsSynced(cfg, s, ops[0]);
      RunKeepsSynced(cfg, Apply(cfg, s, ops[0]).next, ops[1..]);
    }
  }

  /** Only a successful `addItem` moves `lastId`, and by one. */
  lemma ApplyLastId<T>(cfg: Config<T>, s: State<T>, op: Op<T>)
    ensures Apply(cfg, s, op).next.indexer.lastId ==
      if op.Add? && Apply(cfg, s, op).ok then s.indexer.lastId + 1 else s.indexer.lastId
  {
  }

  /** Prepending nothing, or the next id, to ids above it keeps them increasing. */
  lemma IncreasingPrepend(head: seq<int>, rest: seq<int>, lo: int, mid: int, hi: int)
    requires (head == [] && mid == lo) || (head == [lo + 1] && mid == lo + 1)
    requires forall i, j :: 0 <= i < j < |rest| ==> rest[i] < rest[j]
    requires forall i :: 0 <= i < |rest| ==> mid < rest[i] <= hi
    requires mid <= hi
    ensures forall i, j :: 0 <= i < j < |head + rest| ==> (head + rest)[i] < (head + rest)[j]
    ensures forall i :: 0 <= i < |head + rest| ==> lo < (head + rest)[i] <= hi
    ensures lo <= hi
  {
  }

  /**
   * Ids are handed out in strictly increasing order, all above the `lastId` the run starts
   * from and none above the one it ends with, which is never lower: no id is used twice.
   */
  lemma {:induction false} IdsStrictlyIncrease<T>(cfg: Config<T>, s: State<T>, ops: seq<Op<T>>)
    ensures forall i, j :: 0 <= i < j < |IssuedIds(cfg, s, ops)| ==> IssuedIds(cfg, s, ops)[i] < IssuedIds(cfg, s, ops)[j]
    ensures forall i :: 0 <= i < |IssuedIds(cfg, s, ops)| ==>
      s.indexer.lastId < IssuedIds(cfg, s, ops)[i] <= Run(cfg, s, ops).indexer.lastId
    ensures s.indexer.lastId <= Run(cfg, s, ops).indexer.lastId
    decreases |ops|
  {
    if ops != [] {
      var o := Apply(cfg, s, ops[0]);
      ApplyLastId(cfg, s, ops[0]);
      IdsStrictlyIncrease(cfg, o.next, ops[1..]);
      var rest := IssuedIds(cfg, o.next, ops[1..]);
      var head := if ops[0].Add? && o.ok then [s.indexer.lastId + 1] else [];
      assert IssuedIds(cfg, s, ops) == head + rest;
      assert Run(cfg, s, ops) == Run(cfg, o.next, ops[1..]);
      IncreasingPrepend(head, rest, s.indexer.lastId, o.next.indexer.lastId, Run(cfg, s, ops).indexer.lastId);
    }
  }

  // ----- what each mutator promises ------------------------------------------------------

  /**
   * `addItem` succeeds exactly when its record write does. On success it appends
   * `{ ...value, id }` with id `lastId + 1` after the unchanged earlier items, appends that
   * id's string to the index and moves `lastId` to it, persists the item under its key and
   * the index record under the index key (every other key keeps its value), and notifies
   * every listener with the new collection; on failure nothing changes.
   */
  lemma AddStepSpec<T(!new)>(cfg: Config<T>, s: State<T>, value: T, writeFails: bool)
    requires Lawful(cfg)
    ensures var o := AddStep(cfg, s, value, writeFails);
      var item := cfg.withId(value, s.indexer.lastId + 1);
      && (o.ok <==> !writeFails)
      && (!o.ok ==> o.next == s)
      && (o.ok ==>
        && o.next.collection == s.collection + [item]
        && cfg.idOf(item) == o.next.indexer.lastId == s.indexer.lastId + 1
        && o.next.indexer.collection == s.indexer.collection + [NumberToString(o.next.indexer.lastId)]
        && o.next.kv == s.kv[KeyOf(cfg, item) := cfg.items.encode(item)]
                            [IndexKey(cfg.collectionKey) := cfg.index.encode(o.next.indexer)]
        && o.next.kv[KeyOf(cfg, item)] == cfg.items.encode(item)
        && o.next.listeners == s.listeners
        && o.next.log == s.log + Broadcast(s.listeners, o.next.collection))
  {
    ItemKeyIsNotIndexKey(cfg.collectionKey, NumberToString(s.indexer.lastId + 1));
  }

  /** The item key and the index key of one collection never coincide. */
  lemma ItemKeyIsNotIndexKey(collectionKey: string, id: string)
    ensures ItemKey(collectionKey, id) != IndexKey(collectionKey)
  {
    assert ItemKey(collectionKey, id)[|collectionKey|] == '-';
    assert IndexKey(collectionKey)[|collectionKey|] == 'I';
  }

  /**
   * `removeItem` succeeds exactly when some item has the id and the record removal
   * succeeds. On success the first item with the id, and only it, leaves the collection,
   * every copy of the id's string leaves the index while `lastId` stays, the record's key is
   * gone, the index record is rewritten, every other key keeps its value and listeners are
   * notified; otherwise nothing changes.
   */
  lemma RemoveStepSpec<T>(cfg: Config<T>, s: State<T>, id: int, writeFails: bool)
    ensures var o := RemoveStep(cfg, s, id, writeFails);
      && (o.ok <==> !writeFails && exists i :: 0 <= i < |s.collection| && cfg.idOf(s.collection[i]) == id)
      && (!o.ok ==> o.next == s)
      && (o.ok ==>
        && (exists i :: 0 <= i < |s.collection| && cfg.idOf(s.collection[i]) == id
              && (forall j :: 0 <= j < i ==> cfg.idOf(s.collection[j]) != id)
              && o.next.collection == s.collection[..i] + s.collection[i + 1..])
        && o.next.indexer.collection == RemoveAll(s.indexer.collection, NumberToString(id))
        && (forall x :: x in o.next.indexer.collection <==> x in s.indexer.collection && x != NumberToString(id))
        && o.next.indexer.lastId == s.indexer.lastId
        && o.next.kv == (s.kv - {ItemKey(cfg.collectionKey, NumberToString(id))})
                          [IndexKey(cfg.collectionKey) := cfg.index.encode(o.next.indexer)]
        && ItemKey(cfg.collectionKey, NumberToString(id)) !in o.next.kv
        && o.next.listeners == s.listeners
        && o.next.log == s.log + Broadcast(s.listeners, o.next.collection))
  {
    ItemKeyIsNotIndexKey(cfg.collectionKey, NumberToString(id));
  }

  /**
   * `updateItem` succeeds exactly when some item has the value's id and the record write
   * succeeds. On success the value takes the place of the first such item, the length and
   * every other position stay, the record is rewritten under its key while every other key
   * and the index are untouched, and listeners are notified; otherwise nothing changes.
   */
  lemma UpdateStepSpec<T>(cfg: Config<T>, s: State<T>, value: T, writeFails: bool)
    ensures var o := UpdateStep(cfg, s, value, writeFails);
      && (o.ok <==> !writeFails && exists i :: 0 <= i < |s.collection| && cfg.idOf(s.collection[i]) == cfg.idOf(value))
      && (!o.ok ==> o.next == s)
      && (o.ok ==>
        && |o.next.collection| == |s.collection|
        && (exists i :: 0 <= i < |s.collection| && cfg.idOf(s.collection[i]) == cfg.idOf(value)
              && (forall j :: 0 <= j < i ==> cfg.idOf(s.collection[j]) != cfg.idOf(value))
              && o.next.collection[i] == value
              && forall j :: 0 <= j < |s.collection| && j != i ==> o.next.collection[j] == s.collection[j])
        && o.next.indexer == s.indexer
        && o.next.kv == s.kv[KeyOf(cfg, value) := cfg.items.encode(value)]
        && o.next.listeners == s.listeners
        && o.next.log == s.log + Broadcast(s.listeners, o.next.collection))
  {
  }

  // ----- the store object -----------------------------------------------------------------

  /** One `Storage` instance. */
  class Storage<T> {
    const cfg: Config<T>
    var indexer: Indexer
    var collection: seq<T>
    var listeners: seq<nat>
    var kv: map<string, string>
    var log: seq<Notification<T>>

    function Snapshot(): State<T>
      reads this
    {
      State(indexer, collection, listeners, kv, log)
    }

    /** Every registered listener was last handed the current collection. */
    ghost predicate Valid()
      reads this
    {
      Synced(Snapshot())
    }

    /** `new Storage(collectionKey)` before `setup` has finished: empty index and collection. */
    constructor (cfg: Config<T>, kv: map<string, string>)
      ensures this.cfg == cfg
      ensures Snapshot() == State(Indexer(0, []), [], [], kv, [])
      ensures Valid()
    {
      this.cfg := cfg;
      indexer := Indexer(0, []);
      collection := [];
      listeners := [];
      this.kv := kv;
      log := [];
    }

    /** `emit`: call each listener in registration order with the collection. */
    method Emit()
      modifies this
      ensures Snapshot() == old(Snapshot()).(log := old(log) + Broadcast(listeners, collection))
      ensures Valid()
    {
      for i := 0 to |listeners|
        invariant Snapshot() == old(Snapshot()).(log := log)
        invariant log == old(log) + Broadcast(listeners[..i], collection)
      {
        assert listeners[..i + 1][..i] == listeners[..i];
        log := log + [Notification(listeners[i], collection)];
      }
      assert listeners[..|listeners|] == listeners;
      BroadcastSyncs(old(Snapshot()), collection);
    }

    /** `saveIndexer`: persist the index record; its failure is swallowed. */
    method SaveIndexer()
      modifies this
      ensures Snapshot() == old(Snapshot()).(kv := old(kv)[IndexKey(cfg.collectionKey) := cfg.index.encode(indexer)])
    {
      kv := kv[IndexKey(cfg.collectionKey) := cfg.index.encode(indexer)];
    }

    /** `setup`: `setupIndexer`, then `setupCollection`, then `emit`. */
    method Setup(getFails: bool, multiGetFails: bool)
      modifies this
      ensures Snapshot() == SetupStep(cfg, old(Snapshot()), getFails, multiGetFails)
      ensures Valid()
    {
      var key := IndexKey(cfg.collectionKey);
      if !getFails && key in kv {
        var parsed := cfg.index.decode(kv[key]);
        if parsed.Some? {
          indexer := parsed.value;
        }
      }
      if multiGetFails {
        collection := [];
      } else {
        collection := Loaded(cfg.collectionKey, indexer.collection, kv, cfg.items.decode);
      }
      Emit();
    }

    /** `saveCollection`: write every item under its key, in order; a failure is swallowed. */
    method SaveCollection(writeFails: bool)
      modifies this
      ensures Snapshot() == old(Snapshot()).(kv := if writeFails then old(kv) else SaveAll(cfg, collection, old(kv)))
    {
      if writeFails {
        return;
      }
      for i := 0 to |collection|
        invariant Snapshot() == old(Snapshot()).(kv := kv)
        invariant kv == SaveAll(cfg, collection[..i], old(kv))
      {
        assert collection[..i + 1][..i] == collection[..i];
        kv := kv[KeyOf(cfg, collection[i]) := cfg.items.encode(collection[i])];
      }
      assert collection[..|collection|] == collection;
    }

    /** `getCollectionById`. */
    function GetCollectionById(): (m: map<string, T>)
      reads this
      ensures |m| <= |collection|
    {
      CollectionByIdKeys(cfg.idOf, collection);
      CollectionById(cfg.idOf, collection)
    }

    /** `setCollection`: replace the collection and notify. */
    method SetCollection(c: seq<T>)
      modifies this
      ensures Snapshot() == SetCollectionStep(old(Snapshot()), c)
      ensures Valid()
    {
      collection := c;
      Emit();
    }

    /** `addItem`. */
    method AddItem(value: T, writeFails: bool) returns (ok: bool)
      requires Valid()
      modifies this
      ensures Outcome(Snapshot(), ok) == AddStep(cfg, old(Snapshot()), value, writeFails)
      ensures Valid()
    {
      var id := indexer.lastId + 1;
      var item := cfg.withId(value, id);
      if writeFails {
        return false;
      }
      kv := kv[ItemKey(cfg.collectionKey, NumberToString(id)) := cfg.items.encode(item)];
      collection := collection + [item];
      indexer := indexer.(collection := indexer.collection + [NumberToString(id)]);
      indexer := indexer.(lastId := id);
      SaveIndexer();
      Emit();
      ok := true;
    }

    /** `removeItem`. */
    method RemoveItem(id: int, writeFails: bool) returns (ok: bool)
      requires Valid()
      modifies this
      ensures Outcome(Snapshot(), ok) == RemoveStep(cfg, old(Snapshot()), id, writeFails)
      ensures Valid()
    {
      var index := FindIndexById(collection, cfg.idOf, id);
      if index.None? || writeFails {
        return false;
      }
      kv := kv - {ItemKey(cfg.collectionKey, NumberToString(id))};
      collection := collection[..index.value] + collection[index.value + 1..];
      indexer := indexer.(collection := RemoveAll(indexer.collection, NumberToString(id)));
      SaveIndexer();
      Emit();
      ok := true;
    }

    /** `updateItem`. */
    method UpdateItem(value: T, writeFails: bool) returns (ok: bool)
      requires Valid()
      modifies this
      ensures Outcome(Snapshot(), ok) == UpdateStep(cfg, old(Snapshot()), value, writeFails)
      ensures Valid()
    {
      var index := FindIndexById(collection, cfg.idOf, cfg.idOf(value));
      if index.None? || writeFails {
        return false;
      }
      kv := kv[ItemKey(cfg.collectionKey, NumberToString(cfg.idOf(value))) := cfg.items.encode(value)];
      collection := collection[index.value := value];
      Emit();
      ok := true;
    }

    /** `on`: register, then call the listener at once with the collection. */
    method On(listener: nat)
      requires Valid()
      modifies this
      ensures Snapshot() == OnStep(old(Snapshot()), listener)
      ensures Valid()
    {
      OnKeepsSynced(Snapshot(), listener);
      listeners := listeners + [listener];
      log := log + [Notification(listener, collection)];
    }

    /** `off`. */
    method Off(listener: nat)
      requires Valid()
      modifies this
      ensures Snapshot() == OffStep(old(Snapshot()), listener)
      ensures Valid()
    {
      listeners := RemoveAll(listeners, listener);
    }
  }
}
