/**
 * The generic offline store engine: an in-memory list of items, an
 * in-memory queue of pending mutations and a `lastUpdate` timestamp,
 * backed by a key/value store that holds entities under
 * "{resource}.{id}" and pending mutations under "updates.{resource}.{id}".
 *
 * Every promise chain of the TypeScript service runs to completion, in
 * order, inside one method here.
 */
module Offline {

  import opened Wrappers
  import Decimal
  import Text
  import Sequences
  import KeyValue

  /** Any stored record with an id and a synchronized flag; `data` holds the domain fields. */
  datatype Entity<D> = Entity(id: int, synchronized: bool, data: D)

  /** The HTTP verb of a pending mutation. */
  datatype Verb = Post | Put | Delete

  /** A pending mutation: the verb to replay and the entity it carries. */
  datatype Update<D> = Update(verb: Verb, value: Entity<D>)

  /** What the untyped store holds: an entity record or a mutation record. */
  datatype Value<D> = EntityValue(entity: Entity<D>) | UpdateValue(update: Update<D>)

  /** A cached list response: the items and the server timestamp they carry. */
  datatype CachedList<D> = CachedList(timestamp: int, data: seq<Entity<D>>)

  /** The argument of setSynchronized, typed `number | string` in the source. */
  datatype IdArg = NumberId(n: int) | StringId(s: string)

  /** The request saveInServer issues, short of the transport itself. */
  datatype Request<D> = Request(verb: Verb, url: string, contentType: string, body: Option<Entity<D>>)

  const JsonContentType := "application/json"

  function EntityKey(resource: string, id: int): string {
    resource + "." + Decimal.IntToString(id)
  }

  function UpdateKey(resource: string, id: int): string {
    "updates." + resource + "." + Decimal.IntToString(id)
  }

  function CollectionUrl(apiUrl: string, resource: string): string {
    apiUrl + "/" + resource
  }

  function ItemUrl(apiUrl: string, resource: string, id: int): string {
    CollectionUrl(apiUrl, resource) + "/" + Decimal.IntToString(id)
  }

  /** Strict equality `item.id === index`: a string argument never equals a numeric id. */
  predicate Matches<D>(item: Entity<D>, index: IdArg) {
    index.NumberId? && index.n == item.id
  }

  /** The position of the first item matching `index`, or `|items|` when none does. */
  function FirstMatch<D>(items: seq<Entity<D>>, index: IdArg): (r: nat)
    ensures r <= |items|
    ensures forall k :: 0 <= k < r ==> !Matches(items[k], index)
    ensures r < |items| ==> Matches(items[r], index)
  {
    if items == [] then 0
    else if Matches(items[0], index) then 0
    else 1 + FirstMatch(items[1..], index)
  }

  /** The store after saving `items` one after the other under their entity keys. */
  function SaveAll<D>(m: map<string, Value<D>>, resource: string, items: seq<Entity<D>>): map<string, Value<D>>
    decreases |items|
  {
    if items == [] then m
    else
      var last := items[|items| - 1];
      SaveAll(m, resource, items[..|items| - 1])[EntityKey(resource, last.id) := EntityValue(last)]
  }

  /** No later item in `items` has the id of `items[i]`. */
  ghost predicate LastWithId<D>(items: seq<Entity<D>>, i: int)
    requires 0 <= i < |items|
  {
    forall j :: i < j < |items| ==> items[j].id != items[i].id
  }

  // ---------------------------------------------------------------------
  // Keys

  lemma IntTextHasNoDots(id: int)
    ensures Text.Dots(Decimal.IntToString(id)) == 0
  {
    Text.NoDots(Decimal.IntToString(id));
  }

  lemma KeyDots(resource: string, id: int)
    ensures Text.Dots(EntityKey(resource, id)) == Text.Dots(resource) + 1
    ensures Text.Dots(UpdateKey(resource, id)) == Text.Dots(resource) + 2
  {
    var digits := Decimal.IntToString(id);
    IntTextHasNoDots(id);
    assert Text.Dots(".") == 1;
    Text.NoDots("updates");
    assert "updates." == "updates" + ".";
    Text.DotsAppend("updates", ".");
    Text.DotsAppend(resource, ".");
    Text.DotsAppend(resource + ".", digits);
    Text.DotsAppend("updates.", resource);
    Text.DotsAppend("updates." + resource, ".");
    Text.DotsAppend("updates." + resource + ".", digits);
  }

  /** Entity keys of one resource determine the id. */
  lemma EntityKeyInjective(resource: string, a: int, b: int)
    ensures EntityKey(resource, a) == EntityKey(resource, b) ==> a == b
  {
    var n := |resource| + 1;
    assert EntityKey(resource, a)[n..] == Decimal.IntToString(a);
    assert EntityKey(resource, b)[n..] == Decimal.IntToString(b);
    Decimal.IntToStringInjective(a, b);
  }

  /** Update keys of one resource determine the id. */
  lemma UpdateKeyInjective(resource: string, a: int, b: int)
    ensures UpdateKey(resource, a) == UpdateKey(resource, b) ==> a == b
  {
    var n := |resource| + 9;
    assert UpdateKey(resource, a)[n..] == Decimal.IntToString(a);
    assert UpdateKey(resource, b)[n..] == Decimal.IntToString(b);
    Decimal.IntToStringInjective(a, b);
  }

  /** An entity record and a mutation record of one resource never share a key. */
  lemma EntityKeyIsNotUpdateKey(resource: string, a: int, b: int)
    ensures EntityKey(resource, a) != UpdateKey(resource, b)
  {
    KeyDots(resource, a);
    KeyDots(resource, b);
  }

  /** getAllFromStorage's filter `resource + "."` matches every entity key of the resource. */
  lemma EntityScanSeesEntityKeys(resource: string, id: int)
    ensures Text.Contains(EntityKey(resource, id), resource + ".")
  {
    var key := EntityKey(resource, id);
    assert key[0..|resource| + 1] == resource + ".";
    Text.OccurrenceIsContained(key, resource + ".", 0);
  }

  /**
   * The same filter matches by substring, so it also matches every queue
   * record "updates.{resource}.{id}": an entity scan returns pending mutations too.
   */
  lemma EntityScanSeesUpdateKeys(resource: string, id: int)
    ensures Text.Contains(UpdateKey(resource, id), resource + ".")
  {
    var key := UpdateKey(resource, id);
    assert key[8..8 + |resource| + 1] == resource + ".";
    Text.OccurrenceIsContained(key, resource + ".", 8);
  }

  /** getUpdatesFromStorage's filter never matches an entity key of the same resource. */
  lemma UpdateScanSkipsEntityKeys(resource: string, id: int)
    ensures !Text.Contains(EntityKey(resource, id), "updates." + resource + ".")
  {
    var needle := "updates." + resource + ".";
    KeyDots(resource, id);
    Text.ContainedDots(EntityKey(resource, id), needle);
    Text.NoDots("updates");
    assert "updates." == "updates" + ".";
    Text.DotsAppend("updates", ".");
    Text.DotsAppend("updates.", resource);
    Text.DotsAppend("updates." + resource, ".");
  }

  /** A Put or Delete URL ends in the entity's id, readable back from the text after the collection path. */
  lemma ItemUrlNamesItem(apiUrl: string, resource: string, id: int)
    ensures var c := CollectionUrl(apiUrl, resource); var u := ItemUrl(apiUrl, resource, id);
      && |u| > |c| + 1
      && u[..|c| + 1] == c + "/"
      && Decimal.IsIntText(u[|c| + 1..])
      && Decimal.ParseInt(u[|c| + 1..]) == id
  {
    var c := CollectionUrl(apiUrl, resource);
    var u := ItemUrl(apiUrl, resource, id);
    assert u[|c| + 1..] == Decimal.IntToString(id);
    assert u[..|c| + 1] == c + "/";
    Decimal.ParseIntToString(id);
  }

  // ---------------------------------------------------------------------
  // Store transitions

  /** Saving then reading by the same id yields the saved item; other ids read what was there before. */
  lemma SaveThenGet<D>(m: map<string, Value<D>>, resource: string, item: Entity<D>, id: int)
    ensures KeyValue.Lookup(m[EntityKey(resource, item.id) := EntityValue(item)], EntityKey(resource, id))
         == if id == item.id then Some(EntityValue(item)) else KeyValue.Lookup(m, EntityKey(resource, id))
  {
    EntityKeyInjective(resource, item.id, id);
  }

  /** Deleting an item makes its id read as nothing; other ids read what was there before. */
  lemma DeleteThenGet<D>(m: map<string, Value<D>>, resource: string, item: Entity<D>, id: int)
    ensures KeyValue.Lookup(m - {EntityKey(resource, item.id)}, EntityKey(resource, id))
         == if id == item.id then None else KeyValue.Lookup(m, EntityKey(resource, id))
  {
    EntityKeyInjective(resource, item.id, id);
  }

  /**
   * A local mutation writes (or removes) the entity record, then writes the
   * mutation record; the second write never disturbs the first.
   */
  lemma MutationKeepsEntityRecord<D>(m: map<string, Value<D>>, resource: string, item: Entity<D>, u: Update<D>)
    requires u.value.id == item.id
    ensures var m' := m[UpdateKey(resource, item.id) := UpdateValue(u)];
      && KeyValue.Lookup(m', EntityKey(resource, item.id)) == KeyValue.Lookup(m, EntityKey(resource, item.id))
      && KeyValue.Lookup(m', UpdateKey(resource, item.id)) == Some(UpdateValue(u))
  {
    EntityKeyIsNotUpdateKey(resource, item.id, item.id);
  }

  /** After saving a list, each id holds the last item of the list with that id. */
  lemma {:induction false} SaveAllLastWins<D>(m: map<string, Value<D>>, resource: string, items: seq<Entity<D>>, i: int)
    requires 0 <= i < |items| && LastWithId(items, i)
    ensures EntityKey(resource, items[i].id) in SaveAll(m, resource, items)
    ensures SaveAll(m, resource, items)[EntityKey(resource, items[i].id)] == EntityValue(items[i])
    decreases |items|
  {
    var n := |items| - 1;
    if i < n {
      var prefix := items[..n];
      LastWithIdInPrefix(items, i);
      SaveAllLastWins(m, resource, prefix, i);
      EntityKeyInjective(resource, items[n].id, items[i].id);
      SaveKeepsOtherKey(SaveAll(m, resource, prefix), EntityKey(resource, items[n].id), EntityValue(items[n]),
                        EntityKey(resource, items[i].id));
    }
  }

  lemma LastWithIdInPrefix<D>(items: seq<Entity<D>>, i: int)
    requires 0 <= i < |items| - 1 && LastWithId(items, i)
    ensures items[..|items| - 1][i] == items[i]
    ensures LastWithId(items[..|items| - 1], i)
    ensures items[|items| - 1].id != items[i].id
  {
  }

  lemma SaveKeepsOtherKey<D>(m: map<string, Value<D>>, written: string, v: Value<D>, key: string)
    requires key in m && key != written
    ensures key in m[written := v] && m[written := v][key] == m[key]
  {
  }

  /** Saving a list leaves every key that is not the entity key of a listed item as it was. */
  lemma {:induction false} SaveAllKeepsOthers<D>(m: map<string, Value<D>>, resource: string, items: seq<Entity<D>>, key: string)
    requires forall x :: x in items ==> EntityKey(resource, x.id) != key
    ensures key in SaveAll(m, resource, items) <==> key in m
    ensures key in m ==> SaveAll(m, resource, items)[key] == m[key]
    decreases |items|
  {
    if items != [] {
      var n := |items| - 1;
      var prefix, last := items[..n], items[n];
      var before := SaveAll(m, resource, prefix);
      assert SaveAll(m, resource, items) == before[EntityKey(resource, last.id) := EntityValue(last)];
      assert last in items;
      assert forall x :: x in prefix ==> x in items;
      SaveAllKeepsOthers(m, resource, prefix, key);
    }
  }

  // ---------------------------------------------------------------------
  // The engine

  class OfflineService<D(==)> {
    const apiUrl: string
    const resource: string
    /** The current value of the `listItems$` subject. */
    var listItems: seq<Entity<D>>
    /** How many times `listItems$.next` has published a list. */
    var notifications: nat
    /** The in-memory queue of pending mutations. */
    var updates: seq<Value<D>>
    var lastUpdate: int
    /** The key/value store the engine writes to. */
    var store: map<string, Value<D>>

    /**
     * Starts with an empty list, an empty queue and `lastUpdate` 0, then
     * seeds the list from the cached list response, if one is given.
     */
    constructor (apiUrl: string, resource: string, store: map<string, Value<D>>, cached: Option<CachedList<D>>)
      ensures this.apiUrl == apiUrl && this.resource == resource && this.store == store
      ensures updates == []
      ensures if cached.Some? && cached.value.timestamp > 0
              then listItems == cached.value.data && lastUpdate == cached.value.timestamp && notifications == 1
              else listItems == [] && lastUpdate == 0 && notifications == 0
    {
      this.apiUrl := apiUrl;
      this.resource := resource;
      this.store := store;
      listItems := [];
      notifications := 0;
      lastUpdate := 0;
      updates := [];
      new;
      GetItemsFromCache(cached);
    }

    /** Every value whose key contains "{resource}." (entity records and queue records alike). */
    method GetAllFromStorage() returns (found: seq<Value<D>>, ghost keys: seq<string>)
      ensures KeyValue.IsScan(store, resource + ".", found)
      ensures KeyValue.ScanPairing(store, resource + ".", found, keys)
    {
      found, keys := KeyValue.ScanContaining(store, resource + ".");
    }

    method SaveInStorage(item: Entity<D>) returns (saved: Entity<D>)
      modifies this
      ensures saved == item
      ensures store == old(store)[EntityKey(resource, item.id) := EntityValue(item)]
      ensures listItems == old(listItems) && updates == old(updates)
      ensures lastUpdate == old(lastUpdate) && notifications == old(notifications)
    {
      store := store[EntityKey(resource, item.id) := EntityValue(item)];
      saved := item;
    }

    method DeleteFromStorage(item: Entity<D>) returns (deleted: bool)
      modifies this
      ensures deleted
      ensures store == old(store) - {EntityKey(resource, item.id)}
      ensures listItems == old(listItems) && updates == old(updates)
      ensures lastUpdate == old(lastUpdate) && notifications == old(notifications)
    {
      store := store - {EntityKey(resource, item.id)};
      deleted := true;
    }

    method GetFromStorage(id: int) returns (r: Option<Value<D>>)
      ensures r.Some? <==> EntityKey(resource, id) in store
      ensures r.Some? ==> r.value == store[EntityKey(resource, id)]
    {
      r := KeyValue.Lookup(store, EntityKey(resource, id));
    }

    /** Saves each item in turn; resolves with the list given. */
    method SaveAllInStorage(items: seq<Entity<D>>) returns (saved: seq<Entity<D>>)
      modifies this
      ensures saved == items
      ensures store == SaveAll(old(store), resource, items)
      ensures listItems == old(listItems) && updates == old(updates)
      ensures lastUpdate == old(lastUpdate) && notifications == old(notifications)
    {
      var i := 0;
      while i < |items|
        invariant 0 <= i <= |items|
        invariant store == SaveAll(old(store), resource, items[..i])
        invariant listItems == old(listItems) && updates == old(updates)
        invariant lastUpdate == old(lastUpdate) && notifications == old(notifications)
      {
        var _ := SaveInStorage(items[i]);
        assert items[..i + 1][..i] == items[..i];
        i := i + 1;
      }
      assert items[..i] == items;
      saved := items;
    }

    /**
     * Writes the mutation under "updates.{resource}.{id}", replacing any
     * earlier record for that id, and always appends it to the in-memory queue.
     */
    method AddUpdate(update: Update<D>) returns (added: Update<D>)
      modifies this
      ensures added == update
      ensures store == old(store)[UpdateKey(resource, update.value.id) := UpdateValue(update)]
      ensures updates == old(updates) + [UpdateValue(update)]
      ensures listItems == old(listItems)
      ensures lastUpdate == old(lastUpdate) && notifications == old(notifications)
    {
      store := store[UpdateKey(resource, update.value.id) := UpdateValue(update)];
      updates := updates + [UpdateValue(update)];
      added := update;
    }

    /**
     * Deletes the mutation record and splices `updates.indexOf(update)` out of
     * the queue: the first equal entry when there is one, the last entry otherwise.
     */
    method RemoveUpdate(update: Update<D>)
      modifies this
      ensures store == old(store) - {UpdateKey(resource, update.value.id)}
      ensures updates == Sequences.SpliceOne(old(updates), Sequences.IndexOf(old(updates), UpdateValue(update)))
      ensures UpdateValue(update) in old(updates) ==>
                multiset(updates) == multiset(old(updates)) - multiset{UpdateValue(update)}
      ensures UpdateValue(update) !in old(updates) && old(updates) != [] ==>
                updates == old(updates)[..|old(updates)| - 1]
      ensures listItems == old(listItems)
      ensures lastUpdate == old(lastUpdate) && notifications == old(notifications)
    {
      store := store - {UpdateKey(resource, update.value.id)};
      var v := UpdateValue(update);
      ghost var before := updates;
      updates := Sequences.SpliceOne(updates, Sequences.IndexOf(updates, v));
      if v in before {
        Sequences.RemovePresent(before, v);
      } else {
        Sequences.RemoveAbsent(before, v);
      }
    }

    /** Appends to the in-memory queue every value whose key contains "updates.{resource}.". */
    method GetUpdatesFromStorage() returns (queue: seq<Value<D>>, ghost keys: seq<string>)
      modifies this
      ensures queue == updates
      ensures |old(updates)| <= |updates| && updates[..|old(updates)|] == old(updates)
      ensures KeyValue.IsScan(store, "updates." + resource + ".", updates[|old(updates)|..])
      ensures KeyValue.ScanPairing(store, "updates." + resource + ".", updates[|old(updates)|..], keys)
      ensures store == old(store) && listItems == old(listItems)
      ensures lastUpdate == old(lastUpdate) && notifications == old(notifications)
    {
      var found;
      found, keys := KeyValue.ScanContaining(store, "updates." + resource + ".");
      updates := updates + found;
      queue := updates;
    }

    /**
     * The staleness gate: a cached list is published, and its timestamp
     * recorded, only when the timestamp is newer than `lastUpdate`.
     */
    method GetItemsFromCache(cached: Option<CachedList<D>>)
      modifies this
      ensures if cached.Some? && cached.value.timestamp > old(lastUpdate)
              then listItems == cached.value.data && lastUpdate == cached.value.timestamp
                   && notifications == old(notifications) + 1
              else listItems == old(listItems) && lastUpdate == old(lastUpdate)
                   && notifications == old(notifications)
      ensures lastUpdate >= old(lastUpdate)
      ensures cached.Some? ==> cached.value.timestamp <= lastUpdate
      ensures store == old(store) && updates == old(updates)
    {
      if cached.Some? && cached.value.timestamp > lastUpdate {
        listItems := cached.value.data;
        notifications := notifications + 1;
        SetLastUpdate(cached.value.timestamp);
      }
    }

    /** The method, URL and body of the request that replays `update`. */
    method SaveInServer(update: Update<D>) returns (request: Request<D>)
      ensures request.verb == update.verb
      ensures request.contentType == JsonContentType
      ensures request.url == if update.verb == Post then CollectionUrl(apiUrl, resource)
                             else ItemUrl(apiUrl, resource, update.value.id)
      ensures request.body.Some? <==> update.verb != Delete
      ensures request.body.Some? ==> request.body.value == update.value
    {
      var url := apiUrl + "/" + resource;
      var body: Option<Entity<D>>;
      if update.verb == Put {
        url := url + "/" + Decimal.IntToString(update.value.id);
      }
      if update.verb == Put || update.verb == Post {
        body := Some(update.value);
      } else {
        url := url + "/" + Decimal.IntToString(update.value.id);
        body := None;
      }
      request := Request(update.verb, url, JsonContentType, body);
    }

    /** Saves the item, queues a Post and appends the item to the list. */
    method CreateInServer(item: Entity<D>) returns (created: Entity<D>)
      modifies this
      ensures created == item
      ensures store == old(store)[EntityKey(resource, item.id) := EntityValue(item)]
                                 [UpdateKey(resource, item.id) := UpdateValue(Update(Post, item))]
      ensures updates == old(updates) + [UpdateValue(Update(Post, item))]
      ensures listItems == old(listItems) + [item]
      ensures lastUpdate == old(lastUpdate) && notifications == old(notifications)
    {
      var saved := SaveInStorage(item);
      var _ := AddUpdate(Update(Post, saved));
      listItems := listItems + [saved];
      created := saved;
    }

    /** Clears the synchronized flag, saves the item and queues a Put; the list is left alone. */
    method UpdateInServer(item: Entity<D>) returns (updated: Entity<D>)
      modifies this
      ensures updated == item.(synchronized := false)
      ensures store == old(store)[EntityKey(resource, item.id) := EntityValue(updated)]
                                 [UpdateKey(resource, item.id) := UpdateValue(Update(Put, updated))]
      ensures updates == old(updates) + [UpdateValue(Update(Put, updated))]
      ensures listItems == old(listItems)
      ensures lastUpdate == old(lastUpdate) && notifications == old(notifications)
    {
      var unsynced := item.(synchronized := false);
      var saved := SaveInStorage(unsynced);
      var _ := AddUpdate(Update(Put, saved));
      updated := saved;
    }

    /**
     * Removes the entity record, queues a Delete and splices
     * `listItems.indexOf(item)` out of the list.
     */
    method DeleteInServer(item: Entity<D>)
      modifies this
      ensures store == (old(store) - {EntityKey(resource, item.id)})
                       [UpdateKey(resource, item.id) := UpdateValue(Update(Delete, item))]
      ensures updates == old(updates) + [UpdateValue(Update(Delete, item))]
      ensures listItems == Sequences.SpliceOne(old(listItems), Sequences.IndexOf(old(listItems), item))
      ensures item in old(listItems) ==> multiset(listItems) == multiset(old(listItems)) - multiset{item}
      ensures item !in old(listItems) && old(listItems) != [] ==>
                listItems == old(listItems)[..|old(listItems)| - 1]
      ensures lastUpdate == old(lastUpdate) && notifications == old(notifications)
    {
      var _ := DeleteFromStorage(item);
      var _ := AddUpdate(Update(Delete, item));
      ghost var before := listItems;
      listItems := Sequences.SpliceOne(listItems, Sequences.IndexOf(listItems, item));
      if item in before {
        Sequences.RemovePresent(before, item);
      } else {
        Sequences.RemoveAbsent(before, item);
      }
    }

    /**
     * Sets the flag of the first item whose id strictly equals `index`,
     * re-saves that item and publishes the list; changes nothing when no item matches.
     */
    method SetSynchronized(index: IdArg, synchronized: bool)
      modifies this
      ensures var j := FirstMatch(old(listItems), index);
        if j < |old(listItems)| then
          var changed := old(listItems)[j].(synchronized := synchronized);
          && listItems == old(listItems)[j := changed]
          && store == old(store)[EntityKey(resource, changed.id) := EntityValue(changed)]
          && notifications == old(notifications) + 1
        else
          && listItems == old(listItems)
          && store == old(store)
          && notifications == old(notifications)
      ensures updates == old(updates) && lastUpdate == old(lastUpdate)
    {
      var items := listItems;
      var i := 0;
      while i < |items|
        invariant 0 <= i <= |items|
        invariant items == old(listItems) == listItems
        invariant forall k :: 0 <= k < i ==> !Matches(items[k], index)
        invariant store == old(store) && notifications == old(notifications)
        invariant updates == old(updates) && lastUpdate == old(lastUpdate)
      {
        var item := items[i];
        if Matches(item, index) {
          item := item.(synchronized := synchronized);
          items := items[i := item];
          listItems := items;
          var _ := SaveInStorage(item);
          notifications := notifications + 1;
          break;
        }
        i := i + 1;
      }
    }

    method SetLastUpdate(timestamp: int)
      modifies this
      ensures lastUpdate == timestamp
      ensures listItems == old(listItems) && updates == old(updates)
      ensures store == old(store) && notifications == old(notifications)
    {
      lastUpdate := timestamp;
    }
  }

}
