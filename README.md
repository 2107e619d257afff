# Offline store engine — Dafny model

This project models the offline-first storage core of a small Ionic task
list client:

- the generic engine `OfflineService<T>`. It keeps an in-memory list of items
  (the current value of `listItems$`), an in-memory queue of pending mutations
  (`updates`) and a `lastUpdate` timestamp. It writes entities to a key/value
  store under `"{resource}.{id}"` and pending mutations under
  `"updates.{resource}.{id}"`;
- the `TaskService` repository, which keeps tasks under `"tasks.{id}"`;
- the `Task` record.

Modules, one per concern:

| file | module | what it holds |
|---|---|---|
| `wrappers.dfy` | `Wrappers` | `Option`, the result of a store read (null when absent) |
| `decimal.dfy` | `Decimal` | the decimal text of an id (`${id}`), its parser and the round trip |
| `text.dfy` | `Text` | `String.prototype.indexOf` and the `indexOf(..) > -1` test the scans use |
| `sequences.dfy` | `Sequences` | `Array.prototype.indexOf` and `splice(start, 1)`, with a negative start counted from the end |
| `key_value.dfy` | `KeyValue` | the store as a `map<string, V>`: lookup, and a `forEach` scan filtered by substring |
| `offline_service.dfy` | `Offline` | the entity, mutation, key and URL definitions, and the `OfflineService` class |
| `task_model.dfy` | `TaskModel` | the `Task` datatype and its constructor |
| `task_service.dfy` | `Tasks` | the task keys and the `TaskService` class |

`OfflineService` is a class. Its fields are the list, the queue, `lastUpdate`,
the store and a count of list publications (`listItems$.next`). Each method
runs its promise chain to completion, in order, and states the whole new state
in terms of the old one. The properties that relate several operations are
lemmas over the store map and the sequences. These include:

- save-then-get;
- delete-then-get;
- a mutation record never overwrites an entity record;
- the last item with a given id wins in `saveAllInStorage`;
- queue and list removal by `indexOf`/`splice`.

The code exposes several sharp edges, and each one is stated as a property:

- Removal uses `splice(indexOf(x), 1)`. An absent element gives index -1, so
  the last element is removed (`Sequences.RemoveAbsent`,
  `OfflineService.RemoveUpdate`, `OfflineService.DeleteInServer`).
- The entity scan matches keys by substring, so it also returns queue records
  (`Offline.EntityScanSeesUpdateKeys`).
- `addUpdate` replaces the stored record for an id but always appends to the
  in-memory queue (`OfflineService.AddUpdate`).
- `TaskService.get` reads `"task.{id}"`, a key that `create` and `update` never
  write (`Tasks.LookupKeyIsNeverTaskKey`, `Tasks.CreateIsInvisibleToGet`).

Further behaviour of the code that the model keeps:

- `removeUpdate` on a mutation that is not queued removes the queue's last
  entry (`src/providers/offline/offline.service.ts:86`).
- `setLastUpdate` assigns whatever it is given; only the cache gate compares
  the new timestamp with `lastUpdate` (`offline.service.ts:113`, `:196`).
- `createInServer` leaves the item's `synchronized` flag as it is
  (`offline.service.ts:143-155`). Of the three local mutations, only
  `updateInServer` clears it (`:158`); `setSynchronized` sets the flag to the
  value it is given (`:184`).
- Both store scans match keys by substring, `key.indexOf(..) > -1`
  (`offline.service.ts:40`, `:96`).
- `createInServer` and `deleteInServer` change the list's array in place with
  `push`/`splice` on `getValue()` and do not call `next`
  (`offline.service.ts:150`, `:174`). Only `setSynchronized` and the cache gate
  publish (the `notifications` field).

## Model

| member | source | states |
|---|---|---|
| `Offline.OfflineService.constructor` | src/providers/offline/offline.service.ts:11-32 | Starts with an empty list, an empty queue and `lastUpdate` 0. A cached list with a positive timestamp then replaces the list, becomes `lastUpdate` and is published once. |
| `Offline.OfflineService.GetAllFromStorage` | src/providers/offline/offline.service.ts:34-47 | Returns one value per stored key that contains `"{resource}."` (the test `key.indexOf(..) > -1` is `Text.Contains`). Every such key's value is in the result, every result value is stored under such a key, and there are as many values as such keys. |
| `Offline.OfflineService.SaveInStorage` | src/providers/offline/offline.service.ts:49-51 | Writes the item under `"{resource}.{id}"`, changes no other key and resolves with the item. The key is built by `EntityKey`. |
| `Offline.OfflineService.DeleteFromStorage` | src/providers/offline/offline.service.ts:53-56 | Removes exactly the key `"{resource}.{id}"` (`EntityKey`), leaves every other key unchanged and resolves `true`. |
| `Offline.OfflineService.GetFromStorage` | src/providers/offline/offline.service.ts:58-60 | Yields the value under `"{resource}.{id}"`, or nothing when that key is absent. |
| `Offline.OfflineService.SaveAllInStorage` | src/providers/offline/offline.service.ts:62-71 | The store becomes the old store with each item saved in list order (`SaveAll`). Resolves with the list given. |
| `Offline.OfflineService.AddUpdate` | src/providers/offline/offline.service.ts:73-81 | Writes the mutation under `"updates.{resource}.{id}"` (`UpdateKey`), replacing any earlier record for that id. Always appends it to the in-memory queue, so the queue can hold several entries for an id that has one stored record. |
| `Offline.OfflineService.RemoveUpdate` | src/providers/offline/offline.service.ts:83-88 | Deletes the mutation key. If the mutation is queued, exactly one copy leaves the queue (multiset difference). If it is absent and the queue is not empty, the last entry is removed instead. |
| `Offline.OfflineService.GetUpdatesFromStorage` | src/providers/offline/offline.service.ts:90-103 | Appends to the queue exactly the stored values whose key contains `"updates.{resource}."` and returns the queue. The store and the list are unchanged. |
| `Offline.OfflineService.GetItemsFromCache` | src/providers/offline/offline.service.ts:105-123 | Publishes the cached list and sets `lastUpdate` to its timestamp only when that timestamp is greater than `lastUpdate`; otherwise nothing changes. Afterwards `lastUpdate` is at least the cached timestamp, so applying the same cache again changes nothing. |
| `Offline.OfflineService.SaveInServer` | src/providers/offline/offline.service.ts:125-141 | A post goes to `apiUrl/resource` (`CollectionUrl`) with the entity as body. A put goes to `apiUrl/resource/id` (`ItemUrl`), also with a body, because the switch falls through. A delete goes to `apiUrl/resource/id` with no body. Every request has a JSON content type. |
| `Offline.OfflineService.CreateInServer` | src/providers/offline/offline.service.ts:143-155 | Saves the item and queues a post for it. Appends the item to the end of the list and returns it. The synchronized flag is left as it was. |
| `Offline.OfflineService.UpdateInServer` | src/providers/offline/offline.service.ts:157-166 | Clears the synchronized flag, saves that item and queues a put. The list is untouched. |
| `Offline.OfflineService.DeleteInServer` | src/providers/offline/offline.service.ts:168-177 | Removes the entity key and queues a delete. If the item is in the list, one copy leaves the list; if it is absent and the list is not empty, the last item is removed instead. |
| `Offline.OfflineService.SetSynchronized` | src/providers/offline/offline.service.ts:179-193 | Only the first item whose id strictly equals the argument (`Matches`, line 183) gets the new flag; that item is re-saved and the list is published once. If no item matches, the list, the store and the publication count do not change. |
| `Offline.OfflineService.SetLastUpdate` | src/providers/offline/offline.service.ts:195-197 | Sets `lastUpdate` to the argument, which may be lower than the current value, and changes nothing else. |
| `Offline.FirstMatch` | src/providers/offline/offline.service.ts:181-190 | Gives the index of the first item whose id equals the argument, with no match before it, or the list length when no item matches. |
| `Offline.SaveThenGet` | src/providers/offline/offline.service.ts:49-60 | After saving an item, reading its id yields that item, and reading any other id yields what was there before. |
| `Offline.DeleteThenGet` | src/providers/offline/offline.service.ts:53-60 | After deleting an item, reading its id yields nothing, and reading any other id yields what was there before. |
| `Offline.MutationKeepsEntityRecord` | src/providers/offline/offline.service.ts:143-177 | Writing an item's mutation record leaves its entity record as it was, and the mutation is readable under its key. |
| `Offline.SaveAllLastWins` | src/providers/offline/offline.service.ts:62-71 | After saving a list, each id holds the last item in the list with that id. |
| `Offline.SaveAllKeepsOthers` | src/providers/offline/offline.service.ts:62-71 | Saving a list leaves every key that is not an item's entity key as it was. |
| `Offline.EntityKeyInjective` | src/providers/offline/offline.service.ts:49-60 | Two ids with the same entity key are the same id. |
| `Offline.UpdateKeyInjective` | src/providers/offline/offline.service.ts:73-88 | Two ids with the same mutation key are the same id. |
| `Offline.EntityKeyIsNotUpdateKey` | src/providers/offline/offline.service.ts:49-81 | An entity key and a mutation key of one resource are never equal, whatever their ids. |
| `Offline.EntityScanSeesEntityKeys` | src/providers/offline/offline.service.ts:39-42 | Every entity key of the resource passes the entity scan's filter. |
| `Offline.EntityScanSeesUpdateKeys` | src/providers/offline/offline.service.ts:39-42 | Every mutation key `"updates.{resource}.{id}"` also passes the entity scan's filter, because the filter matches a substring. |
| `Offline.UpdateScanSkipsEntityKeys` | src/providers/offline/offline.service.ts:95-98 | No entity key of the resource passes the mutation scan's filter. |
| `Offline.ItemUrlNamesItem` | src/providers/offline/offline.service.ts:126-137 | A put or delete URL is the collection URL, then `/`, then text that parses back to the entity's id. |
| `Sequences.IndexOf` | src/providers/offline/offline.service.ts:86 | Gives -1 exactly when the element is absent; otherwise gives the index of its first occurrence. |
| `Sequences.SpliceOne` | src/providers/offline/offline.service.ts:86 | Follows `splice(start, 1)`. A start in range removes that element. A negative start counts from the end, or means 0 if it reaches past the front. A start past the end removes nothing. |
| `Sequences.RemovePresent` | src/providers/offline/offline.service.ts:86 | Splicing out `indexOf(x)` for a present `x` removes exactly one occurrence of `x`. |
| `Sequences.RemoveAbsent` | src/providers/offline/offline.service.ts:174 | Splicing out `indexOf(x)` for an absent `x` removes the last element, or nothing from an empty sequence. |
| `Sequences.PushThenRemove` | src/providers/offline/offline.service.ts:143-177 | After a push of `x` (create), splicing out `indexOf(x)` (delete) leaves the original elements. The result is the original sequence itself when `x` was not already present. |
| `Text.IndexOf` | src/providers/offline/offline.service.ts:40 | Gives -1 exactly when the substring occurs nowhere; otherwise gives its first occurrence. |
| `KeyValue.ScanContaining` | src/providers/offline/offline.service.ts:39-45 | Visits every key once. Returns one value per key that contains the needle (`Text.Contains`): every such key's value is in the result, every result value is stored under such a key, and there are as many values as such keys. |
| `KeyValue.Lookup` | src/providers/offline/offline.service.ts:58-60 | Yields the stored value exactly when the key is present. |
| `Decimal.IntToString` | src/providers/offline/offline.service.ts:50 | The text of an id is digits, with a leading `-` exactly for negative ids. |
| `Decimal.ParseIntToString` | src/providers/offline/offline.service.ts:50 | Parsing the printed id gives the id back. |
| `Decimal.IntToStringInjective` | src/providers/offline/offline.service.ts:50 | Distinct ids print as distinct texts. |
| `TaskModel.NewTask` | src/models/task.model.ts:7-13 | A new task has the given title, the supplied clock value as id, `done = false` and `synchronized = false`. |
| `Tasks.TaskService.constructor` | src/providers/task/task.service.ts:10-12 | The repository works over the store it is given. |
| `Tasks.TaskService.GetAll` | src/providers/task/task.service.ts:14-26 | Returns one task per stored key that contains `"tasks."`. Every such key's task is in the result, and every result task is stored under such a key. |
| `Tasks.TaskService.Get` | src/providers/task/task.service.ts:28-30 | Yields the task under `"task.{id}"` (singular, `LookupKey`), or nothing. |
| `Tasks.TaskService.Create` | src/providers/task/task.service.ts:32-34 | Stores the task under `"tasks.{id}"` (`TaskKey`), changes no other key and resolves with the task. |
| `Tasks.TaskService.Update` | src/providers/task/task.service.ts:36-38 | Does exactly what create does, so it replaces the stored task with the same id. |
| `Tasks.LookupKeyIsNeverTaskKey` | src/providers/task/task.service.ts:28-34 | The key get reads never equals a key create writes, for any two ids. |
| `Tasks.CreateIsInvisibleToGet` | src/providers/task/task.service.ts:28-34 | A create or update never changes what get returns, for any id. |
| `Tasks.TaskKeyMatchesScan` | src/providers/task/task.service.ts:20-24 | Every key create writes passes getAll's filter. |
| `Tasks.CreatedTaskIsListed` | src/providers/task/task.service.ts:14-34 | After a create, any scan result getAll can return contains the created task. |

## Left out

- HTTP transport: the model does not send requests or read responses (`Http`, `Observable.map`, `response.json()`). `SaveInServer` builds only the verb, URL, content type and body. The body is the entity, not its `JSON.stringify` text.
- Cache reads in `getItemsFromCache`: the browser `caches` API and the JSON parsing are not modelled. The method takes the cached list as an `Option` parameter, where `None` means no `caches` or no match.
- Async behaviour: promise asynchrony and the un-awaited `addUpdate` calls are not modelled. Each chain runs to completion, in order, so the model does not capture interleaving with other operations.
- `Promise.all` in `saveAllInStorage`: the writes are modelled in list order.
- Store failures are not modelled: no storage error path and no `catch` that logs in `TaskService.getAll`.
- The order of `storage.forEach`: it belongs to the storage driver, so the scans leave the result order unspecified.
- Object identity: `indexOf` on the queue and the list compares object references; the model compares values. For the same reason, aliasing is left out. The source's `updateInServer` and `setSynchronized` change the caller's object in place; the model returns a changed copy. This changes what deletion does after an edit: in the source, `deleteInServer` on an item just passed to `updateInServer` finds that same object in the list and removes it; in the model, the copy returned by `UpdateInServer` (flag cleared) is not equal to the list's element, so `DeleteInServer` takes the absent-element path and removes the list's last item. Edits are not seen through the list either: in the source, `updateInServer` on an item taken from the list clears the flag on that same list element at once (`:158`), while the model's `listItems` keeps the old flag; likewise, changes a caller makes to a list object before calling update are not reflected in the model's list.
- BehaviorSubject subscriptions: subscribers and their notifications are not modelled. The subject is modelled as its current value plus a count of `next` calls.
- Unused collaborators: the `Network` dependency is unused and left out, and so are the `Headers` object (beyond its content type) and `storage.ready()`.
- Text.IndexOf: indexes Dafny strings by character, while JavaScript's `String.prototype.indexOf` counts UTF-16 code units; the two positions differ for text outside the Basic Multilingual Plane. The source uses only the `> -1` test (`Text.Contains`), which both agree on.
- Id printing: ids are unbounded integers printed in plain decimal. JavaScript's exponent form (from 1e21) and fractional ids are not modelled.
- `Update<T>` and `BaseModel` are not part of this model's sources. They are modelled from their use: a verb in {post, put, delete} with an entity, and an entity with an `id` and a `synchronized` flag.
- The service worker, the Angular module and the home page are outside this core.
