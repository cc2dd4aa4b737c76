# Rate store of the currency-rate tracker

The tracker keeps its exchange rates in one JSON file: a list of records
`{"id", "fecha", "tasa"}`, newest first. Every store operation in `main.py`
loads the whole list, changes it and, when something changed, writes the whole
list back. This project models that store:

- `records.dfy`, module `RateRecords`: the record, the file state (`Disk`:
  absent, undecodable, or holding a list), and the pure operations on a loaded
  list: the next id (`NextId`), the active rate (`Active`), the listing
  (`Listing`), the rate change of the first record with a given id
  (`Modified`), the delete filter (`Without`), and the lemmas about them.
- `store.dfy`, module `RateStore`: class `Store`, whose field `disk` is the
  backing file. Its methods are the operations of `main.py`. Each one loads
  (`Load(disk)`), changes the list and saves (`disk := Holds(...)`). When an
  operation does not save, the file stays exactly as it was. That includes an
  undecodable file. `StartupScenario` is a client that walks through start-up
  on a missing file, a new rate and a double delete.

A record's `id` is an `Option<int>`. `None` stands for a stored object without
an `"id"` key, which can only come from a hand-edited file. The code treats
that case three ways. The next id counts it as 0 (`item.get('id', 0)`). Modify
and delete never match it (`item.get('id')` is `None`). The listing fails on
it (`item['id']` raises). `Listing` returns `None` in that case.

Two behaviours of the code are worth stating plainly:
- Delete filters out every record with the id, not only the first one, and
  `Without` does the same. With unique ids it removes exactly one record
  (`DeleteUniqueRemovesOne`).
- The next id is the maximum id plus one. The `default=0` of `max` applies
  only to an empty list, and a record without an id counts as 0. So in a file
  whose ids are all negative and present, the next id is not positive.

## Model

| member | source | states |
|---|---|---|
| RateStore.Store.constructor | main.py:21-31 | the store starts from the file as found; the cited lines (`load_data`) are modelled by `Load`, through which every operation reads the file and which gives the empty list for an absent or undecodable file |
| RateRecords.MaxId | main.py:40 | the result is at least every id, with missing ids counted as 0, and it is the id of some record |
| RateRecords.NextId | main.py:38-40 | the next id is 1 for an empty list; otherwise it is some record's id plus one and strictly greater than every id |
| RateRecords.NextIdIsFresh | main.py:40 | no record of the list carries the next id |
| RateStore.Store.Create | main.py:60-72 | the new record, with id `NextId` of the old list and the given timestamp and rate, becomes element 0; the rest is the old list in order; the length grows by one; unique ids stay unique |
| RateRecords.CreatePreservesUniqueIds | main.py:64-71 | putting the freshly numbered record in front keeps ids unique |
| RateRecords.CreatePreservesNewestFirst | main.py:64-71 | if every record has an id and ids decrease from the front, the same holds after a create |
| RateRecords.CreateAllFromEmpty | main.py:60-72 | a run of creates on an empty store numbers the records 1, 2, 3, ... in creation order and leaves them newest first |
| RateStore.Store.ActiveRate | main.py:49-52 | the active rate is the rate of element 0, or none exactly when the store is empty |
| RateRecords.ActiveAfterCreate | main.py:49-52 | right after a create, the active rate is the rate just created |
| RateRecords.Listing | main.py:54-58 | the listing is defined exactly when every record has an id; then it has the store's length and order, and row i is (id, fecha, tasa) of record i |
| RateStore.Store.AllRates | main.py:54-58 | returns the listing of the loaded list |
| RateRecords.Modified | main.py:77-82 | only the first record with the id changes, and only its rate, which becomes the new value; every other position is unchanged and the length is unchanged |
| RateRecords.ModifyPreservesIds | main.py:78-80 | modify changes no id and no timestamp, so unique ids and newest-first order are kept |
| RateRecords.ModifyMissingIsIdentity | main.py:77-86 | with no record of the id, modify leaves the list unchanged |
| RateRecords.ActiveAfterModify | main.py:74-86 | modify changes the active rate only when the first record has the id, and then the active rate becomes the new value |
| RateStore.Store.Modify | main.py:74-86 | returns true exactly when some record has the id, and then saves the modified list; otherwise the file is left untouched |
| RateRecords.Without | main.py:93-95 | the filtered list is no longer than the original, and it is strictly shorter exactly when some record had the id |
| RateRecords.WithoutMembers | main.py:93 | the filtered list holds exactly the records whose id differs from the deleted one |
| RateRecords.WithoutAppend | main.py:93 | filtering distributes over concatenation, so the original relative order is kept |
| RateRecords.WithoutNoMatchIsIdentity | main.py:93-95 | filtering an id that no record has returns the list unchanged |
| RateRecords.DeleteIsIdempotent | main.py:88-98 | after a delete no record has the id, and deleting it again changes nothing |
| RateRecords.DeletePreservesUniqueIds | main.py:93 | deleting keeps ids unique |
| RateRecords.DeleteUniqueRemovesOne | main.py:91-95 | with unique ids, deleting an existing id removes exactly one record |
| RateRecords.DeletePreservesNewestFirst | main.py:93 | if every record has an id and ids decrease from the front, the same holds after a delete |
| RateStore.Store.Delete | main.py:88-98 | returns true exactly when some record had the id, and then saves the filtered list; otherwise the file is left untouched |
| RateStore.Store.InitCheck | main.py:43-47 | an empty store (absent, undecodable or empty list) becomes a file with the single record (1, timestamp, 1.0); a non-empty store is left untouched |

## Left out

- JSON encoding and decoding and the file system calls (main.py:21-36). The
  file is the `Disk` value. `Load` reads an absent or undecodable file as the
  empty list. An `open` that raises (for example, a permission error) is
  outside the `try` in the code; it is not modelled.
- JSON contents that are not a list of objects, and records with a missing
  `fecha` or `tasa` key or with a non-integer `id`. The store never writes
  them. The only malformed record modelled is one without an `id`.
- The rate is modelled as a `real`, so float values a real cannot hold are
  outside the model, for example `float('inf')`, which passes the
  `nuevo_valor > 0` guard (main.py:352-353) and is saved as `Infinity`. The
  store does no arithmetic on the rate, so nothing else is lost.
- `datetime.now().strftime` (main.py:66). The timestamp is a parameter.
- The positive-rate check. The GUI handlers require `nuevo_valor > 0`
  (main.py:353, main.py:367); the store itself accepts any rate, and so does
  the model.
- The Kivy interface (main.py:100-390): the layout, the window size, the
  conversion arithmetic and its two-decimal formatting, the display-string map
  `tasa_map`, and the text parsing in the handlers. These are presentation and
  floating-point formatting.
- Several processes writing the file at the same time. The tool runs as a
  single process, and the model runs each operation as one atomic step.
