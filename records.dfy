/** The rate records kept by the currency-rate tracker and the pure operations
    on a loaded list of them: next id, active rate, listing, the in-place rate
    change, the filter that deletes by id, and the file read. */
module RateRecords {

  datatype Option<T> = None | Some(value: T)

  /** One stored rate record. `id` is None when the stored object has no
      "id" key (a hand-edited file); the store itself always writes one. */
  datatype Record = Record(id: Option<int>, fecha: string, tasa: real)

  /** A listing row: (id, fecha, tasa). */
  type Row = (int, string, real)

  /** What the backing file holds: nothing, text that does not decode as JSON,
      or a decoded list of records, newest first. */
  datatype Disk = Absent | Undecodable | Holds(contents: seq<Record>)

  /** Reading the file: absent or undecodable reads as the empty list. */
  function Load(d: Disk): seq<Record>
  {
    if d.Holds? then d.contents else []
  }

  /** The id a record contributes to the maximum; a missing id counts as 0. */
  function IdOrZero(r: Record): int
  {
    match r.id
    case Some(n) => n
    case None => 0
  }

  predicate HasId(data: seq<Record>, id: int)
  {
    exists i :: 0 <= i < |data| && data[i].id == Some(id)
  }

  /** No id occurs on two records (records without an id are not compared). */
  predicate UniqueIds(data: seq<Record>)
  {
    forall i, j :: 0 <= i < j < |data| && data[i].id.Some? ==> data[i].id != data[j].id
  }

  /** Every record has an id, and the ids strictly decrease from the front:
      the newest record, with the largest id, comes first. */
  predicate NewestFirst(data: seq<Record>)
  {
    (forall i :: 0 <= i < |data| ==> data[i].id.Some?) &&
    (forall i, j :: 0 <= i < j < |data| ==> IdOrZero(data[j]) < IdOrZero(data[i]))
  }

  // ---------------------------------------------------------------- next id

  /** The largest id of a non-empty list, missing ids counting as 0. */
  function MaxId(data: seq<Record>): (m: int)
    requires data != []
    ensures forall i :: 0 <= i < |data| ==> IdOrZero(data[i]) <= m
    ensures exists i :: 0 <= i < |data| && IdOrZero(data[i]) == m
  {
    if |data| == 1 then IdOrZero(data[0])
    else
      var rest := MaxId(data[1..]);
      assert forall i :: 1 <= i < |data| ==> data[i] == data[1..][i - 1];
      if IdOrZero(data[0]) >= rest then IdOrZero(data[0]) else rest
  }

  /** The id for a new record: one more than the largest existing id, 1 for
      an empty list. */
  function NextId(data: seq<Record>): (n: int)
    ensures data == [] ==> n == 1
    ensures forall i :: 0 <= i < |data| ==> IdOrZero(data[i]) < n
    ensures data != [] ==> exists i :: 0 <= i < |data| && n == IdOrZero(data[i]) + 1
  {
    if data == [] then 1 else MaxId(data) + 1
  }

  /** No stored record carries the next id. */
  lemma NextIdIsFresh(data: seq<Record>)
    ensures !HasId(data, NextId(data))
  {
  }

  // ----------------------------------------------------------------- create

  /** The list after a new record is put at the front. */
  function Created(data: seq<Record>, fecha: string, tasa: real): seq<Record>
  {
    [Record(Some(NextId(data)), fecha, tasa)] + data
  }

  lemma CreatePreservesUniqueIds(data: seq<Record>, fecha: string, tasa: real)
    requires UniqueIds(data)
    ensures UniqueIds(Created(data, fecha, tasa))
  {
  }

  lemma CreatePreservesNewestFirst(data: seq<Record>, fecha: string, tasa: real)
    requires NewestFirst(data)
    ensures NewestFirst(Created(data, fecha, tasa))
  {
  }

  /** The list built by a run of creates on an empty store, the first batch
      entry created first. */
  function CreateAll(batch: seq<(string, real)>): seq<Record>
  {
    if batch == [] then []
    else
      var last := batch[|batch| - 1];
      Created(CreateAll(batch[..|batch| - 1]), last.0, last.1)
  }

  /** The record that the creates of `batch` leave at position i. */
  function CreatedAt(batch: seq<(string, real)>, i: int): Record
    requires 0 <= i < |batch|
  {
    Record(Some(|batch| - i), batch[|batch| - 1 - i].0, batch[|batch| - 1 - i].1)
  }

  /** Creates on an empty store number the records 1, 2, 3, ... in creation
      order and list them newest first. */
  lemma {:induction false} CreateAllFromEmpty(batch: seq<(string, real)>)
    ensures |CreateAll(batch)| == |batch|
    ensures forall i :: 0 <= i < |batch| ==> CreateAll(batch)[i] == CreatedAt(batch, i)
  {
    if batch != [] {
      var n := |batch|;
      var init := batch[..n - 1];
      CreateAllFromEmpty(init);
      var prev := CreateAll(init);
      NextIdAfterCreateAll(init);
      forall i | 0 <= i < n ensures CreateAll(batch)[i] == CreatedAt(batch, i) {
        if i > 0 {
          assert CreateAll(batch)[i] == prev[i - 1] == CreatedAt(init, i - 1);
          assert batch[n - 1 - i] == init[(n - 1) - 1 - (i - 1)];
        }
      }
    }
  }

  lemma NextIdAfterCreateAll(init: seq<(string, real)>)
    requires |CreateAll(init)| == |init|
    requires forall i :: 0 <= i < |init| ==> CreateAll(init)[i] == CreatedAt(init, i)
    ensures NextId(CreateAll(init)) == |init| + 1
  {
  }

  // ------------------------------------------------------------ active rate

  /** The active rate: the rate of the first record, none for an empty list. */
  function Active(data: seq<Record>): Option<real>
  {
    if data == [] then None else Some(data[0].tasa)
  }

  lemma ActiveAfterCreate(data: seq<Record>, fecha: string, tasa: real)
    ensures Active(Created(data, fecha, tasa)) == Some(tasa)
  {
  }

  // ---------------------------------------------------------------- listing

  function Project(r: Record): Row
    requires r.id.Some?
  {
    (r.id.value, r.fecha, r.tasa)
  }

  /** Every record projected to (id, fecha, tasa), in store order; None when a
      record has no id, where reading `item['id']` fails. */
  function Listing(data: seq<Record>): (rows: Option<seq<Row>>)
    ensures rows.Some? <==> forall i :: 0 <= i < |data| ==> data[i].id.Some?
    ensures rows.Some? ==> |rows.value| == |data| &&
                           (forall i :: 0 <= i < |data| ==> data[i].id.Some? && rows.value[i] == Project(data[i]))
  {
    if data == [] then Some([])
    else if data[0].id.None? then None
    else
      match Listing(data[1..])
      case None =>
        None
      case Some(rest) =>
        assert forall i :: 1 <= i < |data| ==> data[i] == data[1..][i - 1];
        Some([Project(data[0])] + rest)
  }

  // ----------------------------------------------------------------- modify

  /** k is the position of the first record whose id is `id`. */
  predicate FirstMatch(data: seq<Record>, id: int, k: int)
  {
    0 <= k < |data| && data[k].id == Some(id) &&
    forall j :: 0 <= j < k ==> data[j].id != Some(id)
  }

  /** The list with the rate of the first record of id `id` set to `v`. */
  function Modified(data: seq<Record>, id: int, v: real): (r: seq<Record>)
    ensures |r| == |data|
    ensures forall i :: 0 <= i < |data| ==>
      r[i] == if FirstMatch(data, id, i) then data[i].(tasa := v) else data[i]
  {
    if data == [] then []
    else if data[0].id == Some(id) then
      assert forall i :: 0 < i < |data| ==> !FirstMatch(data, id, i);
      [data[0].(tasa := v)] + data[1..]
    else
      var rest := Modified(data[1..], id, v);
      assert forall i :: 0 < i < |data| ==>
        (FirstMatch(data, id, i) <==> FirstMatch(data[1..], id, i - 1));
      [data[0]] + rest
  }

  /** Modifying changes no id and no timestamp, so uniqueness is kept. */
  lemma ModifyPreservesIds(data: seq<Record>, id: int, v: real)
    ensures forall i :: 0 <= i < |data| ==>
      Modified(data, id, v)[i].id == data[i].id && Modified(data, id, v)[i].fecha == data[i].fecha
    ensures UniqueIds(data) ==> UniqueIds(Modified(data, id, v))
    ensures NewestFirst(data) ==> NewestFirst(Modified(data, id, v))
  {
  }

  /** With no record of that id, modifying changes nothing. */
  lemma ModifyMissingIsIdentity(data: seq<Record>, id: int, v: real)
    requires !HasId(data, id)
    ensures Modified(data, id, v) == data
  {
  }

  /** The active rate changes only when the modified record is the first one. */
  lemma ActiveAfterModify(data: seq<Record>, id: int, v: real)
    ensures Active(Modified(data, id, v)) ==
      if data != [] && data[0].id == Some(id) then Some(v) else Active(data)
  {
  }

  // ----------------------------------------------------------------- delete

  /** The list with every record of id `id` filtered out. */
  function Without(data: seq<Record>, id: int): (r: seq<Record>)
    ensures |r| <= |data|
    ensures |r| < |data| <==> HasId(data, id)
  {
    if data == [] then []
    else
      var rest := Without(data[1..], id);
      assert HasId(data, id) <==> data[0].id == Some(id) || HasId(data[1..], id) by {
        if HasId(data, id) && data[0].id != Some(id) {
          var i :| 0 <= i < |data| && data[i].id == Some(id);
          assert data[1..][i - 1] == data[i];
        }
        if HasId(data[1..], id) {
          var i :| 0 <= i < |data[1..]| && data[1..][i].id == Some(id);
          assert data[i + 1] == data[1..][i];
        }
      }
      if data[0].id != Some(id) then [data[0]] + rest else rest
  }

  /** Deleting keeps exactly the records of other ids. */
  lemma {:induction false} WithoutMembers(data: seq<Record>, id: int)
    ensures forall x :: x in Without(data, id) <==> x in data && x.id != Some(id)
  {
    if data != [] {
      WithoutMembers(data[1..], id);
      assert forall x :: x in data <==> x == data[0] || x in data[1..];
    }
  }

  /** Filtering keeps the relative order: it distributes over concatenation. */
  lemma {:induction false} WithoutAppend(a: seq<Record>, b: seq<Record>, id: int)
    ensures Without(a + b, id) == Without(a, id) + Without(b, id)
  {
    if a == [] {
      assert a + b == b;
    } else {
      var ab := a + b;
      assert ab[0] == a[0];
      assert ab[1..] == a[1..] + b;
      WithoutAppend(a[1..], b, id);
      var head := if a[0].id != Some(id) then [a[0]] else [];
      assert Without(ab, id) == head + Without(ab[1..], id);
      assert Without(a, id) == head + Without(a[1..], id);
      assert head + (Without(a[1..], id) + Without(b, id)) == (head + Without(a[1..], id)) + Without(b, id);
    }
  }

  /** Deleting twice is deleting once, and the second delete finds nothing. */
  lemma DeleteIsIdempotent(data: seq<Record>, id: int)
    ensures !HasId(Without(data, id), id)
    ensures Without(Without(data, id), id) == Without(data, id)
  {
  }

  lemma {:induction false} WithoutNoMatchIsIdentity(data: seq<Record>, id: int)
    requires !HasId(data, id)
    ensures Without(data, id) == data
  {
    if data != [] {
      assert data[0].id != Some(id);
      WithoutNoMatchIsIdentity(data[1..], id);
      assert data == [data[0]] + data[1..];
    }
  }

  lemma UniqueTail(data: seq<Record>)
    requires data != [] && UniqueIds(data)
    ensures UniqueIds(data[1..])
    ensures data[0].id.Some? ==> forall x :: x in data[1..] ==> x.id != data[0].id
  {
  }

  lemma UniqueCons(x: Record, s: seq<Record>)
    requires UniqueIds(s)
    requires x.id.Some? ==> forall y :: y in s ==> y.id != x.id
    ensures UniqueIds([x] + s)
  {
  }

  /** Deleting keeps ids unique. */
  lemma {:induction false} DeletePreservesUniqueIds(data: seq<Record>, id: int)
    requires UniqueIds(data)
    ensures UniqueIds(Without(data, id))
  {
    if data != [] {
      UniqueTail(data);
      DeletePreservesUniqueIds(data[1..], id);
      if data[0].id != Some(id) {
        WithoutMembers(data[1..], id);
        UniqueCons(data[0], Without(data[1..], id));
      }
    }
  }

  /** With unique ids, deleting an existing id removes exactly one record. */
  lemma {:induction false} DeleteUniqueRemovesOne(data: seq<Record>, id: int)
    requires UniqueIds(data) && HasId(data, id)
    ensures |Without(data, id)| == |data| - 1
  {
    var t := data[1..];
    UniqueTail(data);
    if data[0].id == Some(id) {
      WithoutNoMatchIsIdentity(t, id);
    } else {
      var i :| 0 <= i < |data| && data[i].id == Some(id);
      assert t[i - 1] == data[i];
      DeleteUniqueRemovesOne(t, id);
    }
  }

  lemma NewestFirstTail(data: seq<Record>)
    requires data != [] && NewestFirst(data)
    ensures NewestFirst(data[1..])
    ensures forall x :: x in data[1..] ==> IdOrZero(x) < IdOrZero(data[0])
  {
    var t := data[1..];
    forall i | 0 <= i < |t| ensures t[i].id.Some? { assert t[i] == data[i + 1]; }
    forall i, j | 0 <= i < j < |t| ensures IdOrZero(t[j]) < IdOrZero(t[i]) {
      assert t[i] == data[i + 1] && t[j] == data[j + 1];
    }
    forall x | x in t ensures IdOrZero(x) < IdOrZero(data[0]) {
      var j :| 0 <= j < |t| && t[j] == x;
      assert data[j + 1] == x;
    }
  }

  lemma NewestFirstCons(x: Record, s: seq<Record>)
    requires x.id.Some? && NewestFirst(s)
    requires forall y :: y in s ==> IdOrZero(y) < IdOrZero(x)
    ensures NewestFirst([x] + s)
  {
    var r := [x] + s;
    forall i | 0 <= i < |r| ensures r[i].id.Some? {
      if i > 0 { assert r[i] == s[i - 1]; }
    }
    forall i, j | 0 <= i < j < |r| ensures IdOrZero(r[j]) < IdOrZero(r[i]) {
      assert r[j] == s[j - 1] && r[j] in s;
      if i > 0 { assert r[i] == s[i - 1]; }
    }
  }

  /** Deleting keeps the newest-first order of the ids. */
  lemma {:induction false} DeletePreservesNewestFirst(data: seq<Record>, id: int)
    requires NewestFirst(data)
    ensures NewestFirst(Without(data, id))
  {
    if data != [] {
      var t := data[1..];
      NewestFirstTail(data);
      DeletePreservesNewestFirst(t, id);
      if data[0].id != Some(id) {
        WithoutMembers(t, id);
        NewestFirstCons(data[0], Without(t, id));
      }
    }
  }
}
