/** The rate store: the backing file and the operations that load it, change
    the loaded list and write it back. */
module RateStore {
  import opened RateRecords

  class Store {
    /** The backing file. */
    var disk: Disk

    /** What every operation loads at its start. */
    function Records(): seq<Record>
      reads this
    {
      Load(disk)
    }

    /** A store over the file as found at start-up. */
    constructor (initial: Disk)
      ensures disk == initial
    {
      disk := initial;
    }

    /** The rate of the first record, or none for an empty store. */
    method ActiveRate() returns (r: Option<real>)
      ensures r.None? <==> Records() == []
      ensures r.Some? ==> r.value == Records()[0].tasa
    {
      var data := Load(disk);
      r := Active(data);
    }

    /** Every record as (id, fecha, tasa), newest first; none when a stored
        record has no id. */
    method AllRates() returns (rows: Option<seq<Row>>)
      ensures rows == Listing(Records())
    {
      var data := Load(disk);
      rows := Listing(data);
    }

    /** Puts a record with the next id, the given timestamp and rate at the
        front of the list and saves it. */
    method Create(tasa: real, fecha: string)
      modifies this
      ensures disk == Holds(Created(old(Records()), fecha, tasa))
      ensures |Records()| == |old(Records())| + 1
      ensures Records()[0] == Record(Some(NextId(old(Records()))), fecha, tasa)
      ensures Records()[1..] == old(Records())
      ensures old(UniqueIds(Records())) ==> UniqueIds(Records())
    {
      var data := Load(disk);
      var nuevo := Record(Some(NextId(data)), fecha, tasa);
      data := [nuevo] + data;
      disk := Holds(data);
    }

    /** Sets the rate of the first record of id `id` and saves, reporting
        whether there was one; without one the file is not written. */
    method Modify(id: int, v: real) returns (ok: bool)
      modifies this
      ensures ok == HasId(old(Records()), id)
      ensures ok ==> disk == Holds(Modified(old(Records()), id, v))
      ensures !ok ==> disk == old(disk)
    {
      var data := Load(disk);
      ghost var loaded := data;
      var encontrado := false;
      var i := 0;
      while i < |data|
        invariant 0 <= i <= |data| == |loaded|
        invariant data == loaded
        invariant forall k :: 0 <= k < i ==> loaded[k].id != Some(id)
      {
        if data[i].id == Some(id) {
          data := data[i := data[i].(tasa := v)];
          encontrado := true;
          break;
        }
        i := i + 1;
      }
      if encontrado {
        assert FirstMatch(loaded, id, i);
        assert data == Modified(loaded, id, v) by {
          forall k | 0 <= k < |loaded| ensures data[k] == Modified(loaded, id, v)[k] {
            assert FirstMatch(loaded, id, k) <==> k == i;
          }
        }
        disk := Holds(data);
      }
      ok := encontrado;
    }

    /** Removes every record of id `id` and saves, reporting whether the list
        got shorter; otherwise the file is not written. */
    method Delete(id: int) returns (ok: bool)
      modifies this
      ensures ok == HasId(old(Records()), id)
      ensures ok ==> disk == Holds(Without(old(Records()), id))
      ensures !ok ==> disk == old(disk)
    {
      var data := Load(disk);
      var antes := |data|;
      var nueva := Without(data, id);
      if |nueva| < antes {
        disk := Holds(nueva);
        ok := true;
      } else {
        ok := false;
      }
    }

    /** At start-up, seeds an empty store with a record of rate 1.0. */
    method InitCheck(fecha: string)
      modifies this
      ensures old(Records()) == [] ==> disk == Holds([Record(Some(1), fecha, 1.0)])
      ensures old(Records()) != [] ==> disk == old(disk)
    {
      var data := Load(disk);
      if data == [] {
        Create(1.0, fecha);
      }
    }
  }

  /** Start-up on a missing file, then one more rate: the listing and the
      active rate the screen shows after each step. */
  method StartupScenario(f1: string, f2: string)
  {
    var store := new Store(Absent);
    store.InitCheck(f1);
    var rows := store.AllRates();
    assert store.Records() == [Record(Some(1), f1, 1.0)];
    assert rows.Some? && rows.value == [(1, f1, 1.0)];
    assert rows == Some([(1, f1, 1.0)]);
    store.Create(36.5, f2);
    assert store.Records() == [Record(Some(2), f2, 36.5), Record(Some(1), f1, 1.0)];
    rows := store.AllRates();
    assert rows.Some? && rows.value == [(2, f2, 36.5), (1, f1, 1.0)];
    assert rows == Some([(2, f2, 36.5), (1, f1, 1.0)]);
    var active := store.ActiveRate();
    assert active == Some(36.5);
    var ok := store.Delete(2);
    assert ok;
    ok := store.Delete(2);
    assert !ok;
    active := store.ActiveRate();
    assert active == Some(1.0);
  }
}
