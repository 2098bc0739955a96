/** The native data manager: an insert-once registry of results by id.

    `register` refuses an id that is already present, `add` overwrites. Bulk
    registration checks every key is a string before inserting anything, then
    inserts in order and stops at the first id already present, keeping the
    entries inserted before it. `get` returns a deep copy, which for immutable
    values is the stored value itself. */
module DataManager {
  import opened Errors
  import opened Values

  datatype DataManager = DataManager(results: map<Key, Value>)

  const Empty := DataManager(map[])

  /** `add(id, data)`: stores unconditionally; hashing an unhashable id raises. */
  function Add(dm: DataManager, k: Key, v: Value): (r: Result<DataManager>)
    ensures r.Err? <==> k.KUnhashable?
    ensures r.Ok? ==> k in r.value.results && r.value.results[k] == v
    ensures r.Ok? ==> forall j | j != k :: (j in r.value.results <==> j in dm.results)
    ensures r.Ok? ==> forall j | j != k && j in dm.results :: r.value.results[j] == dm.results[j]
  {
    if k.KUnhashable? then Err(Unhashable) else Ok(DataManager(dm.results[k := v]))
  }

  /** `contains(id)` */
  function Contains(dm: DataManager, k: Key): (r: Result<bool>)
    ensures r.Err? <==> k.KUnhashable?
    ensures r.Ok? ==> (r.value <==> k in dm.results)
  {
    if k.KUnhashable? then Err(Unhashable) else Ok(k in dm.results)
  }

  /** `get(id)`: a `KeyError` for an absent id. */
  function Get(dm: DataManager, k: Key): (r: Result<Value>)
    ensures r.Ok? <==> k in dm.results && !k.KUnhashable?
    ensures r.Ok? ==> r.value == dm.results[k]
    ensures r.Err? && !k.KUnhashable? ==> ClassOf(r.error) == KeyError
    ensures r.Err? && k.KUnhashable? ==> r.error == Unhashable
  {
    if k.KUnhashable? then Err(Unhashable)
    else if k !in dm.results then (if k.KStr? then Err(NotFound(k.s)) else Err(NotFoundNonString))
    else Ok(dm.results[k])
  }

  /** `registered_results()`, as a set: the order of the list is not modelled. */
  function RegisteredResults(dm: DataManager): (ks: set<Key>)
    ensures forall k: Key | !k.KUnhashable? :: k in ks <==> Contains(dm, k) == Ok(true)
  {
    dm.results.Keys
  }

  /** The argument of `register`: a string, a dictionary, or something else. */
  datatype Id = IdStr(s: string) | IdDict(entries: seq<(Key, Value)>) | IdOther

  /** `_register_individual`: a present id raises `KeyError` and changes nothing. */
  function RegisterIndividual(dm: DataManager, id: string, data: Value): (r: Raises<DataManager>)
    ensures r.Raised? <==> KStr(id) in dm.results
    ensures r.Raised? ==> r.state == dm && r.error == AlreadyExists(id) && ClassOf(r.error) == KeyError
    ensures r.Returned? ==> Contains(r.state, KStr(id)) == Ok(true) && Get(r.state, KStr(id)) == Ok(data)
    ensures r.Returned? ==> forall k | k != KStr(id) :: Get(r.state, k) == Get(dm, k)
  {
    if KStr(id) in dm.results then Raised(dm, AlreadyExists(id))
    else Returned(DataManager(dm.results[KStr(id) := data]))
  }

  predicate AllStringKeys(entries: seq<(Key, Value)>)
  {
    forall i | 0 <= i < |entries| :: entries[i].0.KStr?
  }

  /** `results` with the entries stored in order. */
  function Inserted(results: map<Key, Value>, entries: seq<(Key, Value)>): (m: map<Key, Value>)
    ensures forall k :: k in m <==> k in results || exists i | 0 <= i < |entries| :: entries[i].0 == k
    decreases |entries|
  {
    if entries == [] then results
    else
      var m := Inserted(results[entries[0].0 := entries[0].1], entries[1..]);
      assert forall i | 0 <= i < |entries| - 1 :: entries[1..][i] == entries[i + 1];
      m
  }

  /** Entry `j` names an id that is already present when its turn comes. */
  ghost predicate Clash(results: map<Key, Value>, entries: seq<(Key, Value)>, j: int)
    requires 0 <= j < |entries|
  {
    entries[j].0 in results || exists i | 0 <= i < j :: entries[i].0 == entries[j].0
  }

  /** Entry `j` is the first that clashes. */
  ghost predicate FirstClash(results: map<Key, Value>, entries: seq<(Key, Value)>, j: int)
  {
    && 0 <= j < |entries|
    && Clash(results, entries, j)
    && forall i | 0 <= i < j :: !Clash(results, entries, i)
  }

  ghost predicate NoClash(results: map<Key, Value>, entries: seq<(Key, Value)>)
  {
    forall j | 0 <= j < |entries| :: !Clash(results, entries, j)
  }

  /** The insertion loop of `_register_bulk`. */
  function InsertAll(dm: DataManager, entries: seq<(Key, Value)>): (r: Raises<DataManager>)
    requires AllStringKeys(entries)
    ensures dm.results.Keys <= r.state.results.Keys
    ensures r.Raised? ==> r.error.AlreadyExists? && ClassOf(r.error) == KeyError
    decreases |entries|
  {
    if entries == [] then Returned(dm)
    else
      match RegisterIndividual(dm, entries[0].0.s, entries[0].1)
      case Raised(s, e) => Raised(s, e)
      case Returned(s) => InsertAll(s, entries[1..])
  }

  /** After storing a fresh first entry, entry `j` clashes exactly when entry
      `j - 1` of the rest clashes against the extended store. */
  lemma ClashShift(results: map<Key, Value>, entries: seq<(Key, Value)>, j: int)
    requires |entries| > 0 && entries[0].0 !in results
    requires 1 <= j < |entries|
    ensures Clash(results, entries, j) <==> Clash(results[entries[0].0 := entries[0].1], entries[1..], j - 1)
  {
    var rest := entries[1..];
    var results' := results[entries[0].0 := entries[0].1];
    assert rest[j - 1] == entries[j];
    if exists i | 0 <= i < j - 1 :: rest[i].0 == rest[j - 1].0 {
      var i :| 0 <= i < j - 1 && rest[i].0 == rest[j - 1].0;
      assert entries[i + 1].0 == entries[j].0;
    }
    if exists i | 0 <= i < j :: entries[i].0 == entries[j].0 {
      var i :| 0 <= i < j && entries[i].0 == entries[j].0;
      if i > 0 {
        assert rest[i - 1].0 == rest[j - 1].0;
      } else {
        assert entries[j].0 in results';
      }
    }
  }

  /** The first clash of the whole sequence is one past the first clash of the
      rest, when the first entry is fresh. */
  lemma FirstClashShift(results: map<Key, Value>, entries: seq<(Key, Value)>, j: int)
    requires |entries| > 0 && entries[0].0 !in results
    requires FirstClash(results[entries[0].0 := entries[0].1], entries[1..], j)
    ensures FirstClash(results, entries, j + 1)
  {
    ClashShift(results, entries, j + 1);
    forall i | 0 <= i < j + 1
      ensures !Clash(results, entries, i)
    {
      if i > 0 {
        ClashShift(results, entries, i);
      }
    }
  }

  lemma NoClashShift(results: map<Key, Value>, entries: seq<(Key, Value)>)
    requires |entries| > 0 && entries[0].0 !in results
    requires NoClash(results[entries[0].0 := entries[0].1], entries[1..])
    ensures NoClash(results, entries)
  {
    forall j | 0 <= j < |entries|
      ensures !Clash(results, entries, j)
    {
      if j > 0 {
        ClashShift(results, entries, j);
      }
    }
  }

  /** The insertion loop stops at the first clashing entry, keeping every entry
      before it; without a clash it stores all of them. */
  lemma {:induction false} InsertAllOutcome(dm: DataManager, entries: seq<(Key, Value)>)
    requires AllStringKeys(entries)
    ensures InsertAll(dm, entries).Returned? <==> NoClash(dm.results, entries)
    ensures InsertAll(dm, entries).Returned? ==> InsertAll(dm, entries).state.results == Inserted(dm.results, entries)
    ensures InsertAll(dm, entries).Raised? ==> exists j ::
      && FirstClash(dm.results, entries, j)
      && InsertAll(dm, entries).state.results == Inserted(dm.results, entries[..j])
      && InsertAll(dm, entries).error == AlreadyExists(entries[j].0.s)
    decreases |entries|
  {
    if entries != [] {
      var k, v := entries[0].0, entries[0].1;
      var rest := entries[1..];
      if k in dm.results {
        assert Clash(dm.results, entries, 0);
        assert FirstClash(dm.results, entries, 0);
        assert entries[..0] == [];
      } else {
        var dm' := DataManager(dm.results[k := v]);
        assert AllStringKeys(rest) by {
          assert forall i | 0 <= i < |rest| :: rest[i] == entries[i + 1];
        }
        assert InsertAll(dm, entries) == InsertAll(dm', rest);
        InsertAllOutcome(dm', rest);
        var r := InsertAll(dm', rest);
        if r.Raised? {
          var j :| && FirstClash(dm'.results, rest, j)
                   && r.state.results == Inserted(dm'.results, rest[..j])
                   && r.error == AlreadyExists(rest[j].0.s);
          FirstClashShift(dm.results, entries, j);
          assert entries[..j + 1][1..] == rest[..j];
          assert entries[..j + 1][0] == entries[0];
          assert rest[j] == entries[j + 1];
        } else {
          NoClashShift(dm.results, entries);
        }
        if NoClash(dm.results, entries) {
          assert !Clash(dm.results, entries, 0);
          forall j | 0 <= j < |rest|
            ensures !Clash(dm'.results, rest, j)
          {
            ClashShift(dm.results, entries, j + 1);
          }
        }
      }
    }
  }

  /** `_register_bulk`: every key must be a string before anything is stored. */
  function RegisterBulk(dm: DataManager, entries: seq<(Key, Value)>): (r: Raises<DataManager>)
    ensures !AllStringKeys(entries) ==> r == Raised(dm, NonStringKey) && ClassOf(r.error) == TypeError
    ensures AllStringKeys(entries) ==> r == InsertAll(dm, entries)
    ensures AllStringKeys(entries) && r.Raised? ==> ClassOf(r.error) == KeyError
    ensures dm.results.Keys <= r.state.results.Keys
  {
    if !AllStringKeys(entries) then Raised(dm, NonStringKey) else InsertAll(dm, entries)
  }

  /** `register(id, data)` */
  function Register(dm: DataManager, id: Id, data: Value): (r: Raises<DataManager>)
    ensures id.IdOther? ==> r == Raised(dm, IdNotStrOrDict) && ClassOf(r.error) == TypeError
    ensures id.IdStr? ==> r == RegisterIndividual(dm, id.s, data)
    ensures id.IdStr? ==> (r.Returned? <==> KStr(id.s) !in dm.results)
    ensures id.IdStr? && r.Returned? ==> Get(r.state, KStr(id.s)) == Ok(data)
    ensures r.Raised? ==> ClassOf(r.error) == TypeError || ClassOf(r.error) == KeyError
    ensures dm.results.Keys <= r.state.results.Keys
    ensures id.IdDict? ==> r == RegisterBulk(dm, id.entries)
  {
    match id
    case IdStr(s) => RegisterIndividual(dm, s, data)
    case IdDict(entries) => RegisterBulk(dm, entries)
    case IdOther => Raised(dm, IdNotStrOrDict)
  }

  /** Bulk registration of fresh, distinct string ids stores every entry and
      keeps everything stored before. */
  lemma BulkFresh(dm: DataManager, entries: seq<(Key, Value)>)
    requires AllStringKeys(entries)
    requires forall i | 0 <= i < |entries| :: entries[i].0 !in dm.results
    requires forall i, j | 0 <= i < j < |entries| :: entries[i].0 != entries[j].0
    ensures Register(dm, IdDict(entries), NoneValue).Returned?
    ensures var s := Register(dm, IdDict(entries), NoneValue).state;
      && (forall i | 0 <= i < |entries| :: Get(s, entries[i].0) == Ok(entries[i].1))
      && (forall k | k in dm.results :: Get(s, k) == Get(dm, k))
  {
    InsertAllOutcome(dm, entries);
    InsertedValues(dm.results, entries);
  }

  /** Bulk registration of distinct string ids returns exactly when none of
      them is stored yet, and then stores every entry and keeps everything
      stored before; otherwise it raises `KeyError`. */
  lemma DistinctBulkOutcome(dm: DataManager, entries: seq<(Key, Value)>)
    requires AllStringKeys(entries)
    requires forall i, j | 0 <= i < j < |entries| :: entries[i].0 != entries[j].0
    ensures var r := RegisterBulk(dm, entries);
      r.Returned? <==> forall i | 0 <= i < |entries| :: entries[i].0 !in dm.results
    ensures var r := RegisterBulk(dm, entries);
      r.Raised? ==> ClassOf(r.error) == KeyError
    ensures var r := RegisterBulk(dm, entries);
      r.Returned? ==> forall k :: k in r.state.results <==> k in dm.results || exists i | 0 <= i < |entries| :: entries[i].0 == k
    ensures var r := RegisterBulk(dm, entries);
      r.Returned? ==> forall i | 0 <= i < |entries| :: entries[i].0 in r.state.results && r.state.results[entries[i].0] == entries[i].1
    ensures var r := RegisterBulk(dm, entries);
      r.Returned? ==> forall k | k in dm.results :: r.state.results[k] == dm.results[k]
  {
    InsertAllOutcome(dm, entries);
    assert forall j | 0 <= j < |entries| :: Clash(dm.results, entries, j) <==> entries[j].0 in dm.results;
    if RegisterBulk(dm, entries).Returned? {
      InsertedValues(dm.results, entries);
    }
  }

  /** With distinct keys, each entry's value is what ends up stored under it,
      and ids not among the keys keep their value. */
  lemma {:induction false} InsertedValues(results: map<Key, Value>, entries: seq<(Key, Value)>)
    requires forall i, j | 0 <= i < j < |entries| :: entries[i].0 != entries[j].0
    ensures forall i | 0 <= i < |entries| :: Inserted(results, entries)[entries[i].0] == entries[i].1
    ensures forall k | k in results && (forall i | 0 <= i < |entries| :: entries[i].0 != k) ::
      Inserted(results, entries)[k] == results[k]
    decreases |entries|
  {
    if entries != [] {
      var rest := entries[1..];
      assert forall i | 0 <= i < |rest| :: rest[i] == entries[i + 1];
      InsertedValues(results[entries[0].0 := entries[0].1], rest);
    }
  }

  /** A failed bulk registration is not rolled back: the entries before the
      first clashing id stay registered. */
  lemma BulkNotAtomic(dm: DataManager, entries: seq<(Key, Value)>, j: nat)
    requires AllStringKeys(entries)
    requires j < |entries| && entries[j].0 in dm.results
    requires forall i | 0 <= i < j :: entries[i].0 !in dm.results
    requires forall i, i' | 0 <= i < i' <= j :: entries[i].0 != entries[i'].0
    ensures var r := Register(dm, IdDict(entries), NoneValue);
      && r.Raised? && ClassOf(r.error) == KeyError
      && forall i | 0 <= i < j :: Get(r.state, entries[i].0) == Ok(entries[i].1)
  {
    FreshPrefixClash(dm.results, entries, j);
    InsertAllOutcome(dm, entries);
    var r := InsertAll(dm, entries);
    assert r.Raised?;
    var j' :| && FirstClash(dm.results, entries, j')
              && r.state.results == Inserted(dm.results, entries[..j'])
              && r.error == AlreadyExists(entries[j'].0.s);
    FirstClashUnique(dm.results, entries, j, j');
    var prefix := entries[..j];
    assert forall i | 0 <= i < j :: prefix[i] == entries[i];
    InsertedValues(dm.results, prefix);
    forall i | 0 <= i < j
      ensures Get(r.state, entries[i].0) == Ok(entries[i].1)
    {
      assert prefix[i] == entries[i];
    }
  }

  /** Fresh, distinct ids before a stored one make the stored one the first clash. */
  lemma FreshPrefixClash(results: map<Key, Value>, entries: seq<(Key, Value)>, j: nat)
    requires j < |entries| && entries[j].0 in results
    requires forall i | 0 <= i < j :: entries[i].0 !in results
    requires forall i, i' | 0 <= i < i' <= j :: entries[i].0 != entries[i'].0
    ensures FirstClash(results, entries, j)
  {
    assert Clash(results, entries, j);
    forall i | 0 <= i < j
      ensures !Clash(results, entries, i)
    {
    }
  }

  lemma FirstClashUnique(results: map<Key, Value>, entries: seq<(Key, Value)>, j: int, j': int)
    requires FirstClash(results, entries, j) && FirstClash(results, entries, j')
    ensures j == j'
  {
  }
}
