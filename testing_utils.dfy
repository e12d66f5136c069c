/**
 * The test helpers that turn a dictionary of strings into `key=value`
 * command-line items and back, and the module-level employee-id counter
 * that hands out either incremental numbers or UUID strings.
 */
module TestingUtils {
  import opened Wrappers
  import opened Text

  /** A Python `dict` of strings: its entries in insertion order, no key twice. */
  type Entries = seq<(string, string)>

  predicate DistinctKeys(d: Entries)
  {
    forall i, j :: 0 <= i < j < |d| ==> d[i].0 != d[j].0
  }

  /** `d.get(key)`. */
  function Lookup(d: Entries, key: string): (r: Option<string>)
    ensures r.Some? <==> exists i :: 0 <= i < |d| && d[i].0 == key
  {
    if d == [] then None
    else if d[0].0 == key then Some(d[0].1)
    else
      var r := Lookup(d[1..], key);
      assert forall i :: 1 <= i < |d| ==> d[i] == d[1..][i - 1];
      r
  }

  /** `Lookup` finds the value stored with a key at any position. */
  lemma {:induction false} LookupAt(d: Entries, i: int)
    requires DistinctKeys(d) && 0 <= i < |d|
    ensures Lookup(d, d[i].0) == Some(d[i].1)
  {
    if i > 0 {
      LookupAt(d[1..], i - 1);
    }
  }

  /**
   * `d[key] = value`: an existing key keeps its place and takes the new
   * value; a new key goes to the end.
   */
  function Put(d: Entries, key: string, value: string): (r: Entries)
    requires DistinctKeys(d)
    ensures Lookup(d, key).None? ==> r == d + [(key, value)]
    ensures Lookup(d, key).Some? ==> |r| == |d|
    ensures Lookup(d, key).Some? ==> forall i :: 0 <= i < |d| ==> r[i] == if d[i].0 == key then (key, value) else d[i]
  {
    if d == [] then [(key, value)]
    else if d[0].0 == key then
      assert Lookup(d[1..], key).None?;
      [(key, value)] + d[1..]
    else
      [d[0]] + Put(d[1..], key, value)
  }

  /** `d[key] = value` keeps the keys distinct. */
  lemma PutKeepsDistinct(d: Entries, key: string, value: string)
    requires DistinctKeys(d)
    ensures DistinctKeys(Put(d, key, value))
  {
    var r := Put(d, key, value);
    if Lookup(d, key).None? {
      assert forall i :: 0 <= i < |d| ==> r[i] == d[i] && d[i].0 != key;
    } else {
      assert forall i :: 0 <= i < |d| ==> r[i].0 == d[i].0;
    }
  }

  /** After `d[key] = value`, `key` maps to `value` and every other key to what it had. */
  lemma LookupAfterPut(d: Entries, key: string, value: string, k: string)
    requires DistinctKeys(d)
    ensures Lookup(Put(d, key, value), k) == if k == key then Some(value) else Lookup(d, k)
  {
    var r := Put(d, key, value);
    PutKeepsDistinct(d, key, value);
    if k == key {
      if Lookup(d, key).None? {
        LookupAt(r, |d|);
      } else {
        var i :| 0 <= i < |d| && d[i].0 == key;
        LookupAt(r, i);
      }
    } else if Lookup(d, k).Some? {
      var i :| 0 <= i < |d| && d[i].0 == k;
      LookupAt(d, i);
      LookupAt(r, i);
    }
  }

  /** The `key=value` item of one entry. */
  function Item(key: string, value: string): string
  {
    key + "=" + value
  }

  /** One item per entry, in the dictionary's order. */
  function Items(d: Entries): (items: seq<string>)
    ensures |items| == |d|
    ensures forall i :: 0 <= i < |d| ==> items[i] == Item(d[i].0, d[i].1)
  {
    seq(|d|, i requires 0 <= i < |d| => Item(d[i].0, d[i].1))
  }

  /** `dict_to_list`: appends one `key=value` item per entry. */
  method DictToList(d: Entries) returns (ret: seq<string>)
    ensures ret == Items(d)
  {
    ret := [];
    for i := 0 to |d|
      invariant ret == Items(d[..i])
    {
      ret := ret + [Item(d[i].0, d[i].1)];
    }
    assert d[..|d|] == d;
  }

  /** Why `key, value = item.split('=')` raises `ValueError`. */
  datatype UnpackError = NotEnoughValues | TooManyValues

  /** `key, value = item.split('=')`. */
  function SplitPair(item: string): (r: Result<(string, string), UnpackError>)
    ensures r.Ok? <==> CountChar(item, '=') == 1
    ensures r.Ok? ==> '=' !in r.value.0 && '=' !in r.value.1
    ensures CountChar(item, '=') == 0 ==> r == Err(NotEnoughValues)
    ensures CountChar(item, '=') > 1 ==> r == Err(TooManyValues)
  {
    var parts := Split(item, '=');
    if |parts| < 2 then Err(NotEnoughValues)
    else if |parts| > 2 then Err(TooManyValues)
    else Ok((parts[0], parts[1]))
  }

  /** An item built from an `=`-free key and value splits back into them. */
  lemma SplitItem(key: string, value: string)
    requires '=' !in key && '=' !in value
    ensures SplitPair(Item(key, value)) == Ok((key, value))
  {
    SplitAfterPiece(key, '=', value);
    SplitNoSeparator(value, '=');
  }

  /**
   * The dictionary `list_to_dict` builds from `acc` onwards: each item is
   * split and stored in turn; the first item that does not split stops it.
   */
  function InsertItems(acc: Entries, items: seq<string>): (r: Result<Entries, UnpackError>)
    requires DistinctKeys(acc)
    ensures r.Ok? ==> DistinctKeys(r.value)
    decreases items
  {
    if items == [] then Ok(acc)
    else match SplitPair(items[0])
      case Err(e) => Err(e)
      case Ok((key, value)) =>
        PutKeepsDistinct(acc, key, value);
        InsertItems(Put(acc, key, value), items[1..])
  }

  /** `list_to_dict`. */
  method ListToDict(items: seq<string>) returns (r: Result<Entries, UnpackError>)
    ensures r == InsertItems([], items)
  {
    var ret: Entries := [];
    for i := 0 to |items|
      invariant DistinctKeys(ret)
      invariant InsertItems([], items) == InsertItems(ret, items[i..])
    {
      assert items[i..][1..] == items[i + 1..];
      var pair := SplitPair(items[i]);
      if pair.Err? {
        return Err(pair.error);
      }
      PutKeepsDistinct(ret, pair.value.0, pair.value.1);
      ret := Put(ret, pair.value.0, pair.value.1);
    }
    assert items[|items|..] == [];
    r := Ok(ret);
  }

  /** `list_to_dict` fails exactly when some item has no `=` or more than one. */
  lemma {:induction false} InsertItemsFails(acc: Entries, items: seq<string>)
    requires DistinctKeys(acc)
    ensures InsertItems(acc, items).Err? <==> exists i :: 0 <= i < |items| && CountChar(items[i], '=') != 1
    decreases items
  {
    if items != [] {
      if SplitPair(items[0]).Ok? {
        var p := SplitPair(items[0]).value;
        PutKeepsDistinct(acc, p.0, p.1);
        InsertItemsFails(Put(acc, p.0, p.1), items[1..]);
        assert forall i :: 1 <= i < |items| ==> items[i] == items[1..][i - 1];
        assert forall i :: 0 <= i < |items| - 1 ==> items[1..][i] == items[i + 1];
      }
    }
  }

  /** Reading the items of `a + b` is reading those of `a`, then those of `b`. */
  lemma {:induction false} InsertItemsAppend(acc: Entries, a: seq<string>, b: seq<string>)
    requires DistinctKeys(acc)
    ensures InsertItems(acc, a + b) ==
              match InsertItems(acc, a)
              case Err(e) => Err(e)
              case Ok(d) => InsertItems(d, b)
    decreases a
  {
    if a != [] {
      assert (a + b)[0] == a[0] && (a + b)[1..] == a[1..] + b;
      match SplitPair(a[0])
      case Err(_) =>
      case Ok((key, value)) =>
        PutKeepsDistinct(acc, key, value);
        InsertItemsAppend(Put(acc, key, value), a[1..], b);
    } else {
      assert a + b == b;
    }
  }

  /**
   * A repeated key takes the value of its last item: after a final
   * `key=value` item the key maps to `value` and every other key keeps
   * what it had.
   */
  lemma LastItemWins(items: seq<string>, key: string, value: string)
    requires InsertItems([], items).Ok?
    requires '=' !in key && '=' !in value
    ensures InsertItems([], items + [Item(key, value)]).Ok?
    ensures Lookup(InsertItems([], items + [Item(key, value)]).value, key) == Some(value)
    ensures forall k :: k != key ==>
              Lookup(InsertItems([], items + [Item(key, value)]).value, k) == Lookup(InsertItems([], items).value, k)
  {
    InsertItemsAppend([], items, [Item(key, value)]);
    SplitItem(key, value);
    var before := InsertItems([], items).value;
    forall k
      ensures Lookup(Put(before, key, value), k) == if k == key then Some(value) else Lookup(before, k)
    {
      LookupAfterPut(before, key, value, k);
    }
  }

  /** Reading the items of `d` after `acc`, with no key shared, appends `d`. */
  lemma {:induction false} InsertItemsOfEntries(acc: Entries, d: Entries)
    requires DistinctKeys(acc) && DistinctKeys(acc + d)
    requires forall i :: 0 <= i < |d| ==> '=' !in d[i].0 && '=' !in d[i].1
    ensures InsertItems(acc, Items(d)) == Ok(acc + d)
    decreases d
  {
    if d != [] {
      SplitItem(d[0].0, d[0].1);
      assert Lookup(acc, d[0].0).None? by {
        assert forall i :: 0 <= i < |acc| ==> (acc + d)[i] == acc[i];
        assert (acc + d)[|acc|] == d[0];
      }
      var acc' := Put(acc, d[0].0, d[0].1);
      assert acc' == acc + [d[0]];
      assert acc' + d[1..] == acc + d;
      assert Items(d)[1..] == Items(d[1..]);
      InsertItemsOfEntries(acc', d[1..]);
    } else {
      assert acc + d == acc;
    }
  }

  /** `list_to_dict(dict_to_list(d)) == d` when no key or value holds `=`. */
  lemma DictListRoundTrip(d: Entries)
    requires DistinctKeys(d)
    requires forall i :: 0 <= i < |d| ==> '=' !in d[i].0 && '=' !in d[i].1
    ensures InsertItems([], Items(d)) == Ok(d)
  {
    assert [] + d == d;
    InsertItemsOfEntries([], d);
  }

  /** What `_last_employee_id` holds: a number, or the last UUID handed out. */
  datatype CounterValue = IntValue(n: int) | StrValue(s: string)

  /** `str += int` raises `TypeError`. */
  datatype CounterError = TypeError

  /** The module-level `_last_employee_id` and the two helpers that advance it. */
  class EmployeeIdCounter {
    var last: CounterValue

    constructor ()
      ensures last == IntValue(0)
    {
      last := IntValue(0);
    }

    /** `next_employee_id_incremental`: one more than the stored number, stored again. */
    method NextIncremental() returns (r: Result<int, CounterError>)
      modifies this
      ensures old(last).IntValue? ==> r == Ok(old(last).n + 1) && last == IntValue(old(last).n + 1)
      ensures old(last).StrValue? ==> r == Err(TypeError) && last == old(last)
    {
      match last
      case IntValue(n) =>
        last := IntValue(n + 1);
        r := Ok(n + 1);
      case StrValue(_) =>
        r := Err(TypeError);
    }

    /**
     * `next_employee_id_uuid4`: stores the new UUID text in the same
     * variable and returns it; the UUID is drawn outside and passed in.
     */
    method NextUuid4(uuid: string) returns (id: string)
      modifies this
      ensures id == uuid && last == StrValue(uuid)
    {
      last := StrValue(uuid);
      id := uuid;
    }
  }

  /** A new counter hands out 1, 2, 3. */
  method CountFromStart() returns (first: Result<int, CounterError>, second: Result<int, CounterError>,
                                   third: Result<int, CounterError>)
    ensures first == Ok(1) && second == Ok(2) && third == Ok(3)
  {
    var counter := new EmployeeIdCounter();
    first := counter.NextIncremental();
    second := counter.NextIncremental();
    third := counter.NextIncremental();
  }

  /** Once a UUID has been handed out, the incremental helper fails. */
  method IncrementAfterUuid(uuid: string) returns (id: string, next: Result<int, CounterError>)
    ensures id == uuid && next == Err(TypeError)
  {
    var counter := new EmployeeIdCounter();
    id := counter.NextUuid4(uuid);
    next := counter.NextIncremental();
  }
}
