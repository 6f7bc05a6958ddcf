/**
 * Storage and retrieval of poll results (pkg/db/db.go).
 *
 * The DynamoDB table is an in-memory map from the partition key, the date
 * string, to the item's attributes. An item written by UpdateItem carries
 * its key attribute "date" beside the counters. `reachable` stands for the
 * outcome of the network call: when it is false the SDK's Send() fails.
 */
module Db {
  import opened Options
  import opened Feelings
  import opened Dates

  /** A DynamoDB attribute value: a number (N) or a string (S). */
  datatype Attr = Num(n: int) | Text(s: string)

  type Item = map<string, Attr>
  type Table = map<string, Item>

  /** The table's partition key attribute. */
  const KeyName: string := "date"

  /** Range of Go's int on the 64-bit targets the handlers run on. */
  const MinInt64: int := -0x8000_0000_0000_0000
  const MaxInt64: int := 0x7fff_ffff_ffff_ffff

  /** Poll statistics for a day: `PollResult`. */
  datatype PollResult = PollResult(date: string, veryBad: int, bad: int, good: int, veryGood: int)

  /** The Go zero value of PollResult. */
  const ZeroResult: PollResult := PollResult("", 0, 0, 0, 0)

  datatype DbError =
    | FeelingOutOfRange(feeling: Feeling)   // "Feeling out of range: %d"
    | StoreUnavailable                      // Send() failed
    | IncorrectOperandType(field: string)   // ADD on an attribute that is not a number

  /** DynamoDB's schema: every item holds its own key in the "date" attribute. */
  ghost predicate KeysStored(table: Table) {
    forall key :: key in table ==> KeyName in table[key] && table[key][KeyName] == Text(key)
  }

  /** The counter a level reads in a decoded result. */
  function Count(p: PollResult, f: Feeling): int
    requires InRange(f)
  {
    if f == VeryBad then p.veryBad else if f == Bad then p.bad else if f == Good then p.good else p.veryGood
  }

  /** The numeric value of an attribute; an absent attribute counts as 0. */
  function Counter(item: Item, name: string): int {
    if name in item && item[name].Num? then item[name].n else 0
  }

  /** An attribute ADD can add to: absent, or a number. */
  predicate Addable(item: Item, name: string) {
    name !in item || item[name].Num?
  }

  /** The item stored under key, or the bare key item ADD creates when there is none. */
  function ItemOrNew(table: Table, key: string): Item {
    if key in table then table[key] else map[KeyName := Text(key)]
  }

  // ---------------------------------------------------------------- insert

  /** DynamoDB `ADD name :v` with :v = 1 on one item. */
  function AddOne(item: Item, name: string): (r: Option<Item>)
    ensures r.Some? <==> Addable(item, name)
    ensures r.Some? ==> r.value.Keys == item.Keys + {name}
    ensures r.Some? ==> r.value[name].Num? && Counter(r.value, name) == Counter(item, name) + 1
    ensures r.Some? ==> forall a :: a in item && a != name ==> r.value[a] == item[a]
  {
    if Addable(item, name) then Some(item[name := Num(Counter(item, name) + 1)]) else None
  }

  /**
   * The effect of InsertPollResult(f) on the table, with `now` the clock
   * reading: the range check, then one atomic ADD on today's item.
   */
  function Insert(table: Table, f: Feeling, now: Date, reachable: bool): (r: Result<Table, DbError>)
    ensures !InRange(f) ==> r == Err(FeelingOutOfRange(f))
    ensures InRange(f) && !reachable ==> r == Err(StoreUnavailable)
    ensures r.Ok? ==> r.value.Keys == table.Keys + {Format(now)}
  {
    if f < VeryBad || f > VeryGood then Err(FeelingOutOfRange(f))
    else
      var key := Format(now);
      if !reachable then Err(StoreUnavailable)
      else match AddOne(ItemOrNew(table, key), String(f))
        case None => Err(IncorrectOperandType(String(f)))
        case Some(item) => Ok(table[key := item])
  }

  /** n inserts of the same feeling on the same day, stopping at the first error. */
  function InsertMany(table: Table, f: Feeling, now: Date, n: nat): (r: Result<Table, DbError>)
    ensures n > 0 && !InRange(f) ==> r == Err(FeelingOutOfRange(f))
    ensures r.Ok? ==> table.Keys <= r.value.Keys && (n > 0 ==> Format(now) in r.value)
    decreases n
  {
    if n == 0 then Ok(table)
    else match Insert(table, f, now, true)
      case Err(e) => Err(e)
      case Ok(t) => InsertMany(t, f, now, n - 1)
  }

  /** An insert succeeds exactly when the feeling is in range, the store answers and the counter is a number or absent. */
  lemma InsertSucceedsIff(table: Table, f: Feeling, now: Date, reachable: bool)
    ensures Insert(table, f, now, reachable).Ok? <==>
      InRange(f) && reachable && Addable(ItemOrNew(table, Format(now)), String(f))
    ensures !InRange(f) ==> Insert(table, f, now, reachable) == Err(FeelingOutOfRange(f))
    ensures InRange(f) && !reachable ==> Insert(table, f, now, reachable) == Err(StoreUnavailable)
  {
  }

  /** Because of the range check, every insert that reaches the store targets one of the four level names, never "failure". */
  lemma InsertNeverWritesFailure(table: Table, f: Feeling, now: Date, reachable: bool)
    requires Insert(table, f, now, reachable).Ok?
    ensures String(f) in FieldNames && String(f) != Failure
    ensures forall key :: key in table && Failure !in table[key] ==>
      Failure !in Insert(table, f, now, reachable).value[key]
  {
    StringFailsOnlyOffScale(f);
  }

  /**
   * A successful insert touches only today's item; in it, only the level's
   * counter changes, by exactly +1, starting from 0 when absent.
   */
  lemma InsertBumpsOneCounter(table: Table, f: Feeling, now: Date, reachable: bool)
    requires Insert(table, f, now, reachable).Ok?
    ensures var t := Insert(table, f, now, reachable).value; var key := Format(now);
      && t.Keys == table.Keys + {key}
      && (forall k :: k in table && k != key ==> t[k] == table[k])
      && t[key].Keys == ItemOrNew(table, key).Keys + {String(f)}
      && Counter(t[key], String(f)) == Counter(ItemOrNew(table, key), String(f)) + 1
      && t[key][String(f)].Num?
      && (forall a :: a in t[key] && a != String(f) ==> t[key][a] == ItemOrNew(table, key)[a])
  {
  }

  /** Counters never decrease, and no item disappears. */
  lemma CountersNeverDecrease(table: Table, f: Feeling, now: Date, reachable: bool, key: string, name: string)
    requires Insert(table, f, now, reachable).Ok?
    requires key in table
    ensures var t := Insert(table, f, now, reachable).value;
      key in t && Counter(t[key], name) >= Counter(table[key], name)
  {
    InsertBumpsOneCounter(table, f, now, reachable);
  }

  /** The table keeps every item's key attribute. */
  lemma InsertKeepsKeys(table: Table, f: Feeling, now: Date, reachable: bool)
    requires KeysStored(table)
    requires Insert(table, f, now, reachable).Ok?
    ensures KeysStored(Insert(table, f, now, reachable).value)
  {
    InsertNeverWritesFailure(table, f, now, reachable);
    assert String(f) != KeyName;
  }

  /** n successful inserts of f on one day raise that day's f counter by exactly n and change no other item. */
  lemma {:induction false} InsertManyAddsN(table: Table, f: Feeling, now: Date, n: nat)
    requires InRange(f)
    requires Addable(ItemOrNew(table, Format(now)), String(f))
    ensures InsertMany(table, f, now, n).Ok?
    ensures var t := InsertMany(table, f, now, n).value; var key := Format(now);
      && (n > 0 ==> key in t)
      && Counter(ItemOrNew(t, key), String(f)) == Counter(ItemOrNew(table, key), String(f)) + n
      && (forall k :: k in table && k != key ==> k in t && t[k] == table[k])
    decreases n
  {
    if n > 0 {
      var key := Format(now);
      InsertBumpsOneCounter(table, f, now, true);
      var t1 := Insert(table, f, now, true).value;
      assert ItemOrNew(t1, key) == t1[key];
      InsertManyAddsN(t1, f, now, n - 1);
    }
  }

  // ---------------------------------------------------------------- read

  /** `dynamodbattribute` decoding of a number attribute into a Go int field; absent leaves 0. */
  function DecodeInt(item: Item, name: string): (r: Option<int>)
    ensures r.Some? ==> MinInt64 <= r.value <= MaxInt64
    ensures name !in item ==> r == Some(0)
    ensures name in item && item[name].Text? ==> r == None
    ensures name in item && item[name].Num? ==>
      (r.Some? <==> MinInt64 <= item[name].n <= MaxInt64) && (r.Some? ==> r.value == item[name].n)
  {
    if name !in item then Some(0)
    else match item[name]
      case Num(n) => if MinInt64 <= n <= MaxInt64 then Some(n) else None
      case Text(_) => None
  }

  /** Decoding of a string attribute into a Go string field; absent leaves "". */
  function DecodeString(item: Item, name: string): (r: Option<string>)
    ensures name in item && item[name].Text? ==> r == Some(item[name].s)
    ensures name in item && item[name].Num? ==> r == None
  {
    if name !in item then Some("")
    else match item[name]
      case Text(s) => Some(s)
      case Num(_) => None
  }

  /** An unmarshalled result and whether UnmarshalMap reported no error. */
  datatype Decoded = Decoded(result: PollResult, ok: bool)

  /** `dynamodbattribute.UnmarshalMap(item, &result)` from the zero PollResult. */
  function Unmarshal(item: Item): (d: Decoded)
    ensures d.ok <==>
      (DecodeString(item, KeyName).Some? && forall f :: InRange(f) ==> DecodeInt(item, String(f)).Some?)
    ensures d.ok ==>
      (d.result.date == DecodeString(item, KeyName).value
       && forall f :: InRange(f) ==> Count(d.result, f) == DecodeInt(item, String(f)).value)
  {
    var date := DecodeString(item, KeyName);
    var vb, b, g, vg := DecodeInt(item, "very_bad"), DecodeInt(item, "bad"), DecodeInt(item, "good"), DecodeInt(item, "very_good");
    var ok := date.Some? && vb.Some? && b.Some? && g.Some? && vg.Some?;
    assert ok <==> date.Some? && forall f :: InRange(f) ==> DecodeInt(item, String(f)).Some? by {
      assert String(VeryBad) == "very_bad" && String(Bad) == "bad";
      assert String(Good) == "good" && String(VeryGood) == "very_good";
    }
    Decoded(PollResult(
      if date.Some? then date.value else "",
      if vb.Some? then vb.value else 0,
      if b.Some? then b.value else 0,
      if g.Some? then g.value else 0,
      if vg.Some? then vg.value else 0), ok)
  }

  /** What GetPollResult decodes for a key once GetItem has answered. */
  function Lookup(table: Table, key: string): (d: Decoded)
    ensures key !in table ==> d == Decoded(ZeroResult, true)
    ensures key in table ==> d == Unmarshal(table[key])
  {
    if key in table then Unmarshal(table[key]) else Decoded(ZeroResult, true)
  }

  /** A day nobody voted on reads as all zeros, with an empty date. */
  lemma AbsentDayIsZero(table: Table, t: Date)
    requires Format(t) !in table
    ensures var d := Lookup(table, Format(t)).result;
      d.date == "" && forall f :: InRange(f) ==> Count(d, f) == 0
  {
  }

  /** A stored item that decodes carries the date it is stored under. */
  lemma StoredDayCarriesItsDate(table: Table, t: Date)
    requires KeysStored(table)
    requires Format(t) in table && Lookup(table, Format(t)).ok
    ensures Lookup(table, Format(t)).result.date == Format(t)
  {
  }

  /** An item with a malformed counter fails to unmarshal. */
  lemma MalformedCounterFails(item: Item, f: Feeling, s: string)
    requires InRange(f)
    ensures !Unmarshal(item[String(f) := Text(s)]).ok
  {
    var bad := item[String(f) := Text(s)];
    assert DecodeInt(bad, FieldNames[f]).None?;
  }

  /** ADD on one decodable item: the item still decodes, with f's counter one higher. */
  lemma AddOneThenUnmarshal(item: Item, key: string, f: Feeling)
    requires InRange(f)
    requires Unmarshal(item).ok && DecodeString(item, KeyName) == Some(key)
    requires Count(Unmarshal(item).result, f) < MaxInt64
    ensures AddOne(item, String(f)).Some?
    ensures var d := Unmarshal(AddOne(item, String(f)).value);
      && d.ok && d.result.date == key
      && Count(d.result, f) == Count(Unmarshal(item).result, f) + 1
      && forall g :: InRange(g) && g != f ==> Count(d.result, g) == Count(Unmarshal(item).result, g)
  {
    var name := String(f);
    assert DecodeInt(item, name).Some?;
    var item' := AddOne(item, name).value;
    assert KeyName != name;
    forall g | InRange(g)
      ensures DecodeInt(item', String(g)).Some?
      ensures g != f ==> DecodeInt(item', String(g)) == DecodeInt(item, String(g))
    {
      assert DecodeInt(item, String(g)).Some?;
      StringInjective(g, f);
    }
  }

  /**
   * Inserting f and then reading the same day shows exactly f's counter
   * raised by one, every other counter as before, and the day's date.
   */
  lemma InsertThenRead(table: Table, f: Feeling, now: Date)
    requires KeysStored(table)
    requires InRange(f)
    requires Lookup(table, Format(now)).ok
    requires Count(Lookup(table, Format(now)).result, f) < MaxInt64
    ensures Insert(table, f, now, true).Ok?
    ensures var before := Lookup(table, Format(now)).result;
      var after := Lookup(Insert(table, f, now, true).value, Format(now));
      && after.ok && after.result.date == Format(now)
      && Count(after.result, f) == Count(before, f) + 1
      && forall g :: InRange(g) && g != f ==> Count(after.result, g) == Count(before, g)
  {
    var key := Format(now);
    var item := ItemOrNew(table, key);
    assert Unmarshal(item).ok && DecodeString(item, KeyName) == Some(key)
      && forall g :: InRange(g) ==> Count(Unmarshal(item).result, g) == Count(Lookup(table, key).result, g)
    by {
      if key !in table {
        forall g | InRange(g) ensures String(g) !in item && DecodeInt(item, String(g)) == Some(0) {
          StringFailsOnlyOffScale(g);
        }
      }
    }
    AddOneThenUnmarshal(item, key, f);
  }

  // ---------------------------------------------------------------- the table

  /** The DynamoDB table the package-level client talks to. */
  class PollTable {
    var items: Table

    ghost predicate Valid()
      reads this
    {
      KeysStored(items)
    }

    /** A table holding the given items (DynamoDB keeps each item's key in it). */
    constructor (initial: Table)
      requires KeysStored(initial)
      ensures Valid() && items == initial
    {
      items := initial;
    }

    /** `InsertPollResult(f)`: either an error and no change, or one counter of today's item raised by one. */
    method InsertPollResult(f: Feeling, now: Date, reachable: bool) returns (err: Option<DbError>)
      requires Valid()
      modifies this
      ensures Valid()
      ensures match Insert(old(items), f, now, reachable)
        case Ok(t) => err == None && items == t
        case Err(e) => err == Some(e) && items == old(items)
    {
      if f < VeryBad || f > VeryGood {
        return Some(FeelingOutOfRange(f));
      }
      var key := Format(now);
      var field := String(f);
      if !reachable {
        return Some(StoreUnavailable);
      }
      var item := if key in items then items[key] else map[KeyName := Text(key)];
      if field in item && !item[field].Num? {
        return Some(IncorrectOperandType(field));
      }
      var count := if field in item then item[field].n else 0;
      InsertKeepsKeys(items, f, now, reachable);
      items := items[key := item[field := Num(count + 1)]];
      err := None;
    }

    /**
     * `GetPollResult(t)`: on a GetItem failure the zero result and the error;
     * otherwise the decoded item (the zero result when there is none) and no
     * error, even when unmarshalling failed.
     */
    method GetPollResult(t: Date, reachable: bool) returns (result: PollResult, err: Option<DbError>)
      ensures !reachable ==> result == ZeroResult && err == Some(StoreUnavailable)
      ensures reachable ==> err == None
      ensures reachable && Format(t) !in items ==> result == ZeroResult
      ensures reachable && Format(t) in items ==> result == Unmarshal(items[Format(t)]).result
    {
      result := ZeroResult;
      var key := Format(t);
      if !reachable {
        return result, Some(StoreUnavailable);
      }
      if key in items {
        var decoded := Unmarshal(items[key]);
        result := decoded.result;
      }
      err := None;
    }
  }

  /** The table holds at most the day's own item, and it reads back with these counters. */
  ghost predicate DayReads(table: Table, key: string, vb: int, b: int, g: int, vg: int) {
    && KeysStored(table) && table.Keys <= {key} && Lookup(table, key).ok
    && Lookup(table, key).result.veryBad == vb && Lookup(table, key).result.bad == b
    && Lookup(table, key).result.good == g && Lookup(table, key).result.veryGood == vg
  }

  /** One insert on a table that holds at most the day's own item. */
  lemma DayStep(table: Table, f: Feeling, now: Date, vb: int, b: int, g: int, vg: int)
    requires DayReads(table, Format(now), vb, b, g, vg)
    requires InRange(f) && vb < MaxInt64 && b < MaxInt64 && g < MaxInt64 && vg < MaxInt64
    ensures Insert(table, f, now, true).Ok?
    ensures var t := Insert(table, f, now, true).value;
      && DayReads(t, Format(now),
        if f == VeryBad then vb + 1 else vb, if f == Bad then b + 1 else b,
        if f == Good then g + 1 else g, if f == VeryGood then vg + 1 else vg)
      && Lookup(t, Format(now)).result.date == Format(now)
  {
    InsertThenRead(table, f, now);
    InsertBumpsOneCounter(table, f, now, true);
    InsertKeepsKeys(table, f, now, true);
    var t := Insert(table, f, now, true).value;
    var before, after := Lookup(table, Format(now)).result, Lookup(t, Format(now)).result;
    assert Count(after, VeryBad) == after.veryBad && Count(before, VeryBad) == before.veryBad;
    assert Count(after, Bad) == after.bad && Count(before, Bad) == before.bad;
    assert Count(after, Good) == after.good && Count(before, Good) == before.good;
    assert Count(after, VeryGood) == after.veryGood && Count(before, VeryGood) == before.veryGood;
  }

  /** Two reads with no insert between them return the same result and error. */
  method ReadTwice(db: PollTable, t: Date, reachable: bool)
    returns (first: PollResult, second: PollResult, firstErr: Option<DbError>, secondErr: Option<DbError>)
    ensures first == second && firstErr == secondErr
    ensures reachable ==> firstErr == None
  {
    first, firstErr := db.GetPollResult(t, reachable);
    second, secondErr := db.GetPollResult(t, reachable);
  }

  /** On any day, three inserts of Good and one of VeryBad on a fresh table read back as {day, 1, 0, 3, 0}. */
  lemma ThreeGoodOneVeryBad(now: Date)
    ensures var t1 := Insert(map[], Good, now, true);
      t1.Ok? && var t2 := Insert(t1.value, Good, now, true);
      t2.Ok? && var t3 := Insert(t2.value, Good, now, true);
      t3.Ok? && var t4 := Insert(t3.value, VeryBad, now, true);
      t4.Ok? && Format(now) in t4.value
      && Unmarshal(t4.value[Format(now)]).result == PollResult(Format(now), 1, 0, 3, 0)
  {
    DayStep(map[], Good, now, 0, 0, 0, 0);
    var t1 := Insert(map[], Good, now, true).value;
    DayStep(t1, Good, now, 0, 0, 1, 0);
    var t2 := Insert(t1, Good, now, true).value;
    DayStep(t2, Good, now, 0, 0, 2, 0);
    var t3 := Insert(t2, Good, now, true).value;
    DayStep(t3, VeryBad, now, 0, 0, 3, 0);
  }

  /** The key of 2024-03-01, written out. */
  lemma FirstOfMarch2024()
    ensures Format(Date(2024, 3, 1)) == "2024-03-01"
  {
    assert Decimal(2) == "2";
    assert Decimal(20) == "20";
    assert Decimal(202) == "202";
    assert Decimal(2024) == "2024";
    assert Padded(3, 2) == "03";
  }

  /**
   * Through the table object: three votes of Good and one of VeryBad on a
   * day read back as {day, 1, 0, 3, 0}; a vote of 99 is refused; a day
   * nobody voted on reads as zeros.
   */
  method Scenario(now: Date, later: Date) returns (day: PollResult, refused: Option<DbError>, future: PollResult)
    requires later != now
    ensures day == PollResult(Format(now), 1, 0, 3, 0)
    ensures refused == Some(FeelingOutOfRange(99))
    ensures future == ZeroResult
  {
    var db := new PollTable(map[]);
    ThreeGoodOneVeryBad(now);
    var e := db.InsertPollResult(Good, now, true);
    e := db.InsertPollResult(Good, now, true);
    e := db.InsertPollResult(Good, now, true);
    e := db.InsertPollResult(VeryBad, now, true);
    refused := db.InsertPollResult(99, now, true);
    day, e := db.GetPollResult(now, true);
    FormatInjective(now, later);
    future, e := db.GetPollResult(later, true);
  }

  /** The scenario on 2024-03-01, with 2099-01-01 as the day nobody voted on. */
  method FirstOfMarchScenario() returns (day: PollResult, refused: Option<DbError>, future: PollResult)
    ensures day == PollResult("2024-03-01", 1, 0, 3, 0)
    ensures refused == Some(FeelingOutOfRange(99))
    ensures future == ZeroResult
  {
    FirstOfMarch2024();
    day, refused, future := Scenario(Date(2024, 3, 1), Date(2099, 1, 1));
  }
}
