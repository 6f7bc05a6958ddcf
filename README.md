# Feelings poll: storage and aggregation

A model of the storage layer of the Feelings poll backend (`pkg/db/db.go`).
Users rate their day on a four-level scale. The backend keeps one DynamoDB item per
calendar day. The item holds one counter per level.

- `Feelings` (feelings.dfy) is the `Feeling` scale 0..3. It maps each level to the
  attribute name it is stored under, and any other value to `"failure"`.
- `Dates` (dates.dfy) is the item key: `t.Format("2006-01-02")`. Go writes the year,
  month and day through `appendInt`: a sign, then the digits zero-padded to width 4
  or 2. For years 0..9999 this is the full-date form of section 5.6 of RFC 3339. The
  model proves that the format reads back, so distinct dates never share a key.
- `Db` (db.dfy) is the table and the two operations.
  - The table is a map from the date key to the item's attributes. An attribute is a
    DynamoDB number or string.
  - `PollTable` is the table as an object. `InsertPollResult` changes it in place.
    `GetPollResult` only reads it.
  - `Insert` is the pure effect of one insert: the range check, then one atomic
    `ADD field :v` with `:v = 1`. The lemmas about the insert path are stated on it.
  - `Unmarshal` models `dynamodbattribute.UnmarshalMap` into a `PollResult`.
    `Lookup` is what a read decodes for a key.

The clock is a parameter: `now` is the date of `time.Now()`. The network outcome is a
parameter too. `reachable = false` stands for a failing `Send()`.

The model follows the code in three places where a reader might expect otherwise:

- A read of a day with no item returns the Go zero `PollResult`. Its date is `""`, not
  the requested date (db.go:75, 91-94).
- After a successful `GetItem`, an unmarshal error is logged and dropped. The `err`
  declared at db.go:91 shadows the outer one, so db.go:94 returns nil. The model's
  `GetPollResult` therefore reports no error for a malformed item. A caller cannot
  tell "no data" from "bad data".
- An `ADD` on an attribute that holds a string is rejected by DynamoDB. The model
  returns `IncorrectOperandType` and leaves the table unchanged.

## Model

| member | source | states |
|---|---|---|
| Feelings.String | pkg/db/db.go:27-40 | each level 0..3 maps to its stored name, in order `very_bad`, `bad`, `good`, `very_good`; any other value maps to `"failure"` |
| Feelings.StringInjective | pkg/db/db.go:20-37 | two valid levels share a stored name exactly when they are the same level |
| Feelings.StringFailsOnlyOffScale | pkg/db/db.go:28-39 | `String` returns `"failure"` exactly for values off the scale; `"failure"` is not one of the four stored names, and `String` returns one of them exactly on the scale |
| Dates.Format | pkg/db/db.go:77 | the key of a date ends in `-MM-DD`: at least ten characters, dashes six and three from the end, two digits for month and day (the year part is read back by `ParseFormat`) |
| Dates.ParseFormat | pkg/db/db.go:15 | the `2006-01-02` key of any date, any year sign or width included, parses back to that date |
| Dates.FormatInjective | pkg/db/db.go:77 | two dates have the same key exactly when they are equal, so reads and writes of different days never share an item |
| Dates.FullDate | pkg/db/db.go:15 | for years 0..9999 the key has ten characters `YYYY-MM-DD`, and its digit groups are the year, month and day |
| Db.AddOne | pkg/db/db.go:104-111 | `ADD name 1` succeeds exactly when the attribute is absent or a number; it then adds only that name, raises its counter by 1 from 0 when absent, and keeps every other attribute |
| Db.Insert | pkg/db/db.go:98-124 | an off-range feeling gives `FeelingOutOfRange(f)`; an unreachable store gives `StoreUnavailable`; a success holds exactly the old keys plus today's (what changes inside today's item is `InsertBumpsOneCounter`) |
| Db.InsertMany | pkg/db/db.go:98-124 | n > 0 inserts of an off-range feeling fail with `FeelingOutOfRange(f)`; after successful repeated inserts every earlier day is still present, and today's item is present when n > 0 |
| Db.InsertSucceedsIff | pkg/db/db.go:98-124 | an insert succeeds exactly when the feeling is in range, the store answers and the counter is absent or numeric; off-range feelings fail with `FeelingOutOfRange(f)` before the store is reached; an unreachable store gives `StoreUnavailable` |
| Db.InsertNeverWritesFailure | pkg/db/db.go:99-104 | a successful insert targets one of the four stored names, never `"failure"`, and adds no `"failure"` attribute to an item without one |
| Db.InsertBumpsOneCounter | pkg/db/db.go:103-118 | a successful insert adds at most today's key; items of other days are unchanged; in today's item only `String(f)` changes, by exactly +1 from 0 when absent |
| Db.CountersNeverDecrease | pkg/db/db.go:104-111 | after a successful insert every existing item is still there and no counter of it is lower |
| Db.InsertKeepsKeys | pkg/db/db.go:113-117 | if every item holds its own key in `date`, it still does after an insert |
| Db.InsertManyAddsN | pkg/db/db.go:104-111 | n inserts of a valid f on one day all succeed while the counter is addable, raise that day's f counter by exactly n and leave other days unchanged |
| Db.DecodeInt | pkg/db/db.go:45-48 | an absent counter decodes to 0; a string fails; a number decodes exactly when it lies within Go's 64-bit int range, and then to its own value |
| Db.DecodeString | pkg/db/db.go:44 | a string attribute decodes into the `Date` field as it is; a number fails |
| Db.Unmarshal | pkg/db/db.go:91 | decoding succeeds exactly when the date and all four counters decode, and then the result holds the decoded date and each level's counter |
| Db.Lookup | pkg/db/db.go:75-94 | an absent key reads as the zero result, with no decoding error; a present key reads as the unmarshalled item |
| Db.AbsentDayIsZero | pkg/db/db.go:91-94 | a day with no item reads with date `""` and all four counters 0 |
| Db.StoredDayCarriesItsDate | pkg/db/db.go:80-84 | an item that decodes carries the date of the key it is stored under |
| Db.MalformedCounterFails | pkg/db/db.go:91-93 | an item whose counter holds a string fails to decode |
| Db.AddOneThenUnmarshal | pkg/db/db.go:104-111 | `ADD` on an item that decodes keeps it decodable with the same date, raises f's counter by one and keeps the other three |
| Db.InsertThenRead | pkg/db/db.go:103-118 | insert f, then read the same day: the item decodes with that day's date, f's counter is 1 higher and every other counter is unchanged |
| Db.PollTable.InsertPollResult | pkg/db/db.go:98-124 | either returns the error of `Insert` and leaves the table unchanged, or returns no error and the table becomes `Insert`'s result; each item keeps its key |
| Db.PollTable.GetPollResult | pkg/db/db.go:74-95 | when GetItem fails: the zero result and `StoreUnavailable`; otherwise no error, even for a malformed item, and the decoded item or the zero result when the day has none; the method changes nothing |
| Db.ReadTwice | pkg/db/db.go:74-95 | two reads with no insert between them return identical results and errors |
| Db.ThreeGoodOneVeryBad | pkg/db/db.go:98-124 | on any day, three inserts of Good and one of VeryBad on an empty table read back as that day with counters 1, 0, 3, 0 |
| Db.Scenario | pkg/db/db.go:74-124 | through the table object, on any day: Good three times and VeryBad once read `{day, 1, 0, 3, 0}`; feeling 99 is refused with `FeelingOutOfRange(99)`; any other day reads as the zero result |
| Db.FirstOfMarchScenario | pkg/db/db.go:74-124 | the same on 2024-03-01: it reads `{"2024-03-01", 1, 0, 3, 0}`, and 2099-01-01 reads as the zero result |

## Left out

- `init()` (db.go:59-71): loading the AWS configuration, the `TABLE_NAME` variable and the panics. The table is an explicit object.
- The DynamoDB client and request construction. `Send()` is modelled only by its outcome: `reachable`, or a type error from `ADD`.
- `time.Now()`: the clock is the `now` parameter. A `Date` is the calendar date of a `time.Time` in its location. Time zones are not modelled.
- Atomicity of `ADD` under concurrent invocations: each insert is one sequential step.
- Logging (`errorLog.Printf`), and the role of `PollResult`'s JSON tags in serializing responses. The tags also name the attributes the SDK's decoder matches; the model uses those names (`very_bad`, `bad`, `good`, `very_good`, `date`) as the attribute names in `Unmarshal`.
- Read consistency: the `GetItemInput` at db.go:78-85 does not ask for a consistent read, so DynamoDB may serve a read that misses a recent insert. The model's table is always up to date. `InsertThenRead`, `ReadTwice`, `ThreeGoodOneVeryBad`, `Scenario` and `FirstOfMarchScenario` therefore hold of the model; against the real store they hold only once the insert has propagated. The handlers in cmd/get/get.go and cmd/put/put.go are not part of this model.
- Attribute types other than numbers and strings (binary, boolean, null, lists, maps, sets), and numbers with a fraction. DynamoDB's 38-digit limit on numbers is not modelled: `ADD` never overflows in the store.
- Unmarshal: when decoding fails, Go stops at the first bad attribute, in map iteration order, so which fields are filled is not determined. The model fills every well-formed field and zeroes the rest.
- Unmarshal: the SDK also matches attribute names case-insensitively. The model matches them exactly.
- Years beyond the range of a Go `time.Time`: the model formats any integer year with the same rule.
