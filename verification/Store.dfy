/**
 The key-value store as its clients see it: strings, hashes and lists, each with or
 without a time to live.  Every command touches one key, so a run is described key by
 key.
 */
module Store {
  import opened Wrappers
  import opened Bytes

  datatype Value =
    | Str(data: bytes)
    | Hash(fields: map<bytes, bytes>)
    | List(items: seq<bytes>)

  datatype Entry = Entry(value: Value, expires: bool)

  type Slot = Option<Entry>

  type Db = map<bytes, Entry>

  datatype Command =
    | Set(key: bytes, data: bytes)
    | SetXX(key: bytes, data: bytes)
    | Del(key: bytes)
    | PExpire(key: bytes, milliseconds: bytes)
    | Persist(key: bytes)
    | HSet(key: bytes, field: bytes, data: bytes)
    | RPush(key: bytes, data: bytes)
    | Get(key: bytes)
    | TypeOf(key: bytes)
    | PTtl(key: bytes)
    | HGetAll(key: bytes)
    | LRange(key: bytes, first: bytes, last: bytes)

  /** Replies; `Expiring` stands for any positive number of remaining milliseconds. */
  datatype Reply =
    | Simple(text: string)
    | Integer(n: int)
    | Expiring
    | Nil
    | Bulk(data: bytes)
    | Fields(fields: map<bytes, bytes>)
    | Items(items: seq<bytes>)
    | WrongType
    | NotInteger

  // ----- Integer arguments -----

  /** The value of a string of digits. */
  function Digits(b: bytes): Option<nat> {
    if b == [] then Some(0) else OneDigit(Digits(b[..|b| - 1]), b[|b| - 1])
  }

  function OneDigit(before: Option<nat>, d: byte): Option<nat> {
    if before.Some? && 48 <= d <= 57 then Some(before.value * 10 + (d - 48)) else None
  }

  /** An integer argument: digits, perhaps after a minus sign. */
  function IntegerOf(b: bytes): Option<int> {
    if b == [] || b == [45] then None
    else if b[0] == 45 then
      var n := Digits(b[1..]);
      if n.Some? then Some(0 - n.value) else None
    else
      var n := Digits(b);
      if n.Some? then Some(n.value) else None
  }

  /** The items from `first` to `last`, both included; negative positions count from the end. */
  function Slice(items: seq<bytes>, first: int, last: int): seq<bytes> {
    var n := |items|;
    var lo := if first >= 0 then first else if first + n >= 0 then first + n else 0;
    var hi := if last < 0 then last + n + 1 else if last < n then last + 1 else n;
    if lo < hi then items[lo..hi] else []
  }

  function Lookup(db: Db, key: bytes): Slot {
    if key in db then Some(db[key]) else None
  }

  function Update(db: Db, key: bytes, slot: Slot): Db {
    if slot.Some? then db[key := slot.value] else db - {key}
  }

  /** What a command leaves in the slot of its key. */
  function Effect(slot: Slot, c: Command): Slot {
    match c
    case Set(_, data) => Some(Entry(Str(data), false))
    case SetXX(_, data) => if slot.Some? then Some(Entry(Str(data), false)) else slot
    case Del(_) => None
    case PExpire(_, milliseconds) =>
      var n := IntegerOf(milliseconds);
      if slot.None? || n.None? then slot
      else if n.value > 0 then Some(slot.value.(expires := true))
      else None
    case Persist(_) => if slot.Some? then Some(slot.value.(expires := false)) else slot
    case HSet(_, field, data) =>
      if slot.None? then Some(Entry(Hash(map[field := data]), false))
      else if slot.value.value.Hash? then Some(slot.value.(value := Hash(slot.value.value.fields[field := data])))
      else slot
    case RPush(_, data) =>
      if slot.None? then Some(Entry(List([data]), false))
      else if slot.value.value.List? then Some(slot.value.(value := List(slot.value.value.items + [data])))
      else slot
    case _ => slot
  }

  /** What a command answers. */
  function Answer(slot: Slot, c: Command): Reply {
    match c
    case Set(_, _) => Simple("OK")
    case SetXX(_, _) => if slot.Some? then Simple("OK") else Nil
    case Del(_) => Integer(if slot.Some? then 1 else 0)
    case PExpire(_, milliseconds) =>
      if IntegerOf(milliseconds).None? then NotInteger else Integer(if slot.Some? then 1 else 0)
    case Persist(_) => Integer(if slot.Some? && slot.value.expires then 1 else 0)
    case HSet(_, field, _) =>
      if slot.None? then Integer(1)
      else if slot.value.value.Hash? then Integer(if field in slot.value.value.fields then 0 else 1)
      else WrongType
    case RPush(_, _) =>
      if slot.None? then Integer(1)
      else if slot.value.value.List? then Integer(|slot.value.value.items| + 1)
      else WrongType
    case Get(_) =>
      if slot.None? then Nil
      else if slot.value.value.Str? then Bulk(slot.value.value.data)
      else WrongType
    case TypeOf(_) =>
      if slot.None? then Simple("none")
      else (match slot.value.value
            case Str(_) => Simple("string")
            case Hash(_) => Simple("hash")
            case List(_) => Simple("list"))
    case PTtl(_) => if slot.None? then Integer(-2) else if slot.value.expires then Expiring else Integer(-1)
    case HGetAll(_) =>
      if slot.None? then Fields(map[])
      else if slot.value.value.Hash? then Fields(slot.value.value.fields)
      else WrongType
    case LRange(_, first, last) =>
      var lo, hi := IntegerOf(first), IntegerOf(last);
      if lo.None? || hi.None? then NotInteger
      else if slot.None? then Items([])
      else if slot.value.value.List? then Items(Slice(slot.value.value.items, lo.value, hi.value))
      else WrongType
  }

  /** `DBSIZE`. */
  function DbSize(db: Db): nat {
    |db|
  }

  function Execute(db: Db, c: Command): Db {
    Update(db, c.key, Effect(Lookup(db, c.key), c))
  }

  /** Run a trace of commands, first to last. */
  function Run(db: Db, trace: seq<Command>): Db
    decreases |trace|
  {
    if trace == [] then db else Run(Execute(db, trace[0]), trace[1..])
  }

  /** The answers of a run, in order. */
  function Answers(db: Db, trace: seq<Command>): (r: seq<Reply>)
    ensures |r| == |trace|
    decreases |trace|
  {
    if trace == [] then []
    else [Answer(Lookup(db, trace[0].key), trace[0])] + Answers(Execute(db, trace[0]), trace[1..])
  }

  // ----- One key at a time -----

  function RunSlot(slot: Slot, trace: seq<Command>): Slot
    decreases |trace|
  {
    if trace == [] then slot else RunSlot(Effect(slot, trace[0]), trace[1..])
  }

  /** The commands of a trace that name `key`, in order. */
  function OnKey(trace: seq<Command>, key: bytes): seq<Command> {
    if trace == [] then []
    else if trace[0].key == key then [trace[0]] + OnKey(trace[1..], key)
    else OnKey(trace[1..], key)
  }

  lemma {:induction false} OnKeyConcat(a: seq<Command>, b: seq<Command>, key: bytes)
    ensures OnKey(a + b, key) == OnKey(a, key) + OnKey(b, key)
  {
    if a == [] {
      assert a + b == b;
    } else {
      assert (a + b)[1..] == a[1..] + b;
      OnKeyConcat(a[1..], b, key);
    }
  }

  lemma LookupExecute(db: Db, c: Command, key: bytes)
    ensures Lookup(Execute(db, c), key) == if c.key == key then Effect(Lookup(db, key), c) else Lookup(db, key)
  {
  }

  /** A key's slot after a run depends only on its slot before and the commands naming it. */
  lemma {:induction false} RunIsLocal(db: Db, trace: seq<Command>, key: bytes)
    ensures Lookup(Run(db, trace), key) == RunSlot(Lookup(db, key), OnKey(trace, key))
    decreases |trace|
  {
    if trace != [] {
      var c := trace[0];
      LookupExecute(db, c, key);
      RunIsLocal(Execute(db, c), trace[1..], key);
      if c.key == key {
        assert OnKey(trace, key)[1..] == OnKey(trace[1..], key);
      }
    }
  }

  /** Every command of the trace answers as `expected` says. */
  ghost predicate AnswersAs(slot: Slot, trace: seq<Command>, expected: Command -> Reply)
    decreases |trace|
  {
    trace == [] ||
    (Answer(slot, trace[0]) == expected(trace[0]) && AnswersAs(Effect(slot, trace[0]), trace[1..], expected))
  }

  /** If every key alone answers as expected, so does the whole run. */
  lemma {:induction false} AnswersAreLocal(db: Db, trace: seq<Command>, expected: Command -> Reply)
    requires forall key :: AnswersAs(Lookup(db, key), OnKey(trace, key), expected)
    ensures forall j | 0 <= j < |trace| :: Answers(db, trace)[j] == expected(trace[j])
    decreases |trace|
  {
    if trace != [] {
      var c := trace[0];
      var rest := Execute(db, c);
      assert OnKey(trace, c.key)[0] == c;
      assert AnswersAs(Lookup(db, c.key), OnKey(trace, c.key), expected);
      forall key
        ensures AnswersAs(Lookup(rest, key), OnKey(trace[1..], key), expected)
      {
        LookupExecute(db, c, key);
        assert AnswersAs(Lookup(db, key), OnKey(trace, key), expected);
        if key == c.key {
          assert OnKey(trace, key)[1..] == OnKey(trace[1..], key);
        }
      }
      AnswersAreLocal(rest, trace[1..], expected);
      forall j | 0 <= j < |trace|
        ensures Answers(db, trace)[j] == expected(trace[j])
      {
        if j > 0 {
          assert Answers(db, trace)[j] == Answers(rest, trace[1..])[j - 1];
        }
      }
    }
  }

  lemma DbExtensional(a: Db, b: Db)
    requires forall key :: Lookup(a, key) == Lookup(b, key)
    ensures a == b
  {
    forall key
      ensures key in a <==> key in b
      ensures key in a ==> a[key] == b[key]
    {
      assert Lookup(a, key) == Lookup(b, key);
    }
  }

  // ----- The integer arguments the controller sends -----

  lemma WholeRange(items: seq<bytes>)
    ensures IntegerOf(Ascii("0")) == Some(0) && IntegerOf(Ascii("-1")) == Some(-1)
    ensures Slice(items, 0, -1) == items
  {
    assert Ascii("0") == [48];
    assert Digits([48]) == Some(0);
    assert Ascii("-1") == [45, 49];
    assert Ascii("-1")[1..] == [49];
    assert Digits([49]) == Some(1);
  }

  lemma DigitsAppend(b: bytes, d: byte)
    ensures Digits(b + [d]) == OneDigit(Digits(b), d)
  {
    hide OneDigit;
    var e := b + [d];
    assert e[..|e| - 1] == b && e[|e| - 1] == d;
  }

  /** Two hours. */
  lemma TimeToLive()
    ensures IntegerOf(Ascii("7200000")) == Some(7_200_000)
  {
    var b0: bytes := [];
    var b1, b2, b3, b4 := b0 + [55], b0 + [55] + [50], b0 + [55] + [50] + [48], b0 + [55] + [50] + [48] + [48];
    var b5, b6 := b4 + [48], b4 + [48] + [48];
    var b7 := b6 + [48];
    assert Digits(b0) == Some(0);
    assert Digits(b7) == Some(7_200_000) by {
      hide Digits;
      DigitsAppend(b0, 55);
      DigitsAppend(b1, 50);
      DigitsAppend(b2, 48);
      DigitsAppend(b3, 48);
      DigitsAppend(b4, 48);
      DigitsAppend(b5, 48);
      DigitsAppend(b6, 48);
    }
    hide Digits;
    assert Ascii("7200000") == b7;
    assert b7[0] == 55;
  }
}
