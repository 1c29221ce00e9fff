/**
 Exhaustive verification.  After a phase every index is read back with a few commands
 and the store is sized; the module proves what those replies decide about the store.
 */
module Verification {
  import opened Wrappers
  import opened Words
  import opened Bytes
  import opened Counting
  import opened Store
  import opened Phases
  import opened Scenarios
  import opened Refinement

  /** `verification_commands`, and the three reads of the high-water-mark verifier. */
  function Checks(family: Family, r: Record): seq<Command> {
    if family.Hwm? then [Get(r.key), TypeOf(r.key), PTtl(r.key)]
    else
      match r.kind
      case Absent => [Get(r.key)]
      case StringKind => [Get(r.key), PTtl(r.key)]
      case HashKind => [Get(r.key), TypeOf(r.key), HGetAll(r.key), PTtl(r.key)]
      case ListKind => [Get(r.key), TypeOf(r.key), LRange(r.key, Ascii("0"), Ascii("-1")), PTtl(r.key)]
  }

  /** What a slot answers to a list of reads. */
  function Replies(slot: Slot, queries: seq<Command>): (r: seq<Reply>)
    ensures |r| == |queries|
    ensures forall i | 0 <= i < |queries| :: r[i] == Answer(slot, queries[i])
  {
    seq(|queries|, i requires 0 <= i < |queries| => Answer(slot, queries[i]))
  }

  /** Reading changes nothing, so the replies of a run of reads are these. */
  lemma {:induction false} ReadsAnswer(db: Db, queries: seq<Command>, key: bytes)
    requires forall c | c in queries :: c.key == key && (c.Get? || c.TypeOf? || c.PTtl? || c.HGetAll? || c.LRange?)
    ensures Run(db, queries) == db && Answers(db, queries) == Replies(Lookup(db, key), queries)
    decreases |queries|
  {
    if queries != [] {
      assert queries[0] in queries;
      assert Execute(db, queries[0]) == db;
      ReadsAnswer(db, queries[1..], key);
      var slot := Lookup(db, key);
      assert Replies(slot, queries) == [Answer(slot, queries[0])] + Replies(slot, queries[1..]);
    }
  }

  /** The slots that the checks of a record tell apart from every other slot. */
  predicate Decided(family: Family, kind: Kind, slot: Slot) {
    || slot.None?
    || (slot.value.value.Str? && (family.Hwm? || !kind.Absent?))
    || (slot.value.value.Hash? && !family.Hwm? && kind.HashKind?)
    || (slot.value.value.List? && !family.Hwm? && kind.ListKind?)
  }

  /** A value for the field that differs from the one it has, if any. */
  function Longer(fields: map<bytes, bytes>): bytes {
    (if FIELD in fields then fields[FIELD] else []) + [0]
  }

  /** A slot the checks cannot tell from an undecided one, as real as that one. */
  function Lookalike(family: Family, kind: Kind, slot: Slot): Slot
    requires slot.Some?
  {
    var e := slot.value;
    if !family.Hwm? && kind.Absent? then Some(e.(expires := !e.expires))
    else
      match e.value
      case Str(_) => slot
      case Hash(fields) => Some(e.(value := Hash(fields[FIELD := Longer(fields)])))
      case List(items) => Some(e.(value := List(items + [[]])))
  }

  lemma LookalikeAnswersSame(family: Family, r: Record, slot: Slot)
    requires !Decided(family, r.kind, slot)
    ensures Lookalike(family, r.kind, slot) != slot
    ensures Replies(Lookalike(family, r.kind, slot), Checks(family, r)) == Replies(slot, Checks(family, r))
  {
    var twin, queries := Lookalike(family, r.kind, slot), Checks(family, r);
    match slot.value.value
    case Str(_) =>
    case Hash(fields) =>
      var more := fields[FIELD := Longer(fields)];
      assert FIELD in fields ==> |more[FIELD]| != |fields[FIELD]|;
      assert more != fields;
    case List(items) =>
      assert |items + [[]]| != |items|;
  }

  lemma BothRanges(slot: Slot, other: Slot)
    ensures slot.Some? && slot.value.value.List? ==>
              Slice(slot.value.value.items, 0, -1) == slot.value.value.items
    ensures other.Some? && other.value.value.List? ==>
              Slice(other.value.value.items, 0, -1) == other.value.value.items
    ensures IntegerOf(Ascii("0")) == Some(0) && IntegerOf(Ascii("-1")) == Some(-1)
  {
    hide IntegerOf, Slice;
    WholeRange(if slot.Some? && slot.value.value.List? then slot.value.value.items else []);
    WholeRange(if other.Some? && other.value.value.List? then other.value.value.items else []);
  }

  lemma SameAnswersSameSlot(family: Family, r: Record, slot: Slot, other: Slot)
    requires Decided(family, r.kind, slot)
    requires Replies(other, Checks(family, r)) == Replies(slot, Checks(family, r))
    ensures other == slot
  {
    hide IntegerOf, Slice;
    BothRanges(slot, other);
    var queries := Checks(family, r);
    forall i | 0 <= i < |queries|
      ensures Answer(other, queries[i]) == Answer(slot, queries[i])
    {
      assert Replies(other, queries)[i] == Replies(slot, queries)[i];
    }
    assert queries[0] == Get(r.key);
    if |queries| > 1 {
      assert queries[|queries| - 1] == PTtl(r.key);
    }
    if |queries| == 4 {
      assert Answer(other, queries[1]) == Answer(slot, queries[1]);
      assert Answer(other, queries[2]) == Answer(slot, queries[2]);
    }
  }

  /**
   Equal replies force equal slots exactly for the decided ones: two stores that both
   answer WRONGTYPE can still differ, and an absent key's check does not read the TTL.
   */
  lemma ChecksDecide(family: Family, r: Record, slot: Slot)
    ensures (forall other :: Replies(other, Checks(family, r)) == Replies(slot, Checks(family, r)) ==> other == slot)
       <==> Decided(family, r.kind, slot)
  {
    if Decided(family, r.kind, slot) {
      forall other | Replies(other, Checks(family, r)) == Replies(slot, Checks(family, r))
        ensures other == slot
      {
        SameAnswersSameSlot(family, r, slot, other);
      }
    } else {
      LookalikeAnswersSame(family, r, slot);
    }
  }

  /** The replies the driver insists on for a record and its value, literally. */
  function InsistedReplies(family: Family, r: Record, value: bytes): seq<Reply> {
    if family.Hwm? then
      if r.kind.Absent? then [Nil, Simple("none"), Integer(-2)]
      else [Bulk(value), Simple("string"), Integer(-1)]
    else
      match r.kind
      case Absent => [Nil]
      case StringKind => [Bulk(value), if r.expires then Expiring else Integer(-1)]
      case HashKind => [WrongType, Simple("hash"), Fields(map[FIELD := value]), Integer(-1)]
      case ListKind => [WrongType, Simple("list"), Items([value]), Integer(-1)]
  }

  /** Which records there are: only strings expire, and the high-water-mark family has nothing else. */
  predicate Plausible(family: Family, r: Record) {
    && (r.expires ==> r.kind.StringKind? && !family.Hwm?)
    && (family.Hwm? ==> r.kind.Absent? || r.kind.StringKind?)
  }

  lemma ExpectedReplies(family: Family, r: Record, value: bytes)
    requires Plausible(family, r)
    ensures Replies(SlotOf(r, value), Checks(family, r)) == InsistedReplies(family, r, value)
  {
    hide IntegerOf, Slice;
    WholeRange([value]);
  }

  /** A slot gives the insisted replies exactly when it is the slot of the record. */
  lemma ExpectedPassesAlone(family: Family, r: Record, value: bytes, slot: Slot)
    requires Plausible(family, r)
    ensures Replies(slot, Checks(family, r)) == InsistedReplies(family, r, value) <==> slot == SlotOf(r, value)
  {
    hide InsistedReplies, Replies, Checks;
    ExpectedReplies(family, r, value);
    if Replies(slot, Checks(family, r)) == InsistedReplies(family, r, value) {
      SameAnswersSameSlot(family, r, SlotOf(r, value), slot);
    }
  }

  // ----- Whole stores -----

  /** If the rows agree and the sizes agree, there is no stray key. */
  lemma NoStrayKeys(db: Db, keys: seq<bytes>, slots: seq<Slot>)
    requires |keys| == |slots| && Distinct(keys)
    requires RowsAgree(db, keys, slots)
    requires DbSize(db) == Live(slots)
    ensures db == StoreOf(keys, slots)
  {
    var expected := StoreOf(keys, slots);
    StoreSize(keys, slots);
    forall key | key in expected
      ensures key in db && db[key] == expected[key]
    {
      StoreLookup(keys, slots, key);
      assert key in keys;
      var i :| 0 <= i < |keys| && keys[i] == key;
      assert Lookup(db, key) == Lookup(expected, key);
    }
    assert expected.Keys <= db.Keys;
    assert |expected.Keys| == |expected| && |db.Keys| == |db|;
    SubsetSize(expected.Keys, db.Keys);
  }

  /** Every index of the scenario passes its checks. */
  ghost predicate Passes(s: Scenario, step: nat, db: Db)
    requires Valid(s) && HasStep(s, step)
  {
    forall i: nat | i < s.keys :: PassesAt(s, step, i, Lookup(db, Key(s, i)))
  }

  predicate PassesAt(s: Scenario, step: nat, index: Word, slot: Slot)
    requires s.keyLength >= 8 && HasStep(s, step)
  {
    var r := RecordAt(s, step, index);
    Replies(slot, Checks(s.family, r)) == InsistedReplies(s.family, r, ValueOf(s, index, r))
  }

  lemma PassesAtExpected(s: Scenario, step: nat, index: Word, slot: Slot)
    requires s.keyLength >= 8 && HasStep(s, step)
    ensures PassesAt(s, step, index, slot) <==> slot == SlotAt(s, step, index)
  {
    var r := RecordAt(s, step, index);
    RecordsPlausible(s, step, index);
    ExpectedPassesAlone(s.family, r, ValueOf(s, index, r), slot);
  }

  lemma RecordsPlausible(s: Scenario, step: nat, index: Word)
    requires s.keyLength >= 8 && HasStep(s, step)
    ensures Plausible(s.family, RecordAt(s, step, index))
  {
  }

  ghost predicate RowsAgree(db: Db, keys: seq<bytes>, slots: seq<Slot>)
    requires |keys| == |slots|
  {
    forall i | 0 <= i < |keys| :: Lookup(db, keys[i]) == slots[i]
  }

  lemma PassesIffRowsAgree(s: Scenario, step: nat, db: Db)
    requires Valid(s) && HasStep(s, step)
    ensures Passes(s, step, db) <==> RowsAgree(db, Keys(s), Slots(s, step))
  {
    var keys, slots := Keys(s), Slots(s, step);
    forall i: nat | i < s.keys
      ensures PassesAt(s, step, i, Lookup(db, Key(s, i))) <==> Lookup(db, keys[i]) == slots[i]
    {
      PassesAtExpected(s, step, i, Lookup(db, keys[i]));
    }
  }

  lemma RowsAndSizeDecide(db: Db, keys: seq<bytes>, slots: seq<Slot>)
    requires |keys| == |slots| && Distinct(keys)
    ensures RowsAgree(db, keys, slots) && DbSize(db) == Live(slots) <==> db == StoreOf(keys, slots)
  {
    if RowsAgree(db, keys, slots) && DbSize(db) == Live(slots) {
      NoStrayKeys(db, keys, slots);
    }
    if db == StoreOf(keys, slots) {
      StoreSize(keys, slots);
      forall i | 0 <= i < |keys|
        ensures Lookup(db, keys[i]) == slots[i]
      {
        StoreLookup(keys, slots, keys[i]);
      }
    }
  }

  /** A store passes all checks with the live count as its size iff it is the expected store. */
  lemma VerificationComplete(s: Scenario, step: nat, db: Db)
    requires Valid(s) && HasStep(s, step)
    ensures Passes(s, step, db) && DbSize(db) == Live(Slots(s, step)) <==> db == StoreAt(s, step)
  {
    AllKeysDistinct(s);
    PassesIffRowsAgree(s, step, db);
    RowsAndSizeDecide(db, Keys(s), Slots(s, step));
  }
}
