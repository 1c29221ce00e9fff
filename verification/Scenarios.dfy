/**
 The scenario oracle's two descriptions of a store.  `RecordAt` is the closed form: what
 every key holds after a step.  `Commands` is the script: what a worker sends for a key
 in that step.
 */
module Scenarios {
  import opened Wrappers
  import opened Words
  import opened Bytes
  import opened Payloads
  import opened Survivors
  import opened Store
  import opened Phases

  datatype Family =
    | Fixed | Mixed | Classes | Overwrite | Resize | Half | Groups | Metadata | Types | Access | Hwm

  datatype Kind = Absent | StringKind | HashKind | ListKind

  datatype Scenario = Scenario(
    keys: nat,
    keyLength: nat,
    valueLength: nat,
    pattern: Pattern,
    family: Family,
    saturation: bool)

  datatype Record = Record(key: bytes, valueLength: nat, generation: nat, kind: Kind, expires: bool)

  /** Scenarios the catalogue can build, for any number of keys and any lengths it admits. */
  ghost predicate Valid(s: Scenario) {
    && s.keys <= WORD
    && s.keyLength >= 8
    && (s.saturation <==> s.family.Access?)
  }

  /** The steps for which the family's tables have a row. */
  predicate HasStep(s: Scenario, step: nat) {
    s.family.Groups? ==> step < 8
  }

  // ----- Keys -----

  /** `fixed_key`. */
  function FixedKey(index: Word, length: nat): (r: bytes)
    requires length >= 8
    ensures |r| == length
  {
    Repeat(107, length - 8) + BigEndian(index, 8)
  }

  function ClassOf(index: nat): nat {
    if index < 9 then index + 1 else 10 + (index - 9) % 151
  }

  function ClassKeyLength(class_: nat): nat {
    if class_ < 10 then (if class_ == 0 then 0 else class_ - 1)
    else if class_ * 2 - 256 > 18 then class_ * 2 - 256 else 18
  }

  function ClassKey(index: Word): (r: bytes)
    ensures |r| == ClassKeyLength(ClassOf(index))
  {
    var class_ := ClassOf(index);
    var k := ClassKeyLength(class_);
    if k < 18 then Repeat(class_, k) else BigEndian(class_, 2) + FixedKey(index, k)[2..]
  }

  /** `k:` and sixteen hexadecimal digits. */
  function PointKey(index: Word): bytes {
    Ascii("k:") + Hex(index, 16)
  }

  lemma PointKeyLayout(index: Word)
    ensures |PointKey(index)| == 18 && PointKey(index)[..2] == ['k' as int, ':' as int]
    ensures FromHex(PointKey(index)[2..]) == index
  {
    PowWord();
    HexReadsBack(index, 16);
    assert PointKey(index)[2..] == Hex(index, 16);
  }

  lemma PointKeysDistinct(i: Word, j: Word)
    requires i != j
    ensures PointKey(i) != PointKey(j)
  {
    PowWord();
    assert PointKey(i)[2..] == Hex(i, 16);
    assert PointKey(j)[2..] == Hex(j, 16);
    if Hex(i, 16) == Hex(j, 16) {
      HexInjective(i, j, 16);
    }
  }

  function Key(s: Scenario, index: Word): bytes
    requires s.keyLength >= 8
  {
    match s.family
    case Access => PointKey(index)
    case Hwm => FixedKey(index, 18)
    case Mixed => FixedKey(index, [8, 18, 63, 64][index % 4])
    case Classes => ClassKey(index)
    case _ => FixedKey(index, s.keyLength)
  }

  lemma FixedKeyTail(index: Word, length: nat, k: nat)
    requires length >= 8 && k <= length - 8
    ensures FixedKey(index, length)[k..][length - k - 8..] == BigEndian(index, 8)
  {
  }

  /** The letter k up to the last eight bytes, and in those the index, most significant byte first. */
  lemma FixedKeyLayout(index: Word, length: nat)
    requires length >= 8
    ensures forall i | 0 <= i < length - 8 :: FixedKey(index, length)[i] == 'k' as int
    ensures FromBigEndian(FixedKey(index, length)[length - 8..]) == index
  {
    PowWord();
    BigEndianInverse(index, 8);
    assert FixedKey(index, length)[length - 8..] == BigEndian(index, 8);
  }

  lemma FixedKeysDistinct(i: Word, m: nat, j: Word, n: nat)
    requires i != j && m >= 8 && n >= 8
    ensures FixedKey(i, m) != FixedKey(j, n)
  {
    FixedKeyTail(i, m, 0);
    FixedKeyTail(j, n, 0);
    WordBytesInjective(i, j);
  }

  lemma ClassKeyShape(index: Word)
    ensures index < 9 ==> |ClassKey(index)| == index
    ensures index >= 9 ==> |ClassKey(index)| >= 18 && ClassKey(index)[|ClassKey(index)| - 8..] == BigEndian(index, 8)
  {
    var k := ClassKeyLength(ClassOf(index));
    if index >= 9 {
      FixedKeyTail(index, k, 2);
      var tail := FixedKey(index, k)[2..];
      assert ClassKey(index) == BigEndian(ClassOf(index), 2) + tail;
      assert ClassKey(index)[k - 8..] == tail[k - 10..];
    }
  }

  lemma ClassKeysDistinct(i: Word, j: Word)
    requires i != j
    ensures ClassKey(i) != ClassKey(j)
  {
    ClassKeyShape(i);
    ClassKeyShape(j);
    WordBytesInjective(i, j);
  }

  /** No two indices of a scenario share a key. */
  lemma KeysDistinct(s: Scenario, i: Word, j: Word)
    requires s.keyLength >= 8 && i != j
    ensures Key(s, i) != Key(s, j)
  {
    match s.family
    case Access =>
      PointKeysDistinct(i, j);
    case Classes =>
      ClassKeysDistinct(i, j);
    case Hwm =>
      FixedKeysDistinct(i, 18, j, 18);
    case Mixed =>
      FixedKeysDistinct(i, [8, 18, 63, 64][i % 4], j, [8, 18, 63, 64][j % 4]);
    case _ =>
      FixedKeysDistinct(i, s.keyLength, j, s.keyLength);
  }

  // ----- The closed form -----

  function MixedLength(index: nat): nat {
    [16, 16, 16, 64, 64, 64, 256, 256, 1024, 4096][index % 10]
  }

  /** The indices whose record a churn phase changes. */
  predicate Affected(s: Scenario, index: nat) {
    match s.family
    case Half => index % 2 == 0
    case Groups => index % 4 != 3
    case Metadata => index % 10 == 0
    case Types => index % 10 == 0
    case _ => true
  }

  /** `record`. */
  function RecordAt(s: Scenario, step: nat, index: Word): Record
    requires s.keyLength >= 8 && HasStep(s, step)
  {
    RecordUnder(s, step, index, Key(s, index))
  }

  /** `record`, given the key. */
  function RecordUnder(s: Scenario, step: nat, index: nat, key: bytes): Record
    requires HasStep(s, step)
  {
    var base := Record(key, s.valueLength, 0, StringKind, false);
    match s.family
    case Hwm =>
      var survivor := Survivor(index);
      var absent := step > 0 && step % 3 != 0 && !survivor;
      var generation := if survivor || step == 0 then 0 else (step - 1) / 3 + (if step % 3 == 0 then 1 else 0);
      Record(key, 64, generation, if absent then Absent else StringKind, false)
    case Mixed => base.(valueLength := MixedLength(index))
    case Classes => base.(valueLength := ClassOf(index) * 2 - ClassKeyLength(ClassOf(index)))
    case Overwrite => base.(generation := step)
    case Resize => base.(valueLength := [16, 64, 255, 257][step % 4], generation := step)
    case Half =>
      if !Affected(s, index) then base
      else base.(kind := if step % 2 == 1 then Absent else StringKind, generation := step / 2)
    case Groups =>
      if !Affected(s, index) then base
      else base.(kind := if step % 2 == 1 then Absent else StringKind,
                 valueLength := [16, 64, 255, 17][step / 2],
                 generation := step / 2)
    case Metadata =>
      if !Affected(s, index) then base
      else base.(expires := step == 1,
                 kind := if step == 3 then Absent else StringKind,
                 generation := if step == 4 then 1 else 0)
    case Types =>
      if !Affected(s, index) then base
      else base.(kind := if step == 1 then (if index % 20 == 0 then HashKind else ListKind)
                         else if step == 2 then Absent else StringKind,
                 generation := if step == 3 then 1 else 0)
    case _ => base
  }

  /** The compact storage class of a key and value length, if there is one. */
  function CompactClass(key: nat, value: nat): Option<nat> {
    if key <= 64 && value <= 256 then
      var class_ := (key + value + 1) / 2;
      Some(if class_ < 1 then 1 else class_)
    else None
  }

  /** The class-encoded family meets every compact class, each index the one it encodes. */
  lemma ClassesCompact(s: Scenario, step: nat, index: Word)
    requires s.family.Classes? && s.keyLength >= 8
    ensures var r := RecordAt(s, step, index);
            CompactClass(|r.key|, r.valueLength) == Some(ClassOf(index))
    ensures 1 <= ClassOf(index) <= 160
    ensures index < 160 ==> ClassOf(index) == index + 1
  {
    var class_ := ClassOf(index);
    assert 1 <= class_ <= 160;
    var k := ClassKeyLength(class_);
    assert |Key(s, index)| == k <= 64 && class_ * 2 - k <= 256;
  }

  /** The payload stored for a record. */
  function ValueOf(s: Scenario, index: Word, r: Record): bytes {
    if s.family.Hwm? then HwmPayload(index, r.generation)
    else Payload(r.valueLength, s.pattern, r.generation)
  }

  const FIELD: bytes := [102]

  /** A record as the store holds it. */
  function SlotOf(r: Record, value: bytes): Slot {
    match r.kind
    case Absent => None
    case StringKind => Some(Entry(Str(value), r.expires))
    case HashKind => Some(Entry(Hash(map[FIELD := value]), r.expires))
    case ListKind => Some(Entry(List([value]), r.expires))
  }

  function SlotAt(s: Scenario, step: nat, index: Word): Slot
    requires s.keyLength >= 8 && HasStep(s, step)
  {
    var r := RecordAt(s, step, index);
    SlotOf(r, ValueOf(s, index, r))
  }

  /** The slot before a step: absent before the load. */
  function SlotBefore(s: Scenario, step: nat, index: Word): Slot
    requires s.keyLength >= 8 && HasStep(s, step)
  {
    if step == 0 then None else SlotAt(s, step - 1, index)
  }

  // ----- The scripts -----

  /** `mutation_commands`. */
  function MutationCommands(s: Scenario, step: nat, index: nat, r: Record, value: bytes): seq<Command> {
    if s.saturation then []
    else if step == 0 then [Set(r.key, value)]
    else if !Affected(s, index) then []
    else if r.kind.Absent? then [Del(r.key)]
    else if s.family.Metadata? && step == 1 then [PExpire(r.key, Ascii("7200000"))]
    else if s.family.Metadata? && step == 2 then [Persist(r.key)]
    else if s.family.Types? && step == 1 then
      [Del(r.key), if r.kind.HashKind? then HSet(r.key, FIELD, value) else RPush(r.key, value)]
    else [Set(r.key, value)]
  }

  /** The commands of one key in a phase, from `hwm_expected_phase`. */
  function HwmCommands(step: nat, index: nat, r: Record, value: bytes): seq<Command> {
    var changed := step == 0 || (step % 3 != 2 && !Survivor(index));
    if !changed then [] else if r.kind.Absent? then [Del(r.key)] else [Set(r.key, value)]
  }

  function Commands(s: Scenario, step: nat, index: Word): seq<Command>
    requires s.keyLength >= 8 && HasStep(s, step)
  {
    var r := RecordAt(s, step, index);
    var value := ValueOf(s, index, r);
    if s.family.Hwm? then HwmCommands(step, index, r, value) else MutationCommands(s, step, index, r, value)
  }

  /** The reply the native driver insists on for a mutation. */
  function Insisted(c: Command): Reply {
    if c.Set? then Simple("OK") else Integer(1)
  }

  lemma RecordKey(s: Scenario, step: nat, index: Word)
    requires s.keyLength >= 8 && HasStep(s, step)
    ensures RecordAt(s, step, index).key == Key(s, index)
  {
  }

  lemma ScriptsNameOneKey(s: Scenario, step: nat, index: nat, r: Record, value: bytes)
    ensures forall c | c in MutationCommands(s, step, index, r, value) :: c.key == r.key
    ensures forall c | c in HwmCommands(step, index, r, value) :: c.key == r.key
  {
  }

  lemma CommandsNameOwnKey(s: Scenario, step: nat, index: Word)
    requires s.keyLength >= 8 && HasStep(s, step)
    ensures NamesOnly(Commands(s, step, index), Key(s, index))
  {
    var r := RecordAt(s, step, index);
    RecordKey(s, step, index);
    ScriptsNameOneKey(s, step, index, r, ValueOf(s, index, r));
  }

  lemma OneCommand(slot: Slot, c: Command)
    ensures RunSlot(slot, [c]) == Effect(slot, c)
    ensures AnswersAs(slot, [c], Insisted) <==> Answer(slot, c) == Insisted(c)
  {
    assert [c][1..] == [];
  }

  lemma TwoCommands(slot: Slot, c: Command, d: Command)
    ensures RunSlot(slot, [c, d]) == Effect(Effect(slot, c), d)
    ensures AnswersAs(slot, [c, d], Insisted)
       <==> Answer(slot, c) == Insisted(c) && Answer(Effect(slot, c), d) == Insisted(d)
  {
    assert [c, d][1..] == [d];
    OneCommand(Effect(slot, c), d);
  }

  /** A later step of a churn family, for whatever values its records hold. */
  lemma MutationTakes(s: Scenario, step: nat, index: nat, r: Record, v: bytes, r': Record, v': bytes)
    requires HasStep(s, step) && !s.saturation && !s.family.Hwm? && step > 0
    requires r == RecordUnder(s, step - 1, index, r.key) && r' == RecordUnder(s, step, index, r.key)
    requires r.generation == r'.generation && r.valueLength == r'.valueLength ==> v == v'
    ensures Takes(SlotOf(r, v), MutationCommands(s, step, index, r', v'), SlotOf(r', v'), Insisted)
  {
    hide IntegerOf;
    TimeToLive();
    var slot := SlotOf(r, v);
    var cs := MutationCommands(s, step, index, r', v');
    if |cs| == 1 {
      OneCommand(slot, cs[0]);
      assert cs == [cs[0]];
    } else if |cs| == 2 {
      TwoCommands(slot, cs[0], cs[1]);
      assert cs == [cs[0], cs[1]];
    }
  }

  /** A later step of the high-water-mark cycle, for whatever values its records hold. */
  lemma HwmTakes(s: Scenario, step: nat, index: nat, r: Record, v: bytes, r': Record, v': bytes)
    requires s.family.Hwm? && step > 0
    requires r == RecordUnder(s, step - 1, index, r.key) && r' == RecordUnder(s, step, index, r.key)
    requires r.generation == r'.generation ==> v == v'
    ensures Takes(SlotOf(r, v), HwmCommands(step, index, r', v'), SlotOf(r', v'), Insisted)
  {
    OneCommand(SlotOf(r, v), Del(r'.key));
    OneCommand(SlotOf(r, v), Set(r'.key, v'));
  }

  lemma LoadTakes(s: Scenario, index: nat, r: Record, v: bytes)
    requires !s.saturation && r == RecordUnder(s, 0, index, r.key)
    ensures Takes(None, if s.family.Hwm? then HwmCommands(0, index, r, v) else MutationCommands(s, 0, index, r, v),
                  SlotOf(r, v), Insisted)
  {
    OneCommand(None, Set(r.key, v));
  }

  lemma RecordNamesKey(s: Scenario, step: nat, index: nat, key: bytes)
    requires HasStep(s, step)
    ensures RecordUnder(s, step, index, key).key == key
  {
  }

  /** One key, one step: the script takes the closed form of the last step to that of this one. */
  lemma StepRefines(s: Scenario, step: nat, index: Word)
    requires s.keyLength >= 8 && HasStep(s, step) && !s.saturation
    ensures Takes(SlotBefore(s, step, index), Commands(s, step, index), SlotAt(s, step, index), Insisted)
  {
    hide Takes, Payload, HwmPayload, Key, SlotOf, RecordUnder, MutationCommands, HwmCommands;
    var r' := RecordAt(s, step, index);
    var v' := ValueOf(s, index, r');
    RecordNamesKey(s, step, index, Key(s, index));
    if step == 0 {
      LoadTakes(s, index, r', v');
    } else {
      RecordNamesKey(s, step - 1, index, Key(s, index));
      var r := RecordAt(s, step - 1, index);
      var v := ValueOf(s, index, r);
      if s.family.Hwm? {
        HwmTakes(s, step, index, r, v, r', v');
      } else {
        MutationTakes(s, step, index, r, v, r', v');
      }
    }
  }
}
