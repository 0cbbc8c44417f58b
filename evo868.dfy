/**
 * Evo868Driver::decode: skip the link and transport header, walk the data records,
 * fold each record into the decoder's accumulators, and build the attribute map and
 * main value of an EVO868 water-meter telegram.
 *
 * Volumes and flows are the integer `raw_value` the source divides by 1000 before
 * printing, so `Milli(n)` stands for n thousandths of a cubic metre (litres) or of a
 * cubic metre per hour; `None` stands for the NaN sentinels and the `valid` flags.
 */
module Evo868 {
  import opened Wrappers
  import opened Bytes
  import opened Text
  import opened ValueDecoders
  import opened DataRecords

  // ---------------------------------------------------------------------------
  // Attribute keys and values
  // ---------------------------------------------------------------------------

  /** An attribute value: a reading in thousandths of its unit, text, or the decode time. */
  datatype AttrValue = Milli(thousandths: nat) | Plain(text: string) | CurrentTime

  /** The attributes the decoder can set. */
  datatype Key =
    | TotalM3 | Timestamp | DeviceDateTime | FabricationNo | CurrentStatus
    | SetDateVolume | SetDate | SetDate2Volume | SetDate2 | MaxFlowVolume | MaxFlowDateTime
    | HistoryReferenceDate | HistoryVolume(storage: nat) | HistoryInterval

  /** History volumes exist for storage numbers from 8 on. */
  predicate ValidKey(k: Key)
  {
    k.HistoryVolume? ==> k.storage >= 8
  }

  const HistoryPrefix := "consumption_at_history_"

  /** The attribute name of each key, as the source spells it. */
  function KeyName(k: Key): string
    requires ValidKey(k)
  {
    match k
    case TotalM3 => "total_m3"
    case Timestamp => "timestamp"
    case DeviceDateTime => "device_date_time"
    case FabricationNo => "fabrication_no"
    case CurrentStatus => "current_status"
    case SetDateVolume => "consumption_at_set_date_m3"
    case SetDate => "set_date"
    case SetDate2Volume => "consumption_at_set_date_2_m3"
    case SetDate2 => "set_date_2"
    case MaxFlowVolume => "max_flow_since_datetime_m3h"
    case MaxFlowDateTime => "max_flow_datetime"
    case HistoryReferenceDate => "history_reference_date"
    case HistoryVolume(s) => HistoryKey(s)
    case HistoryInterval => "history_interval_months"
  }

  /**
   * The name of history storage s: `consumption_at_history_<s - 7>_m3`, the index written
   * in decimal without leading zeros and never 0.
   */
  function HistoryKey(s: nat): (k: string)
    requires s >= 8
    ensures |k| >= |HistoryPrefix| + 4 && k[..|HistoryPrefix|] == HistoryPrefix
    ensures k[|k| - 3..] == "_m3"
    ensures AllDecimal(k[|HistoryPrefix|..|k| - 3]) && k[|HistoryPrefix|] != '0'
    ensures ParseBase(k[|HistoryPrefix|..|k| - 3], 10) == s - 7 >= 1
  {
    var digits := NatToString(s - 7);
    var k := HistoryPrefix + digits + "_m3";
    assert k[..|HistoryPrefix|] == HistoryPrefix;
    assert k[|k| - 3..] == "_m3";
    assert k[|HistoryPrefix|..|k| - 3] == digits;
    assert k[|HistoryPrefix|] == digits[0];
    k
  }

  /** Different history storages have different names. */
  lemma HistoryKeyInjective(s: nat, t: nat)
    requires s >= 8 && t >= 8 && HistoryKey(s) == HistoryKey(t)
    ensures s == t
  {
    var k := HistoryKey(s);
    assert k[|HistoryPrefix|..|k| - 3] == HistoryKey(t)[|HistoryPrefix|..|k| - 3];
  }

  /** Only history names start with the history prefix. */
  lemma FixedNameNotHistory(k: Key)
    requires !k.HistoryVolume?
    ensures |KeyName(k)| < |HistoryPrefix| || KeyName(k)[..|HistoryPrefix|] != HistoryPrefix
  {
    match k
    case SetDateVolume => assert KeyName(k)[15] != HistoryPrefix[15];
    case SetDate2Volume => assert KeyName(k)[15] != HistoryPrefix[15];
    case MaxFlowVolume => assert KeyName(k)[0] != HistoryPrefix[0];
    case HistoryInterval => assert KeyName(k)[0] != HistoryPrefix[0];
    case _ =>
  }

  lemma FixedNamesDistinct(a: Key, b: Key)
    requires !a.HistoryVolume? && !b.HistoryVolume? && KeyName(a) == KeyName(b)
    ensures a == b
  {
    match a
    case TotalM3 => assert KeyName(b)[0] == 't';
    case SetDate => assert KeyName(b)[0] == 's';
    case FabricationNo => assert KeyName(b)[0] == 'f';
    case CurrentStatus => assert KeyName(b)[0] == 'c';
    case _ =>
  }

  /** Different keys have different names: no attribute is written twice. */
  lemma KeyNameInjective(a: Key, b: Key)
    requires ValidKey(a) && ValidKey(b) && KeyName(a) == KeyName(b)
    ensures a == b
  {
    if a.HistoryVolume? && b.HistoryVolume? {
      HistoryKeyInjective(a.storage, b.storage);
    } else if a.HistoryVolume? {
      FixedNameNotHistory(b);
    } else if b.HistoryVolume? {
      FixedNameNotHistory(a);
    } else {
      FixedNamesDistinct(a, b);
    }
  }

  // ---------------------------------------------------------------------------
  // The accumulators of the record loop
  // ---------------------------------------------------------------------------

  /**
   * The locals of the decode loop: the volumes (NaN until set), the history volumes by
   * storage number, the dates and date-times (invalid until set), the history interval
   * (1 until set), the fabrication number ("" until set) and the status word.
   */
  datatype Acc = Acc(
    total: Option<nat>,
    setDateVolume: Option<nat>,
    setDate2Volume: Option<nat>,
    maxFlow: Option<nat>,
    history: map<nat, nat>,
    setDate: Option<Date>,
    setDate2: Option<Date>,
    historyReferenceDate: Option<Date>,
    deviceDateTime: Option<DateTime>,
    maxFlowDateTime: Option<DateTime>,
    intervalMonths: nat,
    fabricationNo: string,
    status: Option<nat>)

  const Initial := Acc(None, None, None, None, map[], None, None, None, None, None, 1, "", None)

  /**
   * `read_le_uint(data, len)` on a payload of any width: the first four bytes, little
   * endian (the source's shifts by 32 bits or more are undefined and not modelled).
   */
  function Word(data: seq<Byte>): (v: nat)
    ensures v < 0x1_0000_0000
    ensures |data| <= 4 ==> v == LeValue(data)
  {
    var n := if |data| < 4 then |data| else 4;
    assert data[..n] == data || |data| > 4;
    LeValueBound(data[..n]);
    PowAdd(256, n, 4 - n);
    LeValue(data[..n])
  }

  /** A volume record of storage 0: the one that supplies `total_m3`. */
  predicate IsTotalRecord(rec: Record)
  {
    rec.vif % 128 == 0x13 && StorageNumber(rec.dif, rec.difes) == 0
  }

  /** What one record does to the locals, as the source's if-chain on the VIF decides. */
  datatype Effect =
    | Volume(storage: nat, volume: nat)        // VIF base 0x13
    | DateG(storage: nat, date: Date)           // VIF base 0x6C, valid dates only
    | DateTimeF(storage: nat, dt: DateTime)     // VIF base 0x6D, valid date-times only
    | MaxFlow(flow: nat)                        // VIF base 0x3B
    | Fabrication(digits: string)               // VIF base 0x78
    | Status(flags: nat)                        // VIF 0xFD, VIFE 0x17
    | Interval(months: nat)                     // VIF 0xFD, VIFE 0x28
    | NoEffect

  /** The dispatch on VIF base (and, for VIF 0xFD, on the first VIFE) with its length guards. */
  function EffectOf(rec: Record): Effect
  {
    var storage := StorageNumber(rec.dif, rec.difes);
    var base := rec.vif % 128;
    var len := |rec.data|;
    if base == 0x13 then Volume(storage, Word(rec.data))
    else if base == 0x6C && len >= 2 then
      match DecodeDateG(rec.data[0] as nat + 256 * (rec.data[1] as nat))
      case Some(d) => DateG(storage, d)
      case None => NoEffect
    else if base == 0x6D && len >= 4 then
      match DecodeDateTimeF(rec.data)
      case Some(dt) => DateTimeF(storage, dt)
      case None => NoEffect
    else if base == 0x3B && len >= 3 then MaxFlow(LeValue(rec.data[..3]))
    else if base == 0x78 then Fabrication(BcdString(rec.data))
    else if base == 0x7A && |rec.vifes| > 0 then NoEffect
    else if rec.vif == 0xFD && |rec.vifes| > 0 then
      var vife := rec.vifes[0] % 128;
      if vife == 0x17 && len >= 2 then Status(Word(rec.data))
      else if vife == 0x28 && len >= 1 then Interval(if rec.data[0] == 0 then 1 else rec.data[0])
      else NoEffect
    else NoEffect
  }

  /**
   * The assignment each effect makes: the first storage-0 volume is the total, storages 1
   * and 2 are the set-date values, storages from 8 the history; dates go by storage number.
   */
  function Perform(acc: Acc, e: Effect): Acc
  {
    match e
    case Volume(storage, v) =>
      if storage == 0 && acc.total.None? then acc.(total := Some(v))
      else if storage == 1 then acc.(setDateVolume := Some(v))
      else if storage == 2 then acc.(setDate2Volume := Some(v))
      else if storage >= 8 then acc.(history := acc.history[storage := v])
      else acc
    case DateG(storage, d) =>
      if storage == 1 then acc.(setDate := Some(d))
      else if storage == 2 then acc.(setDate2 := Some(d))
      else if storage == 8 then acc.(historyReferenceDate := Some(d))
      else acc
    case DateTimeF(storage, dt) =>
      if storage == 0 then acc.(deviceDateTime := Some(dt))
      else if storage == 3 then acc.(maxFlowDateTime := Some(dt))
      else acc
    case MaxFlow(flow) => acc.(maxFlow := Some(flow))
    case Fabrication(digits) => acc.(fabricationNo := digits)
    case Status(flags) => acc.(status := Some(flags))
    case Interval(months) => acc.(intervalMonths := months)
    case NoEffect => acc
  }

  /** One record of the loop. */
  function Apply(acc: Acc, rec: Record): Acc
  {
    Perform(acc, EffectOf(rec))
  }

  /** The record loop over a sequence of records, front to back. */
  function Fold(acc: Acc, recs: seq<Record>): Acc
    decreases |recs|
  {
    if |recs| == 0 then acc else Fold(Apply(acc, recs[0]), recs[1..])
  }

  // ---------------------------------------------------------------------------
  // Attribute assembly
  // ---------------------------------------------------------------------------

  function VolumeValue(v: Option<nat>): Option<AttrValue>
  {
    if v.Some? then Some(Milli(v.value)) else None
  }

  function DateValue(d: Option<Date>): Option<AttrValue>
  {
    if d.Some? then Some(Plain(FormatDate(d.value))) else None
  }

  function DateTimeValue(dt: Option<DateTime>): Option<AttrValue>
  {
    if dt.Some? then Some(Plain(FormatDateTime(dt.value))) else None
  }

  /**
   * The value the assembly stores under a key, if any: the timestamp always, every other
   * attribute only when its local is present (a non-empty fabrication number, a non-NaN
   * volume, a valid date, a history volume of storage 8 or more), and the interval when
   * some history volume exists.
   */
  function Value(acc: Acc, k: Key): Option<AttrValue>
  {
    match k
    case TotalM3 => VolumeValue(acc.total)
    case Timestamp => Some(CurrentTime)
    case DeviceDateTime => DateTimeValue(acc.deviceDateTime)
    case FabricationNo => if |acc.fabricationNo| > 0 then Some(Plain(acc.fabricationNo)) else None
    case CurrentStatus => if acc.status.Some? then Some(Plain(FormatErrorFlags(acc.status.value))) else None
    case SetDateVolume => VolumeValue(acc.setDateVolume)
    case SetDate => DateValue(acc.setDate)
    case SetDate2Volume => VolumeValue(acc.setDate2Volume)
    case SetDate2 => DateValue(acc.setDate2)
    case MaxFlowVolume => VolumeValue(acc.maxFlow)
    case MaxFlowDateTime => DateTimeValue(acc.maxFlowDateTime)
    case HistoryReferenceDate => DateValue(acc.historyReferenceDate)
    case HistoryVolume(s) => if s in acc.history && s >= 8 then Some(Milli(acc.history[s])) else None
    case HistoryInterval =>
      if acc.history != map[] && acc.intervalMonths > 0 then Some(Plain(NatToString(acc.intervalMonths)))
      else None
  }

  /** The keys the assembly writes before the history volumes. */
  const LeadingKeys: set<Key> := {
    TotalM3, Timestamp, DeviceDateTime, FabricationNo, CurrentStatus, SetDateVolume, SetDate,
    SetDate2Volume, SetDate2, MaxFlowVolume, MaxFlowDateTime, HistoryReferenceDate}

  /** The keys that do not depend on a storage number. */
  const FixedKeys: set<Key> := LeadingKeys + {HistoryInterval}

  function HistoryKeys(storages: set<nat>): set<Key>
  {
    set s | s in storages :: HistoryVolume(s)
  }

  /**
   * The attributes that the keys in `keys` give rise to. Attributes are indexed by `Key`;
   * `KeyName` spells each key as the source does and `KeyNameInjective` shows that no two
   * keys share a name, so this map and the source's map from names correspond one to one.
   */
  function AttributesOver(acc: Acc, keys: set<Key>): map<Key, AttrValue>
  {
    map k | k in keys && Value(acc, k).Some? :: Value(acc, k).value
  }

  /** The attribute map of a successful decode. */
  function Attributes(acc: Acc): map<Key, AttrValue>
  {
    AttributesOver(acc, FixedKeys + HistoryKeys(acc.history.Keys))
  }

  /** Adding a key adds its attribute when its value is present, and nothing otherwise. */
  lemma AttributesOverAdd(acc: Acc, keys: set<Key>, k: Key)
    ensures AttributesOver(acc, keys + {k}) ==
      if Value(acc, k).Some? then AttributesOver(acc, keys)[k := Value(acc, k).value]
      else AttributesOver(acc, keys)
  {
  }

  /** The keys whose value is present. */
  predicate Present(acc: Acc, k: Key)
  {
    Value(acc, k).Some?
  }

  /** Every present key lies among the candidate keys of the assembly. */
  lemma PresentIsCandidate(acc: Acc, k: Key)
    requires Present(acc, k)
    ensures ValidKey(k) && k in FixedKeys + HistoryKeys(acc.history.Keys)
  {
    if k.HistoryVolume? {
      assert k.storage in acc.history.Keys;
    }
  }

  /** The attribute map holds exactly the present keys, each with its value. */
  lemma AttributesKeys(acc: Acc, k: Key)
    ensures k in Attributes(acc) <==> Present(acc, k)
    ensures k in Attributes(acc) ==> ValidKey(k) && Attributes(acc)[k] == Value(acc, k).value
  {
    if Present(acc, k) {
      PresentIsCandidate(acc, k);
    }
  }

  // ---------------------------------------------------------------------------
  // What the record loop accumulates
  // ---------------------------------------------------------------------------

  /** The total of a record sequence: the volume of its first storage-0 volume record. */
  function FirstTotal(recs: seq<Record>): Option<nat>
  {
    if |recs| == 0 then None
    else if IsTotalRecord(recs[0]) then Some(Word(recs[0].data))
    else FirstTotal(recs[1..])
  }

  /** Once set, the total is never replaced: the loop keeps the first storage-0 volume. */
  lemma {:induction false} FoldTotal(acc: Acc, recs: seq<Record>)
    ensures Fold(acc, recs).total == if acc.total.Some? then acc.total else FirstTotal(recs)
    decreases |recs|
  {
    if |recs| > 0 {
      FoldTotal(Apply(acc, recs[0]), recs[1..]);
    }
  }

  /**
   * What the loop keeps true of its locals: the history interval is a non-zero byte, and
   * history volumes sit at 16-bit storage numbers of at least 8.
   */
  predicate Sane(acc: Acc)
  {
    && 1 <= acc.intervalMonths <= 255
    && forall s :: s in acc.history ==> 8 <= s < 0x10000
  }

  /** The effects a record can have: 16-bit storages, and an interval that is a non-zero byte. */
  predicate Possible(e: Effect)
  {
    match e
    case Volume(storage, _) => storage < 0x10000
    case DateG(storage, _) => storage < 0x10000
    case DateTimeF(storage, _) => storage < 0x10000
    case Interval(months) => 1 <= months <= 255
    case _ => true
  }

  lemma EffectPossible(rec: Record)
    ensures Possible(EffectOf(rec))
  {
  }

  lemma ApplySane(acc: Acc, rec: Record)
    requires Sane(acc)
    ensures Sane(Apply(acc, rec))
  {
    EffectPossible(rec);
  }

  /** The loop's locals stay sane over any record sequence. */
  lemma {:induction false} FoldSane(acc: Acc, recs: seq<Record>)
    requires Sane(acc)
    ensures Sane(Fold(acc, recs))
    decreases |recs|
  {
    if |recs| > 0 {
      ApplySane(acc, recs[0]);
      FoldSane(Apply(acc, recs[0]), recs[1..]);
    }
  }

  /** A type G date field whose date is invalid changes nothing (`continue`). */
  lemma InvalidDateIgnored(acc: Acc, rec: Record)
    requires rec.vif % 128 == 0x6C && |rec.data| >= 2
    requires DecodeDateG(rec.data[0] as nat + 256 * (rec.data[1] as nat)).None?
    ensures Apply(acc, rec) == acc
  {
  }

  /** A type F date-time field whose date is invalid changes nothing (`continue`). */
  lemma InvalidDateTimeIgnored(acc: Acc, rec: Record)
    requires rec.vif % 128 == 0x6D && |rec.data| >= 4 && DecodeDateTimeF(rec.data).None?
    ensures Apply(acc, rec) == acc
  {
  }

  /**
   * The attribute keys an effect gives rise to on its own: a volume or a date under its
   * storage, the flow, a non-empty fabrication number, the status word. A history volume
   * also brings the interval; the interval record alone brings nothing.
   */
  function EffectKeys(e: Effect): set<Key>
  {
    match e
    case Volume(storage, _) =>
      if storage == 0 then {TotalM3}
      else if storage == 1 then {SetDateVolume}
      else if storage == 2 then {SetDate2Volume}
      else if storage >= 8 then {HistoryVolume(storage), HistoryInterval}
      else {}
    case DateG(storage, _) =>
      if storage == 1 then {SetDate}
      else if storage == 2 then {SetDate2}
      else if storage == 8 then {HistoryReferenceDate}
      else {}
    case DateTimeF(storage, _) =>
      if storage == 0 then {DeviceDateTime}
      else if storage == 3 then {MaxFlowDateTime}
      else {}
    case MaxFlow(_) => {MaxFlowVolume}
    case Fabrication(digits) => if |digits| > 0 then {FabricationNo} else {}
    case Status(_) => {CurrentStatus}
    case Interval(_) => {}
    case NoEffect => {}
  }

  /** The keys a record gives rise to. */
  function Feeds(rec: Record): set<Key>
  {
    EffectKeys(EffectOf(rec))
  }

  /** The keys a sequence of records gives rise to. */
  function FedKeys(recs: seq<Record>): set<Key>
  {
    if |recs| == 0 then {} else Feeds(recs[0]) + FedKeys(recs[1..])
  }

  /**
   * The locals agree with the keys `fed` by the records seen so far: apart from the
   * timestamp, a key is present exactly when it was fed; the fabrication number only if
   * it was fed, since a later empty one clears it.
   */
  ghost predicate Tracks(acc: Acc, fed: set<Key>)
  {
    && Timestamp !in fed
    && (Present(acc, FabricationNo) ==> FabricationNo in fed)
    && forall k :: k != Timestamp && k != FabricationNo ==> (Present(acc, k) <==> k in fed)
  }

  /** How one effect changes which keys are present. */
  lemma PerformPresent(acc: Acc, e: Effect, k: Key)
    requires Sane(acc) && Possible(e) && k != Timestamp
    ensures Present(Perform(acc, e), k) ==> Present(acc, k) || k in EffectKeys(e)
    ensures k != FabricationNo ==> (Present(acc, k) || k in EffectKeys(e) ==> Present(Perform(acc, e), k))
  {
    match e
    case Volume(storage, v) => VolumePresent(acc, storage, v, k);
    case DateG(storage, d) => DatePresent(acc, storage, d, k);
    case _ =>
  }

  lemma VolumePresent(acc: Acc, storage: nat, v: nat, k: Key)
    requires Sane(acc) && k != Timestamp
    ensures Present(Perform(acc, Volume(storage, v)), k) ==> Present(acc, k) || k in EffectKeys(Volume(storage, v))
    ensures Present(acc, k) || k in EffectKeys(Volume(storage, v)) ==> Present(Perform(acc, Volume(storage, v)), k)
  {
    var next := Perform(acc, Volume(storage, v));
    if storage >= 8 {
      assert next.history == acc.history[storage := v];
      assert storage in next.history && next.history != map[];
    } else {
      assert next.history == acc.history;
    }
  }

  lemma DatePresent(acc: Acc, storage: nat, d: Date, k: Key)
    requires k != Timestamp
    ensures Present(Perform(acc, DateG(storage, d)), k) ==> Present(acc, k) || k in EffectKeys(DateG(storage, d))
    ensures Present(acc, k) || k in EffectKeys(DateG(storage, d)) ==> Present(Perform(acc, DateG(storage, d)), k)
  {
  }

  lemma ApplyTracks(acc: Acc, fed: set<Key>, rec: Record)
    requires Sane(acc) && Tracks(acc, fed)
    ensures Tracks(Apply(acc, rec), fed + Feeds(rec))
  {
    EffectPossible(rec);
    forall k | k != Timestamp
      ensures Present(Apply(acc, rec), k) ==> Present(acc, k) || k in Feeds(rec)
      ensures k != FabricationNo ==> (Present(acc, k) || k in Feeds(rec) ==> Present(Apply(acc, rec), k))
    {
      PerformPresent(acc, EffectOf(rec), k);
    }
  }

  /** The loop's locals track the keys of the records it has read. */
  lemma {:induction false} FoldTracks(acc: Acc, fed: set<Key>, recs: seq<Record>)
    requires Sane(acc) && Tracks(acc, fed)
    ensures Tracks(Fold(acc, recs), fed + FedKeys(recs))
    decreases |recs|
  {
    if |recs| > 0 {
      ApplyTracks(acc, fed, recs[0]);
      ApplySane(acc, recs[0]);
      FoldTracks(Apply(acc, recs[0]), fed + Feeds(recs[0]), recs[1..]);
      assert fed + Feeds(recs[0]) + FedKeys(recs[1..]) == fed + FedKeys(recs);
    }
  }

  // ---------------------------------------------------------------------------
  // The decode contract
  // ---------------------------------------------------------------------------

  datatype DecodeError = TooShort | HeaderIncomplete | UnexpectedEnd | MissingTotal

  datatype Decoded = Decoded(attributes: map<Key, AttrValue>, mainValue: nat)

  /** The optional `0x54 0x3D` / `0x54 0xCD` prefix in front of the L-field. */
  function PrefixLength(raw: seq<Byte>): nat
  {
    if |raw| >= 2 && raw[0] == 0x54 && (raw[1] == 0x3D || raw[1] == 0xCD) then 2 else 0
  }

  /** The L, C, manufacturer, address, CI, access number, status and configuration fields. */
  const HeaderLength := 15

  /** The records of a telegram: those after the header and the filler bytes that follow it. */
  function TelegramRecords(raw: seq<Byte>): seq<Record>
    requires |raw| >= 20
  {
    RecordsFrom(raw, SkipFiller(raw, PrefixLength(raw) + HeaderLength))
  }

  /** `decode` as a function of the telegram. */
  function DecodeSpec(raw: seq<Byte>): Result<Decoded, DecodeError>
  {
    if |raw| < 20 then Failure(TooShort)
    else
      var offset := PrefixLength(raw);
      if |raw| <= offset + HeaderLength then Failure(HeaderIncomplete)
      else
        var pos := offset + HeaderLength;
        if pos >= |raw| then Failure(UnexpectedEnd)
        else
          var acc := Fold(Initial, RecordsFrom(raw, SkipFiller(raw, pos)));
          if acc.total.None? then Failure(MissingTotal)
          else Success(Decoded(Attributes(acc), acc.total.value))
  }

  // ---------------------------------------------------------------------------
  // Properties of decode
  // ---------------------------------------------------------------------------

  /**
   * decode fails exactly when the telegram is shorter than 20 bytes or has no storage-0
   * volume record; the two header checks after the length check never fire. On success
   * the main value is the first storage-0 volume, stored as `total_m3` beside the timestamp.
   */
  lemma DecodeOutcome(raw: seq<Byte>)
    ensures DecodeSpec(raw).Failure? <==> |raw| < 20 || FirstTotal(TelegramRecords(raw)).None?
    ensures DecodeSpec(raw).Failure? ==> DecodeSpec(raw).error == if |raw| < 20 then TooShort else MissingTotal
    ensures DecodeSpec(raw).Success? ==>
      && DecodeSpec(raw).value.mainValue == FirstTotal(TelegramRecords(raw)).value
      && DecodeSpec(raw).value.attributes[TotalM3] == Milli(DecodeSpec(raw).value.mainValue)
      && DecodeSpec(raw).value.attributes[Timestamp] == CurrentTime
  {
    if |raw| >= 20 {
      var acc := Fold(Initial, TelegramRecords(raw));
      FoldTotal(Initial, TelegramRecords(raw));
      AttributesKeys(acc, TotalM3);
      AttributesKeys(acc, Timestamp);
    }
  }

  /**
   * The attributes of a successful decode are exactly those its records feed, plus the
   * timestamp; a fabrication number only appears if some record carried one (a later
   * empty one clears it). Every attribute key has a name.
   */
  lemma DecodeKeys(raw: seq<Byte>, k: Key)
    requires DecodeSpec(raw).Success?
    ensures k in DecodeSpec(raw).value.attributes ==> ValidKey(k)
    ensures k == Timestamp ==> k in DecodeSpec(raw).value.attributes
    ensures k != Timestamp && k != FabricationNo ==>
      (k in DecodeSpec(raw).value.attributes <==> k in FedKeys(TelegramRecords(raw)))
    ensures k == FabricationNo && k in DecodeSpec(raw).value.attributes ==> k in FedKeys(TelegramRecords(raw))
  {
    DecodeSuccess(raw);
    var recs := TelegramRecords(raw);
    InitialTracks();
    FoldTracks(Initial, {}, recs);
    assert {} + FedKeys(recs) == FedKeys(recs);
    AttributesKeys(Fold(Initial, recs), k);
  }

  /** A successful decode yields the attributes of the folded telegram records. */
  lemma DecodeSuccess(raw: seq<Byte>)
    requires DecodeSpec(raw).Success?
    ensures |raw| >= 20
    ensures DecodeSpec(raw).value.attributes == Attributes(Fold(Initial, TelegramRecords(raw)))
  {
  }

  /** Before the loop only the timestamp would be present. */
  lemma InitialTracks()
    ensures Tracks(Initial, {})
  {
    forall k | k != Timestamp && k != FabricationNo
      ensures !Present(Initial, k)
    {
    }
  }

  /** A volume record of storage s. */
  predicate IsVolumeAt(rec: Record, s: nat)
  {
    rec.vif % 128 == 0x13 && StorageNumber(rec.dif, rec.difes) == s
  }

  /** The volume of the last volume record of storage s, if any. */
  function LastVolume(recs: seq<Record>, s: nat): Option<nat>
  {
    if |recs| == 0 then None
    else
      var later := LastVolume(recs[1..], s);
      if later.Some? then later
      else if IsVolumeAt(recs[0], s) then Some(Word(recs[0].data))
      else None
  }

  /** One record changes the history only at its own storage, if it is a volume from 8 on. */
  lemma ApplyHistory(acc: Acc, rec: Record, s: nat)
    requires s >= 8
    ensures s in Apply(acc, rec).history <==> s in acc.history || IsVolumeAt(rec, s)
    ensures s in Apply(acc, rec).history ==>
      Apply(acc, rec).history[s] == if IsVolumeAt(rec, s) then Word(rec.data) else acc.history[s]
  {
  }

  /** A history volume holds the last volume record of its storage: later records overwrite. */
  lemma {:induction false} FoldHistory(acc: Acc, recs: seq<Record>, s: nat)
    requires s >= 8
    ensures s in Fold(acc, recs).history <==> s in acc.history || LastVolume(recs, s).Some?
    ensures s in Fold(acc, recs).history ==>
      Fold(acc, recs).history[s] == if LastVolume(recs, s).Some? then LastVolume(recs, s).value else acc.history[s]
    decreases |recs|
  {
    if |recs| > 0 {
      ApplyHistory(acc, recs[0], s);
      FoldHistory(Apply(acc, recs[0]), recs[1..], s);
    }
  }

  /**
   * `consumption_at_history_<s - 7>_m3` is present exactly when some volume record has
   * storage s, and it carries the last of them.
   */
  lemma DecodeHistory(raw: seq<Byte>, s: nat)
    requires DecodeSpec(raw).Success? && s >= 8
    ensures HistoryVolume(s) in DecodeSpec(raw).value.attributes <==> LastVolume(TelegramRecords(raw), s).Some?
    ensures HistoryVolume(s) in DecodeSpec(raw).value.attributes ==>
      DecodeSpec(raw).value.attributes[HistoryVolume(s)] == Milli(LastVolume(TelegramRecords(raw), s).value)
  {
    DecodeSuccess(raw);
    HistoryAttribute(TelegramRecords(raw), s);
  }

  /** The history attribute of storage s after the loop over `recs`. */
  lemma HistoryAttribute(recs: seq<Record>, s: nat)
    requires s >= 8
    ensures var attrs := Attributes(Fold(Initial, recs));
      && (HistoryVolume(s) in attrs <==> LastVolume(recs, s).Some?)
      && (HistoryVolume(s) in attrs ==> attrs[HistoryVolume(s)] == Milli(LastVolume(recs, s).value))
  {
    FoldHistory(Initial, recs, s);
    HistoryAttributeOf(Fold(Initial, recs), s, LastVolume(recs, s));
  }

  lemma HistoryAttributeOf(acc: Acc, s: nat, v: Option<nat>)
    requires s >= 8 && (s in acc.history <==> v.Some?)
    requires s in acc.history ==> acc.history[s] == v.value
    ensures HistoryVolume(s) in Attributes(acc) <==> v.Some?
    ensures HistoryVolume(s) in Attributes(acc) ==> Attributes(acc)[HistoryVolume(s)] == Milli(v.value)
  {
    AttributesKeys(acc, HistoryVolume(s));
  }

  /** An interval record: VIF 0xFD whose first VIFE is 0x28 (bit 7 ignored), with a payload. */
  predicate IsIntervalRecord(rec: Record)
  {
    rec.vif == 0xFD && |rec.vifes| > 0 && rec.vifes[0] % 128 == 0x28 && |rec.data| >= 1
  }

  /** The month count of the last interval record: its first byte, a zero read as 1. */
  function LastInterval(recs: seq<Record>): Option<nat>
  {
    if |recs| == 0 then None
    else
      var later := LastInterval(recs[1..]);
      if later.Some? then later
      else if IsIntervalRecord(recs[0]) then Some(if recs[0].data[0] == 0 then 1 else recs[0].data[0] as nat)
      else None
  }

  /** Only an interval record changes the interval, and it sets it to its month count. */
  lemma ApplyInterval(acc: Acc, rec: Record)
    ensures Apply(acc, rec).intervalMonths ==
      if IsIntervalRecord(rec) then (if rec.data[0] == 0 then 1 else rec.data[0] as nat) else acc.intervalMonths
  {
  }

  /** The interval after the loop is that of the last interval record, or the prior one. */
  lemma {:induction false} FoldInterval(acc: Acc, recs: seq<Record>)
    ensures Fold(acc, recs).intervalMonths ==
      if LastInterval(recs).Some? then LastInterval(recs).value else acc.intervalMonths
    decreases |recs|
  {
    if |recs| > 0 {
      ApplyInterval(acc, recs[0]);
      FoldInterval(Apply(acc, recs[0]), recs[1..]);
    }
  }

  /**
   * `history_interval_months` is present exactly when some history volume is; it is the
   * decimal numeral of the month count of the last interval record (a zero byte counts as
   * 1), or of 1 when there is none, always from 1 to 255.
   */
  lemma DecodeInterval(raw: seq<Byte>)
    requires DecodeSpec(raw).Success?
    ensures HistoryInterval in DecodeSpec(raw).value.attributes <==>
      exists s :: HistoryVolume(s) in DecodeSpec(raw).value.attributes
    ensures HistoryInterval in DecodeSpec(raw).value.attributes ==>
      var last := LastInterval(TelegramRecords(raw));
      DecodeSpec(raw).value.attributes[HistoryInterval] == Plain(NatToString(if last.Some? then last.value else 1))
    ensures HistoryInterval in DecodeSpec(raw).value.attributes ==>
      exists m :: 1 <= m <= 255 && DecodeSpec(raw).value.attributes[HistoryInterval] == Plain(NatToString(m))
  {
    DecodeSuccess(raw);
    FoldSane(Initial, TelegramRecords(raw));
    FoldInterval(Initial, TelegramRecords(raw));
    IntervalAttribute(Fold(Initial, TelegramRecords(raw)));
  }

  lemma IntervalAttribute(acc: Acc)
    requires Sane(acc)
    ensures HistoryInterval in Attributes(acc) <==> exists s :: HistoryVolume(s) in Attributes(acc)
    ensures HistoryInterval in Attributes(acc) ==> Attributes(acc)[HistoryInterval] == Plain(NatToString(acc.intervalMonths))
    ensures HistoryInterval in Attributes(acc) ==>
      exists m :: 1 <= m <= 255 && Attributes(acc)[HistoryInterval] == Plain(NatToString(m))
  {
    if acc.history != map[] {
      IntervalWithHistory(acc);
    } else {
      IntervalWithoutHistory(acc);
    }
  }

  lemma IntervalWithHistory(acc: Acc)
    requires Sane(acc) && acc.history != map[]
    ensures exists s :: HistoryVolume(s) in Attributes(acc)
    ensures HistoryInterval in Attributes(acc)
    ensures Attributes(acc)[HistoryInterval] == Plain(NatToString(acc.intervalMonths))
  {
    var s :| s in acc.history;
    AttributesKeys(acc, HistoryVolume(s));
    AttributesKeys(acc, HistoryInterval);
  }

  lemma IntervalWithoutHistory(acc: Acc)
    requires acc.history == map[]
    ensures forall s :: HistoryVolume(s) !in Attributes(acc)
    ensures HistoryInterval !in Attributes(acc)
  {
    assert Value(acc, HistoryInterval).None?;
    forall s ensures HistoryVolume(s) !in Attributes(acc) {
      assert Value(acc, HistoryVolume(s)).None?;
    }
  }

  // ---------------------------------------------------------------------------
  // The values of the other attributes: each holds its last matching record
  // ---------------------------------------------------------------------------

  /** The date of a valid type G record of storage s (VIF base 0x6C, at least 2 bytes). */
  function DateGAt(rec: Record, s: nat): Option<Date>
  {
    if rec.vif % 128 == 0x6C && |rec.data| >= 2 && StorageNumber(rec.dif, rec.difes) == s then
      DecodeDateG(rec.data[0] as nat + 256 * (rec.data[1] as nat))
    else None
  }

  /** The date-time of a valid type F record of storage s (VIF base 0x6D, at least 4 bytes). */
  function DateTimeFAt(rec: Record, s: nat): Option<DateTime>
  {
    if rec.vif % 128 == 0x6D && |rec.data| >= 4 && StorageNumber(rec.dif, rec.difes) == s then
      DecodeDateTimeF(rec.data)
    else None
  }

  /** The flow of a flow record (VIF base 0x3B, at least 3 bytes): its first three bytes. */
  function FlowOf(rec: Record): Option<nat>
  {
    if rec.vif % 128 == 0x3B && |rec.data| >= 3 then Some(LeValue(rec.data[..3])) else None
  }

  /** The flags of a status record: VIF 0xFD, first VIFE 0x17 (bit 7 ignored), at least 2 bytes. */
  function StatusOf(rec: Record): Option<nat>
  {
    if rec.vif == 0xFD && |rec.vifes| > 0 && rec.vifes[0] % 128 == 0x17 && |rec.data| >= 2 then
      Some(Word(rec.data))
    else None
  }

  /** The BCD string of a fabrication-number record (VIF base 0x78), possibly empty. */
  function FabricationOf(rec: Record): Option<string>
  {
    if rec.vif % 128 == 0x78 then Some(BcdString(rec.data)) else None
  }

  /** The date of the last valid type G record of storage s. */
  function LastDateG(recs: seq<Record>, s: nat): Option<Date>
  {
    if |recs| == 0 then None
    else
      var later := LastDateG(recs[1..], s);
      if later.Some? then later else DateGAt(recs[0], s)
  }

  /** The date-time of the last valid type F record of storage s. */
  function LastDateTimeF(recs: seq<Record>, s: nat): Option<DateTime>
  {
    if |recs| == 0 then None
    else
      var later := LastDateTimeF(recs[1..], s);
      if later.Some? then later else DateTimeFAt(recs[0], s)
  }

  /** The flow of the last flow record. */
  function LastFlow(recs: seq<Record>): Option<nat>
  {
    if |recs| == 0 then None
    else
      var later := LastFlow(recs[1..]);
      if later.Some? then later else FlowOf(recs[0])
  }

  /** The flags of the last status record. */
  function LastStatus(recs: seq<Record>): Option<nat>
  {
    if |recs| == 0 then None
    else
      var later := LastStatus(recs[1..]);
      if later.Some? then later else StatusOf(recs[0])
  }

  /** The BCD string of the last fabrication-number record. */
  function LastFabrication(recs: seq<Record>): Option<string>
  {
    if |recs| == 0 then None
    else
      var later := LastFabrication(recs[1..]);
      if later.Some? then later else FabricationOf(recs[0])
  }

  /** Volume records of storages 1 and 2 set the set-date volumes, whatever came before. */
  lemma ApplySetDateVolumes(acc: Acc, rec: Record)
    ensures Apply(acc, rec).setDateVolume ==
      if IsVolumeAt(rec, 1) then Some(Word(rec.data)) else acc.setDateVolume
    ensures Apply(acc, rec).setDate2Volume ==
      if IsVolumeAt(rec, 2) then Some(Word(rec.data)) else acc.setDate2Volume
  {
  }

  /** The set-date volumes after the loop: the last volume record of storage 1, and of 2. */
  lemma {:induction false} FoldSetDateVolumes(acc: Acc, recs: seq<Record>)
    ensures Fold(acc, recs).setDateVolume ==
      if LastVolume(recs, 1).Some? then LastVolume(recs, 1) else acc.setDateVolume
    ensures Fold(acc, recs).setDate2Volume ==
      if LastVolume(recs, 2).Some? then LastVolume(recs, 2) else acc.setDate2Volume
    decreases |recs|
  {
    if |recs| > 0 {
      ApplySetDateVolumes(acc, recs[0]);
      FoldSetDateVolumes(Apply(acc, recs[0]), recs[1..]);
    }
  }

  /** A valid type G record sets the date of its storage: 1, 2 or 8. */
  lemma ApplyDates(acc: Acc, rec: Record)
    ensures Apply(acc, rec).setDate == if DateGAt(rec, 1).Some? then DateGAt(rec, 1) else acc.setDate
    ensures Apply(acc, rec).setDate2 == if DateGAt(rec, 2).Some? then DateGAt(rec, 2) else acc.setDate2
    ensures Apply(acc, rec).historyReferenceDate ==
      if DateGAt(rec, 8).Some? then DateGAt(rec, 8) else acc.historyReferenceDate
  {
  }

  /** The dates after the loop: the last valid type G date of storages 1, 2 and 8. */
  lemma {:induction false} FoldDates(acc: Acc, recs: seq<Record>)
    ensures Fold(acc, recs).setDate == if LastDateG(recs, 1).Some? then LastDateG(recs, 1) else acc.setDate
    ensures Fold(acc, recs).setDate2 == if LastDateG(recs, 2).Some? then LastDateG(recs, 2) else acc.setDate2
    ensures Fold(acc, recs).historyReferenceDate ==
      if LastDateG(recs, 8).Some? then LastDateG(recs, 8) else acc.historyReferenceDate
    decreases |recs|
  {
    if |recs| > 0 {
      ApplyDates(acc, recs[0]);
      FoldDates(Apply(acc, recs[0]), recs[1..]);
    }
  }

  /** A valid type F record sets the date-time of its storage: 0 or 3. */
  lemma ApplyDateTimes(acc: Acc, rec: Record)
    ensures Apply(acc, rec).deviceDateTime ==
      if DateTimeFAt(rec, 0).Some? then DateTimeFAt(rec, 0) else acc.deviceDateTime
    ensures Apply(acc, rec).maxFlowDateTime ==
      if DateTimeFAt(rec, 3).Some? then DateTimeFAt(rec, 3) else acc.maxFlowDateTime
  {
  }

  /** The date-times after the loop: the last valid type F date-time of storages 0 and 3. */
  lemma {:induction false} FoldDateTimes(acc: Acc, recs: seq<Record>)
    ensures Fold(acc, recs).deviceDateTime ==
      if LastDateTimeF(recs, 0).Some? then LastDateTimeF(recs, 0) else acc.deviceDateTime
    ensures Fold(acc, recs).maxFlowDateTime ==
      if LastDateTimeF(recs, 3).Some? then LastDateTimeF(recs, 3) else acc.maxFlowDateTime
    decreases |recs|
  {
    if |recs| > 0 {
      ApplyDateTimes(acc, recs[0]);
      FoldDateTimes(Apply(acc, recs[0]), recs[1..]);
    }
  }

  /** Only a flow record sets the flow. */
  lemma ApplyFlow(acc: Acc, rec: Record)
    ensures Apply(acc, rec).maxFlow == if FlowOf(rec).Some? then FlowOf(rec) else acc.maxFlow
  {
  }

  /** Only a status record sets the status word. */
  lemma ApplyStatus(acc: Acc, rec: Record)
    ensures Apply(acc, rec).status == if StatusOf(rec).Some? then StatusOf(rec) else acc.status
  {
  }

  /** Only a fabrication-number record sets the fabrication number, even to "". */
  lemma ApplyFabrication(acc: Acc, rec: Record)
    ensures Apply(acc, rec).fabricationNo ==
      if FabricationOf(rec).Some? then FabricationOf(rec).value else acc.fabricationNo
  {
  }

  /** The flow, the status word and the fabrication number after the loop: the last ones read. */
  lemma {:induction false} FoldScalars(acc: Acc, recs: seq<Record>)
    ensures Fold(acc, recs).maxFlow == if LastFlow(recs).Some? then LastFlow(recs) else acc.maxFlow
    ensures Fold(acc, recs).status == if LastStatus(recs).Some? then LastStatus(recs) else acc.status
    ensures Fold(acc, recs).fabricationNo ==
      if LastFabrication(recs).Some? then LastFabrication(recs).value else acc.fabricationNo
    decreases |recs|
  {
    if |recs| > 0 {
      ApplyFlow(acc, recs[0]);
      ApplyStatus(acc, recs[0]);
      ApplyFabrication(acc, recs[0]);
      FoldScalars(Apply(acc, recs[0]), recs[1..]);
    }
  }

  /** The map holds `k` exactly when `v` is present, and then holds `v`'s value. */
  predicate Stored(attrs: map<Key, AttrValue>, k: Key, v: Option<AttrValue>)
  {
    (k in attrs <==> v.Some?) && (k in attrs ==> attrs[k] == v.value)
  }

  /** A key is stored with the value the assembly gives it. */
  lemma StoredAs(acc: Acc, k: Key, v: Option<AttrValue>)
    requires Value(acc, k) == v
    ensures Stored(Attributes(acc), k, v)
  {
    AttributesKeys(acc, k);
  }

  /** A volume attribute holds its local's volume, in thousandths. */
  lemma VolumeStored(acc: Acc, k: Key, v: Option<nat>)
    requires k == SetDateVolume || k == SetDate2Volume || k == MaxFlowVolume
    requires v == if k == SetDateVolume then acc.setDateVolume
      else if k == SetDate2Volume then acc.setDate2Volume else acc.maxFlow
    ensures Stored(Attributes(acc), k, VolumeValue(v))
  {
    StoredAs(acc, k, VolumeValue(v));
  }

  /** A date attribute holds its local's date, formatted. */
  lemma DateStored(acc: Acc, k: Key, d: Option<Date>)
    requires k == SetDate || k == SetDate2 || k == HistoryReferenceDate
    requires d == if k == SetDate then acc.setDate
      else if k == SetDate2 then acc.setDate2 else acc.historyReferenceDate
    ensures Stored(Attributes(acc), k, DateValue(d))
  {
    StoredAs(acc, k, DateValue(d));
  }

  /** A date-time attribute holds its local's date-time, formatted. */
  lemma DateTimeStored(acc: Acc, k: Key, dt: Option<DateTime>)
    requires k == DeviceDateTime || k == MaxFlowDateTime
    requires dt == if k == DeviceDateTime then acc.deviceDateTime else acc.maxFlowDateTime
    ensures Stored(Attributes(acc), k, DateTimeValue(dt))
  {
    StoredAs(acc, k, DateTimeValue(dt));
  }

  /**
   * The set-date volumes and the flow of a successful decode: each is present exactly when
   * some record of its kind was read, and holds the last one, in thousandths.
   */
  lemma DecodeVolumes(raw: seq<Byte>)
    requires DecodeSpec(raw).Success?
    ensures var attrs, recs := DecodeSpec(raw).value.attributes, TelegramRecords(raw);
      && Stored(attrs, SetDateVolume, VolumeValue(LastVolume(recs, 1)))
      && Stored(attrs, SetDate2Volume, VolumeValue(LastVolume(recs, 2)))
      && Stored(attrs, MaxFlowVolume, VolumeValue(LastFlow(recs)))
  {
    DecodeSuccess(raw);
    VolumesStored(TelegramRecords(raw));
  }

  lemma VolumesStored(recs: seq<Record>)
    ensures var attrs := Attributes(Fold(Initial, recs));
      && Stored(attrs, SetDateVolume, VolumeValue(LastVolume(recs, 1)))
      && Stored(attrs, SetDate2Volume, VolumeValue(LastVolume(recs, 2)))
      && Stored(attrs, MaxFlowVolume, VolumeValue(LastFlow(recs)))
  {
    FoldSetDateVolumes(Initial, recs);
    FoldScalars(Initial, recs);
    var acc := Fold(Initial, recs);
    VolumeStored(acc, SetDateVolume, LastVolume(recs, 1));
    VolumeStored(acc, SetDate2Volume, LastVolume(recs, 2));
    VolumeStored(acc, MaxFlowVolume, LastFlow(recs));
  }



  /**
   * The dates of a successful decode: `set_date`, `set_date_2` and `history_reference_date`
   * are present exactly when a valid type G date of storage 1, 2 or 8 was read, and hold
   * the last one, formatted.
   */
  lemma DecodeDates(raw: seq<Byte>)
    requires DecodeSpec(raw).Success?
    ensures var attrs, recs := DecodeSpec(raw).value.attributes, TelegramRecords(raw);
      && Stored(attrs, SetDate, DateValue(LastDateG(recs, 1)))
      && Stored(attrs, SetDate2, DateValue(LastDateG(recs, 2)))
      && Stored(attrs, HistoryReferenceDate, DateValue(LastDateG(recs, 8)))
  {
    DecodeSuccess(raw);
    DatesStored(TelegramRecords(raw));
  }

  lemma DatesStored(recs: seq<Record>)
    ensures var attrs := Attributes(Fold(Initial, recs));
      && Stored(attrs, SetDate, DateValue(LastDateG(recs, 1)))
      && Stored(attrs, SetDate2, DateValue(LastDateG(recs, 2)))
      && Stored(attrs, HistoryReferenceDate, DateValue(LastDateG(recs, 8)))
  {
    FoldDates(Initial, recs);
    var acc := Fold(Initial, recs);
    DateStored(acc, SetDate, LastDateG(recs, 1));
    DateStored(acc, SetDate2, LastDateG(recs, 2));
    DateStored(acc, HistoryReferenceDate, LastDateG(recs, 8));
  }



  /**
   * The date-times of a successful decode: `device_date_time` and `max_flow_datetime` are
   * present exactly when a valid type F date-time of storage 0 or 3 was read, and hold the
   * last one, formatted.
   */
  lemma DecodeDateTimes(raw: seq<Byte>)
    requires DecodeSpec(raw).Success?
    ensures var attrs, recs := DecodeSpec(raw).value.attributes, TelegramRecords(raw);
      && Stored(attrs, DeviceDateTime, DateTimeValue(LastDateTimeF(recs, 0)))
      && Stored(attrs, MaxFlowDateTime, DateTimeValue(LastDateTimeF(recs, 3)))
  {
    DecodeSuccess(raw);
    DateTimesStored(TelegramRecords(raw));
  }

  lemma DateTimesStored(recs: seq<Record>)
    ensures var attrs := Attributes(Fold(Initial, recs));
      && Stored(attrs, DeviceDateTime, DateTimeValue(LastDateTimeF(recs, 0)))
      && Stored(attrs, MaxFlowDateTime, DateTimeValue(LastDateTimeF(recs, 3)))
  {
    FoldDateTimes(Initial, recs);
    var acc := Fold(Initial, recs);
    DateTimeStored(acc, DeviceDateTime, LastDateTimeF(recs, 0));
    DateTimeStored(acc, MaxFlowDateTime, LastDateTimeF(recs, 3));
  }



  /**
   * `current_status` is present exactly when a status record was read and holds the last
   * flags, formatted; `fabrication_no` is present exactly when the last fabrication-number
   * record gave a non-empty string, and holds that string.
   */
  lemma DecodeStatusAndFabrication(raw: seq<Byte>)
    requires DecodeSpec(raw).Success?
    ensures var attrs, recs := DecodeSpec(raw).value.attributes, TelegramRecords(raw);
      && Stored(attrs, CurrentStatus,
           if LastStatus(recs).Some? then Some(Plain(FormatErrorFlags(LastStatus(recs).value))) else None)
      && (FabricationNo in attrs <==> LastFabrication(recs).Some? && |LastFabrication(recs).value| > 0)
      && (FabricationNo in attrs ==> attrs[FabricationNo] == Plain(LastFabrication(recs).value))
  {
    DecodeSuccess(raw);
    StatusAndFabricationStored(TelegramRecords(raw));
  }

  lemma StatusAndFabricationStored(recs: seq<Record>)
    ensures var attrs := Attributes(Fold(Initial, recs));
      && Stored(attrs, CurrentStatus,
           if LastStatus(recs).Some? then Some(Plain(FormatErrorFlags(LastStatus(recs).value))) else None)
      && (FabricationNo in attrs <==> LastFabrication(recs).Some? && |LastFabrication(recs).value| > 0)
      && (FabricationNo in attrs ==> attrs[FabricationNo] == Plain(LastFabrication(recs).value))
  {
    FoldScalars(Initial, recs);
    StatusAndFabricationOf(Fold(Initial, recs), LastStatus(recs),
      if LastFabrication(recs).Some? then LastFabrication(recs).value else "");
  }

  lemma StatusAndFabricationOf(acc: Acc, flags: Option<nat>, digits: string)
    requires acc.status == flags && acc.fabricationNo == digits
    ensures var attrs := Attributes(acc);
      && Stored(attrs, CurrentStatus, if flags.Some? then Some(Plain(FormatErrorFlags(flags.value))) else None)
      && Stored(attrs, FabricationNo, if |digits| > 0 then Some(Plain(digits)) else None)
  {
    StoredAs(acc, CurrentStatus, if flags.Some? then Some(Plain(FormatErrorFlags(flags.value))) else None);
    StoredAs(acc, FabricationNo, if |digits| > 0 then Some(Plain(digits)) else None);
  }


  /**
   * A header followed by well-formed records laid end to end: the decoder reads back
   * exactly those records.
   */
  lemma TelegramOfRecords(header: seq<Byte>, recs: seq<Record>)
    requires |header| >= 2 && |header| == PrefixLength(header) + HeaderLength
    requires forall i :: 0 <= i < |recs| ==> WellFormed(recs[i])
    requires |header| + |EncodeAll(recs)| >= 20
    ensures TelegramRecords(header + EncodeAll(recs)) == recs
  {
    var raw := header + EncodeAll(recs);
    assert raw[..2] == header[..2];
    assert PrefixLength(raw) == PrefixLength(header);
    NoFillerAfterHeader(header, recs);
    RecordsFromEncodeAll(header, recs);
  }

  /** A well-formed first record never starts with the filler byte. */
  lemma NoFillerAfterHeader(header: seq<Byte>, recs: seq<Record>)
    requires forall i :: 0 <= i < |recs| ==> WellFormed(recs[i])
    ensures SkipFiller(header + EncodeAll(recs), |header|) == |header|
  {
    var raw := header + EncodeAll(recs);
    if |recs| > 0 {
      assert EncodeAll(recs)[0] == recs[0].dif;
      assert raw[|header|] == recs[0].dif;
      assert WellFormed(recs[0]);
      assert recs[0].dif % 16 != 15 && Filler % 16 == 15;
    }
  }

  /** A telegram whose one record is a 4-byte storage-0 volume of 12345 litres. */
  lemma SingleVolumeTelegram()
    ensures DecodeSpec(seq(15, _ => 0) + [0x04, 0x13, 0x39, 0x30, 0x00, 0x00])
      == Success(Decoded(map[TotalM3 := Milli(12345), Timestamp := CurrentTime], 12345))
  {
    var raw := seq(15, _ => 0) + [0x04, 0x13, 0x39, 0x30, 0x00, 0x00];
    var rec := Record(0x04, [], 0x13, [], [0x39, 0x30, 0x00, 0x00]);
    SingleVolumeRecords(rec);
    SingleVolumeFold(rec);
    TotalOnlyAttributes(12345);
    assert PrefixLength(raw) == 0;
  }

  lemma SingleVolumeRecords(rec: Record)
    requires rec == Record(0x04, [], 0x13, [], [0x39, 0x30, 0x00, 0x00])
    ensures TelegramRecords(seq(15, _ => 0) + [0x04, 0x13, 0x39, 0x30, 0x00, 0x00]) == [rec]
  {
    var header: seq<Byte> := seq(15, _ => 0);
    assert Encode(rec) == [0x04, 0x13, 0x39, 0x30, 0x00, 0x00];
    assert EncodeAll([rec]) == Encode(rec) + EncodeAll([]);
    assert WellFormed(rec);
    TelegramOfRecords(header, [rec]);
    assert header + EncodeAll([rec]) == seq(15, _ => 0) + [0x04, 0x13, 0x39, 0x30, 0x00, 0x00];
  }

  lemma SingleVolumeFold(rec: Record)
    requires rec == Record(0x04, [], 0x13, [], [0x39, 0x30, 0x00, 0x00])
    ensures Fold(Initial, [rec]) == Initial.(total := Some(12345))
  {
    assert StorageNumber(0x04, []) == 0;
    assert Word(rec.data) == 12345;
    assert EffectOf(rec) == Volume(0, 12345);
    assert Apply(Initial, rec) == Initial.(total := Some(12345));
    assert Fold(Initial, [rec]) == Fold(Apply(Initial, rec), []);
  }

  /** With only a total, the attributes are the total and the timestamp. */
  lemma TotalOnlyAttributes(n: nat)
    ensures Attributes(Initial.(total := Some(n))) == map[TotalM3 := Milli(n), Timestamp := CurrentTime]
  {
    var acc := Initial.(total := Some(n));
    var attrs := Attributes(acc);
    forall k
      ensures k in attrs <==> k == TotalM3 || k == Timestamp
      ensures k in attrs ==> attrs[k] == if k == TotalM3 then Milli(n) else CurrentTime
    {
      AttributesKeys(acc, k);
    }
  }

  // ---------------------------------------------------------------------------
  // decode, as the source runs it
  // ---------------------------------------------------------------------------

  /** The body of the record loop after a record has been read: the if-chain on the VIF. */
  method ApplyRecord(acc: Acc, rec: Record) returns (next: Acc)
    ensures next == Apply(acc, rec)
  {
    next := acc;
    var len := |rec.data|;
    var storage := ComputeStorageNumber(rec.dif, rec.difes);
    var vifBase := rec.vif % 128;
    if vifBase == 0x13 {
      var n := if len < 4 then len else 4;
      var rawValue := ReadLeUint(rec.data[..n]);
      if storage == 0 && acc.total.None? {
        next := acc.(total := Some(rawValue));
      } else if storage == 1 {
        next := acc.(setDateVolume := Some(rawValue));
      } else if storage == 2 {
        next := acc.(setDate2Volume := Some(rawValue));
      } else if storage >= 8 {
        next := acc.(history := acc.history[storage := rawValue]);
      }
    } else if vifBase == 0x6C && len >= 2 {
      var date := DecodeDateG(rec.data[0] as nat + 256 * (rec.data[1] as nat));
      if date.None? {
        return;
      }
      if storage == 1 {
        next := acc.(setDate := date);
      } else if storage == 2 {
        next := acc.(setDate2 := date);
      } else if storage == 8 {
        next := acc.(historyReferenceDate := date);
      }
    } else if vifBase == 0x6D && len >= 4 {
      var dt := DecodeDateTimeF(rec.data);
      if dt.None? {
        return;
      }
      if storage == 0 {
        next := acc.(deviceDateTime := dt);
      } else if storage == 3 {
        next := acc.(maxFlowDateTime := dt);
      }
    } else if vifBase == 0x3B && len >= 3 {
      var rawValue := ReadLeUint(rec.data[..3]);
      next := acc.(maxFlow := Some(rawValue));
    } else if vifBase == 0x78 {
      var digits := DecodeBcdString(rec.data);
      next := acc.(fabricationNo := digits);
    } else if vifBase == 0x7A && |rec.vifes| > 0 {
    } else if rec.vif == 0xFD && |rec.vifes| > 0 {
      var vife := rec.vifes[0] % 128;
      if vife == 0x17 && len >= 2 {
        var n := if len < 4 then len else 4;
        var flags := ReadLeUint(rec.data[..n]);
        next := acc.(status := Some(flags));
      } else if vife == 0x28 && len >= 1 {
        var months := rec.data[0];
        if months == 0 {
          months := 1;
        }
        next := acc.(intervalMonths := months);
      }
    }
  }

  /** The attribute assembly after the loop, in the source's order. */
  method AssembleAttributes(acc: Acc) returns (attrs: map<Key, AttrValue>)
    requires acc.total.Some?
    ensures attrs == Attributes(acc)
  {
    attrs := AssembleLeading(acc);
    attrs := AssembleHistory(acc, attrs);
    assert LeadingKeys + HistoryKeys(acc.history.Keys) + {HistoryInterval} == FixedKeys + HistoryKeys(acc.history.Keys);
  }

  /**
   * The total, the timestamp and the attributes that do not depend on the history, in the
   * source's order; each is written only when its local is present.
   */
  method AssembleLeading(acc: Acc) returns (attrs: map<Key, AttrValue>)
    requires acc.total.Some?
    ensures attrs == AttributesOver(acc, LeadingKeys)
  {
    attrs := map[TotalM3 := Milli(acc.total.value)];
    assert attrs == AttributesOver(acc, {TotalM3});
    attrs := PutPresent(acc, attrs, {TotalM3}, Timestamp);
    attrs := PutPresent(acc, attrs, {TotalM3, Timestamp}, DeviceDateTime);
    attrs := PutPresent(acc, attrs, {TotalM3, Timestamp, DeviceDateTime}, FabricationNo);
    attrs := PutPresent(acc, attrs, {TotalM3, Timestamp, DeviceDateTime, FabricationNo}, CurrentStatus);
    attrs := AssembleSetDates(acc, attrs);
  }

  /** The set-date volumes and dates, the flow, and the history reference date. */
  method AssembleSetDates(acc: Acc, attrs0: map<Key, AttrValue>) returns (attrs: map<Key, AttrValue>)
    requires attrs0 == AttributesOver(acc, {TotalM3, Timestamp, DeviceDateTime, FabricationNo, CurrentStatus})
    ensures attrs == AttributesOver(acc, LeadingKeys)
  {
    ghost var done: set<Key> := {TotalM3, Timestamp, DeviceDateTime, FabricationNo, CurrentStatus};
    attrs := PutPresent(acc, attrs0, done, SetDateVolume);
    done := done + {SetDateVolume};
    attrs := PutPresent(acc, attrs, done, SetDate);
    done := done + {SetDate};
    attrs := PutPresent(acc, attrs, done, SetDate2Volume);
    done := done + {SetDate2Volume};
    attrs := PutPresent(acc, attrs, done, SetDate2);
    done := done + {SetDate2};
    attrs := PutPresent(acc, attrs, done, MaxFlowVolume);
    done := done + {MaxFlowVolume};
    attrs := PutPresent(acc, attrs, done, MaxFlowDateTime);
    done := done + {MaxFlowDateTime};
    attrs := PutPresent(acc, attrs, done, HistoryReferenceDate);
    done := done + {HistoryReferenceDate};
    assert done == LeadingKeys;
  }

  /** One `if (present) attributes[name] = formatted value;` of the assembly. */
  method PutPresent(acc: Acc, attrs0: map<Key, AttrValue>, ghost done: set<Key>, k: Key) returns (attrs: map<Key, AttrValue>)
    requires attrs0 == AttributesOver(acc, done)
    ensures attrs == AttributesOver(acc, done + {k})
  {
    var v := Value(acc, k);
    attrs := if v.Some? then attrs0[k := v.value] else attrs0;
    AttributesOverAdd(acc, done, k);
  }

  /**
   * The history volumes from storage 8 on, one per storage, then the interval when any
   * history volume exists.
   */
  method AssembleHistory(acc: Acc, attrs0: map<Key, AttrValue>) returns (attrs: map<Key, AttrValue>)
    requires attrs0 == AttributesOver(acc, LeadingKeys)
    ensures attrs == AttributesOver(acc, LeadingKeys + HistoryKeys(acc.history.Keys) + {HistoryInterval})
  {
    attrs := attrs0;
    ghost var done := LeadingKeys;
    if acc.history != map[] {
      var pending := acc.history.Keys;
      while pending != {}
        invariant pending <= acc.history.Keys
        invariant done == LeadingKeys + HistoryKeys(acc.history.Keys - pending)
        invariant attrs == AttributesOver(acc, done)
        decreases pending
      {
        var s :| s in pending;
        HistoryVolumeAdd(acc, done, s);
        if s >= 8 {
          attrs := attrs[HistoryVolume(s) := Milli(acc.history[s])];
        }
        done := done + {HistoryVolume(s)};
        HistoryKeysStep(acc.history.Keys, pending, s);
        pending := pending - {s};
      }
      IntervalAdd(acc, done);
      if acc.intervalMonths > 0 {
        attrs := attrs[HistoryInterval := Plain(NatToString(acc.intervalMonths))];
      }
    } else {
      assert HistoryKeys(acc.history.Keys) == {};
      AttributesOverAdd(acc, done, HistoryInterval);
    }
  }

  /** Writing the volume of a history storage: only storages from 8 on are written. */
  lemma HistoryVolumeAdd(acc: Acc, done: set<Key>, s: nat)
    requires s in acc.history
    ensures AttributesOver(acc, done + {HistoryVolume(s)}) ==
      if s >= 8 then AttributesOver(acc, done)[HistoryVolume(s) := Milli(acc.history[s])]
      else AttributesOver(acc, done)
  {
    AttributesOverAdd(acc, done, HistoryVolume(s));
  }

  /** Writing the interval after a non-empty history: only a non-zero month count is written. */
  lemma IntervalAdd(acc: Acc, done: set<Key>)
    requires acc.history != map[]
    ensures AttributesOver(acc, done + {HistoryInterval}) ==
      if acc.intervalMonths > 0 then AttributesOver(acc, done)[HistoryInterval := Plain(NatToString(acc.intervalMonths))]
      else AttributesOver(acc, done)
  {
    AttributesOverAdd(acc, done, HistoryInterval);
  }

  lemma HistoryKeysStep(storages: set<nat>, pending: set<nat>, s: nat)
    requires s in pending && s in storages
    ensures HistoryKeys(storages - (pending - {s})) == HistoryKeys(storages - pending) + {HistoryVolume(s)}
  {
  }

  /**
   * `Evo868Driver::decode`: on success the attributes and the main value; on failure
   * the cleared map and no main value (NaN).
   */
  method Decode(raw: seq<Byte>) returns (ok: bool, attributes: map<Key, AttrValue>, mainValue: Option<nat>)
    ensures ok <==> DecodeSpec(raw).Success?
    ensures ok ==> attributes == DecodeSpec(raw).value.attributes && mainValue == Some(DecodeSpec(raw).value.mainValue)
    ensures !ok ==> attributes == map[] && mainValue.None?
  {
    attributes := map[];
    mainValue := None;
    if |raw| < 20 {
      return false, attributes, mainValue;
    }
    var offset := 0;
    if raw[0] == 0x54 && (raw[1] == 0x3D || raw[1] == 0xCD) {
      offset := 2;
    }
    // The "header incomplete" and "unexpected end" checks cannot fire after the length check.
    assert |raw| > offset + HeaderLength;
    var pos := offset + HeaderLength;
    while pos < |raw| && raw[pos] == Filler
      invariant offset + HeaderLength <= pos <= |raw|
      invariant SkipFiller(raw, pos) == SkipFiller(raw, offset + HeaderLength)
      decreases |raw| - pos
    {
      pos := pos + 1;
    }
    ghost var recs := TelegramRecords(raw);
    var acc := Initial;
    while pos < |raw|
      invariant pos <= |raw|
      invariant Fold(acc, RecordsFrom(raw, pos)) == Fold(Initial, recs)
      decreases |raw| - pos
    {
      var step := ReadRecord(raw, pos);
      match step
      case Padding(n) =>
        pos := n;
      case Skipped(n) =>
        pos := n;
      case Got(rec, n) =>
        RecordsFromGot(raw, pos, rec, n);
        acc := ApplyRecord(acc, rec);
        pos := n;
      case Stop =>
        assert RecordsFrom(raw, pos) == [];
        break;
    }
    assert acc == Fold(Initial, recs);
    if acc.total.None? {
      return false, attributes, mainValue;
    }
    mainValue := Some(acc.total.value);
    attributes := AssembleAttributes(acc);
    ok := true;
  }
}
