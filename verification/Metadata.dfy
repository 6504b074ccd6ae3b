/** Names, remarks and hide flags of devices, kept under keys that identify the hardware. */
module Metadata {
  import opened Wrappers

  /** The kinds of keys of the file; the text forms do not collide. */
  datatype Key =
    | Serial(vidpid: string, serial: string)
    | Fingerprint(fingerprint: string)
    | Group(fingerprint: string, index: nat)
    | Legacy(vidpid: string, description: string)
    | Identity(identity: string)
    | Port(busid: string)
    | Other(text: string)

  /** Empty fields are missing ones. */
  datatype Record = Record(alias: string, remark: string, vidpid: string, serial: string, fingerprint: string,
                           hidden: string)

  datatype Device = Device(busid: string, vidpid: string, serial: string, fingerprint: string, description: string,
                           identity: string, modelIndex: nat)

  type Values = map<Key, Record>

  const HIDDEN_TRUE := "true"

  function LegacyKey(d: Device): Key { Legacy(d.vidpid, d.description) }

  /** record_matches_device: it carries provenance, and all of it is the device's. */
  predicate Matches(r: Record, d: Device) {
    && (r.vidpid != "" || r.serial != "" || r.fingerprint != "")
    && (r.vidpid != "" ==> r.vidpid == d.vidpid)
    && (r.serial != "" ==> r.serial == d.serial)
    && (r.fingerprint != "" ==> r.fingerprint == d.fingerprint)
  }

  predicate Contradicts(r: Record, d: Device) {
    (r.vidpid != "" || r.serial != "" || r.fingerprint != "") && !Matches(r, d)
  }

  /** metadata_keys; count: how many devices share the fingerprint. */
  function Keys(d: Device, count: nat): seq<Key> {
    (if d.serial != "" then [Serial(d.vidpid, d.serial)] else [])
    + (if count == 1 then [Fingerprint(d.fingerprint)] else [])
    + (if count > 1 then [Group(d.fingerprint, d.modelIndex)] else [])
    + (if count > 1 && d.modelIndex == 0 then [Fingerprint(d.fingerprint)] else [])
    + [LegacyKey(d)]
  }

  /** metadata_target_key */
  function Target(d: Device, count: nat): Key {
    if d.serial != "" then Serial(d.vidpid, d.serial)
    else if count == 1 then Fingerprint(d.fingerprint)
    else Group(d.fingerprint, d.modelIndex)
  }

  /** The record one key has for a device. */
  function RecordAt(values: Values, key: Key, d: Device): Option<Record> {
    if key !in values || (key.Legacy? && Contradicts(values[key], d)) then None else Some(values[key])
  }

  function FirstRecord(values: Values, keys: seq<Key>, d: Device): Option<Record> {
    if keys == [] then None
    else if RecordAt(values, keys[0], d).Some? then RecordAt(values, keys[0], d)
    else FirstRecord(values, keys[1..], d)
  }

  /** device_metadata_record */
  function Effective(values: Values, d: Device, count: nat): Option<Record> {
    FirstRecord(values, Keys(d, count), d)
  }

  /** device_hidden */
  predicate Hidden(values: Values, d: Device, count: nat) {
    var r := Effective(values, d, count);
    r.Some? && r.value.hidden == HIDDEN_TRUE
  }

  /** Which record a device shows, in the order of the keys: its serial number, its model if it is the only unit, its
      place among the units of its model and, for the first of them, the model as the default of the group, and last
      the record of older builds, unless that carries the marks of another device. */
  lemma EffectiveIs(values: Values, d: Device, count: nat)
    ensures Effective(values, d, count) ==
            if d.serial != "" && Serial(d.vidpid, d.serial) in values then Some(values[Serial(d.vidpid, d.serial)])
            else if count == 1 && Fingerprint(d.fingerprint) in values then Some(values[Fingerprint(d.fingerprint)])
            else if count > 1 && Group(d.fingerprint, d.modelIndex) in values
            then Some(values[Group(d.fingerprint, d.modelIndex)])
            else if count > 1 && d.modelIndex == 0 && Fingerprint(d.fingerprint) in values
            then Some(values[Fingerprint(d.fingerprint)])
            else if Legacy(d.vidpid, d.description) in values &&
                    !ForeignMarks(values[Legacy(d.vidpid, d.description)], d)
            then Some(values[Legacy(d.vidpid, d.description)])
            else None
  {
    if LegacyKey(d) in values {
      ForeignMarksExactly(values[LegacyKey(d)], d);
    }
    hide Matches, Contradicts, ForeignMarks, FirstRecord;
    var legacy := [LegacyKey(d)];
    var shared := Maybe(count > 1 && d.modelIndex == 0, Fingerprint(d.fingerprint)) + legacy;
    var group := Maybe(count > 1, Group(d.fingerprint, d.modelIndex)) + shared;
    var single := Maybe(count == 1, Fingerprint(d.fingerprint)) + group;
    assert Keys(d, count) == Maybe(d.serial != "", Serial(d.vidpid, d.serial)) + single;
    FirstOfMaybe(values, d.serial != "", Serial(d.vidpid, d.serial), single, d);
    FirstOfMaybe(values, count == 1, Fingerprint(d.fingerprint), group, d);
    FirstOfMaybe(values, count > 1, Group(d.fingerprint, d.modelIndex), shared, d);
    FirstOfMaybe(values, count > 1 && d.modelIndex == 0, Fingerprint(d.fingerprint), legacy, d);
    FirstOfOne(values, LegacyKey(d), d);
  }

  function Maybe(tried: bool, key: Key): seq<Key> { if tried then [key] else [] }

  lemma FirstOfMaybe(values: Values, tried: bool, key: Key, rest: seq<Key>, d: Device)
    ensures FirstRecord(values, Maybe(tried, key) + rest, d) ==
            if tried && RecordAt(values, key, d).Some? then RecordAt(values, key, d) else FirstRecord(values, rest, d)
  {
    if tried {
      assert (Maybe(tried, key) + rest)[1..] == rest;
    } else {
      assert Maybe(tried, key) + rest == rest;
    }
  }

  lemma FirstOfOne(values: Values, key: Key, d: Device)
    ensures FirstRecord(values, [key], d) == RecordAt(values, key, d)
  {
  }

  /** A record with a mark of its device, and one of the marks is not that of this device. */
  predicate ForeignMarks(r: Record, d: Device) {
    || (r.vidpid != "" && r.vidpid != d.vidpid) || (r.serial != "" && r.serial != d.serial)
    || (r.fingerprint != "" && r.fingerprint != d.fingerprint)
  }

  /** A record is a device's exactly if it has a mark and no foreign one; it contradicts it exactly if it has. */
  lemma ForeignMarksExactly(r: Record, d: Device)
    ensures Contradicts(r, d) <==> ForeignMarks(r, d)
    ensures Matches(r, d) <==> (r.vidpid != "" || r.serial != "" || r.fingerprint != "") && !ForeignMarks(r, d)
  {
  }

  // ----- hiding -----

  function WithProvenance(r: Record, d: Device): Record {
    r.(vidpid := d.vidpid, fingerprint := d.fingerprint, serial := if d.serial != "" then d.serial else r.serial)
  }

  /** The record that the flag is written into. */
  function Flagged(values: Values, d: Device, count: nat, hidden: bool): Record {
    var target, effective := Target(d, count), Effective(values, d, count);
    var base := if target in values then values[target]
                else if effective.Some? then Record(effective.value.alias, effective.value.remark, "", "", "", "")
                else Record("", "", "", "", "", "");
    WithProvenance(base, d).(hidden := if hidden then HIDDEN_TRUE else "")
  }

  function Stored(values: Values, key: Key, r: Record): Values {
    if r.hidden != "" || r.alias != "" || r.remark != "" then values[key := r] else values - {key}
  }

  /** One key of the loop that unhides. */
  function Cleared(values: Values, key: Key): Values {
    if key !in values || values[key].hidden == "" then values
    else Stored(values, key, values[key].(hidden := ""))
  }

  function ClearedAll(values: Values, keys: seq<Key>): Values
    decreases |keys|
  {
    if keys == [] then values else ClearedAll(Cleared(values, keys[0]), keys[1..])
  }

  /** set_device_hidden, once the device has been found and is not shared any more */
  function WithHidden(values: Values, d: Device, count: nat, hidden: bool): Values {
    var stored := Stored(values, Target(d, count), Flagged(values, d, count, hidden));
    if hidden then stored else ClearedAll(stored, Keys(d, count))
  }

  lemma TargetIsTriedFirst(d: Device, count: nat)
    requires count >= 1
    ensures Keys(d, count)[0] == Target(d, count) && !Target(d, count).Legacy?
  {
  }

  lemma {:induction false} ClearedAllAt(values: Values, keys: seq<Key>, key: Key)
    ensures key in ClearedAll(values, keys) ==>
              && key in values
              && ClearedAll(values, keys)[key] == if key in keys then values[key].(hidden := "") else values[key]
    ensures key !in keys ==> (key in ClearedAll(values, keys) <==> key in values)
    ensures key in values && (values[key].hidden == "" || values[key].alias != "" || values[key].remark != "") ==>
              key in ClearedAll(values, keys)
    decreases |keys|
  {
    if keys != [] {
      ClearedAllAt(Cleared(values, keys[0]), keys[1..], key);
    }
  }

  lemma {:induction false} NoFlagNoHidden(values: Values, keys: seq<Key>, d: Device)
    requires forall k | k in keys && k in values :: values[k].hidden == ""
    ensures FirstRecord(values, keys, d).Some? ==> FirstRecord(values, keys, d).value.hidden == ""
  {
    if keys != [] {
      NoFlagNoHidden(values, keys[1..], d);
    }
  }

  /** For every layout of keys, and whatever records the other keys hold: hiding hides the device, unhiding
      shows it. */
  lemma HidingTakesEffect(values: Values, d: Device, count: nat, hidden: bool)
    requires count >= 1
    ensures Hidden(WithHidden(values, d, count, hidden), d, count) == hidden
  {
    TargetIsTriedFirst(d, count);
    var keys := Keys(d, count);
    if !hidden {
      var stored := Stored(values, Target(d, count), Flagged(values, d, count, false));
      forall k | k in keys && k in ClearedAll(stored, keys) ensures ClearedAll(stored, keys)[k].hidden == "" {
        ClearedAllAt(stored, keys, k);
      }
      NoFlagNoHidden(ClearedAll(stored, keys), keys, d);
    }
  }

  /** A hidden device has a record of its own that carries its marks, with the name it had there before or, without such
      a record, the one that was shown. */
  lemma HidingRecordsTheDevice(values: Values, d: Device, count: nat)
    requires count >= 1
    ensures var after, target := WithHidden(values, d, count, true), Target(d, count);
            && target in after && after[target].hidden == "true"
            && after[target].vidpid == d.vidpid && after[target].fingerprint == d.fingerprint
            && (d.serial != "" ==> after[target].serial == d.serial && target == Serial(d.vidpid, d.serial))
            && (d.serial == "" && count == 1 ==> target == Fingerprint(d.fingerprint))
            && (d.serial == "" && count > 1 ==> target == Group(d.fingerprint, d.modelIndex))
            && (target in values ==>
                  after[target].alias == values[target].alias && after[target].remark == values[target].remark)
            && (target !in values && Effective(values, d, count).Some? ==>
                  && after[target].alias == Effective(values, d, count).value.alias
                  && after[target].remark == Effective(values, d, count).value.remark)
  {
  }

  /** Hiding writes one key; unhiding only clears flags under the keys the device reads, and drops records that
      hold nothing else. */
  lemma HidingTouchesOnlyItsKeys(values: Values, d: Device, count: nat, hidden: bool, key: Key)
    requires count >= 1 && key != Target(d, count)
    ensures var after := WithHidden(values, d, count, hidden);
            && (hidden || key !in Keys(d, count) ==>
                  (key in after <==> key in values) && (key in values ==> after[key] == values[key]))
            && (key in after ==>
                  key in values && after[key].alias == values[key].alias && after[key].remark == values[key].remark)
            && (key in values && (values[key].alias != "" || values[key].remark != "") ==> key in after)
  {
    ClearedAllAt(Stored(values, Target(d, count), Flagged(values, d, count, hidden)), Keys(d, count), key);
  }

  /** device_metadata: what is shown for a device. */
  function Name(values: Values, d: Device, count: nat): (string, string) {
    match Effective(values, d, count)
    case None => ("", "")
    case Some(r) => (r.alias, r.remark)
  }

  /** A name is never lost when the flag lands on another key than the name; only a device without any can
      come to show a name from further back once it is unhidden. */
  lemma HidingKeepsTheName(values: Values, d: Device, count: nat, hidden: bool)
    requires count >= 1 && (hidden || Name(values, d, count) != ("", ""))
    ensures Name(WithHidden(values, d, count, hidden), d, count) == Name(values, d, count)
  {
    TargetIsTriedFirst(d, count);
    var stored := Stored(values, Target(d, count), Flagged(values, d, count, hidden));
    ClearedAllAt(stored, Keys(d, count), Target(d, count));
  }

  // ----- migration -----

  /** The legacy record that migration takes from a device, if any. */
  predicate Migrates(values: Values, d: Device) {
    LegacyKey(d) in values && Matches(values[LegacyKey(d)], d)
  }

  function MigratedOne(values: Values, d: Device, count: nat): Values {
    if !Migrates(values, d) then values
    else
      var record, target := values[LegacyKey(d)], Target(d, count);
      var moved := if target !in values then values[target := record]
                   else if record.hidden != "" && values[target].hidden == ""
                   then values[target := values[target].(hidden := record.hidden)]
                   else values;
      moved - {LegacyKey(d)}
  }

  function Migrated(values: Values, devices: seq<Device>, counts: map<string, nat>): Values
    decreases |devices|
  {
    if devices == [] then values
    else Migrated(MigratedOne(values, devices[0], CountOf(counts, devices[0])), devices[1..], counts)
  }

  function CountOf(counts: map<string, nat>, d: Device): nat {
    if d.fingerprint in counts then counts[d.fingerprint] else 0
  }

  /** A port-bound key of a port that no device occupies. */
  predicate Dead(key: Key, devices: seq<Device>) {
    match key
    case Identity(identity) => forall d | d in devices :: d.identity != identity
    case Port(busid) => forall d | d in devices :: d.busid != busid
    case _ => false
  }

  function WithoutDead(values: Values, devices: seq<Device>): Values {
    map k | k in values && !Dead(k, devices) :: values[k]
  }

  /** migrate_metadata */
  function MigrateAll(values: Values, devices: seq<Device>, counts: map<string, nat>): Values {
    WithoutDead(Migrated(values, devices, counts), devices)
  }

  lemma {:induction false} MigratedKeepsSettled(values: Values, devices: seq<Device>, counts: map<string, nat>,
                                                d: Device)
    requires !Migrates(values, d)
    ensures !Migrates(Migrated(values, devices, counts), d)
    decreases |devices|
  {
    if devices != [] {
      MigratedKeepsSettled(MigratedOne(values, devices[0], CountOf(counts, devices[0])), devices[1..], counts, d);
    }
  }

  lemma {:induction false} MigratedSettles(values: Values, devices: seq<Device>, counts: map<string, nat>, d: Device)
    requires d in devices
    ensures !Migrates(Migrated(values, devices, counts), d)
    decreases |devices|
  {
    var first := MigratedOne(values, devices[0], CountOf(counts, devices[0]));
    if d == devices[0] {
      MigratedKeepsSettled(first, devices[1..], counts, d);
    } else {
      MigratedSettles(first, devices[1..], counts, d);
    }
  }

  lemma {:induction false} NothingToMigrate(values: Values, devices: seq<Device>, counts: map<string, nat>)
    requires forall d | d in devices :: !Migrates(values, d)
    ensures Migrated(values, devices, counts) == values
    decreases |devices|
  {
    if devices != [] {
      assert devices[0] in devices;
      NothingToMigrate(values, devices[1..], counts);
    }
  }

  /** For any devices and any store, migrating again changes nothing. */
  lemma MigrationIsIdempotent(values: Values, devices: seq<Device>, counts: map<string, nat>)
    ensures MigrateAll(MigrateAll(values, devices, counts), devices, counts) == MigrateAll(values, devices, counts)
  {
    var once := MigrateAll(values, devices, counts);
    forall d | d in devices ensures !Migrates(once, d) {
      MigratedSettles(values, devices, counts, d);
    }
    NothingToMigrate(once, devices, counts);
  }

  // ----- what migration does to a flag -----

  /** One of the devices takes the legacy record under a key. */
  predicate Taken(values: Values, devices: seq<Device>, key: Key) {
    key in values && exists d | d in devices :: LegacyKey(d) == key && Matches(values[key], d)
  }

  /** Device i is the first to take its legacy record. */
  predicate Mover(values: Values, devices: seq<Device>, i: nat)
    requires i < |devices|
  {
    Migrates(values, devices[i]) && !Taken(values, devices[..i], LegacyKey(devices[i]))
  }

  /** The flags of the legacy records that are moved to a key, in the order of the devices. */
  function Arrivals(values: Values, devices: seq<Device>, counts: map<string, nat>, key: Key): seq<string> {
    if devices == [] then []
    else
      var n := |devices| - 1;
      Arrivals(values, devices[..n], counts, key) +
      if Mover(values, devices, n) && Target(devices[n], CountOf(counts, devices[n])) == key
      then [values[LegacyKey(devices[n])].hidden] else []
  }

  function FirstFlag(flags: seq<string>): string {
    if flags == [] then ""
    else
      var n := |flags| - 1;
      if FirstFlag(flags[..n]) != "" then FirstFlag(flags[..n]) else flags[n]
  }

  lemma {:induction false} FirstFlagStays(flag: string, flags: seq<string>)
    ensures FirstFlag([flag] + flags) == if flag != "" then flag else FirstFlag(flags)
  {
    var n := |flags|;
    if n > 0 {
      assert ([flag] + flags)[..n] == [flag] + flags[..n - 1];
      FirstFlagStays(flag, flags[..n - 1]);
    }
  }

  lemma FirstFlagNext(flags: seq<string>, flag: string)
    ensures FirstFlag(flags + [flag]) == if FirstFlag(flags) != "" then FirstFlag(flags) else flag
  {
    assert (flags + [flag])[..|flags|] == flags;
  }

  lemma {:induction false} MigratedLast(values: Values, devices: seq<Device>, counts: map<string, nat>)
    requires devices != []
    ensures var n := |devices| - 1;
            Migrated(values, devices, counts) ==
            MigratedOne(Migrated(values, devices[..n], counts), devices[n], CountOf(counts, devices[n]))
    decreases |devices|
  {
    var n := |devices| - 1;
    if n > 0 {
      var first := MigratedOne(values, devices[0], CountOf(counts, devices[0]));
      MigratedLast(first, devices[1..], counts);
      assert devices[1..][..n - 1] == devices[1..n] == devices[..n][1..];
    }
  }

  lemma TakenLast(values: Values, devices: seq<Device>, key: Key)
    requires devices != []
    ensures var n := |devices| - 1;
            Taken(values, devices, key) <==>
            Taken(values, devices[..n], key) || (LegacyKey(devices[n]) == key && Migrates(values, devices[n]))
  {
    var n := |devices| - 1;
    assert devices == devices[..n] + [devices[n]];
  }

  /** The flags that meet at a key. */
  function FlagsAt(values: Values, devices: seq<Device>, counts: map<string, nat>, key: Key): seq<string> {
    (if key in values then [values[key].hidden] else []) + Arrivals(values, devices, counts, key)
  }

  /** The store after the loop, key by key, in terms of the store before it. */
  lemma {:induction false} MigratedAt(values: Values, devices: seq<Device>, counts: map<string, nat>, key: Key)
    ensures var after := Migrated(values, devices, counts);
            if key.Legacy? then
              && (key in after <==> key in values && !Taken(values, devices, key))
              && (key in after ==> after[key] == values[key])
            else
              && (key in after <==> FlagsAt(values, devices, counts, key) != [])
              && (key in after ==> after[key].hidden == FirstFlag(FlagsAt(values, devices, counts, key)))
  {
    hide Matches, Migrated, Target, FirstFlag;
    if devices == [] {
      NothingToMigrate(values, devices, counts);
      assert FlagsAt(values, devices, counts, key) == if key in values then [values[key].hidden] else [];
      FirstFlagOne(if key in values then values[key].hidden else "");
    } else {
      var n := |devices| - 1;
      var d := devices[n];
      MigratedLast(values, devices, counts);
      MigratedAt(values, devices[..n], counts, key);
      MigratedAt(values, devices[..n], counts, LegacyKey(d));
      TakenLast(values, devices, key);
      TargetIsNotLegacy(d, CountOf(counts, d));
      var before := FlagsAt(values, devices[..n], counts, key);
      if Mover(values, devices, n) && Target(d, CountOf(counts, d)) == key {
        var flag := values[LegacyKey(d)].hidden;
        assert FlagsAt(values, devices, counts, key) == before + [flag];
        FirstFlagNext(before, flag);
        NoFlag();
      } else {
        assert FlagsAt(values, devices, counts, key) == before;
      }
    }
  }

  /** The legacy records that are moved to a key, in the order of the devices. */
  function ArrivingRecords(values: Values, devices: seq<Device>, counts: map<string, nat>, key: Key): seq<Record> {
    if devices == [] then []
    else
      var n := |devices| - 1;
      ArrivingRecords(values, devices[..n], counts, key) +
      if Mover(values, devices, n) && Target(devices[n], CountOf(counts, devices[n])) == key
      then [values[LegacyKey(devices[n])]] else []
  }

  /** What the loop leaves under a key, apart from the flag: the record that was there, or else the first that was
      moved there. */
  lemma {:induction false} MigratedRecords(values: Values, devices: seq<Device>, counts: map<string, nat>, key: Key)
    requires !key.Legacy?
    ensures var after, arriving := Migrated(values, devices, counts), ArrivingRecords(values, devices, counts, key);
            && (key in after <==> key in values || arriving != [])
            && (key in values ==> after[key].(hidden := "") == values[key].(hidden := ""))
            && (key !in values && arriving != [] ==> after[key].(hidden := "") == arriving[0].(hidden := ""))
  {
    hide Migrated, Mover, MigratedOne, Migrates;
    if devices == [] {
      NothingToMigrate(values, devices, counts);
    } else {
      var n := |devices| - 1;
      MigratedLast(values, devices, counts);
      MigratedRecords(values, devices[..n], counts, key);
      MoverMigrates(values, devices, counts, n);
      MovedOne(Migrated(values, devices[..n], counts), devices[n], CountOf(counts, devices[n]), key);
    }
  }

  lemma MoverMigrates(values: Values, devices: seq<Device>, counts: map<string, nat>, i: nat)
    requires i < |devices|
    ensures var before, legacy := Migrated(values, devices[..i], counts), LegacyKey(devices[i]);
            && (Mover(values, devices, i) <==> Migrates(before, devices[i]))
            && (Mover(values, devices, i) ==> legacy in values && legacy in before && before[legacy] == values[legacy])
  {
    hide Matches, Migrated;
    MigratedAt(values, devices[..i], counts, LegacyKey(devices[i]));
  }

  lemma MovedOne(values: Values, d: Device, count: nat, key: Key)
    requires !key.Legacy?
    ensures var after, moves := MigratedOne(values, d, count), Migrates(values, d) && Target(d, count) == key;
            && (key in after <==> key in values || moves)
            && (key in values ==> after[key].(hidden := "") == values[key].(hidden := ""))
            && (key !in values && moves ==> after[key] == values[LegacyKey(d)])
  {
    hide Matches;
    TargetIsNotLegacy(d, count);
  }

  lemma FirstFlagOne(flag: string)
    ensures FirstFlag([flag]) == flag
  {
  }

  lemma NoFlag()
    ensures FirstFlag([]) == ""
  {
  }

  lemma TargetIsNotLegacy(d: Device, count: nat)
    ensures !Target(d, count).Legacy?
  {
  }

  /** Whether a hidden device stays hidden, from the keys it reads: the first key of its own that holds a record,
      or is given one, decides. A record that was there keeps its flag; one that is moved there must bring it; and
      if there is none, nobody may take the legacy record. */
  predicate KeepsFlag(values: Values, devices: seq<Device>, counts: map<string, nat>, keys: seq<Key>)
    requires keys != []
    decreases |keys|
  {
    if |keys| == 1 then !Taken(values, devices, keys[0])
    else if keys[0] in values then true
    else if Arrivals(values, devices, counts, keys[0]) != []
    then FirstFlag(Arrivals(values, devices, counts, keys[0])) == HIDDEN_TRUE
    else KeepsFlag(values, devices, counts, keys[1..])
  }

  predicate FlagSet(r: Option<Record>) { r.Some? && r.value.hidden == HIDDEN_TRUE }

  lemma {:induction false} FlagAlong(values: Values, devices: seq<Device>, counts: map<string, nat>,
                                     keys: seq<Key>, d: Device)
    requires keys != [] && keys[|keys| - 1] == LegacyKey(d) && forall i | 0 <= i < |keys| - 1 :: !keys[i].Legacy?
    requires FlagSet(FirstRecord(values, keys, d))
    ensures FlagSet(FirstRecord(Migrated(values, devices, counts), keys, d)) <==>
            KeepsFlag(values, devices, counts, keys)
    decreases |keys|
  {
    hide Migrated, Arrivals, Taken, FirstFlag;
    var after := Migrated(values, devices, counts);
    MigratedAt(values, devices, counts, keys[0]);
    if |keys| == 1 {
      assert FirstRecord(values, keys, d) == RecordAt(values, keys[0], d) by { NoRecord(values, keys[1..], d); }
      NoRecord(after, keys[1..], d);
    } else {
      if keys[0] in values {
        FirstFlagStays(values[keys[0]].hidden, Arrivals(values, devices, counts, keys[0]));
      } else {
        assert [] + Arrivals(values, devices, counts, keys[0]) == Arrivals(values, devices, counts, keys[0]);
        FlagAlong(values, devices, counts, keys[1..], d);
      }
    }
  }

  lemma NoRecord(values: Values, keys: seq<Key>, d: Device)
    requires keys == []
    ensures FirstRecord(values, keys, d) == None
  {
  }

  /** Dropping dead port keys changes no record that a device reads. */
  lemma {:induction false} DeadKeysAreNotRead(values: Values, devices: seq<Device>, keys: seq<Key>, d: Device)
    requires forall k | k in keys :: !k.Identity? && !k.Port?
    ensures FirstRecord(WithoutDead(values, devices), keys, d) == FirstRecord(values, keys, d)
  {
    if keys != [] {
      DeadKeysAreNotRead(values, devices, keys[1..], d);
    }
  }

  /** For every list of devices: a hidden device stays hidden through migration exactly if KeepsFlag. It appears if
      a record without the flag is moved to a key in front of the one that has it, or if another device takes
      the legacy record that hid it. */
  lemma HiddenSurvivesExactly(values: Values, devices: seq<Device>, counts: map<string, nat>, d: Device, count: nat)
    requires Hidden(values, d, count)
    ensures Hidden(MigrateAll(values, devices, counts), d, count) <==>
            KeepsFlag(values, devices, counts, Keys(d, count))
  {
    FlagAlong(values, devices, counts, Keys(d, count), d);
    DeadKeysAreNotRead(Migrated(values, devices, counts), devices, Keys(d, count), d);
  }

  /** The hidden record is kept by model, an older one by model and description; that one is moved in front. */
  lemma HiddenCanBeLost()
    ensures var d := Device("1-1", "0781:5567", "S1", "F", "Disk", "serial:0781:5567|S1", 0);
            var counts := map["F" := 1];
            var values := map[Fingerprint("F") := Record("", "", "", "", "", HIDDEN_TRUE),
                              LegacyKey(d) := Record("Disk", "", "0781:5567", "", "", "")];
            Hidden(values, d, 1) && !Hidden(MigrateAll(values, [d], counts), d, 1)
  {
    var d := Device("1-1", "0781:5567", "S1", "F", "Disk", "serial:0781:5567|S1", 0);
    var counts := map["F" := 1];
    var values := map[Fingerprint("F") := Record("", "", "", "", "", HIDDEN_TRUE),
                      LegacyKey(d) := Record("Disk", "", "0781:5567", "", "", "")];
    assert Keys(d, 1) == [Serial("0781:5567", "S1"), Fingerprint("F"), LegacyKey(d)];
    assert Keys(d, 1)[1..] == [Fingerprint("F"), LegacyKey(d)];
    assert Effective(values, d, 1) == FirstRecord(values, Keys(d, 1)[1..], d) == Some(values[Fingerprint("F")]);
    assert [d][..0] == [] && CountOf(counts, d) == 1;
    assert Arrivals(values, [d], counts, Serial("0781:5567", "S1")) == [""];
    FirstFlagOne("");
    HiddenSurvivesExactly(values, [d], counts, d, 1);
  }

  /** Two units of one model without serial numbers, hidden by one older record: the first takes it, the second
      appears in the list. */
  lemma HiddenCanBeLostToATwin()
    ensures var d := Device("1-1", "0781:5567", "", "F", "Disk", "path:1", 0);
            var twin := Device("1-2", "0781:5567", "", "F", "Disk", "path:2", 1);
            var counts := map["F" := 2];
            var values := map[LegacyKey(d) := Record("Disk", "", "0781:5567", "", "", HIDDEN_TRUE)];
            && Hidden(values, d, 2) && Hidden(values, twin, 2)
            && Hidden(MigrateAll(values, [d, twin], counts), d, 2)
            && !Hidden(MigrateAll(values, [d, twin], counts), twin, 2)
  {
    var d := Device("1-1", "0781:5567", "", "F", "Disk", "path:1", 0);
    var twin := Device("1-2", "0781:5567", "", "F", "Disk", "path:2", 1);
    var counts := map["F" := 2];
    var values := map[LegacyKey(d) := Record("Disk", "", "0781:5567", "", "", HIDDEN_TRUE)];
    var devices := [d, twin];
    assert devices[..0] == [] && devices[..1] == [d] && LegacyKey(d) == LegacyKey(twin);
    assert Keys(d, 2) == [Group("F", 0), Fingerprint("F"), LegacyKey(d)];
    assert Keys(d, 2)[1..] == [Fingerprint("F"), LegacyKey(d)] && Keys(d, 2)[1..][1..] == [LegacyKey(d)];
    assert Keys(twin, 2) == [Group("F", 1), LegacyKey(d)] && Keys(twin, 2)[1..] == [LegacyKey(d)];
    assert Effective(values, d, 2) == FirstRecord(values, [Fingerprint("F"), LegacyKey(d)], d)
           == FirstRecord(values, [LegacyKey(d)], d) == Some(values[LegacyKey(d)]);
    assert Effective(values, twin, 2) == FirstRecord(values, [LegacyKey(d)], twin) == Some(values[LegacyKey(d)]);
    TwinArrivals(values, devices, counts, d, twin);
    FirstFlagOne(HIDDEN_TRUE);
    HiddenSurvivesExactly(values, devices, counts, d, 2);
    HiddenSurvivesExactly(values, devices, counts, twin, 2);
  }

  lemma TwinArrivals(values: Values, devices: seq<Device>, counts: map<string, nat>, d: Device, twin: Device)
    requires devices == [d, twin] && LegacyKey(d) == LegacyKey(twin) && Migrates(values, d)
    requires Target(d, CountOf(counts, d)) == Group("F", 0) && Target(twin, CountOf(counts, twin)) == Group("F", 1)
    ensures Arrivals(values, devices, counts, Group("F", 0)) == [values[LegacyKey(d)].hidden]
    ensures Arrivals(values, devices, counts, Group("F", 1)) == []
    ensures Taken(values, devices, LegacyKey(d))
  {
    assert devices[..0] == [] && devices[..1] == [d] && [d][..0] == [];
    assert d in devices && d in devices[..1];
    assert Mover(values, [d], 0) && !Mover(values, devices, 1);
    assert Arrivals(values, [], counts, Group("F", 0)) == [] && Arrivals(values, [], counts, Group("F", 1)) == [];
  }

  /** Keys of ports stay exactly as long as some device is at the port, with what they hold; migration does not write
      them. */
  lemma PortKeysExactly(values: Values, devices: seq<Device>, counts: map<string, nat>, key: Key)
    requires key.Identity? || key.Port?
    ensures var after := MigrateAll(values, devices, counts);
            && (key in after <==>
                key in values && exists d | d in devices :: if key.Port? then d.busid == key.busid
                                                            else d.identity == key.identity)
            && (key in after ==> after[key] == values[key])
  {
    PortKeyStays(values, devices, counts, key);
  }

  lemma {:induction false} PortKeyStays(values: Values, devices: seq<Device>, counts: map<string, nat>, key: Key)
    requires key.Identity? || key.Port?
    ensures var after := Migrated(values, devices, counts);
            (key in after <==> key in values) && (key in after ==> after[key] == values[key])
    decreases |devices|
  {
    if devices != [] {
      PortKeyStays(MigratedOne(values, devices[0], CountOf(counts, devices[0])), devices[1..], counts, key);
    }
  }

  // ----- the file -----

  class Store {
    var values: Values  // device-metadata.json

    constructor (values: Values)
      ensures this.values == values
    {
      this.values := values;
    }

    /** The first loop of migrate_metadata, on a copy of the file. */
    method MigrateDevices(devices: seq<Device>, counts: map<string, nat>) returns (result: Values, notes: bool)
      ensures result == Migrated(values, devices, counts)
      ensures !notes ==> result == values
    {
      result, notes := values, false;
      var i := 0;
      while i < |devices|
        invariant i <= |devices|
        invariant Migrated(result, devices[i..], counts) == Migrated(values, devices, counts)
        invariant !notes ==> result == values
      {
        var d := devices[i];
        assert devices[i..][0] == d && devices[i..][1..] == devices[i + 1..];
        i := i + 1;
        var legacy := LegacyKey(d);
        if legacy !in result || !Matches(result[legacy], d) {
          continue;
        }
        var record, target := result[legacy], Target(d, CountOf(counts, d));
        if target !in result {
          result := result[target := record];
        } else if record.hidden != "" && result[target].hidden == "" {
          result := result[target := result[target].(hidden := record.hidden)];
        }
        result := result - {legacy};
        notes := true;
      }
    }

    /** written: the file could be replaced; otherwise the old one is used. */
    method MigrateMetadata(devices: seq<Device>, counts: map<string, nat>, written: bool) returns (snapshot: Values)
      modifies this
      ensures values == if written then MigrateAll(old(values), devices, counts) else old(values)
      ensures snapshot == values || !written
      ensures snapshot == old(values) || snapshot == MigrateAll(old(values), devices, counts)
    {
      var result, notes := MigrateDevices(devices, counts);
      ghost var migrated := result;
      var todo := result.Keys;
      while todo != {}
        invariant todo <= migrated.Keys
        invariant result == map k | k in migrated && (k in todo || !Dead(k, devices)) :: migrated[k]
        invariant !notes ==> result == values
        decreases |todo|
      {
        var key :| key in todo;
        todo := todo - {key};
        if Dead(key, devices) {
          result := result - {key};
          notes := true;
        }
      }
      snapshot := result;
      if notes {
        if written {
          values := result;
        } else {
          snapshot := values;
        }
      }
    }

    method SetDeviceHidden(d: Device, count: nat, hidden: bool, written: bool) returns (ok: bool)
      modifies this
      ensures ok == written
      ensures values == if written then WithHidden(old(values), d, count, hidden) else old(values)
    {
      var target := Target(d, count);
      var record := Flagged(values, d, count, hidden);
      var result := Stored(values, target, record);
      if !hidden {
        var keys := Keys(d, count);
        var i := 0;
        while i < |keys|
          invariant i <= |keys|
          invariant ClearedAll(result, keys[i..]) == WithHidden(values, d, count, hidden)
        {
          var key := keys[i];
          assert keys[i..][0] == key && keys[i..][1..] == keys[i + 1..];
          if key in result && result[key].hidden != "" {
            var other := result[key].(hidden := "");
            result := if other.alias == "" && other.remark == "" then result - {key} else result[key := other];
          }
          i := i + 1;
        }
      }
      if written {
        values := result;
      }
      return written;
    }
  }
}
