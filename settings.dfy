/**
 * Setting persistence: `setSetting` keeps the value on the instance and
 * schedules a debounced write (500 ms) of its encoded form to
 * `localStorage`, cancelling the write still pending for the same key;
 * `getSetting` reads the stored string back and decodes it.
 * Blur is stored 30 lower and bloom 7 lower than shown.
 */
module Settings {
  import opened Wrappers
  import opened Decimal

  /** The keys of the settings table (the `ambilight-` prefix of the storage key is implicit). */
  datatype Key =
    | Spread | Blur | Bloom | FadeOutEasing | Edge | HighQuality
    | Brightness | Contrast | Saturation | VideoScale | HorizontalBarsClipPercentage
    | ShowFPS | ResetThemeToLightOnDisable | SurroundingContentShadowStrength
    | Immersive | EnableInFullscreen | Enabled

  datatype SettingType = List | Checkbox

  /** A value as JavaScript holds it: a number, a boolean, a raw stored string, or `NaN`. */
  datatype SettingValue = Num(n: int) | Flag(b: bool) | Text(s: string) | NotANumber

  /** Delay of the debounced write, in milliseconds. */
  const WriteDelay: nat := 500

  function TypeOf(key: Key): SettingType
  {
    match key
    case HighQuality | ShowFPS | ResetThemeToLightOnDisable | Immersive | EnableInFullscreen | Enabled => Checkbox
    case _ => List
  }

  /** The `default` column of the settings table. */
  function Default(key: Key): (v: SettingValue)
    ensures TypeOf(key) == List ==> v.Num?
    ensures TypeOf(key) == Checkbox ==> v.Flag?
  {
    match key
    case Spread => Num(20)
    case Blur => Num(50)
    case Bloom => Num(15)
    case FadeOutEasing => Num(60)
    case Edge => Num(20)
    case HighQuality => Flag(false)
    case Brightness => Num(100)
    case Contrast => Num(100)
    case Saturation => Num(100)
    case VideoScale => Num(100)
    case HorizontalBarsClipPercentage => Num(0)
    case ShowFPS => Flag(false)
    case ResetThemeToLightOnDisable => Flag(false)
    case SurroundingContentShadowStrength => Num(16)
    case Immersive => Flag(false)
    case EnableInFullscreen => Flag(true)
    case Enabled => Flag(true)
  }

  /** How much lower than shown a value is stored. */
  function StoredOffset(key: Key): int
  {
    match key
    case Blur => 30
    case Bloom => 7
    case _ => 0
  }

  /** The values the menu hands to `setSetting`: numbers for ranges, booleans for checkboxes. */
  predicate Accepts(key: Key, v: SettingValue)
  {
    match TypeOf(key)
    case List => v.Num?
    case Checkbox => v.Flag?
  }

  /** The string `localStorage.setItem` ends up holding. */
  function Encode(key: Key, v: SettingValue): (s: string)
    requires Accepts(key, v)
    ensures v.Flag? ==> (s == "true" <==> v.b)
  {
    match v
    case Num(n) => IntToDecimal(n - StoredOffset(key))
    case Flag(b) => if b then "true" else "false"
  }

  /** `getSetting` given what `localStorage.getItem` returned (`None` for `null`). */
  function Decode(key: Key, stored: Option<string>): (v: SettingValue)
    ensures stored.None? ==> v == Default(key)
    ensures stored.Some? && TypeOf(key) == Checkbox ==> v == Flag(stored.value == "true")
    ensures stored.Some? && TypeOf(key) == List && StoredOffset(key) == 0 ==> v == Text(stored.value)
    ensures stored.Some? && StoredOffset(key) != 0 ==>
              (v.NotANumber? <==> ParseInt(stored.value).None?) &&
              (ParseInt(stored.value).Some? ==> v == Num(ParseInt(stored.value).value + StoredOffset(key)))
  {
    match stored
    case None => Default(key)
    case Some(s) =>
      if TypeOf(key) == Checkbox then Flag(s == "true")
      else if key == Blur || key == Bloom then
        match ParseInt(s)
        case Some(n) => Num(n + StoredOffset(key))
        case None => NotANumber
      else Text(s)
  }

  /**
   * What reading a written value gives back: the value itself for blur,
   * bloom and checkboxes; the raw decimal string for the other ranges.
   */
  function ReadBack(key: Key, v: SettingValue): SettingValue
    requires Accepts(key, v)
  {
    if TypeOf(key) == List && StoredOffset(key) == 0 then Text(IntToDecimal(v.n)) else v
  }

  lemma SettingRoundTrip(key: Key, v: SettingValue)
    requires Accepts(key, v)
    ensures Decode(key, Some(Encode(key, v))) == ReadBack(key, v)
    ensures key == Blur || key == Bloom || TypeOf(key) == Checkbox ==> Decode(key, Some(Encode(key, v))) == v
  {
    if v.Num? {
      ParseIntOfDecimal(v.n - StoredOffset(key));
    }
  }

  /** A scheduled `setTimeout` callback that will write `value` under `key`. */
  datatype PendingWrite = PendingWrite(key: Key, value: string)

  /**
   * `setSettingTimeout` holds, for each key with a write pending, the id of
   * that write's timer, and every pending timer is the one recorded for its key.
   */
  predicate TimersConsistent(timers: map<nat, PendingWrite>, timeoutOf: map<Key, nat>)
  {
    && (forall k :: k in timeoutOf ==> timeoutOf[k] in timers && timers[timeoutOf[k]].key == k)
    && (forall t :: t in timers ==> timers[t].key in timeoutOf && timeoutOf[timers[t].key] == t)
  }

  /** Consistent timers leave at most one write pending per key. */
  lemma AtMostOnePendingWrite(timers: map<nat, PendingWrite>, timeoutOf: map<Key, nat>, t1: nat, t2: nat)
    requires TimersConsistent(timers, timeoutOf)
    requires t1 in timers && t2 in timers && timers[t1].key == timers[t2].key
    ensures t1 == t2
  {
  }

  /**
   * Timers after `setSetting(key, ..)`: the timer pending for `key`, if any,
   * is cleared, and a new one with id `id` holds the encoded value.
   */
  function ScheduleWrite(timers: map<nat, PendingWrite>, timeoutOf: map<Key, nat>, id: nat, key: Key, value: string)
    : (r: (map<nat, PendingWrite>, map<Key, nat>))
    requires TimersConsistent(timers, timeoutOf)
    requires id !in timers
    ensures TimersConsistent(r.0, r.1)
    ensures r.0.Keys == (timers.Keys - (if key in timeoutOf then {timeoutOf[key]} else {})) + {id}
    ensures r.0[id] == PendingWrite(key, value)
    ensures forall t :: t in r.0 && t != id ==> t in timers && r.0[t] == timers[t] && r.0[t].key != key
  {
    var cleared := if key in timeoutOf then timers - {timeoutOf[key]} else timers;
    (cleared[id := PendingWrite(key, value)], timeoutOf[key := id])
  }

  /** Timers after timer `t` fires: it is gone and its key has no write pending. */
  function CompleteWrite(timers: map<nat, PendingWrite>, timeoutOf: map<Key, nat>, t: nat)
    : (r: (map<nat, PendingWrite>, map<Key, nat>))
    requires TimersConsistent(timers, timeoutOf)
    requires t in timers
    ensures TimersConsistent(r.0, r.1)
    ensures r.0 == timers - {t}
    ensures timers[t].key !in r.1
  {
    (timers - {t}, timeoutOf - {timers[t].key})
  }

  /** The settings side of the extension: instance values, storage and pending writes. */
  class SettingsStore {
    var values: map<Key, SettingValue>
    var storage: map<Key, string>
    var timers: map<nat, PendingWrite>
    var setSettingTimeout: map<Key, nat>
    var nextTimerId: nat

    ghost predicate Valid()
      reads this`timers, this`setSettingTimeout, this`nextTimerId
    {
      && TimersConsistent(timers, setSettingTimeout)
      && (forall t :: t in timers ==> t < nextTimerId)
      && nextTimerId >= 1
    }

    constructor (storage: map<Key, string>)
      ensures Valid()
      ensures this.storage == storage && values == map[] && timers == map[]
    {
      this.values := map[];
      this.storage := storage;
      this.timers := map[];
      this.setSettingTimeout := map[];
      this.nextTimerId := 1;
    }

    /** `getSetting(key)`. */
    function GetSetting(key: Key): (v: SettingValue)
      reads this`storage
      ensures key !in storage ==> v == Default(key)
    {
      Decode(key, if key in storage then Some(storage[key]) else None)
    }

    /** `setSetting(key, value)`: nothing is written yet; one write is pending for `key`. */
    method SetSetting(key: Key, value: SettingValue)
      requires Valid() && Accepts(key, value)
      modifies this`values, this`timers, this`setSettingTimeout, this`nextTimerId
      ensures Valid()
      ensures values == old(values)[key := value]
      ensures storage == old(storage)
      ensures (timers, setSettingTimeout) ==
              ScheduleWrite(old(timers), old(setSettingTimeout), old(nextTimerId), key, Encode(key, value))
      ensures setSettingTimeout[key] in timers && timers[setSettingTimeout[key]] == PendingWrite(key, Encode(key, value))
    {
      ghost var scheduled := ScheduleWrite(timers, setSettingTimeout, nextTimerId, key, Encode(key, value));
      values := values[key := value];
      var encoded := Encode(key, value);
      if key in setSettingTimeout {
        timers := timers - {setSettingTimeout[key]};
      }
      var id := nextTimerId;
      nextTimerId := nextTimerId + 1;
      timers := timers[id := PendingWrite(key, encoded)];
      setSettingTimeout := setSettingTimeout[key := id];
      assert timers == scheduled.0 && setSettingTimeout == scheduled.1;
    }

    /** The debounce timer `t` fires: the pending value reaches storage. */
    method FireTimer(t: nat)
      requires Valid() && t in timers
      modifies this
      ensures Valid()
      ensures storage == old(storage)[old(timers)[t].key := old(timers)[t].value]
      ensures (timers, setSettingTimeout) == CompleteWrite(old(timers), old(setSettingTimeout), t)
      ensures values == old(values)
    {
      var write := timers[t];
      storage := storage[write.key := write.value];
      timers := timers - {t};
      setSettingTimeout := setSettingTimeout - {write.key};
    }
  }

  /** A written value, once its timer fires, reads back as `ReadBack` says. */
  method SetThenRead(s: SettingsStore, key: Key, value: SettingValue) returns (v: SettingValue)
    requires s.Valid() && Accepts(key, value)
    modifies s
    ensures s.Valid()
    ensures v == ReadBack(key, value)
  {
    s.SetSetting(key, value);
    s.FireTimer(s.setSettingTimeout[key]);
    SettingRoundTrip(key, value);
    v := s.GetSetting(key);
  }
}
