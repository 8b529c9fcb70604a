/** The persistent configuration record of eeprom_data.h (class eeprom_data_t) as a value:
    everything `EEPROM.get` and `EEPROM.put` copy, and what each operation makes of it.
    The class in module Eeprom is specified by these functions. */
module Config {
  import opened Dates

  /** MAX_TARGETS and MAX_DATES. */
  const CAPACITY := 8
  /** The static `Signature` that marks a valid stored record. */
  const VALID_SIGNATURE := 0xA5
  /** The initial value of `DefaultTries`. */
  const FACTORY_DEFAULT_TRIES := 50
  /** Visible characters of a message line (`char msg[17]`). */
  const MESSAGE_WIDTH := 16

  type Byte = x: int | 0 <= x < 0x100

  datatype Option<T> = None | Some(value: T)

  /** A `double` coordinate. The code only tests coordinates for equality, and against 0.0. */
  type Coord = real

  datatype Target = Target(lat: Coord, lon: Coord)

  /** A slot whose latitude and longitude are both 0.0 ends the list of targets. */
  predicate IsEmptyTarget(t: Target)
  {
    t.lat == 0.0 && t.lon == 0.0
  }

  const EMPTY_TARGET := Target(0.0, 0.0)

  type Message = seq<char>

  datatype Alert = Alert(dt: DateTime, msg1: Message, msg2: Message)

  /** A slot whose date has year 0 ends the list of alerts. */
  predicate IsEmptyAlert(a: Alert)
  {
    Get(a.dt, Year) == 0
  }

  /** The initial alert slot: a default date and two lines of 16 blanks. */
  const BLANK_ALERT := Alert(Zero(), "                ", "                ")

  /** What can be stored in an alert slot: a date that fits its bit-fields and two message lines
      that fit their buffers with the terminating NUL. */
  predicate AlertFits(a: Alert)
  {
    Fits(a.dt) && |a.msg1| <= MESSAGE_WIDTH && |a.msg2| <= MESSAGE_WIDTH
  }

  /** Every non-static member of eeprom_data_t, in declaration order. */
  datatype Image = Image(
    defaultTries: Byte,
    signature: Byte,
    dirty: bool,
    tries: Byte,
    locked: bool,
    targets: seq<Target>,
    dates: seq<Alert>)

  predicate WellFormed(img: Image)
  {
    |img.targets| == CAPACITY && |img.dates| == CAPACITY &&
    forall i :: 0 <= i < |img.dates| ==> AlertFits(img.dates[i])
  }

  /** The record as the default constructor leaves it. */
  function Fresh(): (img: Image)
    ensures WellFormed(img) && !IsValid(img) && !img.dirty && !img.locked
    ensures img.defaultTries == FACTORY_DEFAULT_TRIES
    ensures TargetCount(img.targets) == 0 && AlertCount(img.dates) == 0
    ensures TargetsPacked(img.targets) && AlertsPacked(img.dates)
  {
    Image(FACTORY_DEFAULT_TRIES, 0, false, 0, false,
          seq(CAPACITY, _ => EMPTY_TARGET), seq(CAPACITY, _ => BLANK_ALERT))
  }

  predicate IsValid(img: Image)
  {
    img.signature == VALID_SIGNATURE
  }

  /** init(): valid signature, the counter reset to the default number of tries, dirty;
      the lock state, both lists and the default itself are kept. */
  function Init(img: Image): (r: Image)
    ensures IsValid(r) && r.tries == img.defaultTries && r.dirty
    ensures r.(signature := img.signature, tries := img.tries, dirty := img.dirty) == img
  {
    img.(signature := VALID_SIGNATURE, tries := img.defaultTries, dirty := true)
  }

  /** setLocked(): afterwards locked; dirty only if the flag actually flipped. */
  function Lock(img: Image): (r: Image)
    ensures r.locked
    ensures r.dirty == (img.dirty || !img.locked)
    ensures r.(locked := img.locked, dirty := img.dirty) == img
  {
    if !img.locked then img.(locked := true, dirty := true) else img
  }

  /** setUnlocked(): afterwards unlocked; dirty only if the flag actually flipped. */
  function Unlock(img: Image): (r: Image)
    ensures !r.locked
    ensures r.dirty == (img.dirty || img.locked)
    ensures r.(locked := img.locked, dirty := img.dirty) == img
  {
    if img.locked then img.(locked := false, dirty := true) else img
  }

  /** Locking twice is locking once: the second call neither flips the flag nor marks dirty. */
  lemma LockIdempotent(img: Image)
    ensures Lock(Lock(img)) == Lock(img)
    ensures Unlock(Unlock(img)) == Unlock(img)
  {
  }

  // ----------------------------------------------------------------------
  // Targets

  /** The live count: the index of the first empty slot, or the length when there is none. */
  function TargetCount(ts: seq<Target>): (n: nat)
    ensures n <= |ts|
    ensures forall i :: 0 <= i < n ==> !IsEmptyTarget(ts[i])
    ensures n < |ts| ==> IsEmptyTarget(ts[n])
  {
    if ts == [] || IsEmptyTarget(ts[0]) then 0 else 1 + TargetCount(ts[1..])
  }

  /** The three properties of TargetCount determine it. */
  lemma TargetCountIs(ts: seq<Target>, n: nat)
    requires n <= |ts|
    requires forall i :: 0 <= i < n ==> !IsEmptyTarget(ts[i])
    requires n < |ts| ==> IsEmptyTarget(ts[n])
    ensures TargetCount(ts) == n
  {
  }

  function LiveTargets(ts: seq<Target>): seq<Target>
  {
    ts[..TargetCount(ts)]
  }

  /** Every slot after the live prefix is empty. */
  predicate TargetsPacked(ts: seq<Target>)
  {
    forall i :: TargetCount(ts) <= i < |ts| ==> IsEmptyTarget(ts[i])
  }

  /** The slots after remove_target(k): the live entries after k move one slot down, and every
      slot from the old last live one onwards is zeroed. */
  function Removed(ts: seq<Target>, k: nat): (r: seq<Target>)
    requires k < TargetCount(ts)
    ensures |r| == |ts|
    ensures forall i :: 0 <= i < k ==> r[i] == ts[i]
    ensures forall i :: k <= i < TargetCount(ts) - 1 ==> r[i] == ts[i + 1]
    ensures forall i :: TargetCount(ts) - 1 <= i < |r| ==> r[i] == EMPTY_TARGET
  {
    var c := TargetCount(ts);
    ts[..k] + ts[k + 1..c] + seq(|ts| - c + 1, _ => EMPTY_TARGET)
  }

  /** Removing live entry k drops it from the live list, keeps the order of the others, lowers
      the count by one and leaves the list packed. */
  lemma RemovedDropsOne(ts: seq<Target>, k: nat)
    requires k < TargetCount(ts)
    ensures TargetCount(Removed(ts, k)) == TargetCount(ts) - 1
    ensures TargetsPacked(Removed(ts, k))
    ensures LiveTargets(Removed(ts, k)) == LiveTargets(ts)[..k] + LiveTargets(ts)[k + 1..]
  {
    var c := TargetCount(ts);
    var r := Removed(ts, k);
    TargetCountIs(r, c - 1);
    assert LiveTargets(r) == LiveTargets(ts)[..k] + LiveTargets(ts)[k + 1..];
  }

  /** The state of the slots while remove_target(k) shifts: slots k .. i-1 already hold their
      successors, all others are untouched. */
  ghost predicate ShiftedUpTo(s: seq<Target>, k: nat, i: nat, t: seq<Target>)
  {
    |t| == |s| && k <= i < |s| &&
    (forall j :: 0 <= j < k ==> t[j] == s[j]) &&
    (forall j :: k <= j < i ==> t[j] == s[j + 1]) &&
    (forall j :: i <= j < |s| ==> t[j] == s[j])
  }

  /** One more shift step; the live count stays the same throughout. */
  lemma ShiftStep(s: seq<Target>, k: nat, i: nat, t: seq<Target>)
    requires ShiftedUpTo(s, k, i, t) && i + 1 < TargetCount(s)
    ensures ShiftedUpTo(s, k, i + 1, t[i := t[i + 1]])
    ensures TargetCount(t[i := t[i + 1]]) == TargetCount(s)
  {
    TargetCountIs(t[i := t[i + 1]], TargetCount(s));
  }

  /** The shift has run to the old last live slot, and the tail from there is zeroed up to i. */
  ghost predicate ZeroedUpTo(s: seq<Target>, k: nat, i: nat, t: seq<Target>)
    requires k < TargetCount(s)
  {
    var c := TargetCount(s);
    |t| == |s| && c - 1 <= i <= |s| &&
    (forall j :: 0 <= j < k ==> t[j] == s[j]) &&
    (forall j :: k <= j < c - 1 ==> t[j] == s[j + 1]) &&
    (forall j :: c - 1 <= j < i ==> t[j] == EMPTY_TARGET) &&
    (forall j :: i <= j < |s| ==> t[j] == s[j])
  }

  lemma ZeroStep(s: seq<Target>, k: nat, i: nat, t: seq<Target>)
    requires k < TargetCount(s) && ZeroedUpTo(s, k, i, t) && i < |s|
    ensures ZeroedUpTo(s, k, i + 1, t[i := EMPTY_TARGET])
  {
  }

  lemma ZeroedIsRemoved(s: seq<Target>, k: nat, t: seq<Target>)
    requires k < TargetCount(s) && ZeroedUpTo(s, k, |s|, t)
    ensures t == Removed(s, k)
  {
  }

  /** set_target_lat(): writes slot cur's latitude, dirty only when the value differs. */
  function SetTargetLat(img: Image, latitude: Coord, cur: nat): (r: Image)
    requires cur < |img.targets|
    ensures |r.targets| == |img.targets| && r.targets[cur].lat == latitude
    ensures r.targets[cur].lon == img.targets[cur].lon
    ensures forall i :: 0 <= i < |r.targets| && i != cur ==> r.targets[i] == img.targets[i]
    ensures r.dirty == (img.dirty || img.targets[cur].lat != latitude)
    ensures r.(targets := img.targets, dirty := img.dirty) == img
  {
    if img.targets[cur].lat != latitude then
      img.(targets := img.targets[cur := img.targets[cur].(lat := latitude)], dirty := true)
    else img
  }

  /** set_target_lon(): writes slot cur's longitude, dirty only when the value differs. */
  function SetTargetLon(img: Image, longitude: Coord, cur: nat): (r: Image)
    requires cur < |img.targets|
    ensures |r.targets| == |img.targets| && r.targets[cur].lon == longitude
    ensures r.targets[cur].lat == img.targets[cur].lat
    ensures forall i :: 0 <= i < |r.targets| && i != cur ==> r.targets[i] == img.targets[i]
    ensures r.dirty == (img.dirty || img.targets[cur].lon != longitude)
    ensures r.(targets := img.targets, dirty := img.dirty) == img
  {
    if img.targets[cur].lon != longitude then
      img.(targets := img.targets[cur := img.targets[cur].(lon := longitude)], dirty := true)
    else img
  }

  /** There is no add_target(): a target is added by setting both coordinates of the slot at
      get_num_targets(). On a packed list with room, a target other than (0.0, 0.0) written
      there is appended to the live targets, and the list stays packed. */
  lemma SetTargetAppends(img: Image, lat: Coord, lon: Coord)
    requires WellFormed(img) && TargetsPacked(img.targets) && TargetCount(img.targets) < CAPACITY
    requires !IsEmptyTarget(Target(lat, lon))
    ensures var c := TargetCount(img.targets);
      var r := SetTargetLon(SetTargetLat(img, lat, c), lon, c);
      TargetCount(r.targets) == c + 1 &&
      LiveTargets(r.targets) == LiveTargets(img.targets) + [Target(lat, lon)] &&
      TargetsPacked(r.targets)
  {
    var c := TargetCount(img.targets);
    var r := SetTargetLon(SetTargetLat(img, lat, c), lon, c);
    TargetCountIs(r.targets, c + 1);
    assert r.targets[..c + 1] == img.targets[..c] + [Target(lat, lon)];
  }

  // ----------------------------------------------------------------------
  // Number of tries

  /** set_default_tries(): changes the default and nothing else, not even the dirty flag. */
  function SetDefaultTries(img: Image, t: Byte): (r: Image)
    ensures r.defaultTries == t
    ensures r.(defaultTries := img.defaultTries) == img
  {
    img.(defaultTries := t)
  }

  /** set_tries(): compares the full 16-bit argument with the 8-bit counter, then stores the
      argument truncated to 8 bits. */
  function SetTries(img: Image, t: Uint16): (r: Image)
    ensures r.tries == t % 0x100
    ensures r.dirty == (img.dirty || img.tries != t)
    ensures r.(tries := img.tries, dirty := img.dirty) == img
  {
    if img.tries != t then img.(tries := t % 0x100, dirty := true) else img
  }

  /** An argument 256 above the counter marks the record dirty and leaves the counter as it was. */
  lemma SetTriesWrapMarksDirty(img: Image)
    ensures SetTries(img, img.tries + 0x100).tries == img.tries
    ensures SetTries(img, img.tries + 0x100).dirty
  {
  }

  /** reduce_tries(): one step down and dirty while the counter is positive; no change at zero. */
  function ReduceTries(img: Image): (r: Image)
    ensures r.tries <= img.tries
    ensures img.tries > 0 ==> r.tries == img.tries - 1 && r.dirty
    ensures img.tries == 0 ==> r == img
    ensures r.(tries := img.tries, dirty := img.dirty) == img
  {
    if img.tries > 0 then img.(dirty := true, tries := img.tries - 1) else img
  }

  /** n successive calls of reduce_tries(). */
  function ReduceTriesTimes(img: Image, n: nat): Image
  {
    if n == 0 then img else ReduceTries(ReduceTriesTimes(img, n - 1))
  }

  /** After n calls the counter is max(tries - n, 0), and the record is dirty exactly when it
      was before or some call found a positive counter: from tries == n the n-th call reaches 0
      and every later call changes nothing. */
  lemma {:induction false} ReduceTriesFloor(img: Image, n: nat)
    ensures ReduceTriesTimes(img, n) ==
      img.(tries := if n < img.tries then img.tries - n else 0,
           dirty := img.dirty || (0 < n && 0 < img.tries))
  {
    if n > 0 {
      ReduceTriesFloor(img, n - 1);
    }
  }

  // ----------------------------------------------------------------------
  // Alerts

  /** The live count: the index of the first slot whose year is 0, or the length. */
  function AlertCount(ds: seq<Alert>): (n: nat)
    ensures n <= |ds|
    ensures forall i :: 0 <= i < n ==> !IsEmptyAlert(ds[i])
    ensures n < |ds| ==> IsEmptyAlert(ds[n])
  {
    if ds == [] || IsEmptyAlert(ds[0]) then 0 else 1 + AlertCount(ds[1..])
  }

  /** The three properties of AlertCount determine it. */
  lemma AlertCountIs(ds: seq<Alert>, n: nat)
    requires n <= |ds|
    requires forall i :: 0 <= i < n ==> !IsEmptyAlert(ds[i])
    requires n < |ds| ==> IsEmptyAlert(ds[n])
    ensures AlertCount(ds) == n
  {
  }

  function LiveAlerts(ds: seq<Alert>): seq<Alert>
  {
    ds[..AlertCount(ds)]
  }

  predicate AlertsPacked(ds: seq<Alert>)
  {
    forall i :: AlertCount(ds) <= i < |ds| ==> IsEmptyAlert(ds[i])
  }

  /** The duplicate test of add_alert(): operator== on the dates and strcmp on both lines. */
  predicate SameAlert(stored: Alert, a: Alert)
  {
    Equals(stored.dt, a.dt) && stored.msg1 == a.msg1 && stored.msg2 == a.msg2
  }

  predicate HasLiveAlert(ds: seq<Alert>, a: Alert)
  {
    exists i :: 0 <= i < AlertCount(ds) && SameAlert(ds[i], a)
  }

  /** add_alert(): success without change when an identical live alert exists; failure without
      change when all slots are live; otherwise the alert goes into the first empty slot, dirty. */
  function AddAlert(img: Image, a: Alert): (r: (Image, bool))
    requires |img.dates| == CAPACITY
    ensures r.1 <==> HasLiveAlert(img.dates, a) || AlertCount(img.dates) < CAPACITY
    ensures HasLiveAlert(img.dates, a) || !r.1 ==> r.0 == img
    ensures !HasLiveAlert(img.dates, a) && r.1 ==>
      var c := AlertCount(img.dates);
      r.0.dirty && |r.0.dates| == CAPACITY && r.0.dates[c] == a &&
      (forall i :: 0 <= i < CAPACITY && i != c ==> r.0.dates[i] == img.dates[i]) &&
      r.0.(dates := img.dates, dirty := img.dirty) == img
  {
    var c := AlertCount(img.dates);
    if HasLiveAlert(img.dates, a) then (img, true)
    else if c >= CAPACITY then (img, false)
    else (img.(dates := img.dates[c := a], dirty := true), true)
  }

  /** Adding the same alert twice is adding it once. */
  lemma AddAlertIdempotent(img: Image, a: Alert)
    requires |img.dates| == CAPACITY
    ensures AddAlert(AddAlert(img, a).0, a) == AddAlert(img, a)
  {
    var c := AlertCount(img.dates);
    if !HasLiveAlert(img.dates, a) && c < CAPACITY {
      var ds := img.dates[c := a];
      if IsEmptyAlert(a) {
        AlertCountIs(ds, c);
        assert !HasLiveAlert(ds, a);
        assert ds[c := a] == ds;
      } else {
        assert c < AlertCount(ds);
        assert SameAlert(ds[c], a);
        assert HasLiveAlert(ds, a);
      }
    }
  }

  /** On a packed list, adding a new non-empty alert with room left appends it to the live
      alerts, and the list stays packed. */
  lemma AddAlertAppends(img: Image, a: Alert)
    requires |img.dates| == CAPACITY && AlertsPacked(img.dates)
    requires !IsEmptyAlert(a) && !HasLiveAlert(img.dates, a) && AlertCount(img.dates) < CAPACITY
    ensures AddAlert(img, a).1
    ensures AlertCount(AddAlert(img, a).0.dates) == AlertCount(img.dates) + 1
    ensures LiveAlerts(AddAlert(img, a).0.dates) == LiveAlerts(img.dates) + [a]
    ensures AlertsPacked(AddAlert(img, a).0.dates)
  {
    var c := AlertCount(img.dates);
    var ds := img.dates[c := a];
    AlertCountIs(ds, c + 1);
    assert ds[..c + 1] == img.dates[..c] + [a];
  }

  /** An alert whose year is 0 is written and marks the record dirty, but it lands on the
      terminating slot, so the live list does not grow. */
  lemma AddEmptyAlertStaysHidden(img: Image, a: Alert)
    requires |img.dates| == CAPACITY && IsEmptyAlert(a) && AlertCount(img.dates) < CAPACITY
    ensures AddAlert(img, a).1 && AddAlert(img, a).0.dirty
    ensures LiveAlerts(AddAlert(img, a).0.dates) == LiveAlerts(img.dates)
  {
    var c := AlertCount(img.dates);
    var ds := img.dates[c := a];
    AlertCountIs(ds, c);
    assert !HasLiveAlert(img.dates, a);
  }

  /** add_alert() keeps a packed list packed on every path: duplicate, full, year-0 alert and
      append. */
  lemma AddAlertKeepsPacked(img: Image, a: Alert)
    requires |img.dates| == CAPACITY && AlertsPacked(img.dates)
    ensures AlertsPacked(AddAlert(img, a).0.dates)
  {
    var c := AlertCount(img.dates);
    if !HasLiveAlert(img.dates, a) && c < CAPACITY {
      var ds := img.dates[c := a];
      if IsEmptyAlert(a) {
        AlertCountIs(ds, c);
      } else {
        AlertCountIs(ds, c + 1);
      }
    }
  }

  // ----------------------------------------------------------------------
  // Loading from and saving to the EEPROM

  /** The record in memory and the copy in the EEPROM. */
  datatype Sync = Sync(memory: Image, stored: Image)

  /** save(): clears dirty, then writes the whole record, whether or not it was dirty. */
  function Save(m: Image): (r: Sync)
    ensures !r.memory.dirty && r.stored == r.memory
    ensures r.memory.(dirty := m.dirty) == m
  {
    var s := m.(dirty := false);
    Sync(s, s)
  }

  /** load(): reads the whole record; a record with a bad signature is init()ed and saved at
      once; then dirty is cleared. The result is always valid and clean. Init keeps the stored
      lists, lock state and default, so a bad record keeps whatever those bytes held. */
  function Load(stored: Image): (r: Sync)
    ensures IsValid(r.memory) && !r.memory.dirty
    ensures IsValid(stored) ==> r == Sync(stored.(dirty := false), stored)
    ensures !IsValid(stored) ==> r.stored == r.memory && r.memory == Init(stored).(dirty := false)
    ensures r.memory.targets == stored.targets && r.memory.dates == stored.dates
    ensures r.memory.locked == stored.locked && r.memory.defaultTries == stored.defaultTries
  {
    var m := stored;
    if !IsValid(m) then
      var s := Save(Init(m));
      Sync(s.memory.(dirty := false), s.stored)
    else
      Sync(m.(dirty := false), stored)
  }

  /** Loading what save() has just written gives back the saved record and rewrites nothing. */
  lemma SaveThenLoad(m: Image)
    requires IsValid(m)
    ensures Load(Save(m).stored) == Save(m)
  {
  }

  /** A second load finds a valid record and changes nothing more. */
  lemma LoadTwice(stored: Image)
    ensures Load(Load(stored).stored) == Load(stored)
  {
  }
}
