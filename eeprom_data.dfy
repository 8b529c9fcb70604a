/** The class eeprom_data_t of eeprom_data.h: the configuration record in memory, updated in
    place, and the EEPROM that load() reads it from and save() writes it to. Every method is
    specified by the function of module Config that describes its effect on the record. */
module Eeprom {
  import opened Dates
  import opened Config

  /** The EEPROM: one stored copy of the whole record, read and written as a whole. */
  class Device {
    var image: Image

    constructor (initial: Image)
      ensures image == initial
    {
      image := initial;
    }
  }

  class EepromData {
    var defaultTries: Byte
    var signature: Byte
    var dirty: bool
    var tries: Byte
    var locked: bool
    const targets: array<Target>
    const dates: array<Alert>

    /** Both lists have MAX_TARGETS / MAX_DATES slots, and every alert fits its slot. */
    ghost predicate Valid()
      reads this, dates
    {
      targets.Length == CAPACITY && dates.Length == CAPACITY &&
      forall i :: 0 <= i < dates.Length ==> AlertFits(dates[i])
    }

    /** The record as a value: what EEPROM.put would write now. */
    function Snapshot(): (img: Image)
      reads this, targets, dates
      ensures Valid() ==> WellFormed(img)
    {
      Image(defaultTries, signature, dirty, tries, locked, targets[..], dates[..])
    }

    constructor ()
      ensures Valid() && fresh(targets) && fresh(dates)
      ensures Snapshot() == Config.Fresh()
    {
      defaultTries := FACTORY_DEFAULT_TRIES;
      signature, dirty, tries, locked := 0, false, 0, false;
      targets := new Target[CAPACITY](_ => EMPTY_TARGET);
      dates := new Alert[CAPACITY](_ => BLANK_ALERT);
      new;
      assert targets[..] == Config.Fresh().targets;
      assert dates[..] == Config.Fresh().dates;
    }

    method Init()
      requires Valid()
      modifies this
      ensures Valid()
      ensures Snapshot() == Config.Init(old(Snapshot()))
    {
      signature := VALID_SIGNATURE;
      tries := defaultTries;
      dirty := true;
    }

    predicate IsValid()
      reads this, targets, dates
      ensures IsValid() <==> Config.IsValid(Snapshot())
    {
      VALID_SIGNATURE == signature
    }

    predicate IsDirty()
      reads this, targets, dates
      ensures IsDirty() <==> Snapshot().dirty
    {
      dirty
    }

    predicate IsLocked()
      reads this, targets, dates
      ensures IsLocked() <==> Snapshot().locked
    {
      locked
    }

    method SetLocked()
      requires Valid()
      modifies this
      ensures Valid()
      ensures Snapshot() == Lock(old(Snapshot()))
    {
      if !locked {
        locked := true;
        dirty := true;
      }
    }

    method SetUnlocked()
      requires Valid()
      modifies this
      ensures Valid()
      ensures Snapshot() == Unlock(old(Snapshot()))
    {
      if locked {
        locked := false;
        dirty := true;
      }
    }

    // ----------------------------------------------------------------------
    // Targets

    /** get_num_targets(): scans for the first slot whose coordinates are both 0.0. */
    method GetNumTargets() returns (num: int)
      requires Valid()
      ensures num == TargetCount(targets[..])
    {
      num := 0;
      while num < targets.Length
        invariant 0 <= num <= targets.Length
        invariant forall i :: 0 <= i < num ==> !IsEmptyTarget(targets[i])
      {
        if targets[num].lat == 0.0 && targets[num].lon == 0.0 {
          break;
        }
        num := num + 1;
      }
      TargetCountIs(targets[..], num);
    }

    /** remove_target(): shifts the live entries after num one slot down, then zeroes every slot
        from the old last live one to the end. The loop re-reads the live count on every
        iteration, as the source does; the shifting never changes it. */
    method RemoveTarget(num: int) returns (ok: bool)
      requires Valid() && 0 <= num
      modifies this, targets
      ensures Valid()
      ensures ok <==> num < TargetCount(old(targets[..]))
      ensures ok ==> Snapshot() == old(Snapshot()).(dirty := true, targets := Removed(old(targets[..]), num))
      ensures !ok ==> Snapshot() == old(Snapshot())
    {
      var count := GetNumTargets();
      if num >= count {
        return false;
      }
      ghost var s := targets[..];
      ghost var c := count;
      dirty := true;
      var i := num;
      count := GetNumTargets();
      while i < count - 1
        invariant ShiftedUpTo(s, num, i, targets[..]) && i <= c - 1 && count == c
        modifies targets
        decreases CAPACITY - i
      {
        ShiftStep(s, num, i, targets[..]);
        targets[i] := targets[i + 1];
        i := i + 1;
        count := GetNumTargets();
      }
      while i < targets.Length
        invariant ZeroedUpTo(s, num, i, targets[..])
        modifies targets
      {
        ZeroStep(s, num, i, targets[..]);
        targets[i] := EMPTY_TARGET;
        i := i + 1;
      }
      ZeroedIsRemoved(s, num, targets[..]);
      ok := true;
    }

    function GetTargetLat(cur: int): (latitude: Coord)
      requires Valid() && 0 <= cur < CAPACITY
      reads this, targets, dates
      ensures latitude == Snapshot().targets[cur].lat
    {
      targets[cur].lat
    }

    method SetTargetLat(latitude: Coord, cur: int)
      requires Valid() && 0 <= cur < CAPACITY
      modifies this, targets
      ensures Valid()
      ensures Snapshot() == Config.SetTargetLat(old(Snapshot()), latitude, cur)
    {
      if targets[cur].lat != latitude {
        targets[cur] := targets[cur].(lat := latitude);
        dirty := true;
      }
    }

    function GetTargetLon(cur: int): (longitude: Coord)
      requires Valid() && 0 <= cur < CAPACITY
      reads this, targets, dates
      ensures longitude == Snapshot().targets[cur].lon
    {
      targets[cur].lon
    }

    method SetTargetLon(longitude: Coord, cur: int)
      requires Valid() && 0 <= cur < CAPACITY
      modifies this, targets
      ensures Valid()
      ensures Snapshot() == Config.SetTargetLon(old(Snapshot()), longitude, cur)
    {
      if targets[cur].lon != longitude {
        targets[cur] := targets[cur].(lon := longitude);
        dirty := true;
      }
    }

    // ----------------------------------------------------------------------
    // Number of tries

    function GetDefaultTries(): (t: Byte)
      reads this, targets, dates
      ensures t == Snapshot().defaultTries
    {
      defaultTries
    }

    method SetDefaultTries(t: Byte)
      requires Valid()
      modifies this
      ensures Valid()
      ensures Snapshot() == Config.SetDefaultTries(old(Snapshot()), t)
    {
      defaultTries := t;
    }

    function GetNumTries(): (t: Uint16)
      reads this, targets, dates
      ensures t == Snapshot().tries
    {
      tries
    }

    method SetTries(t: Uint16)
      requires Valid()
      modifies this
      ensures Valid()
      ensures Snapshot() == Config.SetTries(old(Snapshot()), t)
    {
      if tries != t {
        tries := t % 0x100;
        dirty := true;
      }
    }

    /** reduce_tries(): returns the counter after the call. */
    method ReduceTries() returns (left: Uint16)
      requires Valid()
      modifies this
      ensures Valid()
      ensures Snapshot() == Config.ReduceTries(old(Snapshot()))
      ensures left == tries
    {
      if tries > 0 {
        dirty := true;
        tries := tries - 1;
        return tries;
      }
      return 0;
    }

    // ----------------------------------------------------------------------
    // Alerts for special dates and times

    /** get_num_alerts(): scans for the first slot whose year is 0. */
    method GetNumAlerts() returns (num: int)
      requires Valid()
      ensures num == AlertCount(dates[..])
    {
      num := 0;
      while num < dates.Length
        invariant 0 <= num <= dates.Length
        invariant forall i :: 0 <= i < num ==> !IsEmptyAlert(dates[i])
      {
        if Get(dates[num].dt, Year) == 0 {
          break;
        }
        num := num + 1;
      }
      AlertCountIs(dates[..], num);
    }

    /** get_alert(): any slot below the capacity, live or not; None past the capacity. */
    function GetAlert(i: nat): (r: Option<Alert>)
      requires Valid()
      reads this, targets, dates
      ensures r.Some? <==> i < CAPACITY
      ensures r.Some? ==> r.value == Snapshot().dates[i] && AlertFits(r.value)
    {
      if i < dates.Length then Some(dates[i]) else None
    }

    /** add_alert(): scans the live alerts for an identical one, then appends if there is room. */
    method AddAlert(dt: DateTime, msg1: Message, msg2: Message) returns (ok: bool)
      requires Valid() && Fits(dt) && |msg1| <= MESSAGE_WIDTH && |msg2| <= MESSAGE_WIDTH
      modifies this, dates
      ensures Valid()
      ensures (Snapshot(), ok) == Config.AddAlert(old(Snapshot()), Alert(dt, msg1, msg2))
    {
      ghost var a := Alert(dt, msg1, msg2);
      var num := GetNumAlerts();
      var i := 0;
      while i < num
        invariant 0 <= i <= num
        invariant forall j :: 0 <= j < i ==> !SameAlert(dates[j], a)
      {
        if Equals(dates[i].dt, dt) && dates[i].msg1 == msg1 && dates[i].msg2 == msg2 {
          assert SameAlert(dates[..][i], a);
          return true;
        }
        i := i + 1;
      }
      assert !HasLiveAlert(dates[..], a);
      if num >= dates.Length {
        return false;
      }
      dates[num] := Alert(dt, msg1, msg2);
      dirty := true;
      ok := true;
    }

    // ----------------------------------------------------------------------
    // Loading from and saving to the EEPROM

    /** EEPROM.get(0, *this): every non-static member, DefaultTries included, is overwritten. */
    method Fetch(e: Device)
      requires Valid() && WellFormed(e.image)
      modifies this, targets, dates
      ensures Valid() && Snapshot() == e.image
    {
      var img := e.image;
      defaultTries, signature, dirty, tries, locked :=
        img.defaultTries, img.signature, img.dirty, img.tries, img.locked;
      forall i | 0 <= i < CAPACITY {
        targets[i] := img.targets[i];
      }
      forall i | 0 <= i < CAPACITY {
        dates[i] := img.dates[i];
      }
      assert targets[..] == img.targets;
      assert dates[..] == img.dates;
    }

    method Load(e: Device) returns (ok: bool)
      requires Valid() && WellFormed(e.image)
      modifies this, targets, dates, e
      ensures Valid() && ok
      ensures Sync(Snapshot(), e.image) == Config.Load(old(e.image))
    {
      Fetch(e);
      if !IsValid() {
        Init();
        Save(e);
      }
      dirty := false;
      ok := IsValid();
    }

    method Save(e: Device)
      requires Valid()
      modifies this, e
      ensures Valid() && WellFormed(e.image)
      ensures Sync(Snapshot(), e.image) == Config.Save(old(Snapshot()))
    {
      dirty := false;
      e.image := Snapshot();
    }
  }
}
