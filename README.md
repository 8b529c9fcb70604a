# Reverse Geocache Box: configuration store, date-time value and menu engine

This project is a Dafny model of the firmware core of a GPS puzzle box. The box opens only near one of its stored target coordinates, and only within a limited number of tries. It also shows alerts on scheduled dates. The model covers three parts:

- `datetime_t` (module `Dates`, `dates.dfy`). A date and time of day held in six unsigned bit-fields of 12/4/5/5/6/6 bits. The value has field-wise `==`/`!=`, six getters, six range-checked setters and `to_seconds`. `to_seconds` uses 16-bit `unsigned int`, as on the AVR target.
- `eeprom_data_t`, the persistent configuration record. Module `Config` (`config.dfy`) describes the record as a value: the `Image` of every non-static member. It gives one function per operation, each stating its effect, plus lemmas that relate several calls. Module `Eeprom` (`eeprom_data.dfy`) is the class itself: scalar fields, and two constant 8-slot arrays of targets and alerts that are updated in place. Every method is proved to change `Snapshot()` exactly as the matching `Config` function says. The EEPROM is a `Device` object holding one stored `Image`: `Load` reads it whole and `Save` writes it whole.
- `variant_t`, `menu_t` and `lcd_menu_t` (module `Menus`, `menu.dfy`). `variant_t` is a tag stored beside a union payload, and the predicate `Tagged` says the two agree. A node is two labelled entries plus a one-bit cursor. `LcdMenu` is the current node, updated in place. Sub-menu pointers are indices into a `seq<Node>` table owned by the caller. Function pointers are action ids, and `Exec` reports which action it invoked.

Target and alert lists use a sentinel instead of a length field. The live count is the index of the first empty slot: a target `(0.0, 0.0)`, or an alert whose year is 0. The model follows the code in these places:

- `init()` sets only the signature, the tries counter and the dirty flag. A stored record with a bad signature therefore keeps its stored targets, alerts, lock state and `DefaultTries`. Nothing is reset to factory values (`Config.Load`).
- `load()` always returns true.
- `set_default_tries` never marks the record dirty.
- `set_tries` compares the full 16-bit argument with the 8-bit counter before truncating it. So `t = tries + 256` marks the record dirty but leaves the counter unchanged (`Config.SetTriesWrapMarksDirty`).
- An alert whose year is 0 is written and marks the record dirty. It lands on the terminating slot, so the live list does not grow (`Config.AddEmptyAlertStaysHidden`).
- `remove_target` re-reads the live count on every pass of its shifting loop. The model does the same and proves that the count never changes during the shift.

## Model

| member | source | states |
|---|---|---|
| `Dates.Get` | datetime.h:69-132 | A getter of a value that fits returns less than its field's bit-field limit |
| `Dates.Zero` | datetime.h:25-33 | The default constructor gives all six fields 0, so year 0 is the unused-alert marker, and the value fits |
| `Dates.Truncate` | datetime.h:16-22 | Storing into a bit-field yields a value below the field's limit, equal to the argument when it is in range |
| `Dates.Make` | datetime.h:53-60 | The six-argument constructor stores each argument congruent to it modulo 2^width and below that bound, and in-range arguments exactly |
| `Dates.Equals` | datetime.h:35-42 | `==` over the six fields holds exactly when the two values are equal, so it is reflexive, symmetric and transitive |
| `Dates.NotEquals` | datetime.h:44-51 | `!=` over the six fields is exactly the negation of `==` |
| `Dates.SetAsWritten` | datetime.h:62-127 | As written, every setter leaves every field's getter unchanged, whatever the argument |
| `Dates.Set` | datetime.h:62-127 | The setters as their comments describe them: an accepted value is stored, a rejected one changes nothing, other fields are untouched, and the bit-field bounds hold |
| `Dates.AsWrittenSetterLosesValue` | datetime.h:62-127 | For every accepted value that differs from the stored one, the written setter loses it and the corrected one keeps it |
| `Dates.SetSecondsExample` | datetime.h:62-67 | `set_seconds(30)` on a default value leaves the seconds at 0 |
| `Dates.ToSeconds` | datetime.h:135-141 | `to_seconds` in 16-bit arithmetic equals `(hr*3600 + min*60 + sec) mod 65536` |
| `Dates.ToSecondsExactBelowWrap` | datetime.h:135-141 | When the true total is below 65536, `to_seconds` is exact, and it increases with the seconds while the next total is also below 65536 |
| `Dates.ToSecondsWrapsInTheEvening` | datetime.h:135-141 | 18:12:16 converts to 0 as written, and to 65536 when computed in 32 bits |
| `Dates.ToSecondsWide` | datetime.h:135-141 | Computed in 32 bits the count is exact for all 16-bit arguments, and below 86400 for a time of day |
| `Config.Fresh` | eeprom_data.h:22-48 | A constructed record is invalid and clean, has DefaultTries 50, and has no live targets or alerts with both lists packed (every slot past the live prefix empty) |
| `Config.Init` | eeprom_data.h:50-55 | `init` makes the record valid, sets tries to DefaultTries, marks it dirty, and changes nothing else |
| `Config.Lock` | eeprom_data.h:72-78 | `setLocked` leaves the record locked and marks it dirty only if the flag was clear; nothing else changes |
| `Config.Unlock` | eeprom_data.h:80-86 | `setUnlocked` leaves the record unlocked and marks it dirty only if the flag was set; nothing else changes |
| `Config.LockIdempotent` | eeprom_data.h:72-86 | Locking, or unlocking, twice leaves the same record as doing it once |
| `Config.TargetCount` | eeprom_data.h:91-100 | The live count is at most the capacity, every slot below it is non-empty, and the slot at it (if any) is empty |
| `Config.Removed` | eeprom_data.h:102-117 | After removal, slots before k are unchanged, slots k..count-2 hold the old k+1..count-1, and every slot from count-1 on is (0,0) |
| `Config.RemovedDropsOne` | eeprom_data.h:102-117 | Removal lowers the live count by one, drops exactly entry k from the live list in order, and leaves the tail empty |
| `Config.ShiftStep` | eeprom_data.h:107-109 | Each step of the shifting loop keeps the live count, the value the loop condition re-reads |
| `Config.SetTargetLat` | eeprom_data.h:124-130 | The latitude of slot cur becomes the argument, other slots stay, and dirty is set only if the value differed |
| `Config.SetTargetLon` | eeprom_data.h:137-143 | The longitude of slot cur becomes the argument, other slots stay, and dirty is set only if the value differed |
| `Config.SetTargetAppends` | eeprom_data.h:124-143 | On a packed list with room, writing a target other than (0.0, 0.0) into the slot at the live count appends it to the live targets: the count grows by one and the list stays packed |
| `Config.SetDefaultTries` | eeprom_data.h:153-156 | Only DefaultTries changes; the dirty flag is untouched |
| `Config.SetTries` | eeprom_data.h:163-169 | Tries becomes t mod 256, and dirty is set exactly when the 16-bit t differed from the 8-bit counter |
| `Config.SetTriesWrapMarksDirty` | eeprom_data.h:163-169 | `set_tries(tries + 256)` marks the record dirty and leaves the counter unchanged |
| `Config.ReduceTries` | eeprom_data.h:171-180 | A positive counter drops by one and the record becomes dirty; at zero nothing changes; the counter never grows |
| `Config.ReduceTriesFloor` | eeprom_data.h:171-180 | After n calls the counter is max(tries-n, 0), and the record is dirty exactly if it was or some call found a positive counter |
| `Config.AlertCount` | eeprom_data.h:185-195 | The live count is at most the capacity, every slot below it has a non-zero year, and the slot at it (if any) has year 0 |
| `Config.AddAlert` | eeprom_data.h:211-234 | A live duplicate gives success with no change; a full list gives failure with no change; otherwise the alert goes into slot count, dirty is set, and nothing else changes |
| `Config.AddAlertIdempotent` | eeprom_data.h:211-234 | Adding the same alert twice leaves the same record and result as adding it once |
| `Config.AddAlertAppends` | eeprom_data.h:211-234 | On a packed list with room, a new alert with a non-zero year is appended to the live alerts, the count grows by one, and the list stays packed |
| `Config.AddEmptyAlertStaysHidden` | eeprom_data.h:211-234 | An alert with year 0 reports success and marks dirty, but the live alerts are unchanged |
| `Config.AddAlertKeepsPacked` | eeprom_data.h:211-234 | `add_alert` keeps a packed alert list packed on every path: duplicate, full, year-0 alert and append |
| `Config.Save` | eeprom_data.h:254-260 | `save` clears dirty, stores exactly the in-memory record, and changes nothing else |
| `Config.Load` | eeprom_data.h:239-252 | `load` always ends valid and clean. A valid stored record is taken as is. An invalid one is replaced in memory and in storage by its init()ed form, with its lists, lock state and DefaultTries kept |
| `Config.SaveThenLoad` | eeprom_data.h:239-260 | Loading what `save` just wrote gives back the saved record and rewrites nothing |
| `Config.LoadTwice` | eeprom_data.h:239-252 | A second `load` changes nothing more |
| `Eeprom.EepromData.constructor` | eeprom_data.h:22-48 | The constructed object's record is `Config.Fresh()` |
| `Eeprom.EepromData.Init` | eeprom_data.h:50-55 | The record after `init` is `Config.Init` of the record before |
| `Eeprom.EepromData.IsValid` | eeprom_data.h:57-60 | True exactly when the signature is 0xA5; reads only |
| `Eeprom.EepromData.IsDirty` | eeprom_data.h:62-65 | Reports the dirty flag; reads only |
| `Eeprom.EepromData.IsLocked` | eeprom_data.h:67-70 | Reports the lock flag; reads only |
| `Eeprom.EepromData.SetLocked` | eeprom_data.h:72-78 | The record after the call is `Config.Lock` of the record before |
| `Eeprom.EepromData.SetUnlocked` | eeprom_data.h:80-86 | The record after the call is `Config.Unlock` of the record before |
| `Eeprom.EepromData.GetNumTargets` | eeprom_data.h:91-100 | The scanning loop returns `Config.TargetCount` of the slots |
| `Eeprom.EepromData.RemoveTarget` | eeprom_data.h:102-117 | Fails with no change when num is not below the live count. Otherwise the two in-place loops leave exactly `Config.Removed` in the array, set dirty, and change nothing else |
| `Eeprom.EepromData.GetTargetLat` | eeprom_data.h:119-122 | Returns the stored latitude of slot cur |
| `Eeprom.EepromData.SetTargetLat` | eeprom_data.h:124-130 | The record after the call is `Config.SetTargetLat` of the record before |
| `Eeprom.EepromData.GetTargetLon` | eeprom_data.h:132-135 | Returns the stored longitude of slot cur |
| `Eeprom.EepromData.SetTargetLon` | eeprom_data.h:137-143 | The record after the call is `Config.SetTargetLon` of the record before |
| `Eeprom.EepromData.GetDefaultTries` | eeprom_data.h:148-151 | Returns DefaultTries |
| `Eeprom.EepromData.SetDefaultTries` | eeprom_data.h:153-156 | The record after the call is `Config.SetDefaultTries` of the record before |
| `Eeprom.EepromData.GetNumTries` | eeprom_data.h:158-161 | Returns the tries counter |
| `Eeprom.EepromData.SetTries` | eeprom_data.h:163-169 | The record after the call is `Config.SetTries` of the record before |
| `Eeprom.EepromData.ReduceTries` | eeprom_data.h:171-180 | The record after the call is `Config.ReduceTries` of the record before, and the result is the new counter |
| `Eeprom.EepromData.GetNumAlerts` | eeprom_data.h:185-195 | The scanning loop returns `Config.AlertCount` of the slots |
| `Eeprom.EepromData.GetAlert` | eeprom_data.h:197-209 | Succeeds exactly for an index below the capacity, live or not, and then returns that slot's date and both lines |
| `Eeprom.EepromData.AddAlert` | eeprom_data.h:211-234 | The duplicate scan and the append leave the record and the result given by `Config.AddAlert` |
| `Eeprom.EepromData.Fetch` | eeprom_data.h:241 | `EEPROM.get` overwrites every non-static member, DefaultTries included, with the stored record |
| `Eeprom.EepromData.Load` | eeprom_data.h:239-252 | Returns true. The memory and the stored record afterwards are `Config.Load` of the stored record before |
| `Eeprom.EepromData.Save` | eeprom_data.h:254-260 | The memory and the stored record afterwards are `Config.Save` of the memory before |
| `Menus.AssignFunc` | menu.h:29-34 | Assigning a function pointer sets the tag to FUNC and stores the pointer; tag and payload agree |
| `Menus.AssignMenu` | menu.h:36-41 | Assigning a node pointer sets the tag to MENU and stores the pointer; tag and payload agree |
| `Menus.AssignInt` | menu.h:43-48 | Assigning an int sets the tag to INT and stores the int; tag and payload agree |
| `Menus.DefaultEntry` | menu.h:59-65 | A default `menu_t` has an empty label, the INT value 0, and bounds 0 and 0 |
| `Menus.LabelledEntry` | menu.h:83-89 | An entry from a four-argument constructor has the given label and value, and bounds 0 from `menu_t()` |
| `Menus.Toggle` | menu.h:115-119 | `next` flips the cursor and leaves both entries as they were |
| `Menus.ToggleTwice` | menu.h:115-119 | Two calls of `next` restore the node |
| `Menus.Dispatch` | menu.h:121-140 | For FUNC, the node is unchanged and the action fires only if non-null. For a non-null MENU, the node becomes the referenced node, cursor included. For a null MENU or an INT, nothing happens. Over a closed table the result stays well formed |
| `Menus.DescentForgetsParent` | menu.h:129-133 | Descending into a sub-menu gives the same state whichever parent it came from |
| `Menus.SelectThenDescend` | menu.h:115-140 | With an action at entry 0 and a child at entry 1: `next` then `exec` lands in the child, and the next `exec` acts as the child's would |
| `Menus.LcdMenu.constructor` | menu.h:73-81 | Both entries are default entries; the cursor is left unconstrained, as the source does not set it |
| `Menus.LcdMenu.WithActions` | menu.h:83-89 | Entries get the given labels, FUNC tags with the given pointers, and bounds 0 |
| `Menus.LcdMenu.WithSubMenus` | menu.h:91-97 | Entries get the given labels, MENU tags with the given pointers, and bounds 0 |
| `Menus.LcdMenu.Next` | menu.h:115-119 | The node afterwards is `Toggle` of the node before, and the result is the new cursor |
| `Menus.LcdMenu.Exec` | menu.h:121-140 | The node afterwards and the action fired are `Dispatch` of the node before, and the method returns the node itself |

## Findings

| source | as written | input that shows it | evidently intended | confidence | as-written member | corrected member |
|---|---|---|---|---|---|---|
| datetime.h:62-127 | Each setter's parameter has its field's name, so `seconds = seconds;` assigns the parameter to itself and the field never changes | `set_seconds(30)` on a default value: `get_seconds()` stays 0 | Store an accepted value into the field, as each setter's comment says | high; not executed | `Dates.SetAsWritten` (with `Dates.SetSecondsExample`, `Dates.AsWrittenSetterLosesValue`) | `Dates.Set` |
| datetime.h:135-141 | `hr * 60 * 60 + min * 60 + sec` is computed in `unsigned int`, which is 16 bits on the AVR target | `to_seconds(18, 12, 16)` returns 0; every time of day from 18:12:16 on wraps | Seconds since midnight, computed in a 32-bit type | medium (assumes 16-bit `int`); not executed | `Dates.ToSeconds` (with `Dates.ToSecondsWrapsInTheEvening`) | `Dates.ToSecondsWide` |

## Left out

- Floating point: `double` coordinates are modelled as `real`. NaN, which is unequal to itself, and the signed zero -0.0, which equals 0.0, are not modelled.
- C strings: messages and labels are character sequences of at most 16 characters, required by precondition. `strcpy`/`strncpy` overflow, missing terminators and `strcmp` on unterminated buffers are not modelled.
- The EEPROM library and the byte layout: `Device` holds the stored record as a value. Bit-field packing, struct padding and partial or failed writes are not modelled, because the layout is compiler-defined.
- The `dirty` and `locked` bytes are modelled as `bool`. The code only tests them for zero, so a stored byte of 2 behaves like 1.
- Index arguments (`cur`, and `num` in `remove_target`) are unchecked in the source. A negative or too-large index is excluded by precondition instead of being modelled as an out-of-bounds access.
- `get_alert` writes into caller buffers. It is modelled as a function returning `Option<Alert>`.
- `variant_t` assignment operators: `variant_t` is embedded by value in `menu_t` and `lcd_menu_t`, and `exec` copies whole nodes. So the three `operator=` overloads are modelled as functions that yield the new value, not as in-place updates of an object. The reference they return is not modelled.
- Menu aliasing: the node table holds node values. A sub-menu pointer to the current node object itself, and later changes to a referenced node, are not modelled.
- The effect of calling a menu action is not modelled. `Exec` reports only which action id was invoked.
- `get_target_lat`/`get_target_lon` take `cur` with a default of 0. The model has no default arguments, so callers pass 0 explicitly.
- The `int` fields of the menu (`ival`, `min`, `max`) are 16 bits wide on the AVR target. The model uses unbounded integers, and since no menu operation does arithmetic on them, no overflow is modelled.
- The cursor bit that the `lcd_menu_t` constructors leave uninitialised is unconstrained, so nothing is proved about it.
- utilities.h is not part of this model. It holds pin and servo constants, external globals and bodiless driver declarations. `ARRAYSZ` of the two lists becomes the constant `CAPACITY = 8`.
