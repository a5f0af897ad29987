# AntiMicro core in Dafny

This project models the decision logic at the heart of AntiMicro, a program that maps gamepad input to keyboard and mouse events, and proves properties of that model. It covers five areas:

- **The input daemon's two-pass event processing.**
  - The first pass filters a batch of SDL events into a queue. While doing so it records two per-device bit arrays: the "pending" array says which controls are active, and the "release" array says which axes sit at their release value.
  - An unplug heuristic then rewrites the axis events of a device that looks unplugged to their release values.
  - The second pass dispatches each event. After every event it activates each device touched so far: sticks, then axes, then D-pads, then virtual D-pads, then buttons.
  - `removeDevice` and `addInputDevice` keep the device registry maps up to date.
- **Turbo and mouse-wheel timing of gradient buttons** (buttons driven by an analog axis or stick).
- **Set-change conditions, names, dead circles and turbo-mode setters** of axis buttons and stick buttons.
- **The add/edit auto-profile dialog**:
  - reserved-GUID handling;
  - the "as default" box;
  - form validation;
  - what saving writes back.
- **Main settings bookkeeping**:
  - the language list;
  - the controller-mapping table and its sync with the "Mappings" settings group;
  - the log-level clamp;
  - the auto-profile book as loaded from settings and extended by the add dialog.

How the model is built:
- Everything is pure functions over immutable datatypes.
- A batch of events is a `seq<Event>`.
- The device registry is three maps from SDL instance id to device, as in `src/inputdaemon.h:96-101`.
- A bit array is three sequences of booleans: axes, then hats, then buttons.
- Qt timers are explicit state fields.
- Signals are output values.
- Distances are mathematical reals.
- C++ integer division, truncating casts and `static_cast<short>` are written out in `Common`.

Files: `common.dfy`, `devices.dfy`, `bitarrays.dfy`, `firstpass.dfy`, `unplug.dfy`, `secondpass.dfy`, `gradientbutton.dfy`, `setchange.dfy`, `axisbutton.dfy`, `stickbutton.dfy`, `autoprofiledialog.dfy`, `mainsettings.dfy`, `autoprofilebook.dfy`.

Where the code and its documentation disagree, the model follows the code. Four such places:
- A plain joystick records `axis index == 0` as its release bit (`src/inputdaemon.cpp:714`), not the axis value.
- The second pass reports a joystick axis to the joystick with the device id in place of the axis index (`src/inputdaemon.cpp:1032`).
- The horizontal wheel fires its queue without the activation test (`src/joybuttontypes/joygradientbutton.cpp:503-509`).
- The horizontal wheel compares its timer against the vertical timer's interval (`src/joybuttontypes/joygradientbutton.cpp:487`, `:527`).

## Model

| member | source | states |
|---|---|---|
| BitArrays.CreateOrGrab | src/inputdaemon.cpp:645-664 | A device's entry is created only when missing, and the table gains exactly that key. A new entry is the device's initial entry: current axis activity when the table reads the device, all-clear otherwise. Other entries are untouched. |
| BitArrays.CreateOrGrabIdempotent | src/inputdaemon.cpp:645-664 | Grabbing an entry a second time returns the same entry and leaves the table unchanged. |
| FirstPass.Filter | src/inputdaemon.cpp:666-811 | An event is in the queue exactly when it is in the batch and passes the first pass's keep rule. The queue is never longer than the batch. |
| FirstPass.QueueIsFilter | src/inputdaemon.cpp:666-811 | The queue the first pass builds event by event is the batch filtered by the keep rule, in batch order. |
| FirstPass.TableKeys | src/inputdaemon.cpp:689-791 | A device has a pending or release entry after the first pass exactly when some event wrote a bit for it. |
| FirstPass.TableShape | src/inputdaemon.cpp:645-664 | Every entry has one bit per raw axis, hat and button of its device. |
| FirstPass.TableBit | src/inputdaemon.cpp:689-791 | Each bit holds the last value written for that control, or the entry's initial value. Pending bits are: button pressed, axis outside its dead zone, hat non-zero. Release bits are: value 16384 for controller triggers, value 0 for other controller axes, and `axis == 0` for joystick axes. |
| UnplugRewrite.UnplugStatus | src/inputdaemon.cpp:951-969 | After marking the first n axes, axis bit i is set exactly when i < n and axis i exists and is not in normal throttle. Hat and button bits stay clear. |
| UnplugRewrite.UnplugBits | src/inputdaemon.cpp:951-969 | The synthetic unplug pattern has one bit per control. A bit is set exactly when it is an axis that exists with a non-normal throttle. |
| UnplugRewrite.RewriteEvent | src/inputdaemon.cpp:850-942 | Only axis events of the triggering devices change, and only in their value. That value becomes the axis's release value, cast to short. Joystick axes change only with a non-normal throttle; controller axes change only for triggers. |
| UnplugRewrite.RewriteAll | src/inputdaemon.cpp:850-942 | The rewritten batch keeps its length and order and rewrites each event on its own. |
| UnplugRewrite.ModifyUnplugIsPointwise | src/inputdaemon.cpp:816-949 | Rewriting device by device, in any hash order, equals one pointwise rewrite for the set of devices that meet the trigger condition. The trigger condition is: non-empty release array, true-count equal to the axis count, and a same-size pending array equal to the unplug pattern. |
| UnplugRewrite.JoystickReleaseWrites | src/inputdaemon.cpp:702-720 | Every release bit a plain joystick writes is an axis bit whose value is `axis index == 0`. |
| UnplugRewrite.JoystickReleaseBit | src/inputdaemon.cpp:713-714 | In a plain joystick's release entry, only the axis-0 bit can be set. |
| UnplugRewrite.JoystickReleaseBitsOnlyAxisZero | src/inputdaemon.cpp:713-714 | In the final release array of a plain joystick, any set bit is bit 0. |
| UnplugRewrite.CountTrueAtMostFirst | src/inputdaemon.cpp:838 | A bit array whose only possible set bit is bit 0 counts at most one true bit. |
| UnplugRewrite.JoystickNeverRewritten | src/inputdaemon.cpp:838-848 | A plain joystick with two or more axes never meets the unplug condition, because of the `axis index == 0` release bit. |
| SecondPass.RemoveDevice | src/inputdaemon.cpp:437-453 | A null device changes nothing. Otherwise its id is removed from all three registry maps and every other entry is kept. |
| SecondPass.DispatchEvent | src/inputdaemon.cpp:977-1140 | A device counts as touched exactly when the event is a known control of a tracked device. Only device-removed and device-added events change the registry. Removal of a known id acts as `removeDevice` and emits the removal signal. Addition of an opened device whose id is new acts as `addInputDevice` and emits the added signal; any other addition changes nothing. A quit event stops the loop. A joystick axis event ends with the raw-axis report carrying the device id as the axis. |
| SecondPass.ActivationBlock | src/inputdaemon.cpp:1144-1154 | Each touched device activates its sticks, axes, D-pads, virtual D-pads and buttons, in that order, device after device. |
| SecondPass.Remember | src/inputdaemon.cpp:1000-1105 | The set of touched devices only grows: the earlier ones stay in place and the newly touched one is added. |
| SecondPass.LastTouched | src/inputdaemon.cpp:1000-1105 | The round for an event records the device that event's dispatch touched, given the registry the earlier events left. With Run2Prefix this holds for every round. |
| SecondPass.Run2 | src/inputdaemon.cpp:971-1162 | The second pass produces exactly one round of effects and activations per dequeued event. |
| SecondPass.Run2Prefix | src/inputdaemon.cpp:977-1156 | The rounds for a prefix of the batch are a prefix of the rounds for the whole batch, and the touched set only grows. |
| SecondPass.ActiveNoDuplicates | src/inputdaemon.cpp:1000-1105 | No device appears twice among the touched devices (they are hash keys). |
| SecondPass.ActiveIffTouched | src/inputdaemon.cpp:1000-1105 | A device is among the touched devices exactly when some event of the batch touched it. |
| SecondPass.RoundActivations | src/inputdaemon.cpp:1144-1154 | The activations after event i are the activation block of the devices touched by events 0 through i, so activation runs after every event. |
| SecondPass.CommitsRepeatAfterTouch | src/inputdaemon.cpp:1144-1154 | Once a device is touched, every later round activates all five of its control groups again. |
| SecondPass.StoppedIffQuit | src/inputdaemon.cpp:1134-1140 | The daemon ends the batch stopped exactly when it was stopped before or the batch holds a quit event. |
| SecondPass.AddDevice | src/inputdaemon.cpp:554-619 | An added device's id joins `joysticks` and exactly one track map: `trackcontrollers` for a game controller, `trackjoysticks` otherwise. Every other entry is kept. |
| SecondPass.AddedIsRegistered | src/inputdaemon.cpp:1128-1131 | A device-added event for an opened device with a new id registers it in `joysticks` and in its kind's track map, and its round emits the added signal. |
| SecondPass.RegistryShrinks | src/inputdaemon.cpp:1113-1131 | Over a stretch of the batch with no device-added event, the registry never gains a key. |
| SecondPass.AbsentStaysAbsent | src/inputdaemon.cpp:1113-1131 | An id missing from all three maps stays missing unless a later device-added event opens a device with that id. |
| SecondPass.RemovedStaysRemoved | src/inputdaemon.cpp:1113-1131 | After a device-removed event for a known device, its id is absent from all three maps for the rest of the batch, provided no later device-added event opens a device with the same id. |
| SecondPass.Poll | src/inputdaemon.cpp:117-155 | A daemon stopped on entry runs no pass and makes no round. Whenever the daemon ends the passes stopped (on entry or by a quit event), it emits the completion signals (the device under key 0, only when some device is open, then the bare signal) and does not schedule the next wait; otherwise it schedules it and emits nothing. The flag is always cleared afterwards. |
| SecondPass.PollRounds | src/inputdaemon.cpp:117-155 | While the daemon is not stopped, a whole poll (first pass, unplug rewrite, second pass) produces one round per kept event; a stopped daemon produces none. |
| SecondPass.PollCompletesIffStoppedOrQuit | src/inputdaemon.cpp:125-148 | The completion signals are emitted exactly when the daemon was stopped on entry or the batch holds a quit event, and the flag is cleared either way. |
| UnplugRewrite.TriggeredIdsCover | src/inputdaemon.cpp:820-823 | An order that visits every device of the release hash triggers exactly the ids of the release devices that meet the trigger condition. |
| SecondPass.PollIsPointwise | src/inputdaemon.cpp:816-949 | While the daemon is not stopped, a poll's passes are the second pass over the events the first pass keeps, each rewritten on its own exactly when its device is unplugged. A stopped daemon leaves the registry as it was. |
| SecondPass.PollOrderIndependent | src/inputdaemon.cpp:820-823 | Any two hash orders that visit every device of the release hash give the same poll. |
| GradientButton.ChangeState | src/joybuttontypes/joygradientbutton.cpp:148-237 | A state change flips the key state and records the current distance. With the timer active it re-arms to min(phase interval, 5). The press/release queues follow the source's two cases. |
| GradientButton.TurboEvent | src/joybuttontypes/joygradientbutton.cpp:37-240 | Normal turbo delegates to the base handler. With the timer inactive and the button not pressed, the key state always changes. Gradient mode at distance at least 1 with diff > 0 and the key down holds the key, re-arms 5 ms and sets the last distance to 1.0. Every change flips press/release. |
| GradientButton.TurboKeepsTimerBounded | src/joybuttontypes/joygradientbutton.cpp:123-220 | The armed turbo timer interval never exceeds 5 ms. |
| GradientButton.TurboAlternates | src/joybuttontypes/joygradientbutton.cpp:148-237 | Two successive state changes are a press and a release, never the same action twice. |
| GradientButton.GradientPhasesFillPeriod | src/joybuttontypes/joygradientbutton.cpp:91-102 | The gradient press and release phases, each round(x) = floor(x + 0.5), add up to the turbo interval or to one more. |
| GradientButton.PulseReleaseAntitone | src/joybuttontypes/joygradientbutton.cpp:106-114 | In pulse mode a larger distance never lengthens the release phase, round(interval / distance · 0.5). |
| GradientButton.WheelIntervalAsWritten | src/joybuttontypes/joygradientbutton.cpp:284-292 | The wheel interval as written faults (integer division by zero) exactly when 0 < distance < 1. |
| GradientButton.WheelInterval | src/joybuttontypes/joygradientbutton.cpp:254-263 | The corrected wheel interval, 1000 / speed / distance, is never negative for a positive speed and is 0 when the distance is not positive. |
| GradientButton.WheelIntervalFaultsBelowOne | src/joybuttontypes/joygradientbutton.cpp:287 | Speed 1 at distance 0.5 faults as written; the corrected interval there is 2000 ms. |
| GradientButton.WheelIntervalAgreesOnWholeDistances | src/joybuttontypes/joygradientbutton.cpp:324 | On whole-number distances the as-written and corrected intervals agree. |
| GradientButton.WheelIntervalAntitone | src/joybuttontypes/joygradientbutton.cpp:364-372 | The corrected interval never grows as the distance grows. |
| GradientButton.Kept | src/joybuttontypes/joygradientbutton.cpp:342-359 | Draining the wheel queue keeps exactly the queued slots that are still active, at most as many as before. |
| GradientButton.Pairs | src/joybuttontypes/joygradientbutton.cpp:349-353 | Firing a list of slots sends, for each slot in order, a press and then a release. |
| GradientButton.WheelActivation | src/joybuttontypes/joygradientbutton.cpp:266-311 | A current wheel event or a stopped timer always activates. The queue, time stamp and last distance are kept. The state changes only when the call does not activate, and then only to re-arm the timer at no more than 5 ms. |
| GradientButton.WheelFire | src/joybuttontypes/joygradientbutton.cpp:313-388 | Speed 0 stops the timer and sends nothing. An active current slot is pressed, released and queued. An inactive one stops the timer. An empty queue stops the timer. Only active slots are ever sent. |
| GradientButton.QueueFire | src/joybuttontypes/joygradientbutton.cpp:342-383 | The queue keeps its active slots. They fire when activated (always on the horizontal axis). An emptied queue stops the timer. |
| GradientButton.WheelEvent | src/joybuttontypes/joygradientbutton.cpp:243-395 | The whole wheel step: the firing rules above, plus this: an activation restarts the elapsed time and records the current distance. |
| GradientButton.WheelKeepsTimerBounded | src/joybuttontypes/joygradientbutton.cpp:299-375 | The armed wheel timer interval never exceeds 5 ms. |
| GradientButton.HorizontalQueueFiresWithoutActivation | src/joybuttontypes/joygradientbutton.cpp:503-509 | With the timer running and no activation, the horizontal wheel still fires its queued slot; the vertical wheel does not. |
| SetChange.Transition | src/joybuttontypes/joyaxisbutton.cpp:92-132 | The condition becomes the requested one. An assignment is announced exactly when a non-passive call changes the condition into or out of "while held" / "two way". It carries the new condition, or Disabled when leaving, and the old target set. Disabled forces the target set to -1, and the outcome records the reset of the selection exactly when the resulting condition is Disabled. "Property updated" fires exactly on a change, and the summary rebuild additionally needs the caller's flag. |
| SetChange.TransitionIdempotent | src/joybuttontypes/joyaxisbutton.cpp:98-131 | Requesting the current condition again announces nothing and updates nothing. It resets the selection again exactly when the condition is Disabled. |
| SetChange.PassiveSameState | src/joybuttontypes/joyaxisbutton.cpp:113-116 | Passive and active calls reach the same state; a passive call never announces. |
| SetChange.AssignThenWithdraw | src/joybuttontypes/joyaxisbutton.cpp:98-112 | Entering an assignable condition and then leaving it announces the assignment and then its withdrawal, both for the same target set. |
| AxisButton.NameSuffix | src/joybuttontypes/joyaxisbutton.cpp:40-83 | The custom name, then the default name, is used only when non-empty and names are displayed. Otherwise the result is "Button Negative", "Button Positive" or "Button Unknown" by index. |
| AxisButton.PartialName | src/joybuttontypes/joyaxisbutton.cpp:40-83 | The partial name is the axis's partial name, ": ", then the button's name part. |
| AxisButton.NamesIgnoredWhenHidden | src/joybuttontypes/joyaxisbutton.cpp:47-62 | With names hidden, two buttons with the same index get the same partial name, whatever names they carry. |
| AxisButton.FallbackDistinguishesButtons | src/joybuttontypes/joyaxisbutton.cpp:64-80 | The negative and positive buttons get different fallback words, and every other index gets "Unknown". |
| AxisButton.SetCondition | src/joybuttontypes/joyaxisbutton.cpp:92-132 | Announcements are keyed by the axis index and the button index. The summary is rebuilt exactly when the property is updated and the caller asks for it. The selection is reset exactly when the requested condition is Disabled (lines 118-121). |
| AxisButton.SetTurboMode | src/joybuttontypes/joyaxisbutton.cpp:173-194 | Setting the turbo mode always takes effect, since the button always counts as part of a real axis, and changes nothing else. |
| AxisButton.LastMouseDistanceFromDeadZone | src/joybuttontypes/joyaxisbutton.cpp:215-226 | The last mouse distance is 0 unless this button is the one the axis's last throttled value selects, in which case it is that value's distance. |
| AxisButton.LastDistanceExclusive | src/joybuttontypes/joyaxisbutton.cpp:215-226 | Of two different buttons of an axis, at least one reports a last distance of 0. |
| StickButton.DirectionName | src/joybuttontypes/joycontrolstickbutton.cpp:50-89 | Directions get "Up", "Down", "Left", "Right" and their "+" compounds. Any other index gets the empty string, and only such an index does. |
| StickButton.DiagonalNameComposed | src/joybuttontypes/joycontrolstickbutton.cpp:70-86 | A diagonal's name is its vertical name, "+", then its horizontal name. |
| StickButton.DirectionNamesInjective | src/joybuttontypes/joycontrolstickbutton.cpp:50-89 | Different directions get different names. |
| StickButton.PartialName | src/joybuttontypes/joycontrolstickbutton.cpp:91-123 | A custom name is used only when names are displayed. A non-empty default name is used whether or not names are displayed. Otherwise the result is "Button " plus the direction name. |
| StickButton.PartialNamesTellDirectionsApart | src/joybuttontypes/joycontrolstickbutton.cpp:91-123 | Two buttons of one stick with no default name and no displayed custom name, whose indices are different directions, get different partial names. |
| StickButton.SetCondition | src/joybuttontypes/joycontrolstickbutton.cpp:155-191 | Announcements are keyed by the stick index. The summary rebuild and "property updated" happen exactly when the condition changed. Disabled forces the target set to -1, and the selection is reset exactly when the requested condition is Disabled (lines 181-184). |
| StickButton.SpringDeadCircle | src/joybuttontypes/joycontrolstickbutton.cpp:301-321 | The index is tested in the source's order. A Left/Right value gets the stick's X circle times the multiplier percentage. Otherwise an Up/Down value gets the Y circle, a diagonal value 0, and any other index the bare multiplier percentage. |
| StickButton.SpringDeadCircleByDirection | src/joybuttontypes/joycontrolstickbutton.cpp:305-319 | With distinct enumerator values, the result follows the decoded direction: X circle for Left/Right, Y circle for Up/Down, 0 for diagonals, the bare percentage for other indexes. |
| StickButton.SpringDeadCircleSymmetric | src/joybuttontypes/joycontrolstickbutton.cpp:305-313 | With equal X and Y circles, all four cardinal buttons share one dead circle. |
| StickButton.SetTurboMode | src/joybuttontypes/joycontrolstickbutton.cpp:211-232 | Setting the turbo mode always takes effect, since a stick button always counts as part of a real axis, and changes nothing else. |
| StickButton.DecodeValueOf | src/joybuttontypes/joycontrolstickbutton.cpp:54-87 | With distinct enumerator values, each direction's value is recognised as that direction. |
| AutoProfileDialog.DedupReserved | src/addeditautoprofiledialog.cpp:79-87 | The reserved list has no duplicates and holds exactly the GUIDs passed in. |
| AutoProfileDialog.DedupKeepsDistinct | src/addeditautoprofiledialog.cpp:79-87 | A list without duplicates is kept as it is, order included. |
| AutoProfileDialog.DedupIdempotent | src/addeditautoprofiledialog.cpp:79-87 | Removing duplicates twice is the same as removing them once. |
| AutoProfileDialog.InitialDefaultBox | src/addeditautoprofiledialog.cpp:89-108 | A GUID that is not "all", not empty and not reserved, with an empty program path, enables the box and checks it for a default. Otherwise the box keeps its laid-out state and gets the explanatory tool tip. A disabled box is enabled only in the first case. |
| AutoProfileDialog.InitialBoxCheckedOnlyForDefaults | src/addeditautoprofiledialog.cpp:89-103 | Starting from an unchecked layout state, the box is checked exactly when the entry may be a default, is the current default, and has no program path. |
| AutoProfileDialog.CheckForDefaultStatus | src/addeditautoprofiledialog.cpp:461-478 | Any window-matching property unchecks and disables the box. With none set, the box is enabled and keeps its check. Nothing else changes. |
| AutoProfileDialog.DefaultStatusConsistent | src/addeditautoprofiledialog.cpp:461-478 | After the check, a checked box implies that no matching property is set, and the check is idempotent. |
| AutoProfileDialog.CheckForReservedGUIDs | src/addeditautoprofiledialog.cpp:248-274 | Selecting "all" or a connected device with a reserved GUID clears and disables the box and sets the explanatory tool tip. Any other connected device enables the box and keeps its check, whatever the window fields hold. An entry without a device leaves the form unchanged. |
| AutoProfileDialog.ReservedStatusConsistent | src/addeditautoprofiledialog.cpp:248-274 | After the check, a checked or enabled box means a device entry other than "all" whose GUID is not reserved. Repeating the check changes nothing. |
| AutoProfileDialog.DeviceSwitchReenablesBox | src/addeditautoprofiledialog.cpp:155-158 | With a window-matching property set, `checkForDefaultStatus` disables the box, but switching to an unreserved device enables it again while the property stays. |
| AutoProfileDialog.Accept | src/addeditautoprofiledialog.cpp:483-552 | Validation step by step, with its validity flag and `propertyFound`. A rejection carries one of the four messages. |
| AutoProfileDialog.AcceptIsValidate | src/addeditautoprofiledialog.cpp:483-552 | The dialog accepts exactly when the first-failing-check reference passes, and it reports the same message. The checks are: bad profile path, no matching property, then a bad absolute program path. "No window matching property was selected" is unreachable. |
| AutoProfileDialog.AcceptIgnoresDefaultBox | src/addeditautoprofiledialog.cpp:538-542 | The "as default" box never changes the verdict. |
| AutoProfileDialog.FindDevice | src/addeditautoprofiledialog.cpp:110-123 | The selected device is the last one whose GUID matches, and -1 means that none matches. |
| AutoProfileDialog.InitialDevices | src/addeditautoprofiledialog.cpp:110-136 | "all" comes first. A concrete GUID selects a device entry or an added "Current" entry, never "all". An empty GUID or "all" selects entry 0. |
| AutoProfileDialog.SaveAutoProfileInformation | src/addeditautoprofiledialog.cpp:214-246 | Index 0 stores GUID "all" and an empty device name. A device entry stores its GUID and name. Any other positive index leaves both unchanged. The text fields and check boxes are stored as shown. |
| AutoProfileDialog.OpenSaveKeepsGuid | src/addeditautoprofiledialog.cpp:110-141 | Opening an entry and saving it unchanged keeps its GUID (an empty one becomes "all"), its program, window properties, profile and partial flag. |
| MainSettings.RowLocale | src/mainsettingsdialog.cpp:842-892 | Rows 1 to 12 map to br, en, fr, de, it, ja, ru, sr, zh_CN, es, uk, pl, and any other row maps to "en". |
| MainSettings.CheckLocaleChange | src/mainsettingsdialog.cpp:824-897 | Row 0 removes the Language key and announces the system locale. Any other row stores one of the twelve codes and announces it. |
| MainSettings.ChangePresetLanguage | src/mainsettingsdialog.cpp:1827-1891 | A stored known code selects its row. A missing or unknown code selects row 0, and only those do. |
| MainSettings.RowRoundTrip | src/mainsettingsdialog.cpp:824-897 | Choosing any row 0 to 12 and reopening the dialog selects the same row. |
| MainSettings.CodeRoundTrip | src/mainsettingsdialog.cpp:1827-1891 | Any of the twelve codes survives reopening the dialog and confirming the row. |
| MainSettings.UnknownCodeDropped | src/mainsettingsdialog.cpp:1882-1890 | An unknown code reopens as row 0, and confirming it removes the key. |
| MainSettings.ClampLogLevel | src/mainsettingsdialog.cpp:796-803 | The saved level lies in [0, LOG_MAX], equals the index when the index is in range, and is clamped to the nearer end otherwise. |
| MainSettings.ClampLogLevelMonotone | src/mainsettingsdialog.cpp:796-803 | Clamping is monotone and idempotent. |
| MainSettings.InsertTempControllerMapping | src/mainsettingsdialog.cpp:477-490 | A blank entry [guid, "", false] is added only for a non-empty new GUID. Existing entries are untouched. |
| MainSettings.ParseMappingKey | src/mainsettingsdialog.cpp:414-441 | A key containing "Disable" touches only disable flags. Any other key touches only mapping strings. No entry is lost. |
| MainSettings.FillControllerMappings | src/mainsettingsdialog.cpp:398-448 | Every entry of the table is filed under its own non-empty GUID. |
| MainSettings.FillCharacterised | src/mainsettingsdialog.cpp:398-448 | The table has an entry exactly for each non-empty GUID some key names. The entry holds the last non-empty mapping and the last disable flag written for it (key with "Disable" removed), with "" and false as defaults. |
| MainSettings.SyncMappingSettings | src/mainsettingsdialog.cpp:544-573 | Sync writes at most a mapping and a flag per row, never an empty value, and nothing when no row is complete. |
| MainSettings.SyncThenFill | src/mainsettingsdialog.cpp:544-573 | Syncing complete rows with distinct hexadecimal GUIDs and reading them back, in any key order, gives one entry per row with its mapping and disable flag, and nothing else. |
| AutoProfileBook.AddNewAutoProfileAsWritten | src/mainsettingsdialog.cpp:1733-1782 | As written: a default for a GUID that already has one is ignored. Any change needs a non-empty GUID and a non-empty program path. Defaults touch only the default map and list, others only the profile and device lists. |
| AutoProfileBook.AddNewAsWrittenKeepsShape | src/mainsettingsdialog.cpp:1758-1774 | Adding keeps the book's invariant: entries are filed under their GUID and there is no device list for "all". Nothing is lost, and a profile with GUID and program is registered. |
| AutoProfileBook.AddNewAutoProfile | src/mainsettingsdialog.cpp:1733-1782 | Corrected rule: an ineligible profile changes nothing. Defaults and window-matched profiles go to their own collections. |
| AutoProfileBook.AddNewKeepsShape | src/mainsettingsdialog.cpp:1733-1782 | The corrected rule keeps the invariant, loses nothing and registers every eligible profile. |
| AutoProfileBook.AsWrittenDropsDialogDefaults | src/mainsettingsdialog.cpp:1750-1756 | A default the dialog accepts carries a window-matching property. When that property is not a program path, the default is saved with an empty path and the rule as written drops it. |
| AutoProfileBook.CorrectedKeepsDialogDefaults | src/mainsettingsdialog.cpp:1750-1756 | The corrected rule registers every default the dialog accepts when its GUID is set and has no default yet. |
| AutoProfileBook.DialogDefaultRoute | src/mainsettingsdialog.cpp:1750-1756 | Concretely: type window class "xterm", pick the connected device "03000000", check the box, accept. The dialog accepts and saves a default with no program path; the rule as written drops it and the corrected rule registers it. |
| AutoProfileBook.AsWrittenDropsWindowOnlyProfiles | src/mainsettingsdialog.cpp:1758-1761 | A profile matched only by window class passes validation but is dropped as written; the corrected rule registers it. |
| AutoProfileBook.CorrectedKeepsAcceptedProfiles | src/mainsettingsdialog.cpp:1758-1774 | Every non-default profile the dialog accepts and saves with a GUID is registered by the corrected rule. |
| AutoProfileBook.LoadDefaults | src/mainsettingsdialog.cpp:920-944 | The defaults gain exactly the registered GUIDs that are not empty and not "all" and whose profile and device name are set. Each new one is built from its stored group, and GUIDs already present keep their entry. The profile list and the invariant are kept. |
| AutoProfileBook.ReadProfiles | src/mainsettingsdialog.cpp:953-1004 | Entries 1, 2, … are read while each has a GUID and some window-matching property, and reading stops at the first that does not. |
| AutoProfileBook.ReadProfilesStopsAtFirstGap | src/mainsettingsdialog.cpp:996-1003 | The number of entries read is the index of the first incomplete entry. |
| AutoProfileBook.PopulateAutoProfiles | src/mainsettingsdialog.cpp:899-1007 | The "all" default is a default under "all". The defaults map, cleared first, ends up holding exactly the usable registered GUIDs. The profile list gains exactly the entries read. |
| AutoProfileBook.PopulateKeepsShape | src/mainsettingsdialog.cpp:899-1007 | Loading keeps the book's invariant; in particular no device list is ever opened for "all". |

## Left out

- SDL itself is an input: event polling, opening and closing devices, GUID lookup, and the joystick/controller objects' reactions to events. Events are a datatype, and the per-object reactions are recorded as effects.
- SecondPass.Poll: `JoyButton::resetActiveButtonMouseDistances` before the passes is left out, because src/joybutton.cpp is not part of this model. `clearBitArrayStatusInstances` after them needs no counterpart, since each poll's first pass starts from empty bit-array tables. The poll-reset timer and the queued `performWork` call are recorded only as the `rescheduled` flag.
- `refresh`, `quit`, `refreshMapping`, `refreshIndexes` and the daemon mutex are left out. They are blocking event loops, thread teardown and backend round-trips.
- `addInputDevice` follows the branch compiled without `USE_NEW_ADD`. Opening the device is a parameter (`opens`): a map from device index to the device opened there. A missing index stands for a failed joystick or controller open. The device's `isController` flag stands for "the backend reports a game controller and its GUID's `Disable` setting is off".
- `JoyButton::invokeMouseEvents` after each event's activation block (`src/inputdaemon.cpp:1156-1160`) is left out. Whether it runs depends on the buttons' shared pending-mouse state, which lives in `src/joybutton.cpp`, and what it does is mouse output.
- `src/inputdevicebitarraystatus.cpp`, `src/joyaxis.cpp`, `src/joybutton.cpp` and the `JoyControlStick` sources are not part of this model.
  - The bit array's layout (axes, then hats, then buttons) is taken from how the daemon uses it.
  - An axis's dead-zone test is `|value| <= deadZone`.
  - The stick direction enumerator values are a parameter (`StickButton.Numbering`), distinct where a lemma needs it.
- The order of `activeDevices`, a hash, is replaced by first-touched order. The unplug pass's hash order is a parameter. When the daemon is not stopped, `SecondPass.Poll` requires it to list every device of the release hash, as the hash iteration does. `PollOrderIndependent` shows the result does not depend on which such order is used.
- Qt timers and `QTime::elapsed` are state fields. Wall-clock time and the timer callbacks are not modelled.
- Floating point: distances are reals with no IEEE rounding. `fabs` is an exact absolute value.
- Translations (`trUtf8`) are left out: messages are the untranslated strings.
- The Windows `.exe` check in `accept` is left out: the model follows the Unix build.
- Absolute paths are those starting with '/'.
- File existence and executability are a `FileSystem` parameter.
- The "as default" box's layout-file state is a parameter.
- `QSettings::allKeys` order is a parameter.
- `QString::remove` is modelled for the non-empty "Disable" tag only.
- `QVariant::toBool` on strings is modelled (false for "", "0" and "false" in any case).
- AutoProfileInfo constructors are not part of this model: fields a constructor does not receive are taken as empty or false.
- Object identity of AutoProfileInfo instances is not modelled. The book holds values, and the unused `exeAutoProfiles` map is left out.
- `transferEditsToCurrentTableRow`, table-widget filling, message boxes, file dialogs and window capture are left out. They are UI glue.
- GradientButton.WheelEvent, WheelActivation, WheelFire, QueueFire: they re-arm the timer with the corrected interval of the joygradientbutton.cpp:287 row under "## Findings". As written, the source's integer division faults for 0 < distance < 1 at lines 287/441, 324/478 and 367/518, and these members do not model that fault.
- SetChange.Transition: the call of `setChangeSetSelection(-1)` for a Disabled result is recorded as `selectionReset`, and the target set is forced to -1. That method's other effects are not modelled, because src/joybutton.cpp is not part of this model; by its declaration at src/joybutton.h:90 it may also rebuild the summary. The same holds for `AxisButton.SetCondition`, `StickButton.SetCondition` and `TransitionIdempotent`.
- `getMouseDistanceFromDeadZone` of axis and stick buttons only forwards the owner's distance, which the gradient model takes as its parameter `d`.
- `getRealJoyNumber` and `getDirection` of a stick button only return the stored index, which the model uses directly as `StickButtonState.index`.
- GradientButton.WheelEvent: mouse-wheel slot events are the sends; the mouse helper threads that carry them out are not modelled.
- GradientButton.WheelInterval: the corrected interval uses real division, like the source's `oldInterval` at lines 258 and 262. Truncation happens only when the result is stored.

## Findings

| source | as written | input that shows it | evidently intended | confidence | as-written member | corrected member |
|---|---|---|---|---|---|---|
| src/joybuttontypes/joygradientbutton.cpp:287 | `1000 / wheelSpeedY / static_cast<int>(distance)` guarded only by `distance > 0.0`; the same expression also appears at lines 324, 367, 441, 478 and 518 | wheel speed 1, distance 0.5: `static_cast<int>(0.5)` is 0, an integer division by zero | divide by the distance as a real, as `oldInterval` does at lines 258 and 262 | medium; not executed | GradientButton.WheelIntervalAsWritten | GradientButton.WheelInterval |
| src/mainsettingsdialog.cpp:1752 | a new default is kept only when `getExe()` is non-empty | device "03000000" connected and not reserved: type window class "xterm" (the box is disabled), pick that device (the box is enabled again), check the box, accept; the default is saved with program "" and dropped | keep a default with a non-empty GUID, as the edit path and `populateAutoProfiles` do without any program path | medium; not executed | AutoProfileBook.DialogDefaultRoute | AutoProfileBook.AddNewAutoProfile |
| src/mainsettingsdialog.cpp:1760 | a new window-matched profile is kept only when `getExe()` is non-empty | device entry "all" (index 0, GUID "all"), no program, window class "xterm": the dialog accepts it and the book drops it | keep a profile with a GUID and any one matching property, the rule the dialog's validation and `populateAutoProfiles` use | medium; not executed | AutoProfileBook.AsWrittenDropsWindowOnlyProfiles | AutoProfileBook.AddNewAutoProfile |
