/** The decision logic of the add/edit auto-profile dialog
    (`AddEditAutoProfileDialog`): which GUIDs are reserved, when the
    "as default" box may be used, form validation and what saving writes
    back. Widgets are reduced to their text and check states; the file
    system is a parameter. */
module AutoProfileDialog {
  import opened Common

  /** An auto-profile entry (`AutoProfileInfo`). */
  datatype AutoProfileInfo = AutoProfileInfo(
    guid: string,
    profileLocation: string,
    exe: string,
    deviceName: string,
    windowClass: string,
    windowName: string,
    active: bool,
    defaultState: bool,
    partialState: bool)

  /** A check box: checked, enabled, and whether a tool tip explains why
      the default option is unavailable. */
  datatype CheckBox = CheckBox(checked: bool, enabled: bool, unavailableTip: bool)

  /** An entry of the device combo box: the leading "all" entry, a
      connected device (which carries the device as item data), or the
      "Current (name)" entry for a GUID no connected device has. */
  datatype DeviceItem = AllItem | ConnectedItem(guid: string, name: string) | CurrentItem(name: string)

  /** The dialog's editable state. */
  datatype Form = Form(
    profile: string,
    application: string,
    winClass: string,
    winName: string,
    asDefault: CheckBox,
    partial: bool,
    items: seq<DeviceItem>,
    deviceIndex: int)

  /** The file-system facts validation needs. */
  datatype FileSystem = FileSystem(existing: set<string>, executable: set<string>)

  /** `QFileInfo::isAbsolute` for Unix paths. */
  predicate IsAbsolute(path: string) {
    |path| > 0 && path[0] == '/'
  }

  /* ---------------- Reserved GUIDs ---------------- */

  predicate NoDuplicates<T(==)>(s: seq<T>) {
    forall i, j :: 0 <= i < j < |s| ==> s[i] != s[j]
  }

  /** Append each GUID that is not yet in the list, in the given order. */
  function DedupReserved(guids: seq<string>): (r: seq<string>)
    ensures NoDuplicates(r)
    ensures forall g :: g in r <==> g in guids
    ensures |r| <= |guids|
    decreases |guids|
  {
    if |guids| == 0 then []
    else
      var init := DedupReserved(guids[..|guids| - 1]);
      var g := guids[|guids| - 1];
      assert guids == guids[..|guids| - 1] + [g];
      if g in init then init else init + [g]
  }

  /** A list that already has no duplicates is kept as it is. */
  lemma {:induction false} DedupKeepsDistinct(guids: seq<string>)
    requires NoDuplicates(guids)
    ensures DedupReserved(guids) == guids
    decreases |guids|
  {
    if |guids| > 0 {
      var init := guids[..|guids| - 1];
      DedupKeepsDistinct(init);
      assert guids[|guids| - 1] !in init;
      assert guids == init + [guids[|guids| - 1]];
    }
  }

  /** Removing duplicates twice is removing them once. */
  lemma DedupIdempotent(guids: seq<string>)
    ensures DedupReserved(DedupReserved(guids)) == DedupReserved(guids)
  {
    DedupKeepsDistinct(DedupReserved(guids));
  }

  /* ---------------- The "as default" box ---------------- */

  /** A profile may be a device default only for a concrete GUID that no
      other default has reserved. */
  predicate AllowDefault(guid: string, reserved: seq<string>) {
    guid != "all" && guid != "" && guid !in DedupReserved(reserved)
  }

  /** The box as the constructor leaves it, starting from `initial` (its
      state as laid out in the form file). */
  function InitialDefaultBox(info: AutoProfileInfo, reserved: seq<string>, initial: CheckBox): (r: CheckBox)
    ensures r.enabled && !initial.enabled ==> AllowDefault(info.guid, reserved) && info.exe == ""
    ensures AllowDefault(info.guid, reserved) && info.exe == "" ==>
      r.enabled && r.checked == (initial.checked || info.defaultState) && r.unavailableTip == initial.unavailableTip
    ensures !(AllowDefault(info.guid, reserved) && info.exe == "") ==>
      r == initial.(unavailableTip := true)
  {
    if AllowDefault(info.guid, reserved) && info.exe == "" then
      initial.(enabled := true, checked := initial.checked || info.defaultState)
    else initial.(unavailableTip := true)
  }

  /** A box left unchecked by the form file ends up checked only for an
      entry that is a default, may be one, and has no program path. */
  lemma InitialBoxCheckedOnlyForDefaults(info: AutoProfileInfo, reserved: seq<string>, initial: CheckBox)
    requires !initial.checked
    ensures InitialDefaultBox(info, reserved, initial).checked ==>
      AllowDefault(info.guid, reserved) && info.defaultState && info.exe == ""
    ensures AllowDefault(info.guid, reserved) && info.defaultState && info.exe == "" ==>
      InitialDefaultBox(info, reserved, initial).checked
  {
  }

  predicate HasMatchingProperty(application: string, winClass: string, winName: string) {
    application != "" || winClass != "" || winName != ""
  }

  /** `checkForDefaultStatus`: any window-matching property disables and
      clears the box; with none the box is enabled again. */
  function CheckForDefaultStatus(f: Form): (r: Form)
    ensures HasMatchingProperty(f.application, f.winClass, f.winName) ==> !r.asDefault.checked && !r.asDefault.enabled
    ensures !HasMatchingProperty(f.application, f.winClass, f.winName) ==>
      r.asDefault.enabled && r.asDefault.checked == f.asDefault.checked
    ensures r.(asDefault := f.asDefault) == f
  {
    if HasMatchingProperty(f.application, f.winClass, f.winName) then
      f.(asDefault := f.asDefault.(checked := false, enabled := false))
    else f.(asDefault := f.asDefault.(enabled := true))
  }

  /** Invariant kept by `checkForDefaultStatus`: after it, a checked box
      means no window-matching property is set. */
  lemma DefaultStatusConsistent(f: Form)
    ensures var r := CheckForDefaultStatus(f);
      r.asDefault.checked ==> !HasMatchingProperty(r.application, r.winClass, r.winName)
    ensures CheckForDefaultStatus(CheckForDefaultStatus(f)) == CheckForDefaultStatus(f)
  {
  }

  /** The combo-box entry at `index` is a connected device whose GUID
      another default has reserved. */
  predicate ReservedDeviceAt(f: Form, reserved: seq<string>, index: int) {
    0 < index < |f.items| && f.items[index].ConnectedItem? && f.items[index].guid in DedupReserved(reserved)
  }

  /** `checkForReservedGUIDs`, run when the selected device changes to
      `f.deviceIndex`: the "all" entry and a connected device with a
      reserved GUID clear and disable the box (with an explanatory tool
      tip); any other connected device enables it again, whatever the
      window-matching fields hold; an entry without a device, such as
      "Current (name)", leaves the box alone. */
  function CheckForReservedGUIDs(f: Form, reserved: seq<string>): (r: Form)
    ensures f.deviceIndex == 0 || ReservedDeviceAt(f, reserved, f.deviceIndex) ==>
      r.asDefault == CheckBox(false, false, true)
    ensures 0 < f.deviceIndex < |f.items| && f.items[f.deviceIndex].ConnectedItem? &&
            !ReservedDeviceAt(f, reserved, f.deviceIndex) ==>
      r.asDefault == CheckBox(f.asDefault.checked, true, false)
    ensures f.deviceIndex != 0 && !(0 < f.deviceIndex < |f.items| && f.items[f.deviceIndex].ConnectedItem?) ==>
      r == f
    ensures r.(asDefault := f.asDefault) == f
  {
    if f.deviceIndex == 0 then f.(asDefault := CheckBox(false, false, true))
    else if 0 < f.deviceIndex < |f.items| && f.items[f.deviceIndex].ConnectedItem? then
      if f.items[f.deviceIndex].guid in DedupReserved(reserved) then f.(asDefault := CheckBox(false, false, true))
      else f.(asDefault := CheckBox(f.asDefault.checked, true, false))
    else f
  }

  /** After `checkForReservedGUIDs` the box can be checked or enabled only
      for a device entry that is not reserved, and repeating the check
      changes nothing. */
  lemma ReservedStatusConsistent(f: Form, reserved: seq<string>)
    ensures var r := CheckForReservedGUIDs(f, reserved);
      (r.asDefault.checked || r.asDefault.enabled) && f.deviceIndex >= 0 ==>
        r.deviceIndex != 0 && !ReservedDeviceAt(r, reserved, r.deviceIndex)
    ensures CheckForReservedGUIDs(CheckForReservedGUIDs(f, reserved), reserved) == CheckForReservedGUIDs(f, reserved)
  {
  }

  /** Unlike `checkForDefaultStatus`, switching to a free device enables
      the box even while a window-matching property is set, so the two
      checks together let a window-matched profile be saved as a default. */
  lemma DeviceSwitchReenablesBox(f: Form, reserved: seq<string>, index: int)
    requires HasMatchingProperty(f.application, f.winClass, f.winName)
    requires 0 < index < |f.items| && f.items[index].ConnectedItem? && f.items[index].guid !in reserved
    ensures var r := CheckForReservedGUIDs(CheckForDefaultStatus(f).(deviceIndex := index), reserved);
      r.asDefault.enabled && HasMatchingProperty(r.application, r.winClass, r.winName)
  {
  }

  /* ---------------- Validation ---------------- */

  datatype Verdict = Accepted | Rejected(message: string)

  const ProfileInvalid: string := "Profile file path is invalid."
  const NoPropertySpecified: string := "No window matching property was specified."
  const ProgramInvalid: string := "Program path is invalid or not executable."
  const NoPropertySelected: string := "No window matching property was selected."

  /** `accept` step by step, as written: a validity flag, the last error
      message, and a `propertyFound` flag that is set in the `else` of the
      combined "valid and no property" test. */
  function Accept(f: Form, fs: FileSystem): (r: Verdict)
    ensures r.Rejected? ==> r.message in {ProfileInvalid, NoPropertySpecified, ProgramInvalid, NoPropertySelected}
  {
    var valid0 := true;
    var err0 := "";
    var profileBad := |f.profile| > 0 && f.profile !in fs.existing;
    var valid1 := if profileBad then false else valid0;
    var err1 := if profileBad then ProfileInvalid else err0;
    var noProperty := f.application == "" && f.winClass == "" && f.winName == "";
    var valid2 := if valid1 && noProperty then false else valid1;
    var err2 := if valid1 && noProperty then NoPropertySpecified else err1;
    var propertyFound := !(valid1 && noProperty);
    var exeBad := f.application != "" && IsAbsolute(f.application) &&
                  (f.application !in fs.existing || f.application !in fs.executable);
    var valid3 := if valid2 && exeBad then false else valid2;
    var err3 := if valid2 && exeBad then ProgramInvalid else err2;
    var lastCheck := valid3 && !propertyFound && !f.asDefault.checked;
    var valid4 := if lastCheck then false else valid3;
    var err4 := if lastCheck then NoPropertySelected else err3;
    if valid4 then Accepted else Rejected(err4)
  }

  /** Reference definition: the first failing check names the error. */
  function Validate(f: Form, fs: FileSystem): Verdict {
    if |f.profile| > 0 && f.profile !in fs.existing then Rejected(ProfileInvalid)
    else if !HasMatchingProperty(f.application, f.winClass, f.winName) then Rejected(NoPropertySpecified)
    else if f.application != "" && IsAbsolute(f.application) &&
            (f.application !in fs.existing || f.application !in fs.executable) then Rejected(ProgramInvalid)
    else Accepted
  }

  /** The dialog accepts exactly when the reference checks pass, with the
      same message otherwise: the final "was selected" check can never
      fire, because `propertyFound` is false only once the form is already
      invalid. */
  lemma AcceptIsValidate(f: Form, fs: FileSystem)
    ensures Accept(f, fs) == Validate(f, fs)
    ensures Accept(f, fs) != Rejected(NoPropertySelected)
  {
  }

  /** Consequently the "as default" box plays no part in validation. */
  lemma AcceptIgnoresDefaultBox(f: Form, fs: FileSystem, box: CheckBox)
    ensures Accept(f, fs) == Accept(f.(asDefault := box), fs)
  {
    AcceptIsValidate(f, fs);
    AcceptIsValidate(f.(asDefault := box), fs);
  }

  /* ---------------- Device selection and saving ---------------- */

  /** The last device entry (1-based, after "all") whose GUID matches. */
  function FindDevice(devices: seq<DeviceItem>, guid: string): (found: int)
    ensures -1 <= found <= |devices|
    ensures found >= 1 ==> devices[found - 1].ConnectedItem? && devices[found - 1].guid == guid
    ensures found >= 1 ==> forall j :: found <= j < |devices| ==> !(devices[j].ConnectedItem? && devices[j].guid == guid)
    ensures found == -1 ==> forall i :: 0 <= i < |devices| && devices[i].ConnectedItem? ==> devices[i].guid != guid
    ensures found != 0
    decreases |devices|
  {
    if |devices| == 0 then -1
    else
      var last := devices[|devices| - 1];
      if last.ConnectedItem? && last.guid == guid then |devices|
      else FindDevice(devices[..|devices| - 1], guid)
  }

  /** The device combo box as the constructor fills it: "all", each
      connected device, and for a concrete GUID no device has, a trailing
      "Current (name)" entry; the current index follows the GUID. */
  function InitialDevices(info: AutoProfileInfo, connected: seq<(string, string)>): (r: (seq<DeviceItem>, int))
    ensures |r.0| >= 1 && r.0[0] == AllItem
    ensures 0 <= r.1 < |r.0|
    ensures info.guid == "" || info.guid == "all" ==> r.1 == 0
    ensures info.guid != "" && info.guid != "all" ==> r.1 > 0
  {
    var devices := seq(|connected|, i requires 0 <= i < |connected| => ConnectedItem(connected[i].0, connected[i].1));
    var items := [AllItem] + devices;
    if info.guid != "" && info.guid != "all" then
      var found := FindDevice(devices, info.guid);
      if found >= 0 then (items, found)
      else (items + [CurrentItem(info.deviceName)], |items|)
    else (items, 0)
  }

  /** `saveAutoProfileInformation`. Index 0 stores the "all" GUID and an
      empty device name; an entry carrying a device stores that device's
      GUID and name; any other positive index leaves both unchanged. */
  function SaveAutoProfileInformation(info: AutoProfileInfo, f: Form): (r: AutoProfileInfo)
    ensures f.deviceIndex <= 0 ==> r.guid == "all" && r.deviceName == ""
    ensures f.deviceIndex > 0 && f.deviceIndex < |f.items| && f.items[f.deviceIndex].ConnectedItem? ==>
      r.guid == f.items[f.deviceIndex].guid && r.deviceName == f.items[f.deviceIndex].name
    ensures f.deviceIndex > 0 && !(f.deviceIndex < |f.items| && f.items[f.deviceIndex].ConnectedItem?) ==>
      r.guid == info.guid && r.deviceName == info.deviceName
    ensures r.profileLocation == f.profile && r.exe == f.application
    ensures r.windowClass == f.winClass && r.windowName == f.winName
    ensures r.defaultState == f.asDefault.checked && r.partialState == f.partial
    ensures r.active == info.active
  {
    var withDevice :=
      if f.deviceIndex > 0 then
        if f.deviceIndex < |f.items| && f.items[f.deviceIndex].ConnectedItem? then
          info.(guid := f.items[f.deviceIndex].guid, deviceName := f.items[f.deviceIndex].name)
        else info
      else info.(guid := "all", deviceName := "");
    withDevice.(profileLocation := f.profile, exe := f.application, windowClass := f.winClass,
                windowName := f.winName, defaultState := f.asDefault.checked, partialState := f.partial)
  }

  /** The form the constructor shows for `info`. */
  function OpenForm(info: AutoProfileInfo, reserved: seq<string>, connected: seq<(string, string)>,
                    initial: CheckBox): Form {
    var (items, index) := InitialDevices(info, connected);
    Form(info.profileLocation, info.exe, info.windowClass, info.windowName,
         InitialDefaultBox(info, reserved, initial), info.partialState, items, index)
  }

  /** Opening an entry and saving it untouched keeps its GUID and its
      window-matching fields, except that an empty GUID comes back as
      "all". */
  lemma OpenSaveKeepsGuid(info: AutoProfileInfo, reserved: seq<string>, connected: seq<(string, string)>,
                          initial: CheckBox)
    ensures var r := SaveAutoProfileInformation(info, OpenForm(info, reserved, connected, initial));
      && r.guid == (if info.guid == "" then "all" else info.guid)
      && r.exe == info.exe && r.windowClass == info.windowClass && r.windowName == info.windowName
      && r.profileLocation == info.profileLocation && r.partialState == info.partialState
  {
    var (items, index) := InitialDevices(info, connected);
    if info.guid != "" && info.guid != "all" {
      var devices := seq(|connected|, i requires 0 <= i < |connected| => ConnectedItem(connected[i].0, connected[i].1));
      var found := FindDevice(devices, info.guid);
      if found >= 0 {
        assert items[index] == devices[found - 1];
      }
    }
  }
}
