/** The auto-profile book kept by the main settings dialog: the default
    profile per device, the list of window-matched profiles and the
    per-device lists, as filled from settings (`populateAutoProfiles`) and
    extended by the add dialog (`addNewAutoProfile`). Profiles are values;
    the object identity the source relies on is not modelled. */
module AutoProfileBook {
  import opened Common
  import opened AutoProfileDialog

  datatype Book = Book(
    defaults: map<string, AutoProfileInfo>,
    defaultList: seq<AutoProfileInfo>,
    profileList: seq<AutoProfileInfo>,
    deviceProfiles: map<string, seq<AutoProfileInfo>>)

  /** The book's invariant: defaults and per-device lists are filed under
      their profiles' GUIDs, and there is no per-device list for "all". */
  predicate WellFormed(b: Book) {
    && (forall g :: g in b.defaults ==> b.defaults[g].guid == g)
    && (forall g :: g in b.deviceProfiles ==> g != "all" && FiledUnder(b.deviceProfiles[g], g))
  }

  predicate FiledUnder(profiles: seq<AutoProfileInfo>, g: string) {
    forall j :: 0 <= j < |profiles| ==> profiles[j].guid == g
  }

  /** Whether `info` is in the book in the place its kind belongs. */
  predicate Registered(b: Book, info: AutoProfileInfo) {
    if info.defaultState then
      info.guid in b.defaults && b.defaults[info.guid] == info && info in b.defaultList
    else
      info in b.profileList &&
      (info.guid != "all" ==> info.guid in b.deviceProfiles && info in b.deviceProfiles[info.guid])
  }

  /** The book grew from `b`: nothing was removed or replaced. */
  predicate Extends(r: Book, b: Book) {
    && (forall g :: g in b.defaults ==> g in r.defaults && r.defaults[g] == b.defaults[g])
    && b.defaultList <= r.defaultList
    && b.profileList <= r.profileList
    && (forall g :: g in b.deviceProfiles ==> g in r.deviceProfiles && b.deviceProfiles[g] <= r.deviceProfiles[g])
  }

  /** Append a window-matched profile to its device's list, unless its
      GUID is "all". */
  function FileByDevice(lists: map<string, seq<AutoProfileInfo>>, info: AutoProfileInfo): (r: map<string, seq<AutoProfileInfo>>)
    ensures info.guid == "all" ==> r == lists
    ensures info.guid != "all" ==> info.guid in r && |r[info.guid]| > 0 && r[info.guid][|r[info.guid]| - 1] == info
    ensures r.Keys == if info.guid == "all" then lists.Keys else lists.Keys + {info.guid}
    ensures forall g :: g in lists ==> lists[g] <= r[g]
    ensures forall g :: g in lists && g != info.guid ==> r[g] == lists[g]
  {
    if info.guid != "all" then
      lists[info.guid := (if info.guid in lists then lists[info.guid] else []) + [info]]
    else lists
  }

  function AddDefault(b: Book, info: AutoProfileInfo): Book {
    b.(defaults := b.defaults[info.guid := info], defaultList := b.defaultList + [info])
  }

  function AddProfile(b: Book, info: AutoProfileInfo): Book {
    b.(profileList := b.profileList + [info], deviceProfiles := FileByDevice(b.deviceProfiles, info))
  }

  lemma AddProfileKeepsShape(b: Book, info: AutoProfileInfo)
    requires WellFormed(b)
    ensures WellFormed(AddProfile(b, info)) && Extends(AddProfile(b, info), b)
    ensures !info.defaultState ==> Registered(AddProfile(b, info), info)
  {
    var r := AddProfile(b, info);
    forall g | g in r.deviceProfiles
      ensures g != "all" && FiledUnder(r.deviceProfiles[g], g)
    {
      if g == info.guid && g !in b.deviceProfiles {
        assert r.deviceProfiles[g] == [info];
      }
    }
    if info.guid != "all" {
      var list := r.deviceProfiles[info.guid];
      assert list[|list| - 1] == info;
    }
    assert r.profileList[|r.profileList| - 1] == info;
  }

  /** `addNewAutoProfile` as written: a default is ignored when its GUID
      already has one, and both a default and a window-matched profile
      are kept only with a non-empty GUID AND a non-empty program path. */
  function AddNewAutoProfileAsWritten(b: Book, info: AutoProfileInfo): (r: Book)
    ensures r != b ==> info.guid != "" && info.exe != ""
    ensures info.defaultState && info.guid in b.defaults ==> r == b
    ensures info.defaultState ==> r.profileList == b.profileList && r.deviceProfiles == b.deviceProfiles
    ensures !info.defaultState ==> r.defaults == b.defaults && r.defaultList == b.defaultList
  {
    if info.defaultState && info.guid in b.defaults then b
    else if info.defaultState then
      if info.guid != "" && info.exe != "" then AddDefault(b, info) else b
    else if info.guid != "" && info.exe != "" then
      AddProfile(b, info)
    else b
  }

  /** The book's invariant survives, nothing is lost, and a profile with a
      GUID and a program path is registered unless its device already has
      a default. */
  lemma AddNewAsWrittenKeepsShape(b: Book, info: AutoProfileInfo)
    requires WellFormed(b)
    ensures var r := AddNewAutoProfileAsWritten(b, info);
      && WellFormed(r) && Extends(r, b)
      && (info.guid != "" && info.exe != "" && !(info.defaultState && info.guid in b.defaults) ==> Registered(r, info))
  {
    if !info.defaultState {
      AddProfileKeepsShape(b, info);
    }
  }

  /** Which new profiles the book takes, as evidently intended: a default
      needs only a GUID (defaults never carry a program path, and editing
      a default asks for none), and a window-matched profile needs a GUID
      and any one matching property, as the dialog's validation and
      `populateAutoProfiles` do. */
  predicate Eligible(b: Book, info: AutoProfileInfo) {
    if info.defaultState then info.guid != "" && info.guid !in b.defaults
    else info.guid != "" && HasMatchingProperty(info.exe, info.windowClass, info.windowName)
  }

  /** `addNewAutoProfile` with the eligibility rule corrected. */
  function AddNewAutoProfile(b: Book, info: AutoProfileInfo): (r: Book)
    ensures !Eligible(b, info) ==> r == b
    ensures info.defaultState ==> r.profileList == b.profileList && r.deviceProfiles == b.deviceProfiles
    ensures !info.defaultState ==> r.defaults == b.defaults && r.defaultList == b.defaultList
  {
    if !Eligible(b, info) then b
    else if info.defaultState then AddDefault(b, info)
    else AddProfile(b, info)
  }

  /** The corrected rule keeps the invariant and registers exactly the
      eligible profiles. */
  lemma AddNewKeepsShape(b: Book, info: AutoProfileInfo)
    requires WellFormed(b)
    ensures var r := AddNewAutoProfile(b, info);
      && WellFormed(r) && Extends(r, b)
      && (Eligible(b, info) ==> Registered(r, info))
  {
    if Eligible(b, info) && !info.defaultState {
      AddProfileKeepsShape(b, info);
    }
  }

  /* ---------------- The eligibility fault ---------------- */

  /** The dialog accepts a form only with a window-matching property set
      (`AcceptIsValidate`), so a default it hands over carries one. When
      that property is not a program path, the default is saved with an
      empty program path and the rule as written drops it. */
  lemma AsWrittenDropsDialogDefaults(b: Book, original: AutoProfileInfo, f: Form, fs: FileSystem)
    requires Accept(f, fs) == Accepted && f.asDefault.checked && f.application == ""
    ensures var info := SaveAutoProfileInformation(original, f);
      && info.defaultState && info.exe == ""
      && HasMatchingProperty(info.exe, info.windowClass, info.windowName)
      && AddNewAutoProfileAsWritten(b, info) == b
  {
    AcceptIsValidate(f, fs);
  }

  /** With the corrected rule, every default the dialog accepts is
      registered whenever its device has a GUID and no default yet. */
  lemma CorrectedKeepsDialogDefaults(b: Book, original: AutoProfileInfo, f: Form, fs: FileSystem)
    requires WellFormed(b)
    requires Accept(f, fs) == Accepted && f.asDefault.checked
    requires var info := SaveAutoProfileInformation(original, f);
      info.guid != "" && info.guid !in b.defaults
    ensures var info := SaveAutoProfileInformation(original, f);
      Registered(AddNewAutoProfile(b, info), info)
  {
    AddNewKeepsShape(b, SaveAutoProfileInformation(original, f));
  }

  /** A route through the dialog that reaches such a default: type a
      window class (the box is cleared and disabled), pick the connected,
      unreserved device "03000000" (the box is enabled again), check the
      box and accept. The entry is saved as that device's default with no
      program path; the rule as written drops it and the corrected rule
      registers it. */
  lemma DialogDefaultRoute()
    ensures var start := Form("", "", "", "", CheckBox(false, false, false), false,
                              [AllItem, ConnectedItem("03000000", "pad")], 0);
      var typed := CheckForDefaultStatus(start.(winClass := "xterm"));
      var picked := CheckForReservedGUIDs(typed.(deviceIndex := 1), []);
      var f := picked.(asDefault := picked.asDefault.(checked := true));
      var info := SaveAutoProfileInformation(AutoProfileInfo("", "", "", "", "", "", true, false, false), f);
      var empty := Book(map[], [], [], map[]);
      && !typed.asDefault.enabled && picked.asDefault.enabled
      && Accept(f, FileSystem({}, {})) == Accepted
      && info.guid == "03000000" && info.defaultState && info.exe == ""
      && AddNewAutoProfileAsWritten(empty, info) == empty
      && Registered(AddNewAutoProfile(empty, info), info)
  {
    var start := Form("", "", "", "", CheckBox(false, false, false), false,
                      [AllItem, ConnectedItem("03000000", "pad")], 0);
    var typed := CheckForDefaultStatus(start.(winClass := "xterm"));
    var picked := CheckForReservedGUIDs(typed.(deviceIndex := 1), []);
    var f := picked.(asDefault := picked.asDefault.(checked := true));
    var info := SaveAutoProfileInformation(AutoProfileInfo("", "", "", "", "", "", true, false, false), f);
    AcceptIsValidate(f, FileSystem({}, {}));
    AddNewKeepsShape(Book(map[], [], [], map[]), info);
  }

  /** A profile matched by window class alone passes the dialog's
      validation, yet the rule as written drops it. */
  lemma AsWrittenDropsWindowOnlyProfiles()
    ensures var f := Form("", "", "xterm", "", CheckBox(false, false, false), false, [AllItem], 0);
      var info := SaveAutoProfileInformation(AutoProfileInfo("", "", "", "", "", "", true, false, false), f);
      var empty := Book(map[], [], [], map[]);
      && Accept(f, FileSystem({}, {})) == Accepted
      && AddNewAutoProfileAsWritten(empty, info) == empty
      && Registered(AddNewAutoProfile(empty, info), info)
  {
    var f := Form("", "", "xterm", "", CheckBox(false, false, false), false, [AllItem], 0);
    var info := SaveAutoProfileInformation(AutoProfileInfo("", "", "", "", "", "", true, false, false), f);
    var empty := Book(map[], [], [], map[]);
    AcceptIsValidate(f, FileSystem({}, {}));
    AddNewKeepsShape(empty, info);
  }

  /** Whatever the dialog accepts and saves as a window-matched profile, the
      corrected rule registers. */
  lemma CorrectedKeepsAcceptedProfiles(b: Book, original: AutoProfileInfo, f: Form, fs: FileSystem)
    requires WellFormed(b)
    requires Accept(f, fs) == Accepted && !f.asDefault.checked
    requires SaveAutoProfileInformation(original, f).guid != ""
    ensures Registered(AddNewAutoProfile(b, SaveAutoProfileInformation(original, f)), SaveAutoProfileInformation(original, f))
  {
    AcceptIsValidate(f, fs);
    AddNewKeepsShape(b, SaveAutoProfileInformation(original, f));
  }

  /* ---------------- Loading from settings ---------------- */

  /** The group "DefaultAutoProfile-<guid>" (missing keys read as their
      defaults). */
  datatype StoredDefault = StoredDefault(profile: string, active: string, partialTitle: string, deviceName: string)

  const BlankDefault: StoredDefault := StoredDefault("", "0", "0", "")

  /** The keys "AutoProfile<i>..." of one numbered entry. */
  datatype StoredProfile = StoredProfile(
    exe: string, windowName: string, windowClass: string, guid: string,
    profile: string, active: string, partialTitle: string, deviceName: string)

  function DefaultFor(store: map<string, StoredDefault>, g: string): StoredDefault {
    if g in store then store[g] else BlankDefault
  }

  /** A registered default is loaded when it names a GUID, a profile and a
      device, and its GUID is not "all" (a GUID already loaded is skipped by the loop). */
  predicate UsableDefault(g: string, d: StoredDefault) {
    g != "" && d.profile != "" && d.deviceName != "" && g != "all"
  }

  function DefaultInfo(g: string, d: StoredDefault): AutoProfileInfo {
    AutoProfileInfo(g, d.profile, "", d.deviceName, "", "", d.active == "1", true, d.partialTitle == "1")
  }

  /** The loop over the registered GUIDs, in order. */
  function LoadDefaults(b: Book, registered: seq<string>, store: map<string, StoredDefault>): (r: Book)
    ensures r.profileList == b.profileList
    ensures forall g :: g in r.defaults <==> g in b.defaults || (g in registered && UsableDefault(g, DefaultFor(store, g)))
    ensures forall g :: g in r.defaults && g !in b.defaults ==> r.defaults[g] == DefaultInfo(g, DefaultFor(store, g))
    ensures WellFormed(b) ==> WellFormed(r)
    decreases |registered|
  {
    if |registered| == 0 then b
    else
      var n := |registered| - 1;
      var prev := LoadDefaults(b, registered[..n], store);
      var g := registered[n];
      var d := DefaultFor(store, g);
      assert forall h :: h in registered <==> h in registered[..n] || h == g by {
        assert registered == registered[..n] + [g];
      }
      if UsableDefault(g, d) && g !in prev.defaults then
        var info := DefaultInfo(g, d);
        prev.(defaults := prev.defaults[g := info], defaultList := prev.defaultList + [info],
              deviceProfiles := prev.deviceProfiles[g := [info]])
      else prev
  }

  function ProfileInfo(e: StoredProfile): AutoProfileInfo {
    AutoProfileInfo(e.guid, e.profile, e.exe, e.deviceName, e.windowClass, e.windowName,
                    e.active == "1", false, e.partialTitle == "1")
  }

  /** An entry counts only with a GUID and some window-matching property. */
  predicate CompleteEntry(e: StoredProfile) {
    HasMatchingProperty(e.exe, e.windowClass, e.windowName) && e.guid != ""
  }

  /** Entries 1, 2, ... are read until the first incomplete one; every
      entry past the stored ones reads as blank and ends the search. */
  function ReadProfiles(entries: seq<StoredProfile>): (r: seq<AutoProfileInfo>)
    ensures |r| <= |entries|
    ensures forall i :: 0 <= i < |r| ==> CompleteEntry(entries[i]) && r[i] == ProfileInfo(entries[i])
    ensures |r| < |entries| ==> !CompleteEntry(entries[|r|])
    decreases |entries|
  {
    if |entries| == 0 || !CompleteEntry(entries[0]) then []
    else [ProfileInfo(entries[0])] + ReadProfiles(entries[1..])
  }

  /** The number of entries read is the index of the first incomplete one. */
  lemma ReadProfilesStopsAtFirstGap(entries: seq<StoredProfile>, k: nat)
    requires k <= |entries|
    requires forall i :: 0 <= i < k ==> CompleteEntry(entries[i])
    requires k < |entries| ==> !CompleteEntry(entries[k])
    ensures |ReadProfiles(entries)| == k
  {
  }

  function AddProfiles(b: Book, profiles: seq<AutoProfileInfo>): (r: Book)
    ensures r.defaults == b.defaults && r.defaultList == b.defaultList
    ensures r.profileList == b.profileList + profiles
    decreases |profiles|
  {
    if |profiles| == 0 then b
    else AddProfile(AddProfiles(b, profiles[..|profiles| - 1]), profiles[|profiles| - 1])
  }

  lemma {:induction false} AddProfilesKeepsShape(b: Book, profiles: seq<AutoProfileInfo>)
    requires WellFormed(b)
    ensures WellFormed(AddProfiles(b, profiles)) && Extends(AddProfiles(b, profiles), b)
    decreases |profiles|
  {
    if |profiles| > 0 {
      var prev := AddProfiles(b, profiles[..|profiles| - 1]);
      AddProfilesKeepsShape(b, profiles[..|profiles| - 1]);
      AddProfileKeepsShape(prev, profiles[|profiles| - 1]);
    }
  }

  /** `populateAutoProfiles`: the "all" default, then the registered
      defaults (the defaults map is cleared first), then the numbered
      window-matched entries. */
  function PopulateAutoProfiles(b: Book, all: StoredDefault, registered: seq<string>,
                                store: map<string, StoredDefault>, entries: seq<StoredProfile>): (r: (AutoProfileInfo, Book))
    ensures r.0.guid == "all" && r.0.defaultState
    ensures forall g :: g in r.1.defaults <==> g in registered && UsableDefault(g, DefaultFor(store, g))
    ensures r.1.profileList == b.profileList + ReadProfiles(entries)
  {
    var allDefault := AutoProfileInfo("all", all.profile, "", "", "", "", all.active == "1", true, all.partialTitle == "1");
    var withDefaults := LoadDefaults(b.(defaults := map[]), registered, store);
    (allDefault, AddProfiles(withDefaults, ReadProfiles(entries)))
  }

  /** Loading keeps the book's invariant: in particular no per-device list
      is ever opened for "all", and each default is filed under its GUID. */
  lemma PopulateKeepsShape(b: Book, all: StoredDefault, registered: seq<string>,
                           store: map<string, StoredDefault>, entries: seq<StoredProfile>)
    requires WellFormed(b)
    ensures WellFormed(PopulateAutoProfiles(b, all, registered, store, entries).1)
  {
    var withDefaults := LoadDefaults(b.(defaults := map[]), registered, store);
    AddProfilesKeepsShape(withDefaults, ReadProfiles(entries));
  }
}
