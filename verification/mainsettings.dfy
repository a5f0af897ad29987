/** Settings bookkeeping of the main settings dialog
    (`MainSettingsDialog`): the language list, the controller-mapping table
    and its synchronisation with the "Mappings" settings group, and the
    log-level clamp. Settings groups are maps from key to string value;
    the order in which a group lists its keys is a parameter. */
module MainSettings {
  import opened Common

  /* ---------------- Language ---------------- */

  /** The codes behind rows 1 to 12 of the language list; row 0 is "system
      default". */
  const LocaleCodes: seq<string> := ["br", "en", "fr", "de", "it", "ja", "ru", "sr", "zh_CN", "es", "uk", "pl"]

  /** What choosing a row does: the value left under the "Language" key
      (`None` when the key is removed) and the locale announced. */
  datatype LocaleChange = LocaleChange(language: Option<string>, announced: string)

  /** The code written for a row other than 0, in the order of the
      source's comparisons; rows outside the list fall back to "en". */
  function RowLocale(row: int): (code: string)
    ensures 1 <= row <= |LocaleCodes| ==> code == LocaleCodes[row - 1]
    ensures !(1 <= row <= |LocaleCodes|) ==> code == "en"
  {
    if row == 1 then "br"
    else if row == 2 then "en"
    else if row == 3 then "fr"
    else if row == 4 then "de"
    else if row == 5 then "it"
    else if row == 6 then "ja"
    else if row == 7 then "ru"
    else if row == 8 then "sr"
    else if row == 9 then "zh_CN"
    else if row == 10 then "es"
    else if row == 11 then "uk"
    else if row == 12 then "pl"
    else "en"
  }

  /** `checkLocaleChange`: row 0 removes the "Language" key and announces
      the system locale; any other row stores and announces a code. */
  function CheckLocaleChange(row: int, systemLocale: string): (r: LocaleChange)
    ensures row == 0 <==> r.language.None?
    ensures row == 0 ==> r.announced == systemLocale
    ensures row != 0 ==> r.language == Some(r.announced) && r.announced in LocaleCodes
  {
    if row == 0 then LocaleChange(None, systemLocale)
    else
      var code := RowLocale(row);
      LocaleChange(Some(code), code)
  }

  /** `changePresetLanguage`: the row selected for the stored language. */
  function ChangePresetLanguage(language: Option<string>): (row: int)
    ensures 0 <= row <= |LocaleCodes|
    ensures row > 0 ==> language == Some(LocaleCodes[row - 1])
    ensures row == 0 <==> language.None? || language.value !in LocaleCodes
  {
    if language.None? then 0
    else
      var lang := language.value;
      if lang == "br" then 1
      else if lang == "en" then 2
      else if lang == "fr" then 3
      else if lang == "de" then 4
      else if lang == "it" then 5
      else if lang == "ja" then 6
      else if lang == "ru" then 7
      else if lang == "sr" then 8
      else if lang == "zh_CN" then 9
      else if lang == "es" then 10
      else if lang == "uk" then 11
      else if lang == "pl" then 12
      else 0
  }

  /** Choosing a row of the list and reopening the dialog selects the same
      row again. */
  lemma RowRoundTrip(row: int, systemLocale: string)
    requires 0 <= row <= |LocaleCodes|
    ensures ChangePresetLanguage(CheckLocaleChange(row, systemLocale).language) == row
  {
  }

  /** A stored known code survives reopening the dialog and confirming the
      row it selects. */
  lemma CodeRoundTrip(code: string, systemLocale: string)
    requires code in LocaleCodes
    ensures CheckLocaleChange(ChangePresetLanguage(Some(code)), systemLocale).language == Some(code)
  {
  }

  /** An unknown stored code reopens as the system default row, and
      confirming that row removes it. */
  lemma UnknownCodeDropped(code: string, systemLocale: string)
    requires code !in LocaleCodes
    ensures ChangePresetLanguage(Some(code)) == 0
    ensures CheckLocaleChange(ChangePresetLanguage(Some(code)), systemLocale).language.None?
  {
  }

  /* ---------------- Log level ---------------- */

  /** The log level saved from the combo box index, clamped to
      `[0, logMax]` (`logMax` is the logger's highest level). */
  function ClampLogLevel(index: int, logMax: int): (level: int)
    ensures logMax >= 0 ==> 0 <= level <= logMax
    ensures 0 <= index <= logMax ==> level == index
    ensures index < 0 && logMax >= 0 ==> level == 0
    ensures index > logMax ==> level == logMax
  {
    var low := if index < 0 then 0 else index;
    if logMax < low then logMax else low
  }

  /** Clamping is monotone and clamping a saved level again keeps it. */
  lemma ClampLogLevelMonotone(a: int, b: int, logMax: int)
    requires a <= b && logMax >= 0
    ensures ClampLogLevel(a, logMax) <= ClampLogLevel(b, logMax)
    ensures ClampLogLevel(ClampLogLevel(a, logMax), logMax) == ClampLogLevel(a, logMax)
  {
  }

  /* ---------------- Controller mappings ---------------- */

  /** One row of the temporary mapping table: GUID, mapping string and
      whether the game-controller interface is disabled for the device. */
  datatype MappingEntry = MappingEntry(guid: string, mapping: string, disabled: bool)

  type MappingTable = map<string, MappingEntry>

  /** Keys with this tag carry the disable flag of the GUID they tag. */
  const DisableTag: string := "Disable"

  function Lower(c: char): char {
    if 'A' <= c <= 'Z' then (c as int - 'A' as int + 'a' as int) as char else c
  }

  /** `QVariant::toBool` on a string: false exactly for "", "0" and "false"
      in any letter case. */
  predicate ToBool(v: string) {
    !(v == "" || v == "0" ||
      (|v| == 5 && Lower(v[0]) == 'f' && Lower(v[1]) == 'a' && Lower(v[2]) == 'l' &&
       Lower(v[3]) == 's' && Lower(v[4]) == 'e'))
  }

  /** Every entry is stored under its own non-empty GUID. */
  predicate KeyedByGuid(t: MappingTable) {
    forall g :: g in t ==> g != "" && t[g].guid == g
  }

  /** `insertTempControllerMapping`: a blank entry for a new, non-empty
      GUID; existing entries are untouched. */
  function InsertTempControllerMapping(t: MappingTable, guid: string): (r: MappingTable)
    ensures r.Keys == if guid == "" then t.Keys else t.Keys + {guid}
    ensures forall g :: g in t ==> g in r && r[g] == t[g]
    ensures guid != "" && guid !in t ==> guid in r && r[guid] == MappingEntry(guid, "", false)
    ensures KeyedByGuid(t) ==> KeyedByGuid(r)
  {
    if guid != "" && guid !in t then t[guid := MappingEntry(guid, "", false)] else t
  }

  /** One settings key read by `fillControllerMappingsTable`. A key
      containing the tag has every occurrence of the tag removed to give
      the GUID and sets the disable flag; any other key sets the mapping
      string when its value is non-empty. */
  function ParseMappingKey(t: MappingTable, key: string, value: string): (r: MappingTable)
    ensures t.Keys <= r.Keys
    ensures Contains(key, DisableTag) ==> forall g :: g in t ==> g in r && r[g].mapping == t[g].mapping
    ensures !Contains(key, DisableTag) ==> forall g :: g in t ==> g in r && r[g].disabled == t[g].disabled
    ensures KeyedByGuid(t) ==> KeyedByGuid(r)
  {
    if Contains(key, DisableTag) then
      var guid := RemoveAll(key, DisableTag);
      var h := InsertTempControllerMapping(t, guid);
      if guid in h then h[guid := h[guid].(disabled := ToBool(value))] else h
    else if value != "" then
      var h := InsertTempControllerMapping(t, key);
      if key in h then h[key := h[key].(mapping := value)] else h
    else t
  }

  /** The whole key list, in the order the settings group lists it. */
  function FillControllerMappings(keys: seq<(string, string)>): (t: MappingTable)
    ensures KeyedByGuid(t)
    decreases |keys|
  {
    if |keys| == 0 then map[]
    else
      var k := keys[|keys| - 1];
      ParseMappingKey(FillControllerMappings(keys[..|keys| - 1]), k.0, k.1)
  }

  /** Reference definitions: the value of the last untagged key equal to
      `g` with a non-empty value, and the flag of the last tagged key that
      strips to `g`. */
  function LastMapping(keys: seq<(string, string)>, g: string): Option<string>
    decreases |keys|
  {
    if |keys| == 0 then None
    else
      var k := keys[|keys| - 1];
      if !Contains(k.0, DisableTag) && k.1 != "" && k.0 == g then Some(k.1)
      else LastMapping(keys[..|keys| - 1], g)
  }

  function LastDisable(keys: seq<(string, string)>, g: string): Option<bool>
    decreases |keys|
  {
    if |keys| == 0 then None
    else
      var k := keys[|keys| - 1];
      if Contains(k.0, DisableTag) && RemoveAll(k.0, DisableTag) == g then Some(ToBool(k.1))
      else LastDisable(keys[..|keys| - 1], g)
  }

  function OrElse<T>(o: Option<T>, d: T): T {
    if o.Some? then o.value else d
  }

  /** What the table holds after reading a key list: an entry for exactly
      the non-empty GUIDs some key names, carrying the last mapping and the
      last disable flag written for it. */
  lemma {:induction false} FillCharacterised(keys: seq<(string, string)>, g: string)
    ensures g in FillControllerMappings(keys) <==>
      g != "" && (LastMapping(keys, g).Some? || LastDisable(keys, g).Some?)
    ensures g in FillControllerMappings(keys) ==>
      FillControllerMappings(keys)[g] ==
        MappingEntry(g, OrElse(LastMapping(keys, g), ""), OrElse(LastDisable(keys, g), false))
    decreases |keys|
  {
    if |keys| > 0 {
      var init := keys[..|keys| - 1];
      FillCharacterised(init, g);
    }
  }

  /** A row of the mapping table widget; `None` is a missing cell. */
  datatype MappingRow = MappingRow(guid: Option<string>, mapping: Option<string>, disable: Option<bool>)

  /** Rows that `syncMappingSettings` writes. */
  predicate Written(row: MappingRow) {
    row.guid.Some? && row.guid.value != "" && row.disable.Some?
  }

  function MappingText(row: MappingRow): string {
    if row.mapping.Some? then row.mapping.value else ""
  }

  function FlagText(b: bool): string {
    if b then "1" else "0"
  }

  function RowWrites(row: MappingRow): seq<(string, string)> {
    if Written(row) then
      (if MappingText(row) != "" then [(row.guid.value, MappingText(row))] else []) +
      [(row.guid.value + DisableTag, FlagText(row.disable.value))]
    else []
  }

  /** `syncMappingSettings`: the `setValue` calls, in order, after the group
      has been cleared. */
  function SyncMappingSettings(rows: seq<MappingRow>): (writes: seq<(string, string)>)
    ensures |writes| <= 2 * |rows|
    ensures forall i :: 0 <= i < |writes| ==> writes[i].1 != ""
    ensures (forall i :: 0 <= i < |rows| ==> !Written(rows[i])) ==> writes == []
    decreases |rows|
  {
    if |rows| == 0 then []
    else SyncMappingSettings(rows[..|rows| - 1]) + RowWrites(rows[|rows| - 1])
  }

  /** A settings group after a series of writes; the last write of a key wins. */
  function Store(writes: seq<(string, string)>): (s: map<string, string>)
    ensures |writes| > 0 ==> writes[|writes| - 1].0 in s && s[writes[|writes| - 1].0] == writes[|writes| - 1].1
    decreases |writes|
  {
    if |writes| == 0 then map[]
    else
      var w := writes[|writes| - 1];
      Store(writes[..|writes| - 1])[w.0 := w.1]
  }

  lemma {:induction false} StoreAppend(a: seq<(string, string)>, b: seq<(string, string)>)
    ensures Store(a + b) == Store(a) + Store(b)
    decreases |b|
  {
    if |b| == 0 {
      assert a + b == a;
    } else {
      var b0 := b[..|b| - 1];
      StoreAppend(a, b0);
      assert (a + b)[..|a + b| - 1] == a + b0;
    }
  }

  /** SDL writes GUIDs as lower-case hexadecimal. */
  predicate HexGuid(g: string) {
    |g| > 0 && forall i :: 0 <= i < |g| ==> g[i] in "0123456789abcdef"
  }

  lemma HexHasNoTag(g: string)
    requires HexGuid(g)
    ensures !Contains(g, DisableTag)
  {
    forall i: nat | i <= |g|
      ensures !ContainsAt(g, DisableTag, i)
    {
      if i + |DisableTag| <= |g| {
        assert g[i..i + |DisableTag|][0] == g[i] != DisableTag[0];
      }
    }
  }

  lemma {:induction false} StripTagged(g: string)
    requires forall i :: 0 <= i < |g| ==> g[i] != 'D'
    ensures Contains(g + DisableTag, DisableTag)
    ensures RemoveAll(g + DisableTag, DisableTag) == g
    decreases |g|
  {
    assert ContainsAt(g + DisableTag, DisableTag, |g|) by {
      assert (g + DisableTag)[|g|..|g| + |DisableTag|] == DisableTag;
    }
    if |g| > 0 {
      var s := g + DisableTag;
      assert s[..|DisableTag|] != DisableTag by {
        assert s[0] == g[0] != 'D';
      }
      StripTagged(g[1..]);
      assert s[1..] == g[1..] + DisableTag;
      assert [s[0]] + g[1..] == g;
    } else {
      assert g + DisableTag == DisableTag;
    }
  }

  lemma HexStrip(g: string)
    requires HexGuid(g)
    ensures !Contains(g, DisableTag)
    ensures Contains(g + DisableTag, DisableTag)
    ensures RemoveAll(g + DisableTag, DisableTag) == g
  {
    HexHasNoTag(g);
    StripTagged(g);
  }

  /** The table rows a sync can round-trip: complete rows, each under a
      distinct hexadecimal GUID. */
  predicate SyncableRows(rows: seq<MappingRow>) {
    && (forall i :: 0 <= i < |rows| ==> Written(rows[i]) && HexGuid(rows[i].guid.value))
    && (forall i, j :: 0 <= i < j < |rows| ==> rows[i].guid.value != rows[j].guid.value)
  }

  function Guid(rows: seq<MappingRow>, i: int): string
    requires 0 <= i < |rows| && rows[i].guid.Some?
  {
    rows[i].guid.value
  }

  /** The shape of the group after syncing the first `n` rows: each row's
      tagged key holds its flag, its plain key holds a non-empty mapping,
      and nothing else is stored. */
  predicate FlagsStored(s: map<string, string>, rows: seq<MappingRow>, n: int)
    requires SyncableRows(rows) && n <= |rows|
  {
    forall i :: 0 <= i < n ==>
      Guid(rows, i) + DisableTag in s && s[Guid(rows, i) + DisableTag] == FlagText(rows[i].disable.value)
  }

  predicate MappingsStored(s: map<string, string>, rows: seq<MappingRow>, n: int)
    requires SyncableRows(rows) && n <= |rows|
  {
    forall i :: 0 <= i < n ==>
      (Guid(rows, i) in s <==> MappingText(rows[i]) != "") &&
      (Guid(rows, i) in s ==> s[Guid(rows, i)] == MappingText(rows[i]))
  }

  predicate OnlyRowKeys(s: map<string, string>, rows: seq<MappingRow>, n: int)
    requires SyncableRows(rows) && n <= |rows|
  {
    forall k :: k in s ==> exists i :: 0 <= i < n && (k == Guid(rows, i) || k == Guid(rows, i) + DisableTag)
  }

  predicate SyncedStore(s: map<string, string>, rows: seq<MappingRow>, n: int)
    requires SyncableRows(rows) && n <= |rows|
  {
    FlagsStored(s, rows, n) && MappingsStored(s, rows, n) && OnlyRowKeys(s, rows, n)
  }

  lemma TaggedDiffers(a: string, b: string)
    requires HexGuid(a)
    ensures a != b + DisableTag
  {
    if |a| == |b| + |DisableTag| {
      assert (b + DisableTag)[|b|] == 'D' != a[|b|];
    }
  }

  lemma TagCancels(a: string, b: string)
    requires a + DisableTag == b + DisableTag
    ensures a == b
  {
    assert |a| == |b|;
    assert a == (a + DisableTag)[..|a|];
    assert b == (b + DisableTag)[..|b|];
  }

  lemma StoreSingle(k: string, v: string)
    ensures Store([(k, v)]) == map[k := v]
  {
    assert [(k, v)][..0] == [];
  }

  lemma StorePair(k1: string, v1: string, k2: string, v2: string)
    ensures Store([(k1, v1), (k2, v2)]) == map[k1 := v1][k2 := v2]
  {
    assert [(k1, v1), (k2, v2)][..1] == [(k1, v1)];
    StoreSingle(k1, v1);
  }

  /** What one row writes. */
  lemma RowStoreShape(row: MappingRow)
    requires Written(row) && HexGuid(row.guid.value)
    ensures var last := Store(RowWrites(row)); var g := row.guid.value;
      && last.Keys == (if MappingText(row) != "" then {g} else {}) + {g + DisableTag}
      && last[g + DisableTag] == FlagText(row.disable.value)
      && (g in last ==> last[g] == MappingText(row))
  {
    var g := row.guid.value;
    var flag := FlagText(row.disable.value);
    TaggedDiffers(g, g);
    if MappingText(row) != "" {
      assert RowWrites(row) == [(g, MappingText(row)), (g + DisableTag, flag)];
      StorePair(g, MappingText(row), g + DisableTag, flag);
    } else {
      assert RowWrites(row) == [(g + DisableTag, flag)];
      StoreSingle(g + DisableTag, flag);
    }
  }

  /** The keys of row `n` are none of the keys of the rows before it. */
  lemma FreshRowKeys(rows: seq<MappingRow>, n: int, i: int)
    requires SyncableRows(rows) && 0 <= i < n < |rows|
    ensures Guid(rows, i) != Guid(rows, n) && Guid(rows, i) != Guid(rows, n) + DisableTag
    ensures Guid(rows, i) + DisableTag != Guid(rows, n) && Guid(rows, i) + DisableTag != Guid(rows, n) + DisableTag
  {
    TaggedDiffers(Guid(rows, i), Guid(rows, n));
    TaggedDiffers(Guid(rows, n), Guid(rows, i));
    if Guid(rows, i) + DisableTag == Guid(rows, n) + DisableTag {
      TagCancels(Guid(rows, i), Guid(rows, n));
    }
  }

  lemma StepFlags(prev: map<string, string>, last: map<string, string>, rows: seq<MappingRow>, n: int)
    requires SyncableRows(rows) && 0 <= n < |rows|
    requires FlagsStored(prev, rows, n)
    requires last == Store(RowWrites(rows[n]))
    ensures FlagsStored(prev + last, rows, n + 1)
  {
    RowStoreShape(rows[n]);
    forall i | 0 <= i < n
      ensures Guid(rows, i) + DisableTag !in last
    {
      FreshRowKeys(rows, n, i);
    }
  }

  lemma StepMappings(prev: map<string, string>, last: map<string, string>, rows: seq<MappingRow>, n: int)
    requires SyncableRows(rows) && 0 <= n < |rows|
    requires MappingsStored(prev, rows, n) && OnlyRowKeys(prev, rows, n)
    requires last == Store(RowWrites(rows[n]))
    ensures MappingsStored(prev + last, rows, n + 1)
  {
    PlainKeyFresh(prev, rows, n);
    RowPlainKey(rows[n]);
    forall i | 0 <= i < n
      ensures Guid(rows, i) !in last
    {
      FreshRowKeys(rows, n, i);
      RowKeys(rows[n], Guid(rows, i));
    }
  }

  /** The plain key a row writes: present exactly with a non-empty mapping. */
  lemma RowPlainKey(row: MappingRow)
    requires Written(row) && HexGuid(row.guid.value)
    ensures var last := Store(RowWrites(row)); var g := row.guid.value;
      && (g in last <==> MappingText(row) != "")
      && (g in last ==> last[g] == MappingText(row))
  {
    RowStoreShape(row);
    TaggedDiffers(row.guid.value, row.guid.value);
  }

  /** The only keys a row writes are its GUID and its tagged GUID. */
  lemma RowKeys(row: MappingRow, k: string)
    requires Written(row) && HexGuid(row.guid.value)
    requires k != row.guid.value && k != row.guid.value + DisableTag
    ensures k !in Store(RowWrites(row))
  {
    RowStoreShape(row);
  }

  /** Row `n`'s GUID is not yet a key after the rows before it. */
  lemma PlainKeyFresh(prev: map<string, string>, rows: seq<MappingRow>, n: int)
    requires SyncableRows(rows) && 0 <= n < |rows|
    requires OnlyRowKeys(prev, rows, n)
    ensures Guid(rows, n) !in prev
  {
    var g := Guid(rows, n);
    if g in prev {
      var i :| 0 <= i < n && (g == Guid(rows, i) || g == Guid(rows, i) + DisableTag);
      FreshRowKeys(rows, n, i);
      assert false;
    }
  }

  lemma StepOnlyRowKeys(prev: map<string, string>, last: map<string, string>, rows: seq<MappingRow>, n: int)
    requires SyncableRows(rows) && 0 <= n < |rows|
    requires OnlyRowKeys(prev, rows, n)
    requires last == Store(RowWrites(rows[n]))
    ensures OnlyRowKeys(prev + last, rows, n + 1)
  {
    RowStoreShape(rows[n]);
    forall k | k in prev + last
      ensures exists i :: 0 <= i < n + 1 && (k == Guid(rows, i) || k == Guid(rows, i) + DisableTag)
    {
      if k in prev {
        var i :| 0 <= i < n && (k == Guid(rows, i) || k == Guid(rows, i) + DisableTag);
      } else {
        assert k == Guid(rows, n) || k == Guid(rows, n) + DisableTag;
      }
    }
  }

  lemma {:induction false} SyncStoreShape(rows: seq<MappingRow>, n: int)
    requires SyncableRows(rows) && 0 <= n <= |rows|
    ensures SyncedStore(Store(SyncMappingSettings(rows[..n])), rows, n)
    decreases n
  {
    if n > 0 {
      SyncStoreShape(rows, n - 1);
      SyncShapeStep(rows, n);
    }
  }

  lemma SyncShapeStep(rows: seq<MappingRow>, n: int)
    requires SyncableRows(rows) && 0 < n <= |rows|
    requires SyncedStore(Store(SyncMappingSettings(rows[..n - 1])), rows, n - 1)
    ensures SyncedStore(Store(SyncMappingSettings(rows[..n])), rows, n)
  {
    var prev := Store(SyncMappingSettings(rows[..n - 1]));
    var last := Store(RowWrites(rows[n - 1]));
    SyncStep(rows, n);
    StoreAppend(SyncMappingSettings(rows[..n - 1]), RowWrites(rows[n - 1]));
    SyncedStep(prev, last, rows, n - 1);
  }

  /** Syncing one more row keeps the group's shape. */
  lemma SyncedStep(prev: map<string, string>, last: map<string, string>, rows: seq<MappingRow>, n: int)
    requires SyncableRows(rows) && 0 <= n < |rows|
    requires SyncedStore(prev, rows, n)
    requires last == Store(RowWrites(rows[n]))
    ensures SyncedStore(prev + last, rows, n + 1)
  {
    StepFlags(prev, last, rows, n);
    StepMappings(prev, last, rows, n);
    StepOnlyRowKeys(prev, last, rows, n);
  }

  lemma SyncStep(rows: seq<MappingRow>, n: int)
    requires 0 < n <= |rows|
    ensures SyncMappingSettings(rows[..n]) == SyncMappingSettings(rows[..n - 1]) + RowWrites(rows[n - 1])
  {
    assert rows[..n][..n - 1] == rows[..n - 1];
  }

  /** The key/value pairs of a group, listed in `order`. */
  function Pairs(s: map<string, string>, order: seq<string>): (p: seq<(string, string)>)
    requires forall i :: 0 <= i < |order| ==> order[i] in s
    ensures |p| == |order|
    ensures forall i :: 0 <= i < |order| ==> p[i] == (order[i], s[order[i]])
  {
    seq(|order|, i requires 0 <= i < |order| => (order[i], s[order[i]]))
  }

  /** `order` lists each key of `s` once. */
  predicate Enumerates(order: seq<string>, s: map<string, string>) {
    && (forall i, j :: 0 <= i < j < |order| ==> order[i] != order[j])
    && (forall i :: 0 <= i < |order| ==> order[i] in s)
    && (forall k :: k in s ==> k in order)
  }

  lemma {:induction false} LastMappingOfPairs(s: map<string, string>, order: seq<string>, g: string)
    requires forall i :: 0 <= i < |order| ==> order[i] in s
    requires forall i, j :: 0 <= i < j < |order| ==> order[i] != order[j]
    ensures LastMapping(Pairs(s, order), g) ==
      if g in order && !Contains(g, DisableTag) && s[g] != "" then Some(s[g]) else None
    decreases |order|
  {
    if |order| > 0 {
      var n := |order| - 1;
      LastMappingOfPairs(s, order[..n], g);
      assert Pairs(s, order)[..n] == Pairs(s, order[..n]);
      assert order == order[..n] + [order[n]];
    }
  }

  lemma {:induction false} LastDisableOfPairs(s: map<string, string>, order: seq<string>, g: string)
    requires forall i :: 0 <= i < |order| ==> order[i] in s
    requires forall i, j :: 0 <= i < j < |order| ==> order[i] != order[j]
    requires forall i :: 0 <= i < |order| && Contains(order[i], DisableTag) && RemoveAll(order[i], DisableTag) == g ==>
      order[i] == g + DisableTag
    ensures LastDisable(Pairs(s, order), g) ==
      if g + DisableTag in order && Contains(g + DisableTag, DisableTag) && RemoveAll(g + DisableTag, DisableTag) == g
      then Some(ToBool(s[g + DisableTag])) else None
    decreases |order|
  {
    if |order| > 0 {
      var n := |order| - 1;
      LastDisableOfPairs(s, order[..n], g);
      assert Pairs(s, order)[..n] == Pairs(s, order[..n]);
      assert order == order[..n] + [order[n]];
    }
  }

  /** In a synced group, a tagged key strips to `g` only if it is `g`'s
      own tagged key. */
  lemma SyncedStripUnique(s: map<string, string>, rows: seq<MappingRow>, order: seq<string>, g: string)
    requires SyncableRows(rows) && SyncedStore(s, rows, |rows|) && Enumerates(order, s)
    ensures forall i :: 0 <= i < |order| && Contains(order[i], DisableTag) && RemoveAll(order[i], DisableTag) == g ==>
      order[i] == g + DisableTag
  {
    forall i | 0 <= i < |order| && Contains(order[i], DisableTag) && RemoveAll(order[i], DisableTag) == g
      ensures order[i] == g + DisableTag
    {
      var j :| 0 <= j < |rows| && (order[i] == Guid(rows, j) || order[i] == Guid(rows, j) + DisableTag);
      HexStrip(Guid(rows, j));
    }
  }

  /** Each synced row is read back under its GUID with its mapping and flag. */
  lemma RowReloaded(s: map<string, string>, rows: seq<MappingRow>, order: seq<string>, i: int)
    requires SyncableRows(rows) && SyncedStore(s, rows, |rows|) && Enumerates(order, s)
    requires 0 <= i < |rows|
    ensures var t := FillControllerMappings(Pairs(s, order));
      Guid(rows, i) in t &&
      t[Guid(rows, i)] == MappingEntry(Guid(rows, i), MappingText(rows[i]), rows[i].disable.value)
  {
    var g := Guid(rows, i);
    HexStrip(g);
    SyncedStripUnique(s, rows, order, g);
    LastMappingOfPairs(s, order, g);
    LastDisableOfPairs(s, order, g);
    FillCharacterised(Pairs(s, order), g);
    assert ToBool(FlagText(rows[i].disable.value)) == rows[i].disable.value;
  }

  /** An untagged key of a synced group is some row's GUID. */
  lemma PlainKeyIsRow(s: map<string, string>, rows: seq<MappingRow>, g: string)
    requires SyncableRows(rows) && OnlyRowKeys(s, rows, |rows|)
    requires g in s && !Contains(g, DisableTag)
    ensures exists i :: 0 <= i < |rows| && Guid(rows, i) == g
  {
    var j :| 0 <= j < |rows| && (g == Guid(rows, j) || g == Guid(rows, j) + DisableTag);
    HexStrip(Guid(rows, j));
    assert g != Guid(rows, j) + DisableTag;
  }

  /** A tagged key of a synced group is some row's GUID with the tag. */
  lemma TaggedKeyIsRow(s: map<string, string>, rows: seq<MappingRow>, g: string)
    requires SyncableRows(rows) && OnlyRowKeys(s, rows, |rows|)
    requires g + DisableTag in s
    ensures exists i :: 0 <= i < |rows| && Guid(rows, i) == g
  {
    var j :| 0 <= j < |rows| && (g + DisableTag == Guid(rows, j) || g + DisableTag == Guid(rows, j) + DisableTag);
    TaggedDiffers(Guid(rows, j), g);
    TagCancels(g, Guid(rows, j));
  }

  /** Nothing but the synced rows' GUIDs is read back. */
  lemma KeyReloaded(s: map<string, string>, rows: seq<MappingRow>, order: seq<string>, g: string)
    requires SyncableRows(rows) && SyncedStore(s, rows, |rows|) && Enumerates(order, s)
    requires g in FillControllerMappings(Pairs(s, order))
    ensures exists i :: 0 <= i < |rows| && Guid(rows, i) == g
  {
    var keys := Pairs(s, order);
    SyncedStripUnique(s, rows, order, g);
    FillCharacterised(keys, g);
    LastMappingOfPairs(s, order, g);
    LastDisableOfPairs(s, order, g);
    if LastMapping(keys, g).Some? {
      PlainKeyIsRow(s, rows, g);
    } else {
      TaggedKeyIsRow(s, rows, g);
    }
  }

  /** Writing the table to settings and reading it back, in whatever order
      the group lists its keys, gives the table again: one entry per row,
      under its GUID, with its mapping and disable flag. */
  lemma SyncThenFill(rows: seq<MappingRow>, order: seq<string>)
    requires SyncableRows(rows)
    requires Enumerates(order, Store(SyncMappingSettings(rows)))
    ensures var t := FillControllerMappings(Pairs(Store(SyncMappingSettings(rows)), order));
      && (forall i :: 0 <= i < |rows| ==>
            Guid(rows, i) in t &&
            t[Guid(rows, i)] == MappingEntry(Guid(rows, i), MappingText(rows[i]), rows[i].disable.value))
      && (forall g :: g in t ==> exists i :: 0 <= i < |rows| && Guid(rows, i) == g)
  {
    var s := Store(SyncMappingSettings(rows));
    SyncStoreShape(rows, |rows|);
    assert rows[..|rows|] == rows;
    forall i | 0 <= i < |rows|
      ensures var t := FillControllerMappings(Pairs(s, order));
        Guid(rows, i) in t &&
        t[Guid(rows, i)] == MappingEntry(Guid(rows, i), MappingText(rows[i]), rows[i].disable.value)
    {
      RowReloaded(s, rows, order, i);
    }
    forall g | g in FillControllerMappings(Pairs(s, order))
      ensures exists i :: 0 <= i < |rows| && Guid(rows, i) == g
    {
      KeyReloaded(s, rows, order, g);
    }
  }
}
