# GreenEye front-end rules in Dafny

GreenEye is a plant-monitoring web front end: a dashboard that lists the user's sensor
boxes ("devices"), shows each one's readings and photo, lets the user link a new box,
delete one, switch its actuators, and tune how often it senses and captures. Two
generations of the app live side by side:

- `GreenEye_Frontend/` (the current app) identifies a device by a canonical form of its
  code (`ge-sd-xxxx`, or a lower-case alphanumeric fallback), keeps per-account local
  stores named after an FNV-1a hash of the session token, and reconciles the local,
  legacy and server device lists;
- `greeneye/` (the earlier app) identifies a device by its trimmed code, compared exactly,
  and keeps one device list in local storage.

This project models the rules underneath both: device-code canonicalisation and
comparison, the storage namespaces and the stores read and written in place, the device
list merge with its deletion markers, the delete workflow, device linking and its
validation, the settings screens with their mode presets and migration, the sensor
payload readers and the advice list, the gallery grouping, the mock back end's helpers,
the sign-in session and the request builder, the e-mail consent row and the actuator
panel. The two generations are separate modules (`Dashboard`, `Settings`, `DeviceLink`,
`SensorInfo`, `Gallery`, `Auth` for the current app; `LegacyDevices`, `LegacySettings`,
`LegacyDeviceLink`, `LegacySensor`, `LegacyGallery`, `ControlPanel`, `LegacyAuth` for the
earlier one) over shared value modules:

- `Text`: the string operations the code relies on (`trim`, ASCII case mapping,
  `indexOf`/`includes`/`replace`, `split`/`join`, decimal rendering, `encodeURIComponent`);
- `JsValues`: JavaScript values (`undefined`, `null`, booleans, numbers as exact reals,
  strings, arrays, objects as maps), truthiness, `??`, `||`, spread and `Number(...)`;
- `LocalStores`: a storage slot (missing, empty, unparsable, or a parsed value) and the
  per-account stores;
- `OrderedMap`: a JavaScript `Map` with string keys, which keeps insertion order;
- `DeviceCode`, `Namespace`, `Registry`, `Modes`: device codes, storage keys, the merge
  and the mode presets shared by several screens.

Where a rule is written out in several files of the repository (the canonical form in
the dashboard and the settings screen, the FNV hash in three screens and the mock, the
mode presets in both settings screens, the two-per-row chunking in both galleries), it
is defined once and the table cites every copy it stands for.

Browser and host facilities become parameters: what `localStorage` holds is a `Slot`
where a reader tells a missing, empty or unparsable entry apart from a stored value (the
device screens' shared entries are held already decoded, see Left out),
what a request returns is a reply datatype, the clock is a number passed in, the random
draws of `randomId` are a sequence of picks. State the screens keep between events
(React state, refs, the stores) is a class whose methods are the event handlers.

Where the repository's description and its code disagree, the model follows the code:

- merging device records: a later record replaces every field it carries, including
  blank ones, because the code spreads records (`{...a, ...b}`) and `normDevice` fills
  every field; blank fields of a later record do not fall back to earlier values;
- the current settings screen reads the preset of the stored `operationMode` without a
  fallback when it renders, so an older record whose mode is not a preset name cannot
  be shown (see Findings);
- the earlier device list's merge also replaces every field (`{...prev, ...d}`).
- the two settings screens do not share their defaults: the earlier one stores the night
  flash as `nightFlashMode: 'always_on'`, the current one as `nightMode: 'night_on'`, and
  only the earlier one migrates a record that predates the mode presets.

## Model

| member | source | states |
|---|---|---|
| Namespace.FnvStep | GreenEye_Frontend/src/components/dashboard/Dashboard.jsx:24 | one round of the hash (xor, then multiply modulo 2^32) stays an unsigned 32-bit value |
| Namespace.HashUnits | GreenEye_Frontend/src/mocks/handlers.js:36-43 | the loop over the UTF-16 code units returns the FNV-1a hash of the text, an unsigned 32-bit value (the mock returns this number itself; the screens render it in base 36) |
| Namespace.HashStr | GreenEye_Frontend/src/components/dashboard/Dashboard.jsx:24 | the key is the base-36 rendering of the FNV-1a hash, and reading it back in base 36 gives the hash; the same function is GreenEye_Frontend/src/components/settings/Settings.jsx:17 and GreenEye_Frontend/src/components/devices/DeviceLink.jsx:28-35 |
| Namespace.Base36RoundTrip | GreenEye_Frontend/src/components/devices/DeviceLink.jsx:28-35 | reading the base-36 rendering back gives the number, for every number |
| Namespace.Base36Injective | GreenEye_Frontend/src/components/devices/DeviceLink.jsx:28-35 | two hashes with the same base-36 text are equal, so different hashes give different account keys |
| Namespace.GuestHashPrintsGuest | GreenEye_Frontend/src/components/dashboard/Dashboard.jsx:25 | the hash 28292717 prints as `guest` in base 36 |
| Namespace.UserKeyIsGuest | GreenEye_Frontend/src/components/dashboard/Dashboard.jsx:25 | the account key is `guest` exactly when the token is falsy or its hash is 28292717: a signed-in account can share the anonymous namespace (the same function is GreenEye_Frontend/src/components/settings/Settings.jsx:18 and GreenEye_Frontend/src/components/devices/DeviceLink.jsx:36) |
| Namespace.KeysSeparateAccounts | GreenEye_Frontend/src/components/devices/DeviceLink.jsx:36-46 | accounts with different keys get different client, thumbnail, meta and deleted-set keys, and the same legacy key |
| Namespace.KeysDistinct | GreenEye_Frontend/src/components/dashboard/Dashboard.jsx:27-32 | within one account the client, thumbnail, meta, deleted, legacy and settings keys are six different keys |
| DeviceCode.Alnum | GreenEye_Frontend/src/components/dashboard/Dashboard.jsx:12 | the result is no longer than the input and holds only digits and lower-case letters |
| DeviceCode.CanonicalForms | GreenEye_Frontend/src/components/dashboard/Dashboard.jsx:12-19 | the canonical form is empty exactly when the text has no letter or digit; it is `ge-sd-` plus four hex digits exactly when the last four letters and digits are hex (and then ends in them); otherwise it is the lower-case alphanumeric text, which holds no `-` (the same function is GreenEye_Frontend/src/components/settings/Settings.jsx:26-33) |
| DeviceCode.CanonicalIdempotent | GreenEye_Frontend/src/components/dashboard/Dashboard.jsx:16-21 | canonicalising twice gives the same as once, and every code is the same code as its canonical form |
| DeviceCode.GeSdCodeIsCanonical | GreenEye_Frontend/src/components/settings/Settings.jsx:26-33 | a `ge-sd-xxxx` code with lower-case hex tail is its own canonical form |
| DeviceCode.SameCodeIgnoresCase | GreenEye_Frontend/src/components/dashboard/Dashboard.jsx:21 | upper- or lower-casing a code does not change which device it names |
| DeviceCode.SameCodeIgnoresSeparator | GreenEye_Frontend/src/components/dashboard/Dashboard.jsx:21 | inserting any character that is not a letter or digit (a `:`, `-`, space) does not change which device a code names |
| DeviceCode.DeviceIdForApi | GreenEye_Frontend/src/components/settings/Settings.jsx:63-66 | the API id is empty or four lower-case hex digits |
| DeviceCode.DeviceIdForCanonical | GreenEye_Frontend/src/components/settings/Settings.jsx:63-66 | the API id of a canonical code is non-empty exactly when the code is a `ge-sd-` code, and then it is the code's hex tail |
| DeviceCode.DeviceIdForApiExample | GreenEye_Frontend/src/components/settings/Settings.jsx:62-66 | `ge-sd-2e52` gives `2e52`; a text ending in only three hex digits gives the empty id |
| DeviceCode.ToMacNormValid | GreenEye_Frontend/src/components/devices/DeviceLink.jsx:92-98 | the normalised code is valid exactly when the upper-cased input holds at least four hex digits, and empty exactly when it holds none |
| DeviceCode.ToMacNormKeepsValid | GreenEye_Frontend/src/components/devices/DeviceLink.jsx:92-98 | every valid `ge-sd-xxxx` code is a fixed point of the normalisation, and is also its own canonical form |
| DeviceCode.ToMacNormAbsorbsPrefix | GreenEye_Frontend/src/components/devices/DeviceLink.jsx:92-97 | a short code `ge-sd-XY` normalises to `ge-sd-edxy`: the E and D of the prefix count as hex digits, and the result is accepted as valid |
| OrderedMap.IndexByEntries | GreenEye_Frontend/src/components/devices/DeviceLink.jsx:51 | building a `Map` from a list files a key exactly when some item has it, and the value is the last item with that key |
| OrderedMap.IndexByDistinct | GreenEye_Frontend/src/components/devices/DeviceLink.jsx:51-53 | on a list whose keys are distinct the map keeps every item in list order, so writing back its values gives the list |
| OrderedMap.SetOnDistinctReplaces | GreenEye_Frontend/src/components/devices/DeviceLink.jsx:52-53 | setting an existing key replaces that item where it stands |
| OrderedMap.SetOnDistinctAppends | GreenEye_Frontend/src/components/devices/DeviceLink.jsx:52-53 | setting a new key appends the item at the end |
| LocalStores.ReadOrNull | GreenEye_Frontend/src/components/dashboard/Dashboard.jsx:34 | a missing, empty or unparsable slot reads as the default; a parsed value, `null` included, is returned as it is |
| LocalStores.SafeRead | GreenEye_Frontend/src/components/devices/DeviceLink.jsx:13-22 | with a non-null default the reader never returns `null` |
| LocalStores.ReadersAgreeExceptNull | GreenEye_Frontend/src/components/devices/DeviceLink.jsx:13-22 | the dashboard's and the linking screen's readers differ exactly on a slot holding `null` |
| LocalStores.UpsertedNoNull | GreenEye_Frontend/src/components/devices/DeviceLink.jsx:47-54 | an upsert never puts a `null` entry into the client list |
| LocalStores.UpsertedInPlace | GreenEye_Frontend/src/components/devices/DeviceLink.jsx:47-54 | on a list with distinct keys, a record whose key is listed is merged over that entry in place (its fields win), and a record with a new key is appended |
| LocalStores.UpsertedHolds | GreenEye_Frontend/src/components/devices/DeviceLink.jsx:47-54 | after an upsert with a non-empty key the list holds an entry carrying every field of the record |
| LocalStores.MergedMetaFields | GreenEye_Frontend/src/components/devices/DeviceLink.jsx:63-70 | the entry is the earlier value spread with the new meta spread over it (the fallbacks to an empty object change nothing); new meta fields win; earlier fields the new meta does not spread over survive; a named field comes only from an object; an earlier string contributes its characters under index keys; two values that are neither objects, strings nor arrays give an empty entry |
| LocalStores.IndexedAt | GreenEye_Frontend/src/components/devices/DeviceLink.jsx:63-70 | spreading a string or an array puts each item under the decimal index of its position, and no other key |
| LocalStores.SpreadOrEmpty | GreenEye_Frontend/src/components/devices/DeviceLink.jsx:63-70 | spreading a value, or the empty object in its place when it is falsy, gives the same fields as spreading the value itself |
| LocalStores.Stores.constructor | GreenEye_Frontend/src/components/dashboard/Dashboard.jsx:27-44 | the stores hold the given client list, thumbnails, meta, deleted set, legacy list and settings, with no broadcast yet |
| LocalStores.Stores.UpsertClientDev | GreenEye_Frontend/src/components/devices/DeviceLink.jsx:47-54 | the client list becomes the upserted list; a stored `null` entry makes the upsert throw and leaves the list unchanged |
| LocalStores.Stores.WriteThumb | GreenEye_Frontend/src/components/devices/DeviceLink.jsx:55-62 | the thumbnail is stored under the code only when both the code and the image are truthy; otherwise nothing changes |
| LocalStores.Stores.WriteMeta | GreenEye_Frontend/src/components/devices/DeviceLink.jsx:63-70 | for a non-empty code the entry becomes the earlier entry with the new meta spread over it; an empty code changes nothing |
| LocalStores.Stores.Broadcast | GreenEye_Frontend/src/components/devices/DeviceLink.jsx:71 | one more device-list update event is sent |
| Registry.CanonicalIgnoresTrim | GreenEye_Frontend/src/components/dashboard/Dashboard.jsx:56-57 | trimming the raw code before canonicalising changes nothing |
| Registry.NormDevice | GreenEye_Frontend/src/components/dashboard/Dashboard.jsx:55-66 | the record's raw code is the trimmed first non-nullish code alias, its code is the canonical form of that, and no display field is null or undefined (the image and species aliases depend on the screen: GreenEye_Frontend/src/components/settings/Settings.jsx:44-55) |
| Registry.NormDeviceCodeFirst | GreenEye_Frontend/src/components/dashboard/Dashboard.jsx:56-57 | a string `deviceCode` wins over every other alias |
| Registry.NormDeviceNoCode | GreenEye_Frontend/src/components/dashboard/Dashboard.jsx:56-61 | a record with no code alias gets the empty code and raw code, and, without a name, the empty name |
| Registry.NormAll | GreenEye_Frontend/src/components/dashboard/Dashboard.jsx:80 | normalising a list fails exactly when it holds `null` (reading a field of `null` throws); otherwise each record is normalised in place |
| Registry.ApiDevicesFilled | GreenEye_Frontend/src/components/dashboard/Dashboard.jsx:78-80 | every record a list reply yields is normalised |
| Registry.Overlay | GreenEye_Frontend/src/components/dashboard/Dashboard.jsx:99-101 | the thumbnail and meta overlay keeps the code, raw code and name, and keeps every display field filled |
| Registry.MergeInto | GreenEye_Frontend/src/components/dashboard/Dashboard.jsx:96-102 | the merged record carries the new record's code |
| Registry.MergeIntoIgnoresPrev | GreenEye_Frontend/src/components/dashboard/Dashboard.jsx:96-102 | because a normalised record fills every field, the earlier record under the same code is fully replaced: even a blank image of the later record overrides an earlier one unless a thumbnail exists |
| Registry.Step | GreenEye_Frontend/src/components/dashboard/Dashboard.jsx:93-102 | one iteration keeps the map valid and every record filed under its own code |
| Registry.MergeDevices | GreenEye_Frontend/src/components/dashboard/Dashboard.jsx:92-107 | the loop over the list returns the values of the merged map in insertion order |
| Registry.FirstAt | GreenEye_Frontend/src/components/dashboard/Dashboard.jsx:92-107 | the first position of a code in the list, or the list's length when it is absent |
| Registry.MergedKeys | GreenEye_Frontend/src/components/dashboard/Dashboard.jsx:93-102 | a code is in the merged map exactly when some kept record carries it (non-empty where empty codes are dropped, and not hidden) |
| Registry.MergedLastWins | GreenEye_Frontend/src/components/dashboard/Dashboard.jsx:96-102 | the entry of a code is the overlay of the last record carrying it |
| Registry.MergedKeepsOthers | GreenEye_Frontend/src/components/dashboard/Dashboard.jsx:96-102 | adding a record leaves the entries of other codes alone |
| Registry.MergedOrder | GreenEye_Frontend/src/components/dashboard/Dashboard.jsx:92-107 | the codes of the merged map are in order of first appearance in the list |
| Registry.MergedUniqueOrdered | GreenEye_Frontend/src/components/dashboard/Dashboard.jsx:107 | the merged list has pairwise distinct codes, in order of first appearance |
| Registry.MergedKeptOnly | GreenEye_Frontend/src/components/dashboard/Dashboard.jsx:94-95 | the merged list holds no empty and no deleted code |
| Registry.MergedCovers | GreenEye_Frontend/src/components/dashboard/Dashboard.jsx:92-107 | every kept record's code appears in the merged list |
| Registry.MergedEntries | GreenEye_Frontend/src/components/dashboard/Dashboard.jsx:96-102 | each entry of the merged list is the overlay of the last record with its code |
| Registry.MergedList | GreenEye_Frontend/src/components/settings/Settings.jsx:92-104 | the merge the settings screen runs has the same guarantees: distinct codes, nothing hidden, nothing kept lost, first-appearance order, last record wins |
| Registry.FallbackView | GreenEye_Frontend/src/components/dashboard/Dashboard.jsx:108-116 | the list shown after a failed reload is no longer than the client list and shows no deleted code |
| Registry.FallbackViewMembers | GreenEye_Frontend/src/components/dashboard/Dashboard.jsx:113-115 | a record is shown after a failed reload exactly when it is the overlay of a client record whose code is not deleted |
| Dashboard.Codes | GreenEye_Frontend/src/components/dashboard/Dashboard.jsx:87 | the set of codes of a device list: exactly the codes some record carries |
| Dashboard.ReloadSpec | GreenEye_Frontend/src/components/dashboard/Dashboard.jsx:77-118 | a reload fails (state untouched) exactly when the client list holds `null`; when the list request fails or the legacy list holds `null`, the deleted set is not written |
| Dashboard.ReloadMainPathTombstones | GreenEye_Frontend/src/components/dashboard/Dashboard.jsx:86-89 | on a successful reload no local code stays in the deleted set, and only local codes leave it |
| Dashboard.ReloadMainPath | GreenEye_Frontend/src/components/dashboard/Dashboard.jsx:92-107 | the reloaded list has distinct, non-empty, non-deleted codes, and every local device with a code is shown |
| Dashboard.MainList | GreenEye_Frontend/src/components/dashboard/Dashboard.jsx:86-107 | merging locals, legacy and server records in that order under the reduced deleted set gives distinct visible codes and shows every local device |
| Dashboard.ReloadFallback | GreenEye_Frontend/src/components/dashboard/Dashboard.jsx:108-117 | when the request or parse throws, the list is the overlaid client records whose codes are not deleted, and the deleted set stays as it was |
| Dashboard.TombstonedStaysHidden | GreenEye_Frontend/src/components/dashboard/Dashboard.jsx:86-95 | a deleted code that no client record names stays deleted and is not shown, whatever the server returns |
| Dashboard.DropSame | GreenEye_Frontend/src/components/dashboard/Dashboard.jsx:190 | the filtered list keeps exactly the entries whose code is not the same code as the one removed |
| Dashboard.DropDevices | GreenEye_Frontend/src/components/dashboard/Dashboard.jsx:232 | the shown list keeps exactly the devices whose code differs from the deleted one |
| Dashboard.PurgedLegacy | GreenEye_Frontend/src/components/dashboard/Dashboard.jsx:46-52 | the legacy list loses exactly its records with the same code; a list holding `null` or `undefined` throws and is left as it was |
| Dashboard.DeleteRequests | GreenEye_Frontend/src/components/dashboard/Dashboard.jsx:157-161 | one identifier is tried by three requests |
| Dashboard.DeleteRequestsCarryId | GreenEye_Frontend/src/components/dashboard/Dashboard.jsx:157-161 | the requests are DELETE, POST, DELETE, each path carries the encoded identifier, and the encoding holds no `/`, `?` or `#` |
| Dashboard.DeleteVariantsShape | GreenEye_Frontend/src/components/dashboard/Dashboard.jsx:172-178 | at most three identifiers are tried, none empty, each the raw code, its last four letters and digits or its canonical form; the raw code comes first; the canonical form is always tried when not empty; an empty raw code tries nothing |
| Dashboard.DeletePlan | GreenEye_Frontend/src/components/dashboard/Dashboard.jsx:179-183 | three requests per identifier, identifiers in order |
| Dashboard.FirstOk | GreenEye_Frontend/src/components/dashboard/Dashboard.jsx:162-167 | the position of the first request answered OK, or the plan's length when none is |
| Dashboard.DeleteOkIff | GreenEye_Frontend/src/components/dashboard/Dashboard.jsx:156-183 | the delete succeeds exactly when some planned request is answered OK |
| Dashboard.TryApiDeleteOne | GreenEye_Frontend/src/components/dashboard/Dashboard.jsx:156-169 | reports success exactly when one of the three requests is answered OK, and sends the requests up to and including the first OK one (all three otherwise) |
| Dashboard.TryApiDelete | GreenEye_Frontend/src/components/dashboard/Dashboard.jsx:171-184 | tries the identifiers in order, stops at the first OK answer, and sends exactly the plan up to it (the whole plan when all fail) |
| Dashboard.TryVariants | GreenEye_Frontend/src/components/dashboard/Dashboard.jsx:179-183 | the loop over identifiers sends the plan up to the first OK answer |
| Dashboard.Dashboard.constructor | GreenEye_Frontend/src/components/dashboard/Dashboard.jsx:68-72 | the screen starts with no devices and the first one selected |
| Dashboard.Dashboard.Reload | GreenEye_Frontend/src/components/dashboard/Dashboard.jsx:74-118 | on success the shown list and the deleted set become those of the reload; when the client list holds `null` nothing changes |
| Dashboard.Dashboard.AddDeleted | GreenEye_Frontend/src/components/dashboard/Dashboard.jsx:43 | the deleted set gains the canonical form of the code |
| Dashboard.Dashboard.RemoveDeleted | GreenEye_Frontend/src/components/dashboard/Dashboard.jsx:44 | the deleted set loses the canonical form of the code |
| Dashboard.Dashboard.RemoveLocalEverywhere | GreenEye_Frontend/src/components/dashboard/Dashboard.jsx:186-214 | the client list, thumbnails and meta lose every entry with the same code, a matching camera target is cleared with a settings event, the legacy list is purged, the deleted set is kept and one device event is sent; a client list holding `null` throws before anything changes |
| Dashboard.Dashboard.RemoveCanonical | GreenEye_Frontend/src/components/dashboard/Dashboard.jsx:187-213 | the same clean-up, for a code already in canonical form |
| Dashboard.Dashboard.HandleDeleteSelected | GreenEye_Frontend/src/components/dashboard/Dashboard.jsx:216-236 | with no selection or no confirmation nothing happens; otherwise the server plan runs up to the first OK answer and the canonical code is added to the deleted set whatever the server says; then, unless the client list holds a `null` entry, the client list, thumbnails, meta, legacy list and camera target lose the code with one device event, the shown list loses the code and the first device is selected; with a `null` entry the clean-up throws and every other store, the shown list and the selection stay as they were |
| Dashboard.Dashboard.ForgetDeleted | GreenEye_Frontend/src/components/dashboard/Dashboard.jsx:227-234 | the canonical code joins the deleted set; then, unless the client list holds `null`, every store loses the code with one device event, the shown list loses the code and the first card is selected; with `null` nothing else changes |
| Dashboard.Dashboard.ForgetLocally | GreenEye_Frontend/src/components/dashboard/Dashboard.jsx:230-234 | the local clean-up keeps the deleted set; when it does not throw the shown list loses the code and the first card is selected, otherwise the page and the stores stay as they were |
| Dashboard.Dashboard.SelectAdded | GreenEye_Frontend/src/components/dashboard/Dashboard.jsx:127-135 | on return from linking, the selection moves to the first device with the same code as the added one, and only when there is one |
| Dashboard.WithoutCode | GreenEye_Frontend/src/components/dashboard/Dashboard.jsx:195-196 | the map keeps exactly the keys that are not the same code as the removed one, with their values |
| Dashboard.Untombstone | GreenEye_Frontend/src/components/dashboard/Dashboard.jsx:86-88 | the deleted set loses exactly the codes of the local records |
| Dashboard.DropKeys | GreenEye_Frontend/src/components/dashboard/Dashboard.jsx:195-196 | the loop over the keys deletes exactly the keys with the same code |
| Dashboard.DeleteKeysWhere | GreenEye_Frontend/src/components/dashboard/Dashboard.jsx:195-196 | the `forEach` over the keys leaves exactly the keys its test does not pick, each with its value |
| Dashboard.FindSame | GreenEye_Frontend/src/components/dashboard/Dashboard.jsx:129 | the index found is -1 or a device with the same code |
| Dashboard.FindSameIsFirst | GreenEye_Frontend/src/components/dashboard/Dashboard.jsx:129 | no device before the index found has the same code |
| Modes.PresetOf | GreenEye_Frontend/src/components/settings/Settings.jsx:8-14 | a preset exists exactly for the five mode names (the same table is greeneye/src/components/settings/Settings.jsx:13-19) |
| Modes.PresetFor | GreenEye_Frontend/src/components/settings/Settings.jsx:153 | `MODE_PRESETS[k] \|\| MODE_PRESETS.normal`: the preset of a known mode, the normal preset otherwise (also greeneye/src/components/settings/Settings.jsx:122); modes naming inherited `Object.prototype` properties are not modelled |
| Modes.PresetsOrdered | GreenEye_Frontend/src/components/settings/Settings.jsx:8-14 | from ultra-low to ultra-high power the sensing and capture intervals never grow and the battery days strictly shrink; every preset has a ten-minute CCU interval and captures on a whole number of sensing rounds |
| Modes.DurationMinutes | GreenEye_Frontend/src/components/settings/Settings.jsx:209 | a duration text that reads back ends in `h` or `m` |
| Modes.WholeMinutes | GreenEye_Frontend/src/components/settings/Settings.jsx:59 | `Number(m) % 60 === 0` holds for a whole number of minutes exactly when it is a multiple of sixty |
| Modes.HumanizeMinNat | GreenEye_Frontend/src/components/settings/Settings.jsx:59 | a whole number of minutes prints as hours when it is a multiple of sixty and as minutes otherwise (also greeneye/src/components/settings/Settings.jsx:76) |
| Modes.HumanizeMinRoundTrip | GreenEye_Frontend/src/components/settings/Settings.jsx:59 | reading the printed duration back gives the number of minutes |
| Modes.HumanizeMinNonNumeric | GreenEye_Frontend/src/components/settings/Settings.jsx:59 | a value that is not a number prints as `0m` |
| Modes.PresetHoursText | GreenEye_Frontend/src/components/settings/Settings.jsx:208-209 | the ultra-low capture interval prints as `4h` |
| Modes.PresetMinutesText | GreenEye_Frontend/src/components/settings/Settings.jsx:208-209 | the high sensing interval prints as `15m` |
| Modes.ApplyMode | GreenEye_Frontend/src/components/settings/Settings.jsx:153 | choosing a mode sets the mode and the three intervals of its preset (the normal preset for an unknown mode), keeps every other field and adds none (also greeneye/src/components/settings/Settings.jsx:121-130) |
| Modes.ApplyModeTwice | GreenEye_Frontend/src/components/settings/Settings.jsx:153 | choosing a mode after another is the same as choosing only the second |
| Settings.Defaults | GreenEye_Frontend/src/components/settings/Settings.jsx:35-42 | the defaults are the normal mode with its preset intervals |
| Settings.LoadSettings | GreenEye_Frontend/src/components/settings/Settings.jsx:57 | a stored value is returned as parsed; a missing, empty or unparsable record gives the defaults |
| Settings.ShownPresetAsWritten | GreenEye_Frontend/src/components/settings/Settings.jsx:252-256 | the read-only interval fields render exactly when the form's mode is one of the five names, among modes that do not name an inherited `Object.prototype` property |
| Settings.OlderRecordDoesNotRender | GreenEye_Frontend/src/components/settings/Settings.jsx:252-256 | a stored record without `operationMode` (as an earlier version wrote it) makes the rendering fail, while the corrected rendering shows the normal preset |
| Settings.OpenForm | GreenEye_Frontend/src/components/settings/Settings.jsx:57-73 | the form opens on the stored object, or on the defaults when nothing is stored |
| Settings.ShownPreset | GreenEye_Frontend/src/components/settings/Settings.jsx:157 | the fields show the preset of the form's mode, falling back to the normal preset like the save does |
| Settings.ShownPresetAgrees | GreenEye_Frontend/src/components/settings/Settings.jsx:252-256 | wherever the rendering as written works, the corrected one shows the same preset |
| Settings.SavedData | GreenEye_Frontend/src/components/settings/Settings.jsx:156-167 | the saved record keeps the mode, carries its preset's intervals, a truthy night mode (the form's, or `night_on`), the form's camera target or `''`, and exactly the fields of the defaults, for modes that do not name an inherited `Object.prototype` property |
| Settings.SaveIdempotent | GreenEye_Frontend/src/components/settings/Settings.jsx:156-169 | saving the saved record again changes nothing, and the shown preset is the same before and after |
| Settings.ControlCall | GreenEye_Frontend/src/components/settings/Settings.jsx:173-186 | the control request is sent exactly when the camera target ends in four hex digits; its path is `/api/control_mode/` plus that id, and it carries the mode and night option |
| Settings.ControlOnlyForSensorBoxes | GreenEye_Frontend/src/components/settings/Settings.jsx:172-186 | for a canonical target, the request is sent exactly for a `ge-sd-` code, to the path of its hex tail |
| Settings.MergedViewFacts | GreenEye_Frontend/src/components/settings/Settings.jsx:92-104 | the settings list holds one entry per code, shows every code including deleted ones (this screen does not read the deleted set), and gives each code its last record with the overlays |
| Settings.InitialListFromServer | GreenEye_Frontend/src/components/settings/Settings.jsx:84-104 | on the server path the first load shows every server code once, with its last server record |
| Settings.MergedViewShowsBoth | GreenEye_Frontend/src/components/settings/Settings.jsx:126-136 | after a storage event both the client and the server codes are shown, each once |
| Settings.MergedViewServerWins | GreenEye_Frontend/src/components/settings/Settings.jsx:126-136 | the server record of a code, coming after the client records, is the one shown |
| Settings.StorageListMerges | GreenEye_Frontend/src/components/settings/Settings.jsx:117-138 | a storage event rebuilds the list from the client then the server records; a failed request counts as an empty server list |
| Settings.SettingsPage.constructor | GreenEye_Frontend/src/components/settings/Settings.jsx:73-77 | the form opens on the stored settings, nothing saved, no devices, the list loading |
| Settings.SettingsPage.OnChange | GreenEye_Frontend/src/components/settings/Settings.jsx:152 | editing a field sets that field and leaves the others |
| Settings.SettingsPage.ChooseMode | GreenEye_Frontend/src/components/settings/Settings.jsx:153 | the form becomes the mode applied to it, consistent with the chosen preset |
| Settings.SettingsPage.ChooseTarget | GreenEye_Frontend/src/components/settings/Settings.jsx:274 | the camera target becomes the device's code |
| Settings.SettingsPage.HandleSave | GreenEye_Frontend/src/components/settings/Settings.jsx:155-201 | the stored settings and the form become the saved record with one settings event; the control request is sent exactly when the saved target has an API id, and is reported applied when the server accepts it |
| Settings.SettingsPage.Load | GreenEye_Frontend/src/components/settings/Settings.jsx:80-111 | the list becomes the first-load list (server merge, else the client records), unchanged when that fails, and loading ends |
| Settings.SettingsPage.OnStorage | GreenEye_Frontend/src/components/settings/Settings.jsx:116-138 | an event on the thumbnails, meta or client key rebuilds the list; any other key, or a failing rebuild, leaves it |
| DeviceLink.Check | GreenEye_Frontend/src/components/devices/DeviceLink.jsx:225-228 | a blank name is refused first; then a device id that does not normalise to a valid `ge-sd-xxxx` code; the form passes exactly when the name is not blank and the id normalises to a valid code |
| DeviceLink.OnSubmit | GreenEye_Frontend/src/components/devices/DeviceLink.jsx:220-272 | a refused form or a failed registration changes no store; after a successful registration the thumbnail, merged meta and client record are written under the normalised code and an event is sent, in that order (a client list holding `null` fails after the first two writes); the deleted set, legacy list and settings are never touched |
| DeviceLink.Store | GreenEye_Frontend/src/components/devices/DeviceLink.jsx:251-260 | the writes after registration, with their outcome |
| DeviceLink.WriteEntries | GreenEye_Frontend/src/components/devices/DeviceLink.jsx:251-252 | the thumbnail is written only when there is an image, and the meta entry becomes the old entry with species, room and owner spread over it |
| DeviceLink.RecordClient | GreenEye_Frontend/src/components/devices/DeviceLink.jsx:253-260 | the client list becomes the upserted list and one event is sent, unless the list holds `null` |
| DeviceLink.ClientRecordKey | GreenEye_Frontend/src/components/devices/DeviceLink.jsx:253-259 | the client record is filed under the normalised code |
| DeviceLink.LinkedRecordAt | GreenEye_Frontend/src/components/devices/DeviceLink.jsx:253-259 | after the upsert the client list holds a record whose normalised code is the linked code |
| DeviceLink.LinkedDeviceShown | GreenEye_Frontend/src/components/dashboard/Dashboard.jsx:86-107 | the dashboard's next reload shows the linked device, even one deleted earlier when the reload succeeds |
| SensorInfo.ReadSensingMs | GreenEye_Frontend/src/components/dashboard/SensorInfo.jsx:14-23 | the sensing period is never below 5000 ms, and is thirty minutes when the settings record cannot be parsed |
| SensorInfo.SensingFollowsSavedMode | GreenEye_Frontend/src/components/dashboard/SensorInfo.jsx:14-23 | for a saved settings record the period is the sensing interval of its mode's preset, in milliseconds |
| SensorInfo.SensingDefault | GreenEye_Frontend/src/components/dashboard/SensorInfo.jsx:17-18 | a record without a positive finite interval gives thirty minutes |
| SensorInfo.AliasNum | GreenEye_Frontend/src/components/dashboard/SensorInfo.jsx:60-66 | a number under the first present name of an alias chain is the reading |
| SensorInfo.Statuses | GreenEye_Frontend/src/components/dashboard/SensorInfo.jsx:36-44 | each of the seven fields gets a truthy status (`unknown` when absent) |
| SensorInfo.Ranges | GreenEye_Frontend/src/components/dashboard/SensorInfo.jsx:45-53 | each of the seven fields gets a truthy range or `null` |
| SensorInfo.Current | GreenEye_Frontend/src/components/dashboard/SensorInfo.jsx:29-58 | a current-shape payload parses to a well-formed snapshot |
| SensorInfo.Older | GreenEye_Frontend/src/components/dashboard/SensorInfo.jsx:60-78 | a flat payload parses to a well-formed snapshot with every status `unknown` and every range `null` |
| SensorInfo.Parse | GreenEye_Frontend/src/components/dashboard/SensorInfo.jsx:29-79 | the parse throws exactly on `null`; otherwise the snapshot is well formed, and a payload without `values` has unknown statuses and no ranges |
| SensorInfo.StatusesRoundTrip | GreenEye_Frontend/src/components/dashboard/SensorInfo.jsx:36-44 | the statuses of a snapshot written as a payload read back unchanged |
| SensorInfo.RangesRoundTrip | GreenEye_Frontend/src/components/dashboard/SensorInfo.jsx:45-53 | the ranges read back unchanged |
| SensorInfo.ReadingRoundTrip | GreenEye_Frontend/src/components/dashboard/SensorInfo.jsx:33-35 | each reading reads back unchanged |
| SensorInfo.ParsePayload | GreenEye_Frontend/src/components/dashboard/SensorInfo.jsx:29-58 | parsing a well-formed snapshot written as a current payload gives the snapshot back |
| SensorInfo.PayloadParts | GreenEye_Frontend/src/components/dashboard/SensorInfo.jsx:54-57 | such a payload takes the current-shape branch and carries the note, plant type and timestamp |
| SensorInfo.FlatReadings | GreenEye_Frontend/src/components/dashboard/SensorInfo.jsx:61-72 | the seven readings of a flat record, under either the current or the older names, come back unchanged |
| SensorInfo.ParseFlat | GreenEye_Frontend/src/components/dashboard/SensorInfo.jsx:60-78 | a flat record parses to its readings with unknown statuses, no ranges, no plant type, timestamp or note |
| SensorInfo.BlankIsEmptyParse | GreenEye_Frontend/src/components/dashboard/SensorInfo.jsx:60-78 | an empty object and no argument both parse to the all-zero snapshot |
| SensorInfo.StatusLabel | GreenEye_Frontend/src/components/dashboard/SensorInfo.jsx:119 | the label is `불명` exactly for a status other than `low`, `middle` and `high` |
| SensorInfo.StatusLabelsDistinct | GreenEye_Frontend/src/components/dashboard/SensorInfo.jsx:119 | the three known statuses get three different labels |
| SensorInfo.Pushed | GreenEye_Frontend/src/components/dashboard/SensorInfo.jsx:159-175 | every pushed action is the action of some rule |
| SensorInfo.Insert | GreenEye_Frontend/src/components/dashboard/SensorInfo.jsx:179 | inserting an action adds exactly that action |
| SensorInfo.SortByPr | GreenEye_Frontend/src/components/dashboard/SensorInfo.jsx:179 | the sort is a permutation |
| SensorInfo.SortOrdered | GreenEye_Frontend/src/components/dashboard/SensorInfo.jsx:179 | the sorted actions are in non-decreasing priority |
| SensorInfo.SortStable | GreenEye_Frontend/src/components/dashboard/SensorInfo.jsx:179 | the actions of each priority keep their order (the sort is stable) |
| SensorInfo.SortOfOrdered | GreenEye_Frontend/src/components/dashboard/SensorInfo.jsx:179 | sorting actions already in priority order changes nothing |
| SensorInfo.DedupeFrom | GreenEye_Frontend/src/components/dashboard/SensorInfo.jsx:177-179 | the kept actions have distinct slugs, come from the list, and every slug of the list is kept unless already seen |
| SensorInfo.DedupeKeepsDistinct | GreenEye_Frontend/src/components/dashboard/SensorInfo.jsx:177-179 | a list with distinct, unseen slugs is kept whole |
| SensorInfo.PushedOrdered | GreenEye_Frontend/src/components/dashboard/SensorInfo.jsx:163-173 | rules listed in priority order push actions in priority order |
| SensorInfo.PushedDistinct | GreenEye_Frontend/src/components/dashboard/SensorInfo.jsx:163-173 | rules with distinct slugs push actions with distinct slugs |
| SensorInfo.RulesOrdered | GreenEye_Frontend/src/components/dashboard/SensorInfo.jsx:163-173 | the eleven rules are listed in priority order |
| SensorInfo.RulesDistinct | GreenEye_Frontend/src/components/dashboard/SensorInfo.jsx:163-173 | the eleven rules have distinct slugs |
| SensorInfo.AdviceIsFiredRules | GreenEye_Frontend/src/components/dashboard/SensorInfo.jsx:159-181 | sorting and de-duplicating change nothing: the advice is the fired rules' actions in listing order, already ordered by priority with distinct slugs |
| SensorInfo.Texts | GreenEye_Frontend/src/components/dashboard/SensorInfo.jsx:181 | the texts of the actions, in order |
| SensorInfo.Dedupe | GreenEye_Frontend/src/components/dashboard/SensorInfo.jsx:177-179 | the loop with its seen set keeps the first action of each slug |
| SensorInfo.BuildActionsList | GreenEye_Frontend/src/components/dashboard/SensorInfo.jsx:159-182 | the advice is the texts of the sorted, de-duplicated candidates, which are the texts of the fired rules in listing order |
| SensorInfo.PushedEmpty | GreenEye_Frontend/src/components/dashboard/SensorInfo.jsx:162 | with non-empty texts nothing is pushed exactly when no rule fires |
| SensorInfo.RulesShape | GreenEye_Frontend/src/components/dashboard/SensorInfo.jsx:163-173 | every rule has a text, watches reported fields and asks for `low` or `high`, none for a high battery |
| SensorInfo.CalmGivesNoAdvice | GreenEye_Frontend/src/components/dashboard/SensorInfo.jsx:163-173 | with no field low and only the battery possibly high there is no advice |
| SensorInfo.NoAdviceMeansCalm | GreenEye_Frontend/src/components/dashboard/SensorInfo.jsx:163-173 | without advice no field is low and only the battery can be high |
| SensorInfo.NoAdviceIff | GreenEye_Frontend/src/components/dashboard/SensorInfo.jsx:159-181 | there is no advice exactly when no field is low and no field but the battery is high |
| SensorInfo.PushedCongruent | GreenEye_Frontend/src/components/dashboard/SensorInfo.jsx:160 | statuses with the same lower-cased levels give the same advice |
| SensorInfo.AdviceIgnoresCase | GreenEye_Frontend/src/components/dashboard/SensorInfo.jsx:160 | upper-casing a status does not change the advice |
| SensorInfo.UnknownIsCalm | GreenEye_Frontend/src/components/dashboard/SensorInfo.jsx:38-44 | the all-`unknown` status gives no advice |
| SensorInfo.FlatGivesNoAdvice | GreenEye_Frontend/src/components/dashboard/SensorInfo.jsx:60-78 | a flat payload, which carries no statuses, never gives advice |
| SensorInfo.NextDelay | GreenEye_Frontend/src/components/dashboard/SensorInfo.jsx:251-254 | the delay to the next boundary is positive, at most one period, and lands on a multiple of the period |
| SensorInfo.NextDelayFirst | GreenEye_Frontend/src/components/dashboard/SensorInfo.jsx:251-254 | no shorter positive delay lands on a boundary: the timer fires at the next one |
| SensorInfo.SensorPanel.constructor | GreenEye_Frontend/src/components/dashboard/SensorInfo.jsx:188-198 | the panel starts on the blank snapshot, not loading, with the period read from the settings |
| SensorInfo.SensorPanel.LoadOnce | GreenEye_Frontend/src/components/dashboard/SensorInfo.jsx:222-235 | no target changes nothing; a good reply becomes the data; a failed one keeps the previous data when its air temperature, soil moisture or battery is non-zero and substitutes the dummy snapshot otherwise; loading ends |
| Gallery.KeepLabel | GreenEye_Frontend/src/components/dashboard/PlantGallery.jsx:16 | the kept text holds exactly the Hangul, space and middle-dot characters of the input |
| Gallery.StripNote | GreenEye_Frontend/src/components/dashboard/PlantGallery.jsx:12 | removing a trailing parenthesised note leaves a prefix of the text |
| Gallery.FirstName | GreenEye_Frontend/src/components/dashboard/PlantGallery.jsx:14 | the first of several slash-separated names is trimmed and holds no slash |
| Gallery.SpeciesKR | GreenEye_Frontend/src/components/dashboard/PlantGallery.jsx:9-18 | no species gives `''`; the label holds no slash, and is either all Hangul label characters or the trimmed first name when that has none |
| Gallery.StripsNote | GreenEye_Frontend/src/components/dashboard/PlantGallery.jsx:12 | a name followed by ` (note)` loses exactly the note |
| Gallery.KeepsUnnoted | GreenEye_Frontend/src/components/dashboard/PlantGallery.jsx:12 | a name without a trailing note is kept |
| Gallery.FirstOfTwo | GreenEye_Frontend/src/components/dashboard/PlantGallery.jsx:14 | `a/b` gives its first part `a` |
| Gallery.LabelIs | GreenEye_Frontend/src/components/dashboard/PlantGallery.jsx:14-17 | the label is the Hangul part of the first name, or the first name itself when that has no Hangul |
| Gallery.PansyExample | GreenEye_Frontend/src/components/dashboard/PlantGallery.jsx:6 | `팬지 / 삼색제비꽃 (Pansy)` gives `팬지` |
| Gallery.LavenderExample | GreenEye_Frontend/src/components/dashboard/PlantGallery.jsx:7 | `라벤더 (Lavender)` gives `라벤더` |
| Gallery.NoKoreanExample | GreenEye_Frontend/src/components/dashboard/PlantGallery.jsx:15-17 | a first name without Hangul is returned as it is: `Mint /민트` gives `Mint` |
| Gallery.RoomOf | GreenEye_Frontend/src/components/dashboard/PlantGallery.jsx:32 | a device's room is its trimmed room, or `미지정`; never empty |
| Gallery.Cards | GreenEye_Frontend/src/components/dashboard/PlantGallery.jsx:31-34 | one card per device, carrying its index |
| Gallery.InRoomMembers | GreenEye_Frontend/src/components/dashboard/PlantGallery.jsx:31-35 | a room's cards are exactly the cards whose device is in that room |
| Gallery.InRoomIncreasing | GreenEye_Frontend/src/components/dashboard/PlantGallery.jsx:31-35 | within a room, cards keep input order |
| Gallery.Distinct | GreenEye_Frontend/src/components/dashboard/PlantGallery.jsx:33 | the rooms in order of first appearance, no longer than the list |
| Gallery.DistinctMembers | GreenEye_Frontend/src/components/dashboard/PlantGallery.jsx:33 | every room appears among the groups' rooms, and no other |
| Gallery.DistinctOrder | GreenEye_Frontend/src/components/dashboard/PlantGallery.jsx:36 | the groups come in order of first appearance |
| Gallery.Groups | GreenEye_Frontend/src/components/dashboard/PlantGallery.jsx:29-37 | the grouping loop files every device under its room: each group holds exactly its room's cards in input order, every room has a group, and groups appear in first-appearance order |
| Gallery.OneGroupEach | GreenEye_Frontend/src/components/dashboard/PlantGallery.jsx:29-37 | every device lands in exactly one group, the one of its room |
| Gallery.AtMostOneSelected | GreenEye_Frontend/src/components/dashboard/PlantGallery.jsx:151 | a card is selected when its index is the selected index, so at most one card in the gallery is selected |
| Gallery.GroupCard | GreenEye_Frontend/src/components/dashboard/PlantGallery.jsx:34 | every card in a group is a device of the list at its own index, in that room |
| Gallery.RoomsDistinct | GreenEye_Frontend/src/components/dashboard/PlantGallery.jsx:30-36 | no two groups have the same room |
| Gallery.DisabledIffNoGroups | GreenEye_Frontend/src/components/dashboard/PlantGallery.jsx:26 | the delete button is disabled exactly when there are no groups |
| Gallery.GroupHasDevice | GreenEye_Frontend/src/components/dashboard/PlantGallery.jsx:33 | every group has at least one device |
| Gallery.FlattenAppend | GreenEye_Frontend/src/components/dashboard/PlantGallery.jsx:40-44 | flattening rows distributes over appending a row |
| Gallery.Rows | GreenEye_Frontend/src/components/dashboard/PlantGallery.jsx:40-44 | the rows put the items back together in order, hold one or two items each, only the last may hold one, and there are half as many (rounded up); the same chunking is greeneye/src/components/dashboard/PlantGallery.jsx:31-36 |
| LegacyGallery.RoomText | greeneye/src/components/dashboard/PlantGallery.jsx:16 | the room is the trimmed text, `''` when absent; a room that is not a string makes `trim` throw |
| LegacyGallery.List | greeneye/src/components/dashboard/PlantGallery.jsx:13-17 | the list fails exactly when some room throws; otherwise each item is the device with its index and trimmed room |
| LegacyGallery.NormRoom | greeneye/src/components/dashboard/PlantGallery.jsx:18 | the shown room is never empty: an empty room shows as `미지정`, any other room as itself |
| LegacyGallery.Names | greeneye/src/components/dashboard/PlantGallery.jsx:21 | one shown room per item |
| LegacyGallery.LessIrreflexive | greeneye/src/components/dashboard/PlantGallery.jsx:22 | no room sorts before itself |
| LegacyGallery.LessTrans | greeneye/src/components/dashboard/PlantGallery.jsx:22 | the room order is transitive |
| LegacyGallery.LessTotal | greeneye/src/components/dashboard/PlantGallery.jsx:22 | any two different rooms are ordered one way or the other |
| LegacyGallery.Insert | greeneye/src/components/dashboard/PlantGallery.jsx:21-22 | inserting a room into a sorted list keeps it strictly sorted and adds exactly that room |
| LegacyGallery.SortRooms | greeneye/src/components/dashboard/PlantGallery.jsx:21-22 | the distinct rooms come out strictly ascending, exactly the rooms of the list |
| LegacyGallery.SortedUnique | greeneye/src/components/dashboard/PlantGallery.jsx:21-22 | two strictly ascending lists with the same rooms are equal: the room list is determined by the set of rooms |
| LegacyGallery.Filter | greeneye/src/components/dashboard/PlantGallery.jsx:27 | a room's items are no more than the list |
| LegacyGallery.FilterMembers | greeneye/src/components/dashboard/PlantGallery.jsx:27 | a room's items are exactly the items shown in that room |
| LegacyGallery.FilterOrdered | greeneye/src/components/dashboard/PlantGallery.jsx:27 | items keep input order within a room |
| LegacyGallery.Sections | greeneye/src/components/dashboard/PlantGallery.jsx:25-28 | the sections are in strictly ascending room order |
| LegacyGallery.Layout | greeneye/src/components/dashboard/PlantGallery.jsx:13-28 | the layout fails exactly when a room throws, and is otherwise the sections of the listed items |
| LegacyGallery.RoomsOfSections | greeneye/src/components/dashboard/PlantGallery.jsx:25-28 | each section's room is the room of some item, and its items are the filter for that room |
| LegacyGallery.OneSectionEach | greeneye/src/components/dashboard/PlantGallery.jsx:25-28 | every item lands in exactly one section, the one of its shown room |
| LegacyGallery.NoEmptySection | greeneye/src/components/dashboard/PlantGallery.jsx:115 | every section counts at least one device |
| LegacyGallery.SectionItem | greeneye/src/components/dashboard/PlantGallery.jsx:27 | a section's items are in index order, and each is the item at its own original index |
| LegacyGallery.AtMostOneSelected | greeneye/src/components/dashboard/PlantGallery.jsx:128 | a card is selected when its index is the selected index, so at most one card is selected |
| LegacyGallery.DisabledIffNoSections | greeneye/src/components/dashboard/PlantGallery.jsx:10 | the delete button is disabled exactly when there is no section |
| Mocks.KeepAlnum | GreenEye_Frontend/src/mocks/handlers.js:13 | only ASCII letters and digits are kept |
| Mocks.ToCode | GreenEye_Frontend/src/mocks/handlers.js:10-15 | the mock code is at most four ASCII letters and digits, and empty for a blank input |
| Mocks.ToCodeIsTail | GreenEye_Frontend/src/mocks/handlers.js:10-15 | the mock code is the last four letters and digits of the text |
| Mocks.AlnumCode | GreenEye_Frontend/src/mocks/handlers.js:10-15 | a code of at most four letters and digits is its own mock code |
| Mocks.ToCodeIdempotent | GreenEye_Frontend/src/mocks/handlers.js:10-15 | taking the mock code twice is the same as once |
| Mocks.NormalizeDevice | GreenEye_Frontend/src/mocks/handlers.js:16-22 | the normalised code has at most four characters, and no display field is null or undefined |
| Mocks.NormalizeIdempotent | GreenEye_Frontend/src/mocks/handlers.js:16-22 | normalising a served device again gives it back |
| Mocks.Coded | GreenEye_Frontend/src/mocks/handlers.js:55 | the filter keeps no device with an empty code |
| Mocks.CodedMembers | GreenEye_Frontend/src/mocks/handlers.js:55 | it keeps exactly the devices with a code |
| Mocks.ListDevices | GreenEye_Frontend/src/mocks/handlers.js:53-56 | the handler answers exactly when the store holds an array without `null`, answers with coded devices only, and answers `[]` when nothing is stored |
| Mocks.ListedDevices | GreenEye_Frontend/src/mocks/handlers.js:53-56 | a device is listed exactly when it is the normalisation of a stored record and has a code |
| Mocks.Register | GreenEye_Frontend/src/mocks/handlers.js:72-77 | registration fails only for a `null` body; otherwise the id is one to four ASCII letters and digits |
| Mocks.FallbackIsCode | GreenEye_Frontend/src/mocks/handlers.js:75 | the fallback id `0000` is a four-character code |
| Mocks.RegisteredIsCode | GreenEye_Frontend/src/mocks/handlers.js:72-77 | the id is its own mock code, and is `0000` when the MAC text has no letter or digit |
| Mocks.DummyTickMs | GreenEye_Frontend/src/mocks/handlers.js:28-33 | the tick is within [1000, 600000] ms; a stored finite number in that range is returned as is, a missing entry gives 10000, and any result other than 10000 is the stored number |
| Mocks.LcgStep | GreenEye_Frontend/src/mocks/handlers.js:44-47 | the generator's state stays below 2^32 |
| Mocks.LcgExact | GreenEye_Frontend/src/mocks/handlers.js:46 | the product and sum before truncation stay below 2^53, so the double arithmetic of the step is exact |
| Mocks.Prng.constructor | GreenEye_Frontend/src/mocks/handlers.js:44-45 | the state starts at the seed modulo 2^32 |
| Mocks.Prng.Next | GreenEye_Frontend/src/mocks/handlers.js:46 | each draw advances the state by one step and returns it divided by 2^32, a number in [0, 1) |
| Mocks.Clamp | GreenEye_Frontend/src/mocks/handlers.js:48 | the result lies in [a, b] whenever a <= b, is the value itself when that lies there, and is always the value or a bound |
| Auth.Restored | GreenEye_Frontend/src/context/AuthContext.jsx:16-21 | after mount the token is `null` exactly when nothing (or the empty text) is stored, and is otherwise the stored text |
| Auth.LoginSurvivesReload | GreenEye_Frontend/src/context/AuthContext.jsx:23-29 | a token that logged in comes back after a reload as its text, with the same `Authorization` header; a string token comes back unchanged; only a token whose text is empty is lost |
| Auth.LogoutSurvivesReload | GreenEye_Frontend/src/context/AuthContext.jsx:31-34 | after a logout a reload restores no token |
| Auth.Session.constructor | GreenEye_Frontend/src/context/AuthContext.jsx:16 | the session starts without a token, over what storage holds |
| Auth.Session.Restore | GreenEye_Frontend/src/context/AuthContext.jsx:18-21 | a non-empty stored token becomes the token; otherwise the token is left alone |
| Auth.Session.Login | GreenEye_Frontend/src/context/AuthContext.jsx:23-29 | login accepts a string or `{token}` and succeeds exactly when the token is truthy; then the token is set and its text stored; otherwise nothing changes (also greeneye/src/context/AuthContext.jsx:22-29) |
| Auth.Session.Logout | GreenEye_Frontend/src/context/AuthContext.jsx:31-34 | the token and the stored token are both cleared (also greeneye/src/context/AuthContext.jsx:31-35) |
| Auth.CredentialsFor | GreenEye_Frontend/src/context/AuthContext.jsx:51 | cookies are sent exactly when the flag is the text `1` |
| Auth.AuthRequest | GreenEye_Frontend/src/context/AuthContext.jsx:37-60 | the URL is the path when it starts with `http` and the API base plus the path otherwise; the caller's headers are kept; `Authorization: Bearer <token>` is added exactly when there is a token and the caller gave none; `Content-Type: application/json` is added exactly when absent and the body is non-empty and not form data; nothing else is added; credentials follow the flag; the body is passed on |
| Auth.SignedOutAddsNoAuthorization | GreenEye_Frontend/src/context/AuthContext.jsx:42-44 | without a token no `Authorization` header is added |
| LegacyAuth.AuthHeaders | greeneye/src/context/AuthContext.jsx:38-42 | with a token the `Authorization` header is set to the bearer text, overriding the caller's; without one the headers are the caller's; other headers are kept |
| LegacyAuth.AuthorizationRules | greeneye/src/context/AuthContext.jsx:38-42 | both generations send an `Authorization` header in the same cases, and differ in its value exactly when the caller gave one that is not the bearer text of the token: the earlier app overrides it, the current one keeps it |
| EmailConsent.SaveErrorText | GreenEye_Frontend/src/components/settings/EmailConsentRow.jsx:48-59 | a failed save always shows a non-empty error: a rejection with a truthy server `error` shows that text (or `저장 실패` when it prints empty), one without shows `저장 실패 (HTTP <status>)`, and a thrown message is shown as it is, or `저장 실패` when empty |
| EmailConsent.RejectPrefix | GreenEye_Frontend/src/components/settings/EmailConsentRow.jsx:49-51 | a rejection without a truthy `error` reports exactly `저장 실패 (HTTP <status>)`, which starts with `저장 실패` |
| EmailConsent.RejectNamesStatus | GreenEye_Frontend/src/components/settings/EmailConsentRow.jsx:49 | the fallback message names the status: two rejections give the same message only for the same status |
| EmailConsent.ConsentRow.constructor | GreenEye_Frontend/src/components/settings/EmailConsentRow.jsx:7-12 | the row starts loading, not saving, both values off, no error: not dirty, not confirmable, not editable |
| EmailConsent.ConsentRow.Load | GreenEye_Frontend/src/components/settings/EmailConsentRow.jsx:15-36 | a load that arrives sets both values to the reply's consent (not dirty) or, on failure, sets the error and keeps both values; loading ends after either; after unmount only the flags set before the request change |
| EmailConsent.ConsentRow.SetChecked | GreenEye_Frontend/src/components/settings/EmailConsentRow.jsx:89 | the checkbox sets the shown value, and the row is dirty exactly when that differs from the server value |
| EmailConsent.ConsentRow.Confirm | GreenEye_Frontend/src/components/settings/EmailConsentRow.jsx:39-63 | a successful save sets both values to the server's reply (not dirty); a failed one keeps both values and shows the error; saving ends after either |
| LegacyDevices.EqCodeIgnoresSpace | greeneye/src/components/dashboard/Dashboard.jsx:13-14 | surrounding white space never tells two codes apart (while letter case does) |
| LegacyDevices.CombineKey | greeneye/src/components/dashboard/Dashboard.jsx:22 | a merged record keeps the code of the record merged in |
| LegacyDevices.Put | greeneye/src/components/dashboard/Dashboard.jsx:20-22 | one step of the loop keeps the map valid |
| LegacyDevices.Fold | greeneye/src/components/dashboard/Dashboard.jsx:17-24 | the map built from the list is valid |
| LegacyDevices.DedupeByCode | greeneye/src/components/dashboard/Dashboard.jsx:17-25 | the loop returns the values of the folded map |
| LegacyDevices.Codes | greeneye/src/components/dashboard/Dashboard.jsx:20-21 | the codes read from the list are never empty |
| LegacyDevices.FoldShape | greeneye/src/components/dashboard/Dashboard.jsx:17-24 | the map's keys are the distinct codes in first-appearance order, and each value is the spread of every record with that code, later fields winning |
| LegacyDevices.DedupedFacts | greeneye/src/components/dashboard/Dashboard.jsx:17-25 | the deduplicated list holds objects with distinct non-empty codes, one per distinct code in first-appearance order, each the merge of all records with that code |
| LegacyDevices.DedupedCodes | greeneye/src/components/dashboard/Dashboard.jsx:17-25 | a code is in the deduplicated list exactly when some record carries it |
| LegacyDevices.LastRecordWins | greeneye/src/components/dashboard/Dashboard.jsx:22 | a field of the last record with a code is the value the merged record carries |
| LegacyDevices.NoKeyNoFields | greeneye/src/components/dashboard/Dashboard.jsx:20-22 | a code no record carries merges nothing |
| LegacyDevices.CleanIsDeduped | greeneye/src/components/dashboard/Dashboard.jsx:17-25 | a list already clean (objects with distinct non-empty codes) is left as it is |
| LegacyDevices.DedupeIdempotent | greeneye/src/components/dashboard/Dashboard.jsx:17-25 | deduplicating twice is the same as once |
| LegacyDevices.LoadDevices | greeneye/src/components/dashboard/Dashboard.jsx:27-33 | a missing, empty, corrupt or non-array store loads as `[]` |
| LegacyDevices.LoadedIsClean | greeneye/src/components/dashboard/Dashboard.jsx:27-33 | the loaded list is always clean |
| LegacyDevices.Without | greeneye/src/components/dashboard/Dashboard.jsx:74 | the remaining list keeps exactly the devices whose trimmed code differs from the deleted one |
| LegacyDevices.DropMembers | greeneye/src/components/dashboard/Dashboard.jsx:74 | the filter keeps exactly the records with another code |
| LegacyDevices.DropOne | greeneye/src/components/dashboard/Dashboard.jsx:74 | on a list where only one record has the code, deleting it removes exactly that position |
| LegacyDevices.DropClean | greeneye/src/components/dashboard/Dashboard.jsx:74 | deleting from a clean list leaves a clean list |
| LegacyDevices.FindCode | greeneye/src/components/dashboard/Dashboard.jsx:52 | the index found is -1 or the first device with the same trimmed code |
| LegacyDevices.SavedReloads | greeneye/src/components/dashboard/Dashboard.jsx:35-37 | a clean list saved and loaded back is unchanged |
| LegacyDevices.Dashboard.constructor | greeneye/src/components/dashboard/Dashboard.jsx:44-45 | the screen opens on the loaded list with the first device selected |
| LegacyDevices.Dashboard.DeleteSelected | greeneye/src/components/dashboard/Dashboard.jsx:69-79 | with no selection or no confirmation nothing changes; otherwise the selected device is removed (exactly its position), the rest keep their order and are saved, and the selection becomes 0 for an empty list or the old index capped at the last device, so it stays in bounds |
| LegacyDevices.Dashboard.Reload | greeneye/src/components/dashboard/Dashboard.jsx:60 | the list is reloaded from storage |
| LegacyDevices.Dashboard.ReturnFromLink | greeneye/src/components/dashboard/Dashboard.jsx:48-56 | on return from linking the list is reloaded and the selection moves to the first device with the added code, and only when one exists |
| LegacyDeviceLink.RemoveBrackets | greeneye/src/components/devices/DeviceLink.jsx:87 | removing brackets never lengthens the text and leaves only characters of the input that are not brackets |
| LegacyDeviceLink.RemoveBracketsConcat | greeneye/src/components/devices/DeviceLink.jsx:87 | bracket removal works piece by piece |
| LegacyDeviceLink.NormalizeDeviceId | greeneye/src/components/devices/DeviceLink.jsx:87 | the normalized id holds no bracket, and an empty input gives an empty id |
| LegacyDeviceLink.ValidIdIsNormal | greeneye/src/components/devices/DeviceLink.jsx:87-89 | an id already in the `XX-XX-XXXX` form is left as it is by normalization |
| LegacyDeviceLink.BracketedIdAccepted | greeneye/src/components/devices/DeviceLink.jsx:87-89 | a valid id typed inside brackets normalizes to the id itself |
| LegacyDeviceLink.IdCharsAlnum | greeneye/src/components/devices/DeviceLink.jsx:118 | the 62 characters ids are drawn from are ASCII letters and digits |
| LegacyDeviceLink.Pick | greeneye/src/components/devices/DeviceLink.jsx:119 | a sequence of picks gives as many letters and digits |
| LegacyDeviceLink.RandomId | greeneye/src/components/devices/DeviceLink.jsx:117-121 | every generated id is valid |
| LegacyDeviceLink.RandomIdSubmits | greeneye/src/components/devices/DeviceLink.jsx:117-121 | a generated id passes the form's own normalization and check unchanged |
| LegacyDeviceLink.ParseList | greeneye/src/components/devices/DeviceLink.jsx:146 | a missing or empty entry is the empty list, and a list read back is the stored array |
| LegacyDeviceLink.FindExact | greeneye/src/components/devices/DeviceLink.jsx:147 | the index is the first entry whose code is exactly the given one, or -1 when none is; no index (the callback throws) only when a null entry is reached first |
| LegacyDeviceLink.Upserted | greeneye/src/components/devices/DeviceLink.jsx:149 | the record replaces the entry at the index found or is appended |
| LegacyDeviceLink.Upsert | greeneye/src/components/devices/DeviceLink.jsx:145-151 | the write happens exactly when the entry parses as a list and the search reaches no null entry |
| LegacyDeviceLink.UpsertPlacement | greeneye/src/components/devices/DeviceLink.jsx:145-151 | the record replaces the first entry with the same code or is appended when there is none; every other entry stays where it was |
| LegacyDeviceLink.UpsertIdempotent | greeneye/src/components/devices/DeviceLink.jsx:145-151 | upserting the same record twice stores what upserting it once does |
| LegacyDeviceLink.FindExactAt | greeneye/src/components/devices/DeviceLink.jsx:147 | the first matching entry after non-matching non-null ones is the one found |
| LegacyDeviceLink.LinkedDeviceSelected | greeneye/src/components/devices/DeviceLink.jsx:145-151 | after a successful link the dashboard finds the new code in the list it reloads, so it can select it |
| LegacyDeviceLink.Check | greeneye/src/components/devices/DeviceLink.jsx:156-160 | the first failing rule gives its message (name missing, id invalid after normalization, trimmed room longer than 40); the form passes exactly when all three hold, with the normalized id and trimmed room |
| LegacyDeviceLink.EnsureThumb | greeneye/src/components/devices/DeviceLink.jsx:162-166 | an existing thumbnail is used as it is; with no file or a thumbnail that cannot be made the text thumbnail is used |
| LegacyDeviceLink.ServerImage | greeneye/src/components/devices/DeviceLink.jsx:196 | the image the server returns wins when it is truthy; without a reply body the local thumbnail is used; the image is never empty |
| LegacyDeviceLink.ReplyError | greeneye/src/components/devices/DeviceLink.jsx:191-193 | a failed request always shows a message: the server's text, or the thrown message when there is one |
| LegacyDeviceLink.LinkPage.constructor | greeneye/src/components/devices/DeviceLink.jsx:124-133 | the form opens empty, online, without error and not loading |
| LegacyDeviceLink.LinkPage.Generate | greeneye/src/components/devices/DeviceLink.jsx:242 | the generate button fills in an id the form accepts |
| LegacyDeviceLink.LinkPage.OnPickFile | greeneye/src/components/devices/DeviceLink.jsx:135-143 | a file of another type or over 10 MB is refused with its message and changes nothing else; an accepted file becomes the selection with its thumbnail |
| LegacyDeviceLink.LinkPage.HandleSubmit | greeneye/src/components/devices/DeviceLink.jsx:153-209 | an invalid form only shows its message; offline, the record is upserted and the added device handed back without a request; online without a photo the photo message is shown; online, exactly one request is made and loading ends, a failed reply shows its error and stores nothing, and a good one upserts the record with the server's image |
| LegacyDeviceLink.LinkPage.SubmitOffline | greeneye/src/components/devices/DeviceLink.jsx:169-177 | the offline branch upserts the record with the thumbnail and hands the device back |
| LegacyDeviceLink.LinkPage.SubmitOnline | greeneye/src/components/devices/DeviceLink.jsx:180-208 | the online branch posts once, ends loading, and stores the record only on a good reply |
| LegacyDeviceLink.LinkPage.ApplyReply | greeneye/src/components/devices/DeviceLink.jsx:189-205 | a failed reply shows its error and stores nothing; a good one upserts the record, and an upsert that throws shows its message |
| LegacyDeviceLink.LinkPage.Finish | greeneye/src/components/devices/DeviceLink.jsx:197-203 | the upsert either succeeds and hands back the added device or leaves the store and the hand-off unchanged |
| LegacySettings.Rank | greeneye/src/components/settings/Settings.jsx:13-19 | every mode key has its place in the preset order |
| LegacySettings.GuessMode | greeneye/src/components/settings/Settings.jsx:21-29 | the guess is always a mode key, and 'normal' for a value that is not a finite number |
| LegacySettings.GuessFinite | greeneye/src/components/settings/Settings.jsx:24-28 | a finite interval always maps to a mode key |
| LegacySettings.GuessMonotone | greeneye/src/components/settings/Settings.jsx:24-28 | a longer old refresh interval never guesses a more frequent mode |
| LegacySettings.GuessRecoversMode | greeneye/src/components/settings/Settings.jsx:13-28 | each mode's own sensing interval guesses that mode back |
| LegacySettings.GuessNearest | greeneye/src/components/settings/Settings.jsx:13-28 | the guessed mode senses within a minute of the nearest preset interval |
| LegacySettings.Defaults | greeneye/src/components/settings/Settings.jsx:31-39 | the defaults are the 'normal' preset with the night flash always on and no camera target |
| LegacySettings.LoadSettings | greeneye/src/components/settings/Settings.jsx:41-64 | a missing, empty, corrupt or null entry loads the defaults; an older record without a mode gets the guessed mode and its preset intervals and keeps its other fields; any other record is laid over the defaults |
| LegacySettings.SavedData | greeneye/src/components/settings/Settings.jsx:132-142 | the saved record keeps the chosen mode with its preset intervals (the 'normal' ones for an unknown mode), never stores an empty night mode, stores '' for no camera target, and has exactly the default fields, for modes that do not name an inherited `Object.prototype` property |
| LegacySettings.SaveLoadRoundTrip | greeneye/src/components/settings/Settings.jsx:41-66 | what is saved loads back unchanged |
| LegacySettings.MigrationSticks | greeneye/src/components/settings/Settings.jsx:47-58 | an older record, once loaded and saved, keeps its guessed mode on every later load |
| LegacySettings.PlainWithDevice | greeneye/src/components/settings/Settings.jsx:70-75 | a path without a placeholder or query gets the device as its query |
| LegacySettings.BustAfterQuery | greeneye/src/components/settings/Settings.jsx:321-322 | a cache-busting value is added with `&` once the URL has a query |
| LegacySettings.PreviewQuery | greeneye/src/components/settings/Settings.jsx:320-322 | the preview URL of the snapshot path carries the encoded device and the cache-busting value as two separate query parameters |
| LegacySettings.DigitsNoAmp | greeneye/src/components/settings/Settings.jsx:322 | a rendered number never contains `&` |
| LegacySettings.SnapshotPathPlain | greeneye/src/components/settings/Settings.jsx:9 | the snapshot path has no placeholder and no query |
| LegacySettings.DeviceChoices | greeneye/src/components/settings/Settings.jsx:95-117 | the list comes from the server when it returns an array, else from the stored list when it is an array, else is empty |
| LegacySettings.SettingsPage.constructor | greeneye/src/components/settings/Settings.jsx:80-93 | the page opens on the loaded settings, loading devices and without a preview |
| LegacySettings.SettingsPage.LoadDevices | greeneye/src/components/settings/Settings.jsx:95-117 | a page still open takes the device choices and stops loading; a closed one is left alone |
| LegacySettings.SettingsPage.OnChange | greeneye/src/components/settings/Settings.jsx:119 | one field of the form changes |
| LegacySettings.SettingsPage.ChooseMode | greeneye/src/components/settings/Settings.jsx:121-130 | choosing a mode sets it with its preset intervals |
| LegacySettings.SettingsPage.ChooseTarget | greeneye/src/components/settings/Settings.jsx:257 | choosing a device sets the camera target to its code |
| LegacySettings.SettingsPage.HandleSave | greeneye/src/components/settings/Settings.jsx:132-146 | the saved record is stored and shown, and loading the store gives the form back |
| LegacySettings.SettingsPage.SavedTimeout | greeneye/src/components/settings/Settings.jsx:145 | the saved notice goes away |
| LegacySettings.SettingsPage.StartPreview | greeneye/src/components/settings/Settings.jsx:149-155 | without a camera target the preview does not start and says why; with one it starts with its timer |
| LegacySettings.SettingsPage.StopPreview | greeneye/src/components/settings/Settings.jsx:156 | the preview, its error and its timer all stop |
| LegacySettings.SettingsPage.Tick | greeneye/src/components/settings/Settings.jsx:154 | each tick takes the current time as the cache-busting value |
| LegacySettings.SettingsPage.OnSnapshotError | greeneye/src/components/settings/Settings.jsx:327 | a failed snapshot shows the snapshot message |
| LegacySensor.FirstMatch | greeneye/src/components/dashboard/SensorInfo.jsx:22 | the match found is the first place a number starts, or none when no place does |
| LegacySensor.FracDigits | greeneye/src/components/dashboard/SensorInfo.jsx:22 | a fraction is read only from digits |
| LegacySensor.ScanNoneIff | greeneye/src/components/dashboard/SensorInfo.jsx:22-23 | a string yields no number exactly when it has no digit |
| LegacySensor.ReplaceKeepsDigits | greeneye/src/components/dashboard/SensorInfo.jsx:22 | turning the first comma into a point changes no digit and no length |
| LegacySensor.ReadingNoneIff | greeneye/src/components/dashboard/SensorInfo.jsx:18-26 | a string reading is missing exactly when the string has no digit |
| LegacySensor.ScanDigits | greeneye/src/components/dashboard/SensorInfo.jsx:22-23 | a string of digits reads as its decimal value |
| LegacySensor.ReadingOfRendered | greeneye/src/components/dashboard/SensorInfo.jsx:18-26 | a whole number written out reads back as itself |
| LegacySensor.DecimalComma | greeneye/src/components/dashboard/SensorInfo.jsx:22-23 | a decimal comma reads like a decimal point |
| LegacySensor.WalkAppend | greeneye/src/components/dashboard/SensorInfo.jsx:29-30 | following a longer path is following its first part, then the rest |
| LegacySensor.SplitConcat | greeneye/src/components/dashboard/SensorInfo.jsx:30 | splitting text joined by the separator splits each part |
| LegacySensor.GetPath | greeneye/src/components/dashboard/SensorInfo.jsx:29-30 | reading `a.b` is reading `b` of what `a` gives |
| LegacySensor.GetFalsy | greeneye/src/components/dashboard/SensorInfo.jsx:29-30 | any path of a falsy value is undefined |
| LegacySensor.GetKey | greeneye/src/components/dashboard/SensorInfo.jsx:29-30 | a path without a dot reads one property |
| LegacySensor.FirstNumIsFirst | greeneye/src/components/dashboard/SensorInfo.jsx:33-39 | the number found is that of the first path that gives one, and none means no path does |
| LegacySensor.FirstNum | greeneye/src/components/dashboard/SensorInfo.jsx:33-39 | the loop returns the number of the first path that gives one |
| LegacySensor.ArrayUsesLast | greeneye/src/components/dashboard/SensorInfo.jsx:44-47 | an array reads as its last element |
| LegacySensor.EmptyArrayIsZeros | greeneye/src/components/dashboard/SensorInfo.jsx:44-47 | an empty array reads as all zeros |
| LegacySensor.NothingInEmpty | greeneye/src/components/dashboard/SensorInfo.jsx:80-130 | an empty object gives no number on any path |
| LegacySensor.StandardIsShortcut | greeneye/src/components/dashboard/SensorInfo.jsx:50-77 | when the fast route succeeds it gives what the alias route would (each alias list starts with the standard path) |
| LegacySensor.MapIsByAlias | greeneye/src/components/dashboard/SensorInfo.jsx:42-137 | any value that is not an array reads as the alias route gives, fields with no parsable alias being 0 |
| LegacySensor.Endpoints | greeneye/src/components/dashboard/SensorInfo.jsx:11-15 | there are three endpoints |
| LegacySensor.EndpointsCarryCode | greeneye/src/components/dashboard/SensorInfo.jsx:11-15 | each endpoint carries the encoded device code as one whole path segment or query value |
| LegacySensor.FetchSensorSnapshot | greeneye/src/components/dashboard/SensorInfo.jsx:155-178 | the endpoints are tried in order until one answers, that answer is mapped, and all zeros come back when none does |
| LegacySensor.Panel.constructor | greeneye/src/components/dashboard/SensorInfo.jsx:182-187 | the panel starts on zeros, not loading |
| LegacySensor.Panel.Load | greeneye/src/components/dashboard/SensorInfo.jsx:189-211 | no device gives zeros without loading; a panel still shown takes the fetched reading and stops loading; a closed one keeps its data |
| LegacySensor.Title | greeneye/src/components/dashboard/SensorInfo.jsx:214 | the title is the trimmed name, else the code, else '미선택' |
| ControlPanel.PayloadSwitches | greeneye/src/components/dashboard/ControlPanel.jsx:5-29 | each actuator's payload carries its switch field set to the requested state, and only the pump switched on adds a 3-second pump duration |
| ControlPanel.UnknownPayloadEmpty | greeneye/src/components/dashboard/ControlPanel.jsx:47-48 | an unknown actuator sends an empty payload |
| ControlPanel.KeyInjective | greeneye/src/components/dashboard/ControlPanel.jsx:39 | the state key of a device and an actuator names that pair alone |
| ControlPanel.RollbackRestores | greeneye/src/components/dashboard/ControlPanel.jsx:40-59 | flipping a switch and writing back the opposite restores what was shown |
| ControlPanel.Panel.constructor | greeneye/src/components/dashboard/ControlPanel.jsx:33-34 | all switches start off and the panel is idle |
| ControlPanel.Panel.Toggle | greeneye/src/components/dashboard/ControlPanel.jsx:36-51 | without a device or while busy nothing happens; otherwise the switch is flipped at once, the panel becomes busy and the request carries the flipped state's payload to the device's control URL |
| ControlPanel.Panel.Settle | greeneye/src/components/dashboard/ControlPanel.jsx:52-63 | an accepted request keeps the flip; a refused one writes back the opposite and raises the failure alert; the panel is idle again |
| ControlPanel.RefusedToggleRestores | greeneye/src/components/dashboard/ControlPanel.jsx:36-63 | after a refused toggle every switch shows what it showed before |
| Text.EncodeUriComponentSafe | greeneye/src/components/dashboard/SensorInfo.jsx:12-14 | an encoded component holds only characters `encodeURIComponent` leaves alone and never a `/`, `?`, `&` or `#`, so it stays one path segment or query value |
| Text.TrimIdempotent | greeneye/src/components/devices/DeviceLink.jsx:87 | trimming twice is trimming once |
| Text.TrimIsCore | greeneye/src/components/devices/DeviceLink.jsx:87 | the trimmed text is a slice of the input that neither starts nor ends with white space |
| Text.SplitJoin | greeneye/src/components/dashboard/SensorInfo.jsx:30 | splitting text joined by a separator none of the parts contains gives the parts back |
| Text.NatToStringRoundTrip | greeneye/src/components/dashboard/SensorInfo.jsx:18-26 | a whole number's decimal text is digits whose value is the number |
| JsValues.Coalesce | GreenEye_Frontend/src/components/settings/Settings.jsx:45-53 | `??` gives a non-nullish value whenever its fallback is one, and a nullish result is the fallback |
| JsValues.CoalesceVersusOr | GreenEye_Frontend/src/components/settings/Settings.jsx:45-53 | `??` and `\|\|` differ only on a falsy left side that is not nullish, the empty text among them |
| JsValues.IntToStringToNumber | GreenEye_Frontend/src/components/settings/Settings.jsx:59 | an integer written out converts back to itself |

## Left out

- Timers and listeners (`setTimeout`, `setInterval`, `storage` and custom events, visibility and online events) are not modelled as such: each callback is a method, and which callback runs when is left to the caller.
- Network transport (`fetch`, `AbortController`, timeouts, JSON content-type checks) is not modelled: a reply is a parameter, reduced to what the code distinguishes (OK with a body, not OK with its text, thrown with its message).
- Floating point: numbers are exact reals, so rounding, `toFixed` and integer precision limits are not modelled; `NaN` and the infinities appear only where `Number(...)` of a value can produce them.
- `localeCompare(…, 'ko')` in the earlier gallery is modelled as code-point order, since the collation tables are not part of the code.
- Case mapping (`toLowerCase`, `toUpperCase`) covers ASCII letters only; other characters are left as they are, and HTTP header names are compared exactly.
- String lengths are counted in characters, not UTF-16 code units, except in the FNV hash, which reads code units; the 40-character room limit therefore differs from the code for characters outside the Basic Multilingual Plane.
- Canvas work (`makeThumb`, `makeTextThumb`, `fileToDataURL`) is not modelled: the thumbnail a file or a text yields is a parameter, `None` when making it fails.
- The mock's random sensor values and the dummy snapshot's numbers are not modelled beyond the generator's state step and `clamp`.
- `JSON.stringify` of stored values and payloads is not modelled; a stored value is written and read back as the same parsed value.
- `alert`, `confirm` and `navigate` are parameters (the answer to a confirmation) or recorded outputs (the alert texts, the device handed back to the dashboard), not modelled behaviour.
- The earlier link screen's offline branch has no `try`, so a store whose list cannot be searched ends in an unhandled rejection; the model leaves the store and the page unchanged there and shows no message.
- ControlPanel.Panel.Toggle: the `busy` flag is read from the state of the render that registered the click handler; two clicks handled before a re-render are not modelled.
- The stored tombstone array is modelled as a set, so the order in which deleted codes are stored is not modelled.
- The login, register, chat assistant and statistics chart screens, `App`, `main` and the build configuration are not part of this model: they hold no rule beyond calling the ones modelled here.
- Styling (card sizes, colours, labels) is not modelled.
- The device screens' shared entries (client device list, thumbnails, meta, legacy list, tombstones, the current settings) are held decoded in the shape the code expects, so a stored `null` or a value of another shape in them is not modelled for Dashboard.Dashboard.Reload, LocalStores.Stores.UpsertClientDev, LocalStores.Stores.WriteThumb, LocalStores.Stores.WriteMeta, Dashboard.Dashboard.RemoveCanonical and the settings screen's load, storage-event reload and form; the one exception kept is a `null` inside the client list, which the deletion handles.
- Settings.OpenForm: a stored `null` settings entry makes the current screen read `form.operationMode` of `null` and throw while rendering; the model opens the form with no fields there instead.
- Reading a named property (`v?.k`) of a string or an array gives `undefined` in the model; `length` and index properties are never read by name in the code modelled.
- SensorInfo.NextDelay takes the period as a whole number of milliseconds, while SensorInfo.ReadSensingMs yields a real: a period read from a record the settings screen saved is a whole number of minutes (SensorInfo.SensingFollowsSavedMode), but a fractional period stored by other means is not modelled by the timer.
- Gallery.RoomOf: a `null` entry in the server's device list makes `d.room` throw in the gallery; the model files it under the unassigned room instead.
- Keyed lookups in `MODE_PRESETS`, `thumbs` and `meta` are modelled as reads of the object's own properties. A mode or a device code that names a property inherited from `Object.prototype` (`constructor`, `toString`, `valueOf`, `hasOwnProperty`, `__proto__` and the like) finds that inherited value in the code, and this is not modelled. The members below state their contracts for own properties only.
- Modes.PresetFor: a mode naming an inherited property makes `MODE_PRESETS[k] || MODE_PRESETS.normal` give that truthy inherited value, whose intervals are `undefined`; the model falls back to the `normal` preset there.
- Modes.ApplyMode: for a mode naming an inherited property the code writes `undefined` intervals; the model writes the `normal` ones.
- Settings.ShownPreset: for a mode naming an inherited property the lookup `handleSave` makes gives that inherited value, not a preset; the model gives `normal`.
- Settings.ShownPresetAsWritten: a mode naming an inherited property renders with `0m` intervals (`humanizeMin(undefined)`) instead of throwing; the model says such a form does not render.
- Settings.SavedData: for a mode naming an inherited property the code saves no intervals (`JSON.stringify` drops `undefined`), so `Consistent(r)` and the default key set do not hold for it; the model saves the `normal` intervals.
- Settings.SaveIdempotent: rests on Settings.SavedData, so it is stated for modes that are not inherited property names.
- Settings.SettingsPage.HandleSave: stores Settings.SavedData, so the same inherited-name case is not modelled.
- SensorInfo.SensingFollowsSavedMode: its premise is the model's saved form (Modes.Consistent); a record the code saves for a mode naming an inherited property holds no sensing interval, so the panel falls back to thirty minutes, which the lemma does not cover.
- LegacySettings.SavedData: the earlier screen's `MODE_PRESETS[mode] || MODE_PRESETS.normal` has the same inherited-name case; for it the code saves `undefined` intervals, which the model does not capture.
- LegacySettings.SaveLoadRoundTrip: a record saved for a mode naming an inherited property loads back with the default intervals in the code; the model's round trip covers only the modelled save.
- LegacySettings.SettingsPage.HandleSave: its "loads back as the form" promise rests on LegacySettings.SavedData and has the same gap.
- Registry.Overlay: `thumbs[d.deviceCode] ?? …` finds an inherited value for a canonical code such as `constructor`, so the code's `imageUrl` is then the `Object` function; the model keeps the record's own image. (`meta[d.deviceCode]?.species` and `?.room` read `undefined` there and fall through, as in the model.) Its contract (every display field filled) is unaffected.

## Findings

| source | as written | input that shows it | evidently intended | confidence | as-written member | corrected member |
|---|---|---|---|---|---|---|
| GreenEye_Frontend/src/components/settings/Settings.jsx:252-256 | the read-only interval fields read `MODE_PRESETS[form.operationMode].ccu` (and `.sense`, `.capture`) with no fallback, while `loadSettings` returns a stored record as it is | a stored settings record in the older format that the earlier app migrates (greeneye/src/components/settings/Settings.jsx:47-58), `{"sensorRefreshMinutes":30}`: its mode is undefined, the preset lookup gives `undefined` and reading `.ccu` of it throws during rendering | show the `normal` preset for a mode that is not a preset name, as `applyMode` and `handleSave` do at lines 153 and 157 | not executed | Settings.OlderRecordDoesNotRender | Settings.ShownPreset |
