/** The earlier app's linking screen: the device ID is typed (or generated) in the
    `2-2-4` form and checked case-sensitively, the record is written to the single
    `greeneye_devices` list, and the photo is either uploaded with the link request or,
    offline, replaced by a locally made thumbnail. */
module LegacyDeviceLink {
  import opened Text
  import opened JsValues
  import opened LocalStores
  import LegacyDevices

  // ---------------------------------------------------------------------------------
  // Device IDs
  // ---------------------------------------------------------------------------------

  predicate IsBracket(c: char) { c == '[' || c == ']' }

  /** `replace(/[\[\]]/g, '')`. */
  function RemoveBrackets(s: string): (r: string)
    ensures |r| <= |s|
    ensures forall c :: c in r ==> c in s && !IsBracket(c)
  {
    if s == [] then []
    else (if IsBracket(s[0]) then [] else [s[0]]) + RemoveBrackets(s[1..])
  }

  lemma {:induction false} RemoveBracketsConcat(a: string, b: string)
    ensures RemoveBrackets(a + b) == RemoveBrackets(a) + RemoveBrackets(b)
  {
    if a != [] {
      assert (a + b)[1..] == a[1..] + b;
      RemoveBracketsConcat(a[1..], b);
    } else {
      assert a + b == b;
    }
  }

  /** Text without brackets passes through unchanged. */
  lemma {:induction false} RemoveBracketsNone(s: string)
    requires forall i :: 0 <= i < |s| ==> !IsBracket(s[i])
    ensures RemoveBrackets(s) == s
  {
    if s != [] {
      RemoveBracketsNone(s[1..]);
    }
  }

  /** `normalizeDeviceId`: an empty input gives `''`; otherwise the input is trimmed and
      then every square bracket is removed. Letter case is kept. */
  function NormalizeDeviceId(v: string): (r: string)
    ensures forall c :: c in r ==> !IsBracket(c)
    ensures v == "" ==> r == ""
  {
    if v == "" then "" else RemoveBrackets(Trim(v))
  }

  /** `isValidDeviceId`: `/^[A-Za-z0-9]{2}-[A-Za-z0-9]{2}-[A-Za-z0-9]{4}$/`. */
  predicate IsValidDeviceId(v: string) {
    |v| == 10 && v[2] == '-' && v[5] == '-'
    && forall i :: 0 <= i < 10 && i != 2 && i != 5 ==> IsAsciiAlnum(v[i])
  }

  lemma ValidIdTrim(v: string)
    requires IsValidDeviceId(v)
    ensures Trim(v) == v
  {
    assert IsAsciiAlnum(v[0]) && IsAsciiAlnum(v[9]);
    TrimUntouched(v);
  }

  lemma ValidIdNoBrackets(v: string)
    requires IsValidDeviceId(v)
    ensures forall i :: 0 <= i < |v| ==> !IsBracket(v[i])
  {
    forall i | 0 <= i < |v| ensures !IsBracket(v[i]) {
      if i != 2 && i != 5 {
        assert IsAsciiAlnum(v[i]);
      }
    }
  }

  /** A well-formed ID is left alone by the normalisation. */
  lemma ValidIdIsNormal(v: string)
    requires IsValidDeviceId(v)
    ensures NormalizeDeviceId(v) == v
  {
    ValidIdTrim(v);
    ValidIdNoBrackets(v);
    RemoveBracketsNone(v);
  }

  lemma WrappedTrim(v: string, o: char, c: char)
    requires IsBracket(o) && IsBracket(c)
    ensures Trim([o] + v + [c]) == [o] + v + [c]
  {
    var w := [o] + v + [c];
    assert w[0] == o && w[|w| - 1] == c;
    TrimUntouched(w);
  }

  lemma WrappedRemove(v: string, o: char, c: char)
    requires IsBracket(o) && IsBracket(c)
    requires forall i :: 0 <= i < |v| ==> !IsBracket(v[i])
    ensures RemoveBrackets([o] + v + [c]) == v
  {
    assert [o] + v + [c] == [o] + (v + [c]);
    DropBracket(o, v + [c]);
    DropBracketEnd(v, c);
    RemoveBracketsNone(v);
  }

  lemma DropBracket(c: char, t: string)
    requires IsBracket(c)
    ensures RemoveBrackets([c] + t) == RemoveBrackets(t)
  {
    assert ([c] + t)[1..] == t;
  }

  lemma DropBracketEnd(t: string, c: char)
    requires IsBracket(c)
    ensures RemoveBrackets(t + [c]) == RemoveBrackets(t)
  {
    RemoveBracketsConcat(t, [c]);
    DropBracket(c, []);
    assert [c] + [] == [c] && t + [] == t;
  }

  /** The bracketed form the placeholder offers, `[Ge-Sd-6c18]`, is read as the bare ID. */
  lemma BracketedIdAccepted(v: string)
    requires IsValidDeviceId(v)
    ensures NormalizeDeviceId("[" + v + "]") == v
  {
    assert "[" + v + "]" == ['['] + v + [']'];
    ValidIdNoBrackets(v);
    WrappedTrim(v, '[', ']');
    WrappedRemove(v, '[', ']');
  }

  /** `n` consecutive characters starting at `first`. */
  function Span(first: char, n: nat): (r: string)
    requires first as int + n <= 0xD800
    ensures |r| == n && forall i :: 0 <= i < n ==> r[i] as int == first as int + i
  {
    seq(n, i requires 0 <= i < n => (first as int + i) as char)
  }

  /** The alphabet of `randomId`: `A`–`Z`, `a`–`z`, `0`–`9`. */
  const IdChars: string := Span('A', 26) + Span('a', 26) + Span('0', 10)

  lemma IdCharsAlnum()
    ensures |IdChars| == 62
    ensures forall i :: 0 <= i < |IdChars| ==> IsAsciiAlnum(IdChars[i])
  {
    forall i | 0 <= i < |IdChars| ensures IsAsciiAlnum(IdChars[i]) {
      if i < 26 {
        assert IdChars[i] == Span('A', 26)[i];
      } else if i < 52 {
        assert IdChars[i] == Span('a', 26)[i - 26];
      } else {
        assert IdChars[i] == Span('0', 10)[i - 52];
      }
    }
  }

  /** `pick(n)`: the characters at the drawn positions. */
  function Pick(picks: seq<nat>): (r: string)
    requires forall i :: 0 <= i < |picks| ==> picks[i] < |IdChars|
    ensures |r| == |picks| && forall i :: 0 <= i < |r| ==> IsAsciiAlnum(r[i])
  {
    IdCharsAlnum();
    seq(|picks|, i requires 0 <= i < |picks| => IdChars[picks[i]])
  }

  /** `randomId()`, given the eight positions `Math.floor(Math.random() * 62)` draws. */
  function RandomId(picks: seq<nat>): (id: string)
    requires |picks| == 8 && forall i :: 0 <= i < 8 ==> picks[i] < |IdChars|
    ensures IsValidDeviceId(id)
  {
    var a, b, c := Pick(picks[..2]), Pick(picks[2..4]), Pick(picks[4..]);
    var id := a + "-" + b + "-" + c;
    assert forall i :: 0 <= i < 2 ==> id[i] == a[i];
    assert forall i :: 3 <= i < 5 ==> id[i] == b[i - 3];
    assert forall i :: 6 <= i < 10 ==> id[i] == c[i - 6];
    id
  }

  /** A generated ID goes through the submit checks as it is. */
  lemma RandomIdSubmits(picks: seq<nat>)
    requires |picks| == 8 && forall i :: 0 <= i < 8 ==> picks[i] < |IdChars|
    ensures NormalizeDeviceId(RandomId(picks)) == RandomId(picks)
    ensures IsValidDeviceId(NormalizeDeviceId(RandomId(picks)))
  {
    ValidIdIsNormal(RandomId(picks));
  }

  // ---------------------------------------------------------------------------------
  // upsertLocalDevice
  // ---------------------------------------------------------------------------------

  /** `JSON.parse(localStorage.getItem(LS_DEVICES) || '[]')`, as far as the following
      `findIndex` can use it: `None` where parsing throws or the value is not an array. */
  function ParseList(slot: Slot): (r: Option<seq<Js>>)
    ensures slot.Missing? || slot.EmptyText? ==> r == Some([])
    ensures r.Some? && slot.Json? ==> slot.value == Arr(r.value)
  {
    match slot
    case Missing => Some([])
    case EmptyText => Some([])
    case Garbage => None
    case Json(v) => if v.Arr? then Some(v.items) else None
  }

  /** `list.findIndex(d => d.deviceCode === deviceCode)`: the first exact match or -1, and
      `None` where the scan reaches a `null` entry first (reading its field throws). */
  function FindExact(list: seq<Js>, code: string): (r: Option<int>)
    ensures r.Some? ==> -1 <= r.value < |list|
    ensures r.Some? ==> forall j :: 0 <= j < |list| && (r.value < 0 || j < r.value) ==>
              !Nullish(list[j]) && OptProp(list[j], "deviceCode") != Str(code)
    ensures r.Some? && r.value >= 0 ==>
              !Nullish(list[r.value]) && OptProp(list[r.value], "deviceCode") == Str(code)
    ensures r.None? ==> exists j :: 0 <= j < |list| && Nullish(list[j])
  {
    if list == [] then Some(-1)
    else if Nullish(list[0]) then None
    else if OptProp(list[0], "deviceCode") == Str(code) then Some(0)
    else
      var r := FindExact(list[1..], code);
      if r.None? then
        var j :| 0 <= j < |list[1..]| && Nullish(list[1..][j]);
        assert Nullish(list[j + 1]);
        None
      else if r.value < 0 then Some(-1)
      else Some(r.value + 1)
  }

  /** The record `upsertLocalDevice` writes: the whole entry, with room and species trimmed. */
  function Record(code: string, name: string, img: Js, room: string, species: string): Js {
    Obj(map["deviceCode" := Str(code), "name" := Str(name), "imageUrl" := img,
            "room" := Str(Trim(room)), "species" := Str(Trim(species))])
  }

  /** `list[idx] = payload` or `list.push(payload)`. */
  function Upserted(list: seq<Js>, idx: int, rec: Js): (r: seq<Js>)
    requires -1 <= idx < |list|
    ensures idx >= 0 ==> r == list[idx := rec]
    ensures idx < 0 ==> r == list + [rec]
  {
    if idx >= 0 then list[idx := rec] else list + [rec]
  }

  /** The `greeneye_devices` entry after `upsertLocalDevice`, or `None` where the call
      throws (an entry that does not parse, is not an array, or holds `null` before the
      match). */
  function Upsert(slot: Slot, code: string, rec: Js): (r: Option<Slot>)
    ensures r.Some? <==> ParseList(slot).Some? && FindExact(ParseList(slot).value, code).Some?
  {
    var list := ParseList(slot);
    if list.None? then None
    else
      var idx := FindExact(list.value, code);
      if idx.None? then None else Some(Json(Arr(Upserted(list.value, idx.value, rec))))
  }

  /** Where an upsert puts the record in `list`: at the first entry with the same code,
      or at the end when there is none. */
  predicate PlacedAt(list: seq<Js>, code: string, rec: Js, out: seq<Js>, p: nat) {
    p <= |list|
    && |out| == (if p == |list| then |list| + 1 else |list|)
    && out[p] == rec
    && (p < |list| ==> OptProp(list[p], "deviceCode") == Str(code))
    && (forall j :: 0 <= j < |list| && j < p ==> OptProp(list[j], "deviceCode") != Str(code))
    && (forall j :: 0 <= j < |list| && j != p ==> out[j] == list[j])
  }

  /** What an upsert writes: the record replaces the first entry with the same code, or
      is appended when there is none; every other entry stays where it was. */
  lemma UpsertPlacement(slot: Slot, code: string, rec: Js)
    requires Upsert(slot, code, rec).Some?
    ensures Upsert(slot, code, rec).value.Json? && Upsert(slot, code, rec).value.value.Arr?
    ensures exists p :: PlacedAt(ParseList(slot).value, code, rec, Upsert(slot, code, rec).value.value.items, p)
  {
    var list := ParseList(slot).value;
    var idx := FindExact(list, code).value;
    var p := if idx >= 0 then idx else |list|;
    assert PlacedAt(list, code, rec, Upsert(slot, code, rec).value.value.items, p);
  }

  /** Linking the same device twice writes the same list as linking it once. */
  lemma UpsertIdempotent(list: seq<Js>, code: string, rec: Js)
    requires OptProp(rec, "deviceCode") == Str(code) && !Nullish(rec)
    requires Upsert(Json(Arr(list)), code, rec).Some?
    ensures var once := Upsert(Json(Arr(list)), code, rec).value;
            Upsert(once, code, rec) == Some(once)
  {
    var idx := FindExact(list, code).value;
    var out := Upserted(list, idx, rec);
    if idx >= 0 {
      forall j | 0 <= j < idx ensures out[j] == list[j] { }
      FindExactAt(out, code, idx);
      assert out[idx := rec] == out;
    } else {
      forall j | 0 <= j < |list| ensures out[j] == list[j] { }
      FindExactAt(out, code, |list|);
      assert out[|list| := rec] == out;
    }
  }

  /** A match at `i` with no `null` and no match before it is what `findIndex` finds. */
  lemma {:induction false} FindExactAt(list: seq<Js>, code: string, i: nat)
    requires i < |list| && !Nullish(list[i]) && OptProp(list[i], "deviceCode") == Str(code)
    requires forall j :: 0 <= j < i ==> !Nullish(list[j]) && OptProp(list[j], "deviceCode") != Str(code)
    ensures FindExact(list, code) == Some(i)
  {
    if i > 0 {
      FindExactAt(list[1..], code, i - 1);
    }
  }

  // ---------------------------------------------------------------------------------
  // Back on the Dashboard
  // ---------------------------------------------------------------------------------

  /** A device linked here is listed on the Dashboard, and the `addedDevice` the screen
      navigates back with selects it there. */
  lemma LinkedDeviceSelected(slot: Slot, code: string, rec: Js)
    requires IsValidDeviceId(code) && rec.Obj? && OptProp(rec, "deviceCode") == Str(code)
    requires Upsert(slot, code, rec).Some?
    ensures LegacyDevices.FindCode(LegacyDevices.LoadDevices(Upsert(slot, code, rec).value), Str(code)) >= 0
  {
    var out := Upsert(slot, code, rec).value;
    UpsertPlacement(slot, code, rec);
    var p :| PlacedAt(ParseList(slot).value, code, rec, out.value.items, p);
    ValidIdTrim(code);
    assert LegacyDevices.KeyOf(rec) == code;
    LegacyDevices.CodesHas(out.value.items, LegacyDevices.KeyOf, p);
    LegacyDevices.DedupedCodes(out.value.items, code);
    var ds := LegacyDevices.LoadDevices(out);
    var i :| 0 <= i < |ds| && LegacyDevices.KeyOf(ds[i]) == code;
    assert LegacyDevices.EqCode(OptProp(ds[i], "deviceCode"), Str(code));
  }

  // ---------------------------------------------------------------------------------
  // The form
  // ---------------------------------------------------------------------------------

  const NameMissing: string := "기기 이름을 입력하세요."
  const BadId: string := "장치 아이디 형식이 올바르지 않습니다. 예) Ge-Sd-6c18"
  const RoomTooLong: string := "방 이름은 40자 이내로 입력하세요."
  const NoPhoto: string := "기기와 묶을 사진을 선택하세요."
  const BadType: string := "PNG/JPG/JPEG/WEBP만 허용됩니다."
  const TooBig: string := "최대 10MB까지 업로드할 수 있습니다."
  const LinkFailed: string := "등록 중 오류가 발생했습니다."

  /** `ACCEPT_TYPES` and `MAX_BYTES`. */
  const AcceptTypes: seq<string> := ["image/png", "image/jpg", "image/jpeg", "image/webp"]
  const MaxBytes: nat := 10 * 1024 * 1024

  /** A chosen file, by the two things the screen looks at. */
  datatype Picked = Picked(mime: string, size: nat)

  /** The fields of the `FormData` the online submit posts. */
  datatype Post = Post(name: string, deviceCode: string, room: string, species: string, photo: Picked)

  /** How `fetch(ENDPOINT, …)` ends: an OK response with its parsed body (`None` where the
      body is not JSON), a response that is not OK with its status and text, or a
      rejected promise with its message. */
  datatype Reply = Ok(created: Option<Js>) | NotOk(status: nat, text: string) | Failed(message: string)

  /** The first three checks of `handleSubmit`, in order, and what they pass on. */
  datatype Checked = Invalid(msg: string) | Passed(code: string, roomVal: string)

  function Check(name: string, idInput: string, room: string): (r: Checked)
    ensures Trim(name) == "" ==> r == Invalid(NameMissing)
    ensures Trim(name) != "" && !IsValidDeviceId(NormalizeDeviceId(idInput)) ==> r == Invalid(BadId)
    ensures Trim(name) != "" && IsValidDeviceId(NormalizeDeviceId(idInput)) && |Trim(room)| > 40 ==>
              r == Invalid(RoomTooLong)
    ensures r.Passed? <==> Trim(name) != "" && IsValidDeviceId(NormalizeDeviceId(idInput)) && |Trim(room)| <= 40
    ensures r.Passed? ==> r.code == NormalizeDeviceId(idInput) && r.roomVal == Trim(room)
  {
    if Trim(name) == "" then Invalid(NameMissing)
    else
      var code := NormalizeDeviceId(idInput);
      if !IsValidDeviceId(code) then Invalid(BadId)
      else
        var roomVal := Trim(room);
        if |roomVal| > 40 then Invalid(RoomTooLong) else Passed(code, roomVal)
  }

  /** `ensureThumb()`: the preview already made, else a thumbnail of the chosen file when
      making one succeeds (`made`), else the text thumbnail of the code (`text`). */
  function EnsureThumb(thumb: string, file: Option<Picked>, made: Option<string>, text: string): (img: string)
    ensures thumb != "" ==> img == thumb
    ensures thumb == "" && (file.None? || made.None?) ==> img == text
  {
    if thumb != "" then thumb
    else if file.Some? && made.Some? then made.value
    else text
  }

  /** The picture an online link records: the server's `imageUrl`, else its `photoUrl`,
      else the local thumbnail. */
  function ServerImage(created: Option<Js>, local: string): (img: Js)
    ensures created.Some? && Truthy(OptProp(created.value, "imageUrl")) ==> img == OptProp(created.value, "imageUrl")
    ensures created.None? ==> img == Str(local)
    ensures Truthy(img) || img == Str(local)
  {
    var c := if created.Some? then created.value else Null;
    Or(Or(OptProp(c, "imageUrl"), OptProp(c, "photoUrl")), Str(local))
  }

  /** The error line of a failed link request: the response text or the status for a
      response that is not OK, the exception's message (or a fixed line) otherwise. */
  function ReplyError(r: Reply): (msg: string)
    requires !r.Ok?
    ensures msg != ""
    ensures r.NotOk? && r.text != "" ==> msg == r.text
    ensures r.Failed? && r.message != "" ==> msg == r.message
  {
    match r
    case NotOk(status, text) =>
      if text != "" then text else "등록 실패 (status " + NatToString(status) + ")"
    case Failed(message) =>
      if message != "" then message else LinkFailed
  }

  /** The `addedDevice` the screen navigates to the Dashboard with. */
  function Added(name: string, code: string, img: Js, roomVal: string, species: string): Js {
    Obj(map["name" := Str(Trim(name)), "deviceCode" := Str(code), "imgSrc" := img,
            "room" := Str(roomVal), "species" := Str(species)])
  }

  class LinkPage {
    var name: string
    var room: string
    var species: string
    var deviceIdInput: string
    var file: Option<Picked>
    var thumb: string
    var offline: bool
    var error: string
    var loading: bool
    /** `greeneye_devices`. */
    var stored: Slot
    /** The link requests sent. */
    var posts: seq<Post>
    /** The navigation back to the Dashboard, with its `addedDevice`. */
    var added: Option<Js>

    constructor (stored: Slot)
      ensures name == "" && room == "" && species == "" && deviceIdInput == ""
      ensures file.None? && thumb == "" && !offline && error == "" && !loading
      ensures this.stored == stored && posts == [] && added.None?
    {
      name, room, species, deviceIdInput := "", "", "", "";
      file, thumb, offline, error, loading := None, "", false, "", false;
      this.stored, posts, added := stored, [], None;
    }

    /** The "random" button: `setDeviceIdInput(randomId())`. */
    method Generate(picks: seq<nat>)
      requires |picks| == 8 && forall i :: 0 <= i < 8 ==> picks[i] < |IdChars|
      modifies this`deviceIdInput
      ensures deviceIdInput == RandomId(picks)
      ensures IsValidDeviceId(NormalizeDeviceId(deviceIdInput))
    {
      deviceIdInput := RandomId(picks);
      RandomIdSubmits(picks);
    }

    /** `onPickFile`: a file of another type or above 10 MiB is refused with an error and
        leaves the chosen file as it was; an accepted one is kept with its thumbnail, or
        an empty preview when making the thumbnail fails (`made`). */
    method OnPickFile(f: Option<Picked>, made: Option<string>)
      modifies this`error, this`file, this`thumb
      ensures f.None? ==> error == "" && file == old(file) && thumb == old(thumb)
      ensures f.Some? && f.value.mime !in AcceptTypes ==> error == BadType && file == old(file) && thumb == old(thumb)
      ensures f.Some? && f.value.mime in AcceptTypes && f.value.size > MaxBytes ==>
                error == TooBig && file == old(file) && thumb == old(thumb)
      ensures file != old(file) || thumb != old(thumb) ==>
                f.Some? && f.value.mime in AcceptTypes && f.value.size <= MaxBytes
      ensures f.Some? && f.value.mime in AcceptTypes && f.value.size <= MaxBytes ==>
                error == "" && file == f && thumb == (if made.Some? then made.value else "")
    {
      error := "";
      if f.None? {
        return;
      }
      if f.value.mime !in AcceptTypes {
        error := BadType;
        return;
      }
      if f.value.size > MaxBytes {
        error := TooBig;
        return;
      }
      file := f;
      thumb := if made.Some? then made.value else "";
    }

    /** `handleSubmit`. `made` is how making a thumbnail of the file would end, `text` the
        text thumbnail of the code, `reply` how the request ends, and `thrown` the message
        of the exception reading `greeneye_devices` raises where it does not hold a list. */
    method HandleSubmit(made: Option<string>, text: string, reply: Reply, thrown: string)
      modifies this`error, this`stored, this`posts, this`added, this`loading
      ensures var c := Check(name, deviceIdInput, room);
              c.Invalid? ==> error == c.msg && stored == old(stored) && posts == old(posts)
                             && added == old(added) && loading == old(loading)
      ensures var c := Check(name, deviceIdInput, room);
              c.Passed? && offline ==>
                posts == old(posts) && loading == old(loading)
                && var img := Str(EnsureThumb(thumb, file, made, text));
                   var up := Upsert(old(stored), c.code, Record(c.code, Trim(name), img, c.roomVal, species));
                   (up.Some? ==> stored == up.value && added == Some(Added(name, c.code, img, c.roomVal, species)) && error == "")
                   && (up.None? ==> stored == old(stored) && added == old(added) && error == "")
      ensures var c := Check(name, deviceIdInput, room);
              c.Passed? && !offline && file.None? ==>
                error == NoPhoto && stored == old(stored) && posts == old(posts)
                && added == old(added) && loading == old(loading)
      ensures var c := Check(name, deviceIdInput, room);
              c.Passed? && !offline && file.Some? ==>
                posts == old(posts) + [Post(Trim(name), c.code, c.roomVal, species, file.value)] && !loading
      ensures var c := Check(name, deviceIdInput, room);
              c.Passed? && !offline && file.Some? && !reply.Ok? ==>
                error == ReplyError(reply) && stored == old(stored) && added == old(added)
      ensures var c := Check(name, deviceIdInput, room);
              c.Passed? && !offline && file.Some? && reply.Ok? ==>
                var img := ServerImage(reply.created, EnsureThumb(thumb, file, made, text));
                var up := Upsert(old(stored), c.code, Record(c.code, Trim(name), img, c.roomVal, species));
                (up.Some? ==> stored == up.value && added == Some(Added(name, c.code, img, c.roomVal, species)) && error == "")
                && (up.None? ==> stored == old(stored) && added == old(added)
                                 && error == (if thrown != "" then thrown else LinkFailed))
    {
      error := "";
      var c := Check(name, deviceIdInput, room);
      if c.Invalid? {
        error := c.msg;
        return;
      }
      if offline {
        SubmitOffline(c.code, c.roomVal, made, text);
        return;
      }
      if file.None? {
        error := NoPhoto;
        return;
      }
      SubmitOnline(c.code, c.roomVal, made, text, reply, thrown);
    }

    /** The offline half of `handleSubmit`: the record is stored with the local thumbnail. */
    method SubmitOffline(code: string, roomVal: string, made: Option<string>, text: string)
      requires error == ""
      modifies this`stored, this`added
      ensures var img := Str(EnsureThumb(thumb, file, made, text));
              var up := Upsert(old(stored), code, Record(code, Trim(name), img, roomVal, species));
              (up.Some? ==> stored == up.value && added == Some(Added(name, code, img, roomVal, species)))
              && (up.None? ==> stored == old(stored) && added == old(added))
    {
      var img := Str(EnsureThumb(thumb, file, made, text));
      var done := Finish(code, img, roomVal);
    }

    /** The online half of `handleSubmit`, once a file is chosen: the request is posted
        and the record is stored only after an OK reply. */
    method SubmitOnline(code: string, roomVal: string, made: Option<string>, text: string, reply: Reply, thrown: string)
      requires file.Some? && error == ""
      modifies this`error, this`stored, this`posts, this`added, this`loading
      ensures posts == old(posts) + [Post(Trim(name), code, roomVal, species, file.value)] && !loading
      ensures !reply.Ok? ==> error == ReplyError(reply) && stored == old(stored) && added == old(added)
      ensures reply.Ok? ==>
                var img := ServerImage(reply.created, EnsureThumb(thumb, file, made, text));
                var up := Upsert(old(stored), code, Record(code, Trim(name), img, roomVal, species));
                (up.Some? ==> stored == up.value && added == Some(Added(name, code, img, roomVal, species)) && error == "")
                && (up.None? ==> stored == old(stored) && added == old(added)
                                 && error == (if thrown != "" then thrown else LinkFailed))
    {
      posts := posts + [Post(Trim(name), code, roomVal, species, file.value)];
      loading := true;
      ApplyReply(code, roomVal, made, text, reply, thrown);
      loading := false;
    }

    /** How the reply to the post ends the submission. */
    method ApplyReply(code: string, roomVal: string, made: Option<string>, text: string, reply: Reply, thrown: string)
      requires error == ""
      modifies this`error, this`stored, this`added
      ensures !reply.Ok? ==> error == ReplyError(reply) && stored == old(stored) && added == old(added)
      ensures reply.Ok? ==>
                var img := ServerImage(reply.created, EnsureThumb(thumb, file, made, text));
                var up := Upsert(old(stored), code, Record(code, Trim(name), img, roomVal, species));
                (up.Some? ==> stored == up.value && added == Some(Added(name, code, img, roomVal, species)) && error == "")
                && (up.None? ==> stored == old(stored) && added == old(added)
                                 && error == (if thrown != "" then thrown else LinkFailed))
    {
      if !reply.Ok? {
        error := ReplyError(reply);
      } else {
        var img := ServerImage(reply.created, EnsureThumb(thumb, file, made, text));
        var done := Finish(code, img, roomVal);
        if !done {
          error := if thrown != "" then thrown else LinkFailed;
        }
      }
    }

    /** `upsertLocalDevice(…)` followed by the navigation; nothing happens after an
        upsert that throws. */
    method Finish(code: string, img: Js, roomVal: string) returns (done: bool)
      modifies this`stored, this`added
      ensures var up := Upsert(old(stored), code, Record(code, Trim(name), img, roomVal, species));
              done == up.Some?
              && (up.Some? ==> stored == up.value && added == Some(Added(name, code, img, roomVal, species)))
              && (up.None? ==> stored == old(stored) && added == old(added))
    {
      var up := Upsert(stored, code, Record(code, Trim(name), img, roomVal, species));
      if up.None? {
        return false;
      }
      stored := up.value;
      added := Some(Added(name, code, img, roomVal, species));
      done := true;
    }
  }
}
