/** The current registration screen (`onSubmit`): the form is checked, the device is
    registered with the server, and only then are the thumbnail, the meta entry and the
    client list of the account written, followed by a broadcast to the other screens. */
module DeviceLink {
  import opened Text
  import opened JsValues
  import opened DeviceCode
  import opened Registry
  import opened LocalStores
  import opened Dashboard

  /** The form fields. */
  datatype Form = Form(name: string, macInput: string, room: string, species: string)

  /** The outcome shown to the user: the registered code, or the error that ended the submit. */
  datatype Submit = Linked(deviceCode: string) | NameMissing | BadDeviceId | RegisterFailed | SaveFailed

  /** The checks before anything is sent: a non-blank name, then the `ge-sd-xxxx` form of the
      normalised code. `None` when both pass. */
  function Check(form: Form): (r: Option<Submit>)
    ensures r == Some(NameMissing) <==> Trim(form.name) == ""
    ensures r == Some(BadDeviceId) <==> Trim(form.name) != "" && !IsValidGeSd(ToMacNorm(Str(form.macInput)))
    ensures r.None? <==> Trim(form.name) != "" && IsValidGeSd(ToMacNorm(Str(form.macInput)))
  {
    if Trim(form.name) == "" then Some(NameMissing)
    else if !IsValidGeSd(ToMacNorm(Str(form.macInput))) then Some(BadDeviceId)
    else None
  }

  /** `{ species, room, ownerEmail: email }`. */
  function MetaRecord(form: Form, email: string): Object {
    map["species" := Str(form.species), "room" := Str(form.room), "ownerEmail" := Str(email)]
  }

  /** `{ deviceCode, name: name.trim(), imageUrl: img, species, room }`. */
  function ClientRecord(form: Form, code: string, img: Js): Object {
    map["deviceCode" := Str(code), "name" := Str(Trim(form.name)), "imageUrl" := img,
        "species" := Str(form.species), "room" := Str(form.room)]
  }

  /** The stores after a successful registration of `mac`: thumbnail (when there is one),
      merged meta entry and client record written, and a broadcast, unless the client list
      holds a `null` entry, which makes the upsert throw after the first two writes. */
  predicate Saved(s: Stores, thumbs: Object, meta: Object, client: seq<Js>, deviceEvents: nat,
                  form: Form, email: string, img: Js, mac: string)
    reads s
  {
    s.thumbs == (if Truthy(img) then thumbs[mac := img] else thumbs)
    && s.meta == meta[mac := Obj(MergedMeta(Prop(meta, mac), Obj(MetaRecord(form, email))))]
    && s.client == (if Null in client then client else Upserted(client, ClientRecord(form, mac, img)))
    && s.deviceEvents == deviceEvents + (if Null in client then 0 else 1)
  }

  /** `onSubmit`. `registerOk` is whether the server accepted the registration; `img` is the
      thumbnail `ensureThumb` produced; `email` the stored account e-mail. Nothing is
      stored unless the checks pass and the server accepts. */
  method OnSubmit(stores: Stores, form: Form, email: string, img: Js, registerOk: bool) returns (r: Submit)
    modifies stores
    ensures Check(form).Some? ==> r == Check(form).value && unchanged(stores)
    ensures Check(form).None? && !registerOk ==> r == RegisterFailed && unchanged(stores)
    ensures Check(form).None? && registerOk ==>
      var mac := ToMacNorm(Str(form.macInput));
      r == (if Null in old(stores.client) then SaveFailed else Linked(mac))
      && Saved(stores, old(stores.thumbs), old(stores.meta), old(stores.client), old(stores.deviceEvents),
               form, email, img, mac)
    ensures unchanged(stores`deleted, stores`legacy, stores`settings, stores`settingsEvents)
  {
    var c := Check(form);
    if c.Some? {
      return c.value;
    }
    if !registerOk {
      return RegisterFailed;
    }
    var mac := ToMacNorm(Str(form.macInput));
    assert mac != "" by { assert |mac| == 10; }
    r := Store(stores, form, email, img, mac);
  }

  /** The writes after the server accepted `mac`, in the order `onSubmit` makes them. */
  method Store(stores: Stores, form: Form, email: string, img: Js, mac: string) returns (r: Submit)
    requires mac != ""
    modifies stores
    ensures r == (if Null in old(stores.client) then SaveFailed else Linked(mac))
    ensures Saved(stores, old(stores.thumbs), old(stores.meta), old(stores.client), old(stores.deviceEvents),
                  form, email, img, mac)
    ensures unchanged(stores`deleted, stores`legacy, stores`settings, stores`settingsEvents)
  {
    WriteEntries(stores, form, email, img, mac);
    ghost var thumbs, meta := stores.thumbs, stores.meta;
    var done := RecordClient(stores, form, img, mac);
    assert stores.thumbs == thumbs && stores.meta == meta;
    r := if done then Linked(mac) else SaveFailed;
  }

  /** The thumbnail and meta writes, which come first and happen whatever follows. */
  method WriteEntries(stores: Stores, form: Form, email: string, img: Js, mac: string)
    requires mac != ""
    modifies stores`thumbs, stores`meta
    ensures stores.thumbs == (if Truthy(img) then old(stores.thumbs)[mac := img] else old(stores.thumbs))
    ensures stores.meta == old(stores.meta)[mac := Obj(MergedMeta(Prop(old(stores.meta), mac), Obj(MetaRecord(form, email))))]
  {
    stores.WriteThumb(mac, img);
    stores.WriteMeta(mac, Obj(MetaRecord(form, email)));
  }

  /** The client-list upsert and, when it did not throw, the broadcast. */
  method RecordClient(stores: Stores, form: Form, img: Js, mac: string) returns (done: bool)
    modifies stores`client, stores`deviceEvents
    ensures done <==> Null !in old(stores.client)
    ensures stores.client == (if done then Upserted(old(stores.client), ClientRecord(form, mac, img)) else old(stores.client))
    ensures stores.deviceEvents == old(stores.deviceEvents) + (if done then 1 else 0)
  {
    done := stores.UpsertClientDev(ClientRecord(form, mac, img));
    if done {
      stores.Broadcast();
    }
  }

  /** The client record carries its code as the key `upsertClientDev` files it under. */
  lemma ClientRecordKey(form: Form, mac: string, img: Js)
    requires IsValidGeSd(mac)
    ensures EntryKey(Obj(ClientRecord(form, mac, img))) == mac
  {
    assert Truthy(Str(mac)) by { assert |mac| == 10; }
    assert Trim(mac) == mac by {
      assert TrimStart(mac) == mac;
      assert TrimEnd(mac) == mac;
    }
  }

  /** After the upsert the list holds no `null` and has an entry whose normalised code is `mac`. */
  lemma LinkedRecordAt(client: seq<Js>, form: Form, mac: string, img: Js) returns (i: nat)
    requires IsValidGeSd(mac) && Null !in client
    ensures var after := Upserted(client, ClientRecord(form, mac, img));
      Null !in after && i < |after| && NormDevice(after[i], DashboardScreen).deviceCode == mac
  {
    var dev := ClientRecord(form, mac, img);
    ClientRecordKey(form, mac, img);
    UpsertedHolds(client, dev);
    UpsertedNoNull(client, dev);
    var after := Upserted(client, dev);
    var x :| x in after && x.Obj? && forall f :: f in dev ==> f in x.fields && x.fields[f] == dev[f];
    i :| 0 <= i < |after| && after[i] == x;
    assert OptProp(x, "deviceCode") == Str(mac);
    NormDeviceCodeFirst(x, DashboardScreen, mac);
    GeSdCodeIsCanonical(mac);
  }

  /** A device linked from this browser shows on the Dashboard's next reload through the
      server, whatever the tombstone set held (registering again undeletes it), and on
      the fallback path as long as its code is not tombstoned. */
  lemma LinkedDeviceShown(reply: ListReply, client: seq<Js>, legacy: seq<Js>, deleted: set<string>,
                          thumbs: Object, meta: Object, form: Form, mac: string, img: Js)
    requires IsValidGeSd(mac) && Null !in client
    ensures var r := ReloadSpec(reply, Upserted(client, ClientRecord(form, mac, img)), legacy, deleted, thumbs, meta);
      r.Reloaded?
      && ((ApiDevices(reply, DashboardScreen).Some? && Null !in legacy) || mac !in deleted ==>
            exists a :: 0 <= a < |r.list| && r.list[a].deviceCode == mac)
  {
    var after := Upserted(client, ClientRecord(form, mac, img));
    var i := LinkedRecordAt(client, form, mac, img);
    if ApiDevices(reply, DashboardScreen).Some? && Null !in legacy {
      ReloadMainPath(reply, after, legacy, deleted, thumbs, meta);
    } else {
      var env := MergeEnv(deleted, false, thumbs, meta);
      ReloadFallback(reply, after, legacy, deleted, thumbs, meta, Overlay(NormDevice(after[i], DashboardScreen), env));
    }
  }
}
