/** The read-modify-write folder put over Syncthing's REST interface
    (internal/syncthing/rest_client.go), and how far it agrees with the whole-replace client. */
module RestClient {
  import opened Wrappers
  import opened SyncthingConfig
  import Reconciler

  datatype Json =
    | JNull
    | JBool(b: bool)
    | JString(s: string)
    | JNumber(n: int)
    | JArray(items: seq<Json>)
    | JObject(fields: Raw)

  type Raw = map<string, Json>

  const KARI_KEYS: set<string> := {"id", "paused", "path", "type", "label", "devices"}

  // ---- typed views of raw JSON ------------------------------------------------------------

  function Field(raw: Raw, key: string): Json {
    if key in raw then raw[key] else JNull
  }

  function DecodeString(j: Json): Option<string> {
    match j
    case JNull => Some("")
    case JString(s) => Some(s)
    case _ => None
  }

  function DecodeBool(j: Json): Option<bool> {
    match j
    case JNull => Some(false)
    case JBool(b) => Some(b)
    case _ => None
  }

  function DecodeDevice(j: Json): Option<Device> {
    match j
    case JNull => Some(Device("", ""))
    case JObject(m) =>
      (match (DecodeString(Field(m, "deviceID")), DecodeString(Field(m, "name")))
       case (Some(id), Some(name)) => Some(Device(id, name))
       case _ => None)
    case _ => None
  }

  function DecodeDevices(items: seq<Json>): (r: Option<seq<Device>>)
    ensures r.Some? <==> forall i :: 0 <= i < |items| ==> DecodeDevice(items[i]).Some?
    ensures r.Some? ==> |r.value| == |items|
    ensures r.Some? ==> forall i :: 0 <= i < |items| ==> DecodeDevice(items[i]) == Some(r.value[i])
  {
    if items == [] then Some([])
    else
      match (DecodeDevice(items[0]), DecodeDevices(items[1..]))
      case (Some(d), Some(rest)) => Some([d] + rest)
      case _ => None
  }

  function DecodeDeviceList(j: Json): Option<seq<Device>> {
    match j
    case JNull => Some([])
    case JArray(items) => DecodeDevices(items)
    case _ => None
  }

  /** A document the typed reader accepts, and what it reads. */
  predicate Decodable(raw: Raw) {
    && DecodeString(Field(raw, "id")).Some? && DecodeString(Field(raw, "path")).Some?
    && DecodeString(Field(raw, "type")).Some? && DecodeBool(Field(raw, "paused")).Some?
    && DecodeDeviceList(Field(raw, "devices")).Some? && DecodeString(Field(raw, "label")).Some?
  }

  function FolderOf(raw: Raw): Folder
    requires Decodable(raw)
  {
    Folder(DecodeString(Field(raw, "id")).value, DecodeString(Field(raw, "path")).value,
           DecodeString(Field(raw, "type")).value, DecodeBool(Field(raw, "paused")).value,
           DecodeDeviceList(Field(raw, "devices")).value, DecodeString(Field(raw, "label")).value)
  }

  // ---- the overlay ------------------------------------------------------------------------

  function RawId(j: Json): Option<string> {
    if j.JObject? && "deviceID" in j.fields then DecodeString(j.fields["deviceID"]) else None
  }

  predicate DeviceArray(j: Json) {
    j.JNull? || (j.JArray? && forall item :: item in j.items ==> item.JObject? || item.JNull?)
  }

  /** The entry that stands for a device: the last one that names it. */
  function Retained(items: seq<Json>, id: string): Raw {
    if items == [] then map[]
    else
      var last := items[|items| - 1];
      if RawId(last) == Some(id) then last.fields else Retained(items[..|items| - 1], id)
  }

  function MergedDevice(items: seq<Json>, d: Device): Raw {
    var m := Retained(items, d.deviceID)["deviceID" := JString(d.deviceID)];
    if d.name != "" then m["name" := JString(d.name)] else m
  }

  function MergedDevices(items: seq<Json>, devices: seq<Device>): seq<Json> {
    seq(|devices|, i requires 0 <= i < |devices| => JObject(MergedDevice(items, devices[i])))
  }

  function Items(j: Json): seq<Json> {
    if j.JArray? then j.items else []
  }

  /** What the server is asked to store: Kari's keys over the old ones, an empty path, type or
      label leaving the old value alone, every other key kept. */
  ghost function Overlaid(raw: Raw, f: Folder): Raw {
    var r := raw["id" := JString(f.id)]["paused" := JBool(f.paused)];
    var r := if f.path != "" then r["path" := JString(f.path)] else r;
    var r := if f.kind != "" then r["type" := JString(f.kind)] else r;
    var r := if f.labelText != "" then r["label" := JString(f.labelText)] else r;
    r["devices" := JArray(MergedDevices(Items(Field(raw, "devices")), f.devices))]
  }

  method MergeDeviceArray(existing: Json, devices: seq<Device>) returns (merged: Option<seq<Json>>)
    requires DistinctDevices(devices)
    ensures merged.Some? <==> DeviceArray(existing)
    ensures merged.Some? ==> merged.value == MergedDevices(Items(existing), devices)
  {
    var byID: map<string, Raw> := map[];
    if !existing.JNull? {
      if !existing.JArray? {
        return None;
      }
      for i := 0 to |existing.items|
        invariant forall j :: 0 <= j < i ==> existing.items[j].JObject? || existing.items[j].JNull?
        invariant forall id :: Retained(existing.items[..i], id) == if id in byID then byID[id] else map[]
      {
        var item := existing.items[i];
        assert item in existing.items && existing.items[..i + 1][..i] == existing.items[..i];
        if !item.JObject? && !item.JNull? {
          return None;
        }
        var id := RawId(item);
        if id.Some? {
          byID := byID[id.value := item.fields];
        }
      }
      assert existing.items[..|existing.items|] == existing.items;
    }
    var out := DevicesOver(byID, devices, Items(existing));
    merged := Some(out);
  }

  /** One object per device, over the one there was. */
  method DevicesOver(byID: map<string, Raw>, devices: seq<Device>, ghost items: seq<Json>) returns (out: seq<Json>)
    requires forall id :: Retained(items, id) == if id in byID then byID[id] else map[]
    ensures out == MergedDevices(items, devices)
  {
    out := [];
    for i := 0 to |devices|
      invariant out == MergedDevices(items, devices[..i])
    {
      var d := devices[i];
      var m: Raw := if d.deviceID in byID then byID[d.deviceID] else map[];
      m := m["deviceID" := JString(d.deviceID)];
      if d.name != "" {
        m := m["name" := JString(d.name)];
      }
      out := out + [JObject(m)];
    }
    assert devices[..|devices|] == devices;
  }

  /** A folder's raw JSON object, overwritten key by key. */
  class RawFolder {
    var fields: Raw

    constructor (fields: Raw)
      ensures this.fields == fields
    {
      this.fields := fields;
    }

    method Overlay(f: Folder) returns (ok: bool)
      requires DistinctDevices(f.devices)
      modifies this
      ensures ok <==> DeviceArray(Field(old(fields), "devices"))
      ensures ok ==> fields == Overlaid(old(fields), f)
    {
      fields := fields["id" := JString(f.id)];
      fields := fields["paused" := JBool(f.paused)];
      if f.path != "" {
        fields := fields["path" := JString(f.path)];
      }
      if f.kind != "" {
        fields := fields["type" := JString(f.kind)];
      }
      if f.labelText != "" {
        fields := fields["label" := JString(f.labelText)];
      }
      var merged := MergeDeviceArray(Field(fields, "devices"), f.devices);
      if merged.None? {
        return false;
      }
      fields := fields["devices" := JArray(merged.value)];
      ok := true;
    }
  }

  /** The sidecar's folder documents, and the put that reads one, overlays it and writes it back. */
  class RestClient {
    const healthy: bool  // no request fails
    var store: map<string, Json>

    constructor (store: map<string, Json>, healthy: bool)
      ensures this.store == store && this.healthy == healthy
    {
      this.store, this.healthy := store, healthy;
    }

    method PutFolder(f: Folder) returns (ok: bool)
      modifies this
      ensures healthy ==>
        (ok <==> ValidFolder(f) && (f.id in old(store) ==> old(store)[f.id].JObject? || old(store)[f.id].JNull?)
                 && DeviceArray(Field(Body(old(store), f.id), "devices")))
      ensures ok ==> ValidFolder(f) && store == Stored(old(store), f)
      ensures !ok ==> store == old(store) || (ValidFolder(f) && store == Stored(old(store), f))
    {
      if !ValidFolder(f) {
        return false;
      }
      var getFails := *;
      if (getFails && !healthy) || (f.id in store && !store[f.id].JObject? && !store[f.id].JNull?) {
        return false;
      }
      var raw := new RawFolder(Body(store, f.id));
      ok := raw.Overlay(f);
      if !ok {
        return;
      }
      var reply: Reply := *;
      if healthy {
        reply := Landed;
      }
      if reply != Refused {
        store := store[f.id := JObject(raw.fields)];
      }
      ok := reply == Landed;
    }
  }

  ghost function Stored(store: map<string, Json>, f: Folder): map<string, Json> {
    store[f.id := JObject(Overlaid(Body(store, f.id), f))]
  }

  /** A missing document, or `null`, reads as the empty object. */
  function Body(store: map<string, Json>, id: string): Raw {
    if id in store && store[id].JObject? then store[id].fields else map[]
  }

  // ---- what the put preserves -------------------------------------------------------------

  lemma PutKeepsForeignKeys(raw: Raw, f: Folder, key: string)
    requires key !in KARI_KEYS
    ensures key in Overlaid(raw, f) <==> key in raw
    ensures key in raw ==> Overlaid(raw, f)[key] == raw[key]
  {
  }

  /** Every field of a retained device other than its identifier and its name survives, and an
      unnamed Kari device leaves the name alone too. */
  lemma PutKeepsForeignDeviceFields(raw: Raw, f: Folder, i: nat, key: string)
    requires i < |f.devices| && key != "deviceID" && (key == "name" ==> f.devices[i].name == "")
    ensures var was := Retained(Items(Field(raw, "devices")), f.devices[i].deviceID);
            var now := Overlaid(raw, f)["devices"].items[i].fields;
            (key in now <==> key in was) && (key in was ==> now[key] == was[key])
  {
  }

  lemma {:induction false} RetainedIsAnEntry(items: seq<Json>, id: string)
    ensures Retained(items, id) == map[]
         || exists i :: 0 <= i < |items| && RawId(items[i]) == Some(id) && items[i].fields == Retained(items, id)
  {
    if items != [] && RawId(items[|items| - 1]) != Some(id) {
      var n := |items| - 1;
      RetainedIsAnEntry(items[..n], id);
      if Retained(items[..n], id) != map[] {
        var i :| 0 <= i < n && RawId(items[..n][i]) == Some(id) && items[..n][i].fields == Retained(items[..n], id);
        assert items[i].fields == Retained(items, id);
      }
    }
  }

  /** It is the last one that names the device. */
  lemma {:induction false} RetainedIsLast(items: seq<Json>, id: string, i: nat)
    requires i < |items| && RawId(items[i]) == Some(id)
    requires forall j :: i < j < |items| ==> RawId(items[j]) != Some(id)
    ensures Retained(items, id) == items[i].fields
  {
    var n := |items| - 1;
    if i < n {
      RetainedIsLast(items[..n], id, i);
    }
  }

  lemma {:induction false} RetainedOfMerged(items: seq<Json>, devices: seq<Device>, i: nat)
    requires i < |devices| && DistinctDevices(devices)
    ensures Retained(MergedDevices(items, devices), devices[i].deviceID) == MergedDevice(items, devices[i])
  {
    var merged := MergedDevices(items, devices);
    var n := |devices| - 1;
    assert RawId(merged[n]) == Some(devices[n].deviceID);
    if i < n {
      assert merged[..n] == MergedDevices(items, devices[..n]);
      RetainedOfMerged(items, devices[..n], i);
    }
  }

  lemma PutIsIdempotent(raw: Raw, f: Folder)
    requires DistinctDevices(f.devices)
    ensures Overlaid(Overlaid(raw, f), f) == Overlaid(raw, f)
  {
    var once := Overlaid(raw, f);
    var items := Items(Field(raw, "devices"));
    assert Items(Field(once, "devices")) == MergedDevices(items, f.devices);
    forall i | 0 <= i < |f.devices|
      ensures MergedDevice(MergedDevices(items, f.devices), f.devices[i]) == MergedDevice(items, f.devices[i])
    {
      RetainedOfMerged(items, f.devices, i);
    }
    assert MergedDevices(MergedDevices(items, f.devices), f.devices) == MergedDevices(items, f.devices);
  }

  // ---- agreement with the whole-replace client --------------------------------------------

  /** Equal but for device names. */
  predicate SameButNames(a: Folder, b: Folder) {
    && a.id == b.id && a.path == b.path && a.kind == b.kind && a.paused == b.paused && a.labelText == b.labelText
    && |a.devices| == |b.devices|
    && forall i :: 0 <= i < |a.devices| ==> a.devices[i].deviceID == b.devices[i].deviceID
  }

  /** The folder a typed reader finds after the put: an empty path, type or label shows through. */
  function PutResult(old_: Folder, f: Folder): Folder {
    f.(path := if f.path != "" then f.path else old_.path,
       kind := if f.kind != "" then f.kind else old_.kind,
       labelText := if f.labelText != "" then f.labelText else old_.labelText)
  }

  lemma MergedDeviceDecodes(items: seq<Json>, d: Device)
    requires forall i :: 0 <= i < |items| ==> DecodeDevice(items[i]).Some?
    ensures DecodeDevice(JObject(MergedDevice(items, d))).Some?
    ensures DecodeDevice(JObject(MergedDevice(items, d))).value.deviceID == d.deviceID
    ensures d.name != "" ==> DecodeDevice(JObject(MergedDevice(items, d))).value == d
  {
    RetainedIsAnEntry(items, d.deviceID);
  }

  lemma OverlaidFields(raw: Raw, f: Folder)
    ensures var r := Overlaid(raw, f);
            && Field(r, "id") == JString(f.id) && Field(r, "paused") == JBool(f.paused)
            && Field(r, "path") == (if f.path != "" then JString(f.path) else Field(raw, "path"))
            && Field(r, "type") == (if f.kind != "" then JString(f.kind) else Field(raw, "type"))
            && Field(r, "label") == (if f.labelText != "" then JString(f.labelText) else Field(raw, "label"))
            && Field(r, "devices") == JArray(MergedDevices(Items(Field(raw, "devices")), f.devices))
  {
  }

  lemma MergedDevicesDecode(items: seq<Json>, devices: seq<Device>)
    requires DecodeDevices(items).Some?
    ensures var r := DecodeDevices(MergedDevices(items, devices));
            r.Some? && forall i :: 0 <= i < |devices| ==>
              r.value[i].deviceID == devices[i].deviceID && (devices[i].name != "" ==> r.value[i] == devices[i])
  {
    var merged := MergedDevices(items, devices);
    forall i | 0 <= i < |merged|
      ensures DecodeDevice(merged[i]).Some? && DecodeDevice(merged[i]).value.deviceID == devices[i].deviceID
      ensures devices[i].name != "" ==> DecodeDevice(merged[i]).value == devices[i]
    {
      MergedDeviceDecodes(items, devices[i]);
    }
  }

  lemma PutDecodes(raw: Raw, f: Folder)
    requires Decodable(raw)
    ensures Decodable(Overlaid(raw, f))
    ensures SameButNames(FolderOf(Overlaid(raw, f)), PutResult(FolderOf(raw), f))
    ensures forall i :: 0 <= i < |f.devices| && f.devices[i].name != "" ==>
      FolderOf(Overlaid(raw, f)).devices[i] == f.devices[i]
  {
    OverlaidFields(raw, f);
    MergedDevicesDecode(Items(Field(raw, "devices")), f.devices);
  }

  /** The REST put and the whole-replace put leave the same folder, device names aside, exactly
      when each of path, type and label is either asserted or already empty on the server. */
  lemma PutAgreesWithWholeReplaceIff(raw: Raw, f: Folder)
    requires Decodable(raw)
    ensures Decodable(Overlaid(raw, f))
    ensures var was := FolderOf(raw);
            SameButNames(FolderOf(Overlaid(raw, f)), f) <==>
            ((f.path != "" || was.path == "") && (f.kind != "" || was.kind == "")
             && (f.labelText != "" || was.labelText == ""))
  {
    PutDecodes(raw, f);
  }

  /** The server has a type, the folder put asserts none: the whole-replace client would clear it, the
      REST put leaves it. */
  lemma EmptyTypeShowsThrough()
    ensures var raw: Raw := map["type" := JString("sendreceive")];
            var f := Folder("f", "/f", "", true, [], "label");
            Decodable(raw) && Decodable(Overlaid(raw, f)) && FolderOf(Overlaid(raw, f)).kind == "sendreceive"
  {
    var raw: Raw := map["type" := JString("sendreceive")];
    var f := Folder("f", "/f", "", true, [], "label");
    OverlaidFields(raw, f);
    PutDecodes(raw, f);
  }

  // ---- a consequence for the reconciler ---------------------------------------------------

  /** The folder after `n` ticks that each clean it up through this client. */
  ghost function AfterCleanups(actual: Folder, desired: Folder, n: nat): Folder {
    if n == 0 then actual
    else
      var before := AfterCleanups(actual, desired, n - 1);
      PutResult(before, Reconciler.BuildCleanupFolder(before, desired))
  }

  /** A desired folder without a type never settles on a server that has one: every tick finds it
      in need of cleanup again, and it stays paused. With a type, one cleanup is enough. */
  lemma {:induction false} CleanupSettlesIffTypeAndPathAreAsserted(actual: Folder, desired: Folder, n: nat)
    requires n > 0
    ensures !Reconciler.NeedsCleanup(AfterCleanups(actual, desired, n), desired)
       <==> (desired.kind != "" || actual.kind == "") && (desired.path != "" || actual.path == "")
    ensures AfterCleanups(actual, desired, n).paused
    ensures desired.kind == "" ==> AfterCleanups(actual, desired, n).kind == actual.kind
    ensures desired.path == "" ==> AfterCleanups(actual, desired, n).path == actual.path
  {
    if n > 1 {
      CleanupSettlesIffTypeAndPathAreAsserted(actual, desired, n - 1);
    }
    assert AfterCleanups(actual, desired, 0) == actual;
  }
}
