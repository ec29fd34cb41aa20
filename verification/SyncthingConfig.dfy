/** The slice of a Syncthing configuration that Kari reads and writes
    (internal/syncthing/client.go). */
module SyncthingConfig {

  datatype Device = Device(deviceID: string, name: string)

  // The reconciler's DesiredFolder carries the same six fields, so one datatype serves both.
  datatype Folder = Folder(id: string, path: string, kind: string, paused: bool,
                           devices: seq<Device>, labelText: string)

  datatype ConfigOptions = ConfigOptions(localAnnounce: bool, globalAnnounce: bool, relays: bool, nat: bool)

  datatype Config = Config(folders: map<string, Folder>, options: ConfigOptions)

  const FOLDER_TYPES: set<string> := {"", "sendonly", "receiveonly", "sendreceive"}

  function DeviceIds(devices: seq<Device>): set<string> {
    set d | d in devices :: d.deviceID
  }

  predicate DistinctDevices(devices: seq<Device>) {
    forall i, j :: 0 <= i < j < |devices| ==> devices[i].deviceID != devices[j].deviceID
  }

  /** Folder.Validate: what every client insists on before it touches state. */
  predicate ValidFolder(f: Folder) {
    && f.id != ""
    && f.kind in FOLDER_TYPES
    && (forall d :: d in f.devices ==> d.deviceID != "")
    && DistinctDevices(f.devices)
  }

  /** No identifier, an unknown type, or a device that is unnamed or named twice. */
  predicate Malformed(f: Folder) {
    || f.id == "" || f.kind !in {"", "sendonly", "receiveonly", "sendreceive"}
    || exists i :: 0 <= i < |f.devices| &&
         (f.devices[i].deviceID == "" || exists j :: 0 <= j < i && f.devices[j].deviceID == f.devices[i].deviceID)
  }

  ghost predicate ValidConfig(c: Config) {
    forall id :: id in c.folders ==> c.folders[id].id == id && ValidFolder(c.folders[id])
  }

  datatype Write = PutFolder(folder: Folder) | PutOptions(options: ConfigOptions)

  predicate Acceptable(w: Write) {
    w.PutFolder? ==> ValidFolder(w.folder)
  }

  /** Whole-replace semantics of a put that lands. */
  function Applied(c: Config, w: Write): Config {
    match w
    case PutFolder(f) => c.(folders := c.folders[f.id := f])
    case PutOptions(o) => c.(options := o)
  }

  datatype Reply = Landed | Refused | ReplyLost

  /** The sidecar as the in-memory client shows it. A put is rejected before it is sent when the
      folder is malformed; otherwise the network decides: it lands, it is refused, or it lands and
      the answer is lost. `healthy` marks a client that never errs. */
  class Client {
    var config: Config
    var attempts: nat
    const healthy: bool

    constructor (config: Config, healthy: bool)
      ensures this.config == config && this.healthy == healthy && attempts == 0
    {
      this.config, this.healthy, attempts := config, healthy, 0;
    }

    method GetConfig() returns (r: bool, c: Config)
      ensures r ==> c == config
      ensures healthy ==> r
    {
      r, c := *, config;
      r := r || healthy;
    }

    method Put(w: Write) returns (ok: bool)
      modifies this
      ensures ok ==> Acceptable(w) && config == Applied(old(config), w)
      ensures !ok ==> config == old(config) || (Acceptable(w) && config == Applied(old(config), w))
      ensures healthy && Acceptable(w) ==> ok
      ensures w.PutFolder? && Malformed(w.folder) ==> !ok && config == old(config)
      ensures healthy && (w.PutFolder? ==> !Malformed(w.folder)) ==> ok
      ensures attempts == old(attempts) + if Acceptable(w) then 1 else 0
    {
      if !Acceptable(w) {
        return false;
      }
      attempts := attempts + 1;
      var reply: Reply := *;
      if healthy {
        reply := Landed;
      }
      if reply != Refused {
        config := Applied(config, w);
      }
      ok := reply == Landed;
    }
  }
}
