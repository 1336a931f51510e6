/**
 * The detection orchestrator (`riparr.detection.watcher`): it finds the drives to watch
 * when none are configured, picks udev or polling, runs that backend with the caller's
 * callbacks, and lists the drives with their status. What the host offers (whether udev
 * works, the block devices it lists, which paths exist, what the probes and the event
 * stream return) is one input value.
 */
module Watcher {
  import opened Wrappers
  import opened Lists
  import opened DiscEvents
  import Poller
  import Udev

  /** `DetectionMethod`: "auto", "udev" or "polling". */
  datatype DetectionMethod = Auto | ByUdev | ByPolling

  /** The host as the detection code sees it. */
  datatype Host = Host(
    udevAvailable: bool,                 // `UdevMonitor.is_available()`
    listed: seq<Udev.Device>,            // udev's block disks, in listing order
    present: string -> bool,             // which paths under /dev exist
    realpath: string -> string,          // where a link leads
    discProbe: string -> Poller.Probe,   // what probing one drive finds
    setup: Udev.Setup,                   // how opening the udev monitor goes
    polled: seq<Option<Udev.Device>>,    // what the udev monitor's polls return
    probe: (nat, nat) -> bool,           // the poller's probe of device i in round r
    rounds: nat,                         // poller rounds before `stop` is seen
    cut: nat)                            // devices probed in the round `stop` interrupts

  /** How a `start` ends: no drive to watch, the backend's callbacks, or the error it raised. */
  datatype Outcome = NoDrives | Watched(events: seq<DiscEvent>) | Raised(error: string)

  /** An entry of `get_drives`: udev's detailed record, or a scanned device and its status. */
  datatype DriveEntry = Detailed(info: Udev.DriveInfo) | Basic(device: string, hasDisc: bool)

  /** The drives udev lists. */
  function UdevDrives(h: Host): seq<Udev.DriveInfo>
  {
    Udev.Records(Filter(h.listed, Udev.IsListedDrive()))
  }

  /** `[d["device"] for d in drives]`. */
  function DeviceNames(drives: seq<Udev.DriveInfo>): (r: seq<string>)
    ensures |r| == |drives| && forall i :: 0 <= i < |r| ==> r[i] == drives[i].device
  {
    seq(|drives|, i requires 0 <= i < |drives| => drives[i].device)
  }

  /**
   * `_detect_devices`: udev's drives when udev works and lists some, otherwise the scan
   * of /dev.
   */
  function Detected(h: Host): seq<string>
  {
    if h.udevAvailable && UdevDrives(h) != [] then DeviceNames(UdevDrives(h))
    else Poller.ScanTo(h.present, h.realpath, |Poller.Links|)
  }

  /** Detection only falls back to the scan when udev has nothing to offer. */
  lemma DetectedFallsBack(h: Host)
    ensures Detected(h) == [] ==> Poller.ScanTo(h.present, h.realpath, |Poller.Links|) == []
    ensures h.udevAvailable && Filter(h.listed, Udev.IsListedDrive()) != [] ==>
      Detected(h) != [] && forall d :: d in Detected(h) ==> d != ""
  {
    var ds := Filter(h.listed, Udev.IsListedDrive());
    if h.udevAvailable && ds != [] {
      assert UdevDrives(h) != [] by {
        assert |UdevDrives(h)| == |ds|;
      }
      forall d | d in Detected(h)
        ensures d != ""
      {
        var i :| 0 <= i < |Detected(h)| && Detected(h)[i] == d;
        assert d == Udev.DriveRecord(ds[i]).device;
        assert Udev.IsListedDrive()(ds[i]);
      }
    }
  }

  /** The drives `start` watches: the configured ones, or the detected ones when none are. */
  function Resolved(devices: Option<seq<string>>, h: Host): seq<string>
  {
    if devices.Some? && devices.value != [] then devices.value else Detected(h)
  }

  /** The backend `start` uses: with "auto", udev when it works and polling otherwise. */
  function Selected(m: DetectionMethod, udevAvailable: bool): (r: DetectionMethod)
    ensures r != Auto
    ensures m != Auto ==> r == m
    ensures m == Auto ==> (r == ByUdev <==> udevAvailable)
  {
    if m == Auto then (if udevAvailable then ByUdev else ByPolling) else m
  }

  /** What running backend `m` over `devices` makes of the host. */
  function Watch(m: DetectionMethod, devices: seq<string>, h: Host, once: bool): Outcome
  {
    if m == ByUdev then
      match h.setup
      case NotInstalled => Raised("pyudev is not installed")
      case SocketError(e) => Raised(e)
      case Opened => Watched(Udev.MonitorTo(devices, h.polled, |h.polled|, once).events)
    else
      Watched(Poller.PollRun(map[], devices, h.probe, h.rounds, h.cut, once).events)
  }

  /** Whichever backend runs, every callback names one of the watched drives. */
  lemma WatchNamesWatchedDrives(m: DetectionMethod, devices: seq<string>, h: Host, once: bool)
    requires devices != []
    ensures Watch(m, devices, h, once).Watched? ==> Poller.EventsAmong(Watch(m, devices, h, once).events, devices)
  {
    if m == ByUdev {
      Udev.CallbacksAllowed(devices, h.polled, |h.polled|, once);
    } else {
      Poller.PollNamesItsDevices(map[], devices, h.probe, h.rounds, h.cut, once);
    }
  }

  /** With `once`, whichever backend runs makes at most one insert callback, and that one last. */
  lemma WatchOnceInsertsAtMostOnce(m: DetectionMethod, devices: seq<string>, h: Host)
    ensures var o := Watch(m, devices, h, true);
      o.Watched? ==> Inserts(o.events) <= 1 && (Inserts(o.events) == 1 ==> o.events[|o.events| - 1].Inserted?)
  {
    if m == ByUdev {
      Udev.OnceEndsAtFirstInsert(devices, h.polled, |h.polled|, true);
    } else {
      var st := Poller.PollState(Poller.Initial(map[], devices, h.probe, |devices|), [], false);
      var s := Poller.Samples(devices, h.probe, h.rounds, h.cut);
      Poller.OnceEndsAtFirstInsert(st, s, |s|, true);
    }
  }

  /** What `anyio.from_thread.run` raises when it is not called from a worker thread. */
  const NotInWorkerThread := "This function can only be run from an AnyIO worker thread"

  /**
   * `start` as written. The udev callbacks are wrapped in `anyio.from_thread.run`, which
   * may only be called from a worker thread; but `UdevMonitor.monitor` calls them in the
   * coroutine itself, on the event loop's thread (only `monitor.poll` runs in a worker).
   * The first callback therefore raises `RuntimeError`, which the monitor and `start` log
   * and re-raise; runs without a callback, and the polling backend, are unaffected.
   */
  function WatchAsWritten(m: DetectionMethod, devices: seq<string>, h: Host, once: bool): (r: Outcome)
    ensures r != Watch(m, devices, h, once) ==>
      m == ByUdev && h.setup.Opened? && Watch(m, devices, h, once).events != []
    ensures m == ByUdev && h.setup.Opened? && Watch(m, devices, h, once).events != [] ==>
      r == Raised(NotInWorkerThread)
  {
    if m == ByUdev && h.setup.Opened? && Udev.MonitorTo(devices, h.polled, |h.polled|, once).events != [] then
      Raised(NotInWorkerThread)
    else
      Watch(m, devices, h, once)
  }

  /** As written, a udev event that should call back ends the watch with the error instead. */
  lemma WatchAsWrittenRaises(devices: seq<string>, h: Host, once: bool)
    requires h.setup.Opened? && |h.polled| > 0 && Udev.Fires(devices, h.polled[0])
    ensures WatchAsWritten(ByUdev, devices, h, once) == Raised(NotInWorkerThread)
    ensures Watch(ByUdev, devices, h, once).Watched?
  {
    Udev.FirstFiringCalls(devices, h.polled, |h.polled|, once);
  }

  /** Intended: the first udev event that fires reaches its callback, insert or remove. */
  lemma WatchCallsBackFirstEvent(devices: seq<string>, h: Host, once: bool)
    requires h.setup.Opened? && |h.polled| > 0 && Udev.Fires(devices, h.polled[0])
    ensures Watch(ByUdev, devices, h, once).Watched?
    ensures var es := Watch(ByUdev, devices, h, once).events;
      es != [] && es[0] == Udev.Callback(h.polled[0].value)
  {
    Udev.FirstFiringCalls(devices, h.polled, |h.polled|, once);
  }

  /** The disc inserted into /dev/sr0, as udev reports it. */
  const SrInsert := Udev.Device(Some("/dev/sr0"), Some("change"), map["ID_CDROM_MEDIA" := "1"])

  /** A disc inserted into the one watched drive: the insert callback, or as written the error. */
  lemma InsertExample(h: Host)
    requires h.setup.Opened? && h.polled == [Some(SrInsert)]
    ensures Watch(ByUdev, ["/dev/sr0"], h, false) == Watched([Inserted("/dev/sr0")])
    ensures WatchAsWritten(ByUdev, ["/dev/sr0"], h, false) == Raised(NotInWorkerThread)
  {
    assert "/dev/sr" + "0" == "/dev/sr0";
    Udev.SrNodeIsOptical(SrInsert, "0");
    assert Udev.Fires(["/dev/sr0"], h.polled[0]);
    assert Udev.HasDisc(SrInsert);
    assert Udev.MonitorTo(["/dev/sr0"], h.polled, 1, false).events == [Inserted("/dev/sr0")];
  }

  class DiscWatcher {
    var devices: Option<seq<string>>
    var detection: DetectionMethod
    var pollInterval: real
    var running: bool
    var selectedMethod: Option<DetectionMethod>

    constructor(devices: Option<seq<string>>, detection: DetectionMethod, pollInterval: real)
      ensures this.devices == devices && this.detection == detection && this.pollInterval == pollInterval
      ensures !running && selectedMethod == None
    {
      this.devices := devices;
      this.detection := detection;
      this.pollInterval := pollInterval;
      running := false;
      selectedMethod := None;
    }

    /** `stop`: clears the watcher's own flag. */
    method Stop()
      modifies this`running
      ensures !running
    {
      running := false;
    }

    /** `_detect_devices`. */
    method DetectDevices(h: Host) returns (found: seq<string>)
      ensures found == Detected(h)
    {
      if h.udevAvailable {
        var drives := Udev.DetectOpticalDrives(true, h.listed);
        if drives != [] {
          return DeviceNames(drives);
        }
      }
      found := Poller.DetectDrivesByScan(h.present, h.realpath);
    }

    /**
     * `start`: drives are detected when none are configured; with none found nothing starts.
     * Otherwise the backend is selected and run, and the flag is cleared however it ends.
     */
    method Start(h: Host, once: bool) returns (outcome: Outcome)
      modifies this`devices, this`running, this`selectedMethod
      ensures devices == (if old(devices).Some? && old(devices).value != [] then old(devices) else Some(Detected(h)))
      ensures Resolved(old(devices), h) == [] ==>
        outcome == NoDrives && running == old(running) && selectedMethod == old(selectedMethod)
      ensures Resolved(old(devices), h) != [] ==>
        !running && selectedMethod == Some(Selected(detection, h.udevAvailable)) &&
        outcome == Watch(Selected(detection, h.udevAvailable), Resolved(old(devices), h), h, once)
    {
      if devices.None? || devices.value == [] {
        var found := DetectDevices(h);
        devices := Some(found);
      }
      var watched := devices.value;
      if watched == [] {
        return NoDrives;
      }
      var m;
      if detection == Auto {
        m := if h.udevAvailable then ByUdev else ByPolling;
      } else {
        m := detection;
      }
      selectedMethod := Some(m);
      running := true;
      if m == ByUdev {
        var monitor := new Udev.UdevMonitor(Some(watched));
        var r := monitor.Monitor(h.setup, h.polled, once);
        outcome := if r.Ok? then Watched(r.value) else Raised(r.error);
      } else {
        var poller := new Poller.DevicePoller(Some(watched), pollInterval);
        var events := poller.Poll(h.probe, h.rounds, h.cut, once);
        outcome := Watched(events);
      }
      running := false;
    }

    /**
     * `get_drives`: udev's detailed records when udev works (even when it lists none);
     * otherwise every scanned device with whether a disc is in it.
     */
    method GetDrives(h: Host) returns (drives: seq<DriveEntry>)
      ensures h.udevAvailable ==> drives == Detail(UdevDrives(h))
      ensures !h.udevAvailable ==> drives == Statuses(Poller.ScanTo(h.present, h.realpath, |Poller.Links|), h.discProbe)
    {
      if h.udevAvailable {
        var infos := Udev.DetectOpticalDrives(true, h.listed);
        return Detail(infos);
      }
      var scanned := Poller.DetectDrivesByScan(h.present, h.realpath);
      drives := CheckAll(scanned, h.discProbe);
    }

    /** The loop of `get_drives`: each device probed in turn by `check_disc`. */
    method CheckAll(devices: seq<string>, discProbe: string -> Poller.Probe) returns (drives: seq<DriveEntry>)
      ensures drives == Statuses(devices, discProbe)
    {
      drives := [];
      var i := 0;
      while i < |devices|
        invariant 0 <= i <= |devices|
        invariant drives == Statuses(devices[..i], discProbe)
      {
        var device := devices[i];
        var hasDisc := Poller.CheckDiscSync(discProbe(device));
        assert devices[..i + 1] == devices[..i] + [device];
        drives := drives + [Basic(device, hasDisc)];
        i := i + 1;
      }
      assert devices[..i] == devices;
    }
  }

  /** Udev's records as entries of `get_drives`. */
  function Detail(infos: seq<Udev.DriveInfo>): (r: seq<DriveEntry>)
    ensures |r| == |infos| && forall i :: 0 <= i < |r| ==> r[i] == Detailed(infos[i])
  {
    seq(|infos|, i requires 0 <= i < |infos| => Detailed(infos[i]))
  }

  /** Each device with whether the probe finds a disc in it, in order. */
  function Statuses(devices: seq<string>, discProbe: string -> Poller.Probe): (r: seq<DriveEntry>)
    ensures |r| == |devices|
    ensures forall i :: 0 <= i < |r| ==> r[i] == Basic(devices[i], Poller.CheckDiscSync(discProbe(devices[i])))
  {
    if devices == [] then []
    else
      var init := devices[..|devices| - 1];
      var last := devices[|devices| - 1];
      Statuses(init, discProbe) + [Basic(last, Poller.CheckDiscSync(discProbe(last)))]
  }
}
