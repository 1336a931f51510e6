/**
 * The event-driven backend of disc detection (`riparr.detection.udev`): block-device
 * events from the kernel are filtered down to optical drives (and to the configured ones,
 * when a list is given), and each "change" event fires an insert or a remove callback
 * depending on whether media is present. A device is its node and its udev properties;
 * the events `monitor.poll` returns are an input sequence, None standing for a poll that
 * timed out, and `stop` is seen once that sequence is used up.
 */
module Udev {
  import opened Wrappers
  import opened Strings
  import opened Lists
  import opened DiscEvents

  /** A udev device: its node (None when it has none), the event's action and its properties. */
  datatype Device = Device(node: Option<string>, action: Option<string>, props: map<string, string>)

  /** `device.get(key, default)`. */
  function Prop(d: Device, key: string, default: string): string
  {
    if key in d.props then d.props[key] else default
  }

  /** `device.device_node or ""`. */
  function NodeOf(d: Device): string
  {
    if d.node.Some? then d.node.value else ""
  }

  /**
   * `_is_optical_drive`: the device reports ID_TYPE "cd", its node names an `sr` or
   * `cdrom` device, or it has the CD-ROM capability flag.
   */
  function IsOpticalDrive(d: Device): (r: bool)
    ensures r <==> Prop(d, "ID_TYPE", "") == "cd" || Contains(NodeOf(d), "/sr") ||
                   Contains(NodeOf(d), "/cdrom") || Prop(d, "ID_CDROM", "") == "1"
  {
    if Prop(d, "ID_TYPE", "") == "cd" then true
    else if Contains(NodeOf(d), "/sr") || Contains(NodeOf(d), "/cdrom") then true
    else Prop(d, "ID_CDROM", "") == "1"
  }

  /** Every `/dev/sr<n>` node is taken for an optical drive, whatever its properties say. */
  lemma SrNodeIsOptical(d: Device, n: string)
    requires d.node == Some("/dev/sr" + n)
    ensures IsOpticalDrive(d)
  {
    var s := NodeOf(d);
    assert s[4..4 + |"/sr"|] == "/sr";
    OccursAtMeaning(s, "/sr", 4);
    ContainsFromMeaning(s, "/sr", 0);
  }

  /** `_has_disc`: ID_CDROM_MEDIA is "1"; a device without the property has no disc. */
  function HasDisc(d: Device): (r: bool)
    ensures r <==> "ID_CDROM_MEDIA" in d.props && d.props["ID_CDROM_MEDIA"] == "1"
  {
    Prop(d, "ID_CDROM_MEDIA", "0") == "1"
  }

  // ---------------------------------------------------------------------------
  // The monitor loop
  // ---------------------------------------------------------------------------

  /**
   * The filter of `monitor`: a polled device with a node, that is an optical drive, and
   * that is in the allow-list unless the list is empty.
   */
  predicate Accepted(allow: seq<string>, e: Option<Device>)
  {
    e.Some? && NodeOf(e.value) != "" && IsOpticalDrive(e.value) &&
    (allow == [] || NodeOf(e.value) in allow)
  }

  /** An accepted event that fires a callback: only "change" actions do. */
  predicate Fires(allow: seq<string>, e: Option<Device>)
  {
    Accepted(allow, e) && e.value.action == Some("change")
  }

  /** The callback a firing event makes: insert when media is present, else remove. */
  function Callback(d: Device): (c: DiscEvent)
    ensures c.device == NodeOf(d) && (c.Inserted? <==> HasDisc(d))
  {
    if HasDisc(d) then Inserted(NodeOf(d)) else Removed(NodeOf(d))
  }

  /** The monitor between polls: the callbacks made so far, and whether a one-shot run is over. */
  datatype MonitorState = MonitorState(events: seq<DiscEvent>, done: bool)

  /** One polled event: a callback if it fires; with `once`, an insert ends the loop. */
  function Dispatch(allow: seq<string>, st: MonitorState, e: Option<Device>, once: bool): MonitorState
  {
    if st.done || !Fires(allow, e) then st
    else
      var c := Callback(e.value);
      MonitorState(st.events + [c], once && c.Inserted?)
  }

  /** The monitor after the first `k` polled events. */
  function MonitorTo(allow: seq<string>, polled: seq<Option<Device>>, k: nat, once: bool): MonitorState
    requires k <= |polled|
  {
    if k == 0 then MonitorState([], false)
    else Dispatch(allow, MonitorTo(allow, polled, k - 1, once), polled[k - 1], once)
  }

  /** A first polled event that fires makes the first callback, whatever follows it. */
  lemma {:induction false} FirstFiringCalls(allow: seq<string>, polled: seq<Option<Device>>, k: nat, once: bool)
    requires 1 <= k <= |polled| && Fires(allow, polled[0])
    ensures MonitorTo(allow, polled, k, once).events != []
    ensures MonitorTo(allow, polled, k, once).events[0] == Callback(polled[0].value)
  {
    if k > 1 {
      FirstFiringCalls(allow, polled, k - 1, once);
      var st := MonitorTo(allow, polled, k - 1, once);
      assert MonitorTo(allow, polled, k, once).events[..|st.events|] == st.events;
    }
  }

  lemma {:induction false} MonitorToPrefix(allow: seq<string>, p: seq<Option<Device>>, q: seq<Option<Device>>, k: nat, once: bool)
    requires p <= q && k <= |p|
    ensures MonitorTo(allow, p, k, once) == MonitorTo(allow, q, k, once)
  {
    if k > 0 {
      MonitorToPrefix(allow, p, q, k - 1, once);
    }
  }

  /**
   * Filtered events are silent: polled timeouts, devices without a node, devices that are
   * not optical drives, drives outside the allow-list and actions other than "change"
   * leave the callbacks as they were.
   */
  lemma {:induction false} SilentEventsChangeNothing(allow: seq<string>, p: seq<Option<Device>>, q: seq<Option<Device>>, k: nat, once: bool)
    requires k <= |q|
    requires forall i :: 0 <= i < |q| ==> !Fires(allow, q[i])
    ensures MonitorTo(allow, p + q, |p| + k, once) == MonitorTo(allow, p, |p|, once)
  {
    if k == 0 {
      MonitorToPrefix(allow, p, p + q, |p|, once);
    } else {
      SilentEventsChangeNothing(allow, p, q, k - 1, once);
      assert (p + q)[|p| + k - 1] == q[k - 1];
    }
  }

  /**
   * No de-duplication: the same firing event polled twice makes its callback twice
   * (unless a one-shot run already ended).
   */
  lemma RepeatedEventFiresTwice(allow: seq<string>, p: seq<Option<Device>>, d: Device, once: bool)
    requires Fires(allow, Some(d)) && !MonitorTo(allow, p, |p|, once).done && !(once && HasDisc(d))
    ensures MonitorTo(allow, p + [Some(d), Some(d)], |p| + 2, once).events ==
      MonitorTo(allow, p, |p|, once).events + [Callback(d), Callback(d)]
  {
    var q := p + [Some(d), Some(d)];
    MonitorToPrefix(allow, p, q, |p|, once);
    assert q[|p|] == Some(d) && q[|p| + 1] == Some(d);
  }

  /** Every callback names a drive, one of the allow-list when there is one. */
  predicate AllowedEvents(allow: seq<string>, es: seq<DiscEvent>)
  {
    forall i :: 0 <= i < |es| ==> es[i].device != "" && (allow == [] || es[i].device in allow)
  }

  /** The monitor only reports drives it was told to watch. */
  lemma {:induction false} CallbacksAllowed(allow: seq<string>, polled: seq<Option<Device>>, k: nat, once: bool)
    requires k <= |polled|
    ensures AllowedEvents(allow, MonitorTo(allow, polled, k, once).events)
  {
    if k > 0 {
      CallbacksAllowed(allow, polled, k - 1, once);
      var r0 := MonitorTo(allow, polled, k - 1, once);
      var es := MonitorTo(allow, polled, k, once).events;
      if !r0.done && Fires(allow, polled[k - 1]) {
        var d := polled[k - 1].value;
        assert es == r0.events + [Callback(d)];
        forall i | 0 <= i < |es|
          ensures es[i].device != "" && (allow == [] || es[i].device in allow)
        {
          if i < |r0.events| {
            assert es[i] == r0.events[i];
          }
        }
      }
    }
  }

  /**
   * `once`: the loop ends with the first insert, which is its last callback and the only
   * insert; without `once` it never ends by itself.
   */
  lemma {:induction false} OnceEndsAtFirstInsert(allow: seq<string>, polled: seq<Option<Device>>, k: nat, once: bool)
    requires k <= |polled|
    ensures var r := MonitorTo(allow, polled, k, once);
      (r.done <==> once && Inserts(r.events) > 0) &&
      (once ==> Inserts(r.events) <= 1 && (r.done ==> r.events[|r.events| - 1].Inserted?))
  {
    if k > 0 {
      OnceEndsAtFirstInsert(allow, polled, k - 1, once);
      var r0 := MonitorTo(allow, polled, k - 1, once);
      var r := MonitorTo(allow, polled, k, once);
      if r.events != r0.events {
        assert r.events[..|r.events| - 1] == r0.events;
      }
    }
  }

  /** How opening the monitor went: pyudev missing, the netlink socket failing, or ready. */
  datatype Setup = Opened | NotInstalled | SocketError(message: string)

  class UdevMonitor {
    var devices: seq<string>
    var running: bool

    /** `devices or []`: no list means every optical drive. */
    constructor(devices: Option<seq<string>>)
      ensures this.devices == (if devices.Some? then devices.value else [])
      ensures !running
    {
      this.devices := if devices.Some? then devices.value else [];
      running := false;
    }

    /** `stop`: the loop ends at its next check. */
    method Stop()
      modifies this`running
      ensures !running
    {
      running := false;
    }

    /**
     * `monitor`: a missing pyudev or a socket that cannot be opened raises before the loop
     * starts; otherwise every polled event is filtered and dispatched until `stop` is seen
     * or, with `once`, the first insert has fired, and the flag is cleared on the way out.
     */
    method Monitor(setup: Setup, polled: seq<Option<Device>>, once: bool) returns (r: Result<seq<DiscEvent>>)
      modifies this`running
      ensures setup.NotInstalled? ==> r == Err("pyudev is not installed") && running == old(running)
      ensures setup.SocketError? ==> r == Err(setup.message) && running == old(running)
      ensures setup.Opened? ==> !running && r == Ok(MonitorTo(devices, polled, |polled|, once).events)
    {
      match setup {
        case NotInstalled => return Err("pyudev is not installed");
        case SocketError(m) => return Err(m);
        case Opened =>
      }
      running := true;
      var events: seq<DiscEvent> := [];
      var k := 0;
      while running && k < |polled|
        invariant 0 <= k <= |polled|
        invariant MonitorTo(devices, polled, k, once) == MonitorState(events, !running)
      {
        var event := polled[k];
        k := k + 1;
        if event.None? {
          continue;
        }
        var device := event.value;
        var path := NodeOf(device);
        if path == "" {
          continue;
        }
        if !IsOpticalDrive(device) {
          continue;
        }
        if devices != [] && path !in devices {
          continue;
        }
        if device.action == Some("change") {
          if HasDisc(device) {
            events := events + [Inserted(path)];
            if once {
              running := false;
            }
          } else {
            events := events + [Removed(path)];
          }
        }
      }
      if k < |polled| {
        StoppedStays(devices, polled, k, |polled|, once);
      }
      running := false;
      r := Ok(events);
    }
  }

  /** Once a one-shot run is over, later events change nothing. */
  lemma {:induction false} StoppedStays(allow: seq<string>, polled: seq<Option<Device>>, k: nat, m: nat, once: bool)
    requires k <= m <= |polled| && MonitorTo(allow, polled, k, once).done
    ensures MonitorTo(allow, polled, m, once) == MonitorTo(allow, polled, k, once)
  {
    if k < m {
      StoppedStays(allow, polled, k, m - 1, once);
    }
  }

  // ---------------------------------------------------------------------------
  // Listing the drives
  // ---------------------------------------------------------------------------

  /** A drive record of `detect_optical_drives`. */
  datatype DriveInfo = DriveInfo(device: string, model: string, vendor: string, hasDisc: bool, capabilities: seq<string>)

  /** A listed block device counts as a drive when it has a node and the CD-ROM flag. */
  function IsListedDrive(): Device -> bool
  {
    (d: Device) => NodeOf(d) != "" && Prop(d, "ID_CDROM", "") == "1"
  }

  /** The order capabilities are listed in. */
  function CapabilityRank(c: string): int
  {
    if c == "DVD" then 0 else if c == "Blu-ray" then 1 else 2
  }

  /**
   * The record of one drive: its node, model and vendor (defaulting to "Unknown"), whether
   * media is present, and the capabilities its flags announce, in the order DVD, Blu-ray, MRW.
   */
  function DriveRecord(d: Device): (r: DriveInfo)
    ensures r.device == NodeOf(d) && r.model == Prop(d, "ID_MODEL", "Unknown") && r.vendor == Prop(d, "ID_VENDOR", "Unknown")
    ensures r.hasDisc == HasDisc(d)
    ensures "DVD" in r.capabilities <==> Prop(d, "ID_CDROM_DVD", "") == "1"
    ensures "Blu-ray" in r.capabilities <==> Prop(d, "ID_CDROM_BD", "") == "1"
    ensures "MRW" in r.capabilities <==> Prop(d, "ID_CDROM_MRW", "") == "1"
    ensures forall i, j :: 0 <= i < j < |r.capabilities| ==> CapabilityRank(r.capabilities[i]) < CapabilityRank(r.capabilities[j])
  {
    var dvd: seq<string> := if Prop(d, "ID_CDROM_DVD", "") == "1" then ["DVD"] else [];
    var bd: seq<string> := if Prop(d, "ID_CDROM_BD", "") == "1" then ["Blu-ray"] else [];
    var mrw: seq<string> := if Prop(d, "ID_CDROM_MRW", "") == "1" then ["MRW"] else [];
    DriveInfo(NodeOf(d), Prop(d, "ID_MODEL", "Unknown"), Prop(d, "ID_VENDOR", "Unknown"),
              Prop(d, "ID_CDROM_MEDIA", "0") == "1", dvd + bd + mrw)
  }

  /** The records of the drives `ds`, in order. */
  function Records(ds: seq<Device>): (r: seq<DriveInfo>)
    ensures |r| == |ds|
  {
    seq(|ds|, i requires 0 <= i < |ds| => DriveRecord(ds[i]))
  }

  lemma RecordsSnoc(ds: seq<Device>, d: Device)
    ensures Records(ds + [d]) == Records(ds) + [DriveRecord(d)]
  {
    var a := Records(ds + [d]);
    var b := Records(ds) + [DriveRecord(d)];
    forall i | 0 <= i < |a|
      ensures a[i] == b[i]
    {
      if i < |ds| {
        assert (ds + [d])[i] == ds[i];
      }
    }
  }

  /** The record built for one listed drive. */
  method Record(device: Device) returns (info: DriveInfo)
    ensures info == DriveRecord(device)
  {
    var capabilities := [];
    if Prop(device, "ID_CDROM_DVD", "") == "1" {
      capabilities := capabilities + ["DVD"];
    }
    if Prop(device, "ID_CDROM_BD", "") == "1" {
      capabilities := capabilities + ["Blu-ray"];
    }
    if Prop(device, "ID_CDROM_MRW", "") == "1" {
      capabilities := capabilities + ["MRW"];
    }
    info := DriveInfo(NodeOf(device), Prop(device, "ID_MODEL", "Unknown"), Prop(device, "ID_VENDOR", "Unknown"),
                      Prop(device, "ID_CDROM_MEDIA", "0") == "1", capabilities);
  }

  /**
   * `detect_optical_drives`: without pyudev, no drives; otherwise one record per listed
   * block device that has a node and the CD-ROM flag, in listing order.
   */
  method DetectOpticalDrives(installed: bool, listed: seq<Device>) returns (drives: seq<DriveInfo>)
    ensures !installed ==> drives == []
    ensures installed ==> drives == Records(Filter(listed, IsListedDrive()))
  {
    if !installed {
      return [];
    }
    drives := [];
    ghost var found: seq<Device> := [];
    var i := 0;
    while i < |listed|
      invariant 0 <= i <= |listed|
      invariant found == Filter(listed[..i], IsListedDrive())
      invariant drives == Records(found)
    {
      FilterStep(listed, i, IsListedDrive());
      var device := listed[i];
      var path := NodeOf(device);
      if path != "" && Prop(device, "ID_CDROM", "") == "1" {
        var info := Record(device);
        RecordsSnoc(found, device);
        drives := drives + [info];
        found := found + [device];
      }
      i := i + 1;
    }
    assert listed[..i] == listed;
  }
}
