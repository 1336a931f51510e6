/**
 * The polling backend of disc detection (`riparr.detection.poller`): every interval each
 * configured drive is probed for a disc, the last known presence of each drive is kept, and
 * a callback fires only when that presence changes. The probes are inputs: `probe(r, i)` is
 * what probing the `i`-th device in round `r` reports, round 0 being the probe that
 * records the initial states. `stop` comes from another task; it is modelled by where the
 * run ends: after `rounds` full rounds and `cut` probes of the next one. Sleeping and the
 * thread the probes run on are left out.
 */
module Poller {
  import opened Wrappers
  import opened Strings
  import opened Lists
  import opened DiscEvents

  /** The drive polled when no device is configured. */
  const DefaultDevice := "/dev/sr0"

  /** `devices or ["/dev/sr0"]`: a missing and an empty list both mean the default drive. */
  function DeviceList(devices: Option<seq<string>>): (r: seq<string>)
    ensures r != []
    ensures devices.Some? && devices.value != [] ==> r == devices.value
    ensures devices.None? || devices.value == [] ==> r == [DefaultDevice]
  {
    if devices.Some? && devices.value != [] then devices.value else [DefaultDevice]
  }

  // ---------------------------------------------------------------------------
  // The presence probe
  // ---------------------------------------------------------------------------

  /** What `blkid -p <device>` returned: its exit code and its standard output. */
  datatype BlkidRun = BlkidRun(returnCode: int, stdout: string)

  /**
   * What `_check_disc_sync` finds out about a device: whether a read-only open succeeds;
   * the `blkid` run (None when running it raised); the device's mount point from
   * `/proc/mounts`; which paths are directories; and the CDROM_DRIVE_STATUS ioctl answer,
   * or the OSError of opening the device for it.
   */
  datatype Probe = Probe(
    opens: bool,
    blkid: Option<BlkidRun>,
    mountPoint: Option<string>,
    isDir: string -> bool,
    driveStatus: Result<int>)

  /** The CDS_DISC_OK answer of the drive-status ioctl. */
  const DiscOk := 4

  /** `os.path.join` of a non-empty directory and a relative name. */
  function PathJoin(dir: string, name: string): string
  {
    if dir != [] && dir[|dir| - 1] == '/' then dir + name else dir + "/" + name
  }

  predicate BlkidFound(p: Probe)
  {
    p.blkid.Some? && p.blkid.value.returnCode == 0 && p.blkid.value.stdout != []
  }

  /** The device is mounted and its mount point holds a DVD or a Blu-ray structure. */
  predicate MountedVideo(p: Probe)
  {
    p.mountPoint.Some? && p.mountPoint.value != [] &&
    (p.isDir(PathJoin(p.mountPoint.value, "VIDEO_TS")) || p.isDir(PathJoin(p.mountPoint.value, "BDMV")))
  }

  /**
   * `_check_disc_sync`: no disc when the device cannot be opened; otherwise a disc as soon
   * as `blkid` finds a filesystem, the mount point holds VIDEO_TS or BDMV, or the drive
   * reports CDS_DISC_OK.
   */
  function CheckDiscSync(p: Probe): (r: bool)
    ensures !p.opens ==> !r
    ensures p.opens ==> (r <==> BlkidFound(p) || MountedVideo(p) || p.driveStatus == Ok(DiscOk))
  {
    if !p.opens then false
    else if BlkidFound(p) then true
    else if MountedVideo(p) then true
    else match p.driveStatus
      case Ok(status) => status == DiscOk
      case Err(_) => false
  }

  // ---------------------------------------------------------------------------
  // The edge-triggered run
  // ---------------------------------------------------------------------------

  /** One probe of one device during the polling loop. */
  datatype Sample = Sample(device: string, present: bool)

  /**
   * The poller between probes: the last known presence per device, the callbacks made so
   * far, and whether a one-shot run has had its insert and returned.
   */
  datatype PollState = PollState(states: map<string, bool>, events: seq<DiscEvent>, done: bool)

  /** `_disc_states.get(device, False)`. */
  function Known(states: map<string, bool>, d: string): bool
  {
    if d in states then states[d] else false
  }

  /**
   * One probe against the last known state: an insert on absent-to-present (which ends a
   * one-shot run), a remove on present-to-absent, nothing otherwise. The state is updated
   * before the callback.
   */
  function Observe(st: PollState, s: Sample, once: bool): PollState
  {
    if st.done then st
    else if s.present && !Known(st.states, s.device) then
      PollState(st.states[s.device := true], st.events + [Inserted(s.device)], once)
    else if !s.present && Known(st.states, s.device) then
      PollState(st.states[s.device := false], st.events + [Removed(s.device)], false)
    else st
  }

  /** The poller after the first `k` probes of `samples`, in order. */
  function RunTo(st: PollState, samples: seq<Sample>, k: nat, once: bool): PollState
    requires k <= |samples|
  {
    if k == 0 then st else Observe(RunTo(st, samples, k - 1, once), samples[k - 1], once)
  }

  /** The poller after all the probes `samples`. */
  function Run(st: PollState, samples: seq<Sample>, once: bool): PollState
  {
    RunTo(st, samples, |samples|, once)
  }

  /** The initial probe: each device's state recorded, no callback. */
  function Initial(states: map<string, bool>, devices: seq<string>, probe: (nat, nat) -> bool, n: nat): map<string, bool>
    requires n <= |devices|
  {
    if n == 0 then states else Initial(states, devices, probe, n - 1)[devices[n - 1] := probe(0, n - 1)]
  }

  /** The first `n` probes of round `r`. */
  function RoundSamples(devices: seq<string>, probe: (nat, nat) -> bool, r: nat, n: nat): (s: seq<Sample>)
    requires n <= |devices|
  {
    seq(n, i requires 0 <= i < n => Sample(devices[i], probe(r, i)))
  }

  /** How many devices round `r` probes before `stop` is seen: all but in the round cut short. */
  function RoundLength(devices: seq<string>, rounds: nat, cut: nat, r: nat): (n: nat)
    ensures n <= |devices|
  {
    if r <= rounds || cut >= |devices| then |devices| else cut
  }

  /** The probes of rounds 1 to `k`. */
  function Flat(devices: seq<string>, probe: (nat, nat) -> bool, rounds: nat, cut: nat, k: nat): seq<Sample>
  {
    if k == 0 then []
    else Flat(devices, probe, rounds, cut, k - 1) + RoundSamples(devices, probe, k, RoundLength(devices, rounds, cut, k))
  }

  /** Every probe of the polling loop, up to the point where `stop` is seen. */
  function Samples(devices: seq<string>, probe: (nat, nat) -> bool, rounds: nat, cut: nat): seq<Sample>
  {
    Flat(devices, probe, rounds, cut, rounds + 1)
  }

  /** What a `poll` run ends with, from the states it starts with. */
  function PollRun(states: map<string, bool>, devices: seq<string>, probe: (nat, nat) -> bool, rounds: nat, cut: nat, once: bool): PollState
  {
    Run(PollState(Initial(states, devices, probe, |devices|), [], false), Samples(devices, probe, rounds, cut), once)
  }

  lemma {:induction false} FlatPrefix(devices: seq<string>, probe: (nat, nat) -> bool, rounds: nat, cut: nat, k: nat, m: nat)
    requires k <= m
    ensures Flat(devices, probe, rounds, cut, k) <= Flat(devices, probe, rounds, cut, m)
    decreases m
  {
    if k < m {
      FlatPrefix(devices, probe, rounds, cut, k, m - 1);
    }
  }

  /** The run over a prefix only depends on that prefix. */
  lemma {:induction false} RunToPrefix(st: PollState, p: seq<Sample>, q: seq<Sample>, k: nat, once: bool)
    requires p <= q && k <= |p|
    ensures RunTo(st, p, k, once) == RunTo(st, q, k, once)
  {
    if k > 0 {
      RunToPrefix(st, p, q, k - 1, once);
    }
  }

  /** Running two stretches of probes one after the other is running them together. */
  lemma {:induction false} RunToAppend(st: PollState, p: seq<Sample>, q: seq<Sample>, k: nat, once: bool)
    requires k <= |q|
    ensures RunTo(st, p + q, |p| + k, once) == RunTo(Run(st, p, once), q, k, once)
  {
    if k == 0 {
      RunToPrefix(st, p, p + q, |p|, once);
    } else {
      RunToAppend(st, p, q, k - 1, once);
      assert (p + q)[|p| + k - 1] == q[k - 1];
    }
  }

  /** Once a one-shot run has returned, later probes change nothing. */
  lemma {:induction false} RunToStopped(st: PollState, s: seq<Sample>, k: nat, m: nat, once: bool)
    requires k <= m <= |s| && RunTo(st, s, k, once).done
    ensures RunTo(st, s, m, once) == RunTo(st, s, k, once)
  {
    if k < m {
      RunToStopped(st, s, k, m - 1, once);
    }
  }

  /** Round `r` of the polling loop carries on from where the rounds before it left the run. */
  lemma RoundContinues(st: PollState, devices: seq<string>, probe: (nat, nat) -> bool, rounds: nat, cut: nat, r: nat, once: bool)
    requires r >= 1
    ensures Run(st, Flat(devices, probe, rounds, cut, r), once) ==
      Run(Run(st, Flat(devices, probe, rounds, cut, r - 1), once),
          RoundSamples(devices, probe, r, RoundLength(devices, rounds, cut, r)), once)
  {
    var round := RoundSamples(devices, probe, r, RoundLength(devices, rounds, cut, r));
    RunToAppend(st, Flat(devices, probe, rounds, cut, r - 1), round, |round|, once);
  }

  /** A one-shot run that returned during round `r` ends where it returned. */
  lemma StoppedAtRound(st: PollState, devices: seq<string>, probe: (nat, nat) -> bool, rounds: nat, cut: nat, r: nat, once: bool)
    requires r <= rounds + 1 && Run(st, Flat(devices, probe, rounds, cut, r), once).done
    ensures Run(st, Samples(devices, probe, rounds, cut), once) == Run(st, Flat(devices, probe, rounds, cut, r), once)
  {
    var p, all := Flat(devices, probe, rounds, cut, r), Samples(devices, probe, rounds, cut);
    FlatPrefix(devices, probe, rounds, cut, r, rounds + 1);
    RunToPrefix(st, p, all, |p|, once);
    RunToStopped(st, all, |p|, |all|, once);
  }

  /** Every callback in `es` names one of `devices`. */
  predicate EventsAmong(es: seq<DiscEvent>, devices: seq<string>)
  {
    forall i :: 0 <= i < |es| ==> es[i].device in devices
  }

  /** Every probe in `s` is of one of `devices`. */
  predicate ProbesAmong(s: seq<Sample>, devices: seq<string>)
  {
    forall i :: 0 <= i < |s| ==> s[i].device in devices
  }

  /** A run only makes callbacks for the devices it probes. */
  lemma {:induction false} RunNamesProbedDevices(st: PollState, s: seq<Sample>, k: nat, once: bool, devices: seq<string>)
    requires k <= |s| && EventsAmong(st.events, devices) && ProbesAmong(s, devices)
    ensures EventsAmong(RunTo(st, s, k, once).events, devices)
  {
    if k > 0 {
      RunNamesProbedDevices(st, s, k - 1, once, devices);
      var es0 := RunTo(st, s, k - 1, once).events;
      var es := RunTo(st, s, k, once).events;
      if es != es0 {
        assert es == es0 + [es[|es| - 1]];
        forall i | 0 <= i < |es|
          ensures es[i].device in devices
        {
          if i < |es0| {
            assert es[i] == es0[i];
          }
        }
      }
    }
  }

  /** The polling loop probes the configured devices only. */
  lemma {:induction false} FlatProbesDevices(devices: seq<string>, probe: (nat, nat) -> bool, rounds: nat, cut: nat, k: nat)
    ensures ProbesAmong(Flat(devices, probe, rounds, cut, k), devices)
  {
    if k > 0 {
      FlatProbesDevices(devices, probe, rounds, cut, k - 1);
      var f0 := Flat(devices, probe, rounds, cut, k - 1);
      var round := RoundSamples(devices, probe, k, RoundLength(devices, rounds, cut, k));
      var f := Flat(devices, probe, rounds, cut, k);
      forall i | 0 <= i < |f|
        ensures f[i].device in devices
      {
        if i < |f0| {
          assert f[i] == f0[i];
        } else {
          var j := i - |f0|;
          assert f[i] == round[j] == Sample(devices[j], probe(k, j));
        }
      }
    }
  }

  /** Every callback of `poll` names one of the poller's devices. */
  lemma PollNamesItsDevices(states: map<string, bool>, devices: seq<string>, probe: (nat, nat) -> bool, rounds: nat, cut: nat, once: bool)
    ensures EventsAmong(PollRun(states, devices, probe, rounds, cut, once).events, devices)
  {
    var s := Samples(devices, probe, rounds, cut);
    FlatProbesDevices(devices, probe, rounds, cut, rounds + 1);
    RunNamesProbedDevices(PollState(Initial(states, devices, probe, |devices|), [], false), s, |s|, once, devices);
  }

  /** The state of `d` once the callbacks `es` of that device are replayed from `b`. */
  function Replayed(b: bool, es: seq<DiscEvent>): bool
  {
    if es == [] then b else es[|es| - 1].Inserted?
  }

  /**
   * The callbacks of one device flip its state each time: the first is an insert exactly
   * when the device started absent, and an insert is always followed by a remove.
   */
  predicate Alternates(b: bool, es: seq<DiscEvent>)
  {
    (es != [] ==> (es[0].Inserted? <==> !b)) &&
    forall k :: 0 < k < |es| ==> FlipsAt(es, k)
  }

  /** The callback at `k` is of the other kind than the one before it. */
  predicate FlipsAt(es: seq<DiscEvent>, k: nat)
    requires 0 < k < |es|
  {
    es[k].Inserted? <==> es[k - 1].Removed?
  }

  /** One more callback for a device keeps the alternation when it is the flip of the replayed state. */
  lemma AlternatesSnoc(b: bool, es: seq<DiscEvent>, e: DiscEvent)
    requires Alternates(b, es) && (e.Inserted? <==> !Replayed(b, es))
    ensures Alternates(b, es + [e]) && Replayed(b, es + [e]) == e.Inserted?
  {
    var es' := es + [e];
    forall k | 0 < k < |es'| ensures FlipsAt(es', k) {
      if k < |es| {
        assert FlipsAt(es, k);
        assert es'[k] == es[k] && es'[k - 1] == es[k - 1];
      }
    }
  }

  /** A callback for another device leaves the callbacks and the state of `d` alone. */
  lemma OtherDevice(r0: PollState, r: PollState, e: DiscEvent, d: string)
    requires e.device != d && r.events == r0.events + [e] && r.states == r0.states[e.device := e.Inserted?]
    ensures ForDevice(r.events, d) == ForDevice(r0.events, d) && Known(r.states, d) == Known(r0.states, d)
  {
    FilterAppend(r0.events, [e], OfDevice(d));
    FilterSingle(e, OfDevice(d));
  }

  /** A callback for `d` itself extends its callbacks by one. */
  lemma SameDevice(r0: PollState, r: PollState, e: DiscEvent, d: string)
    requires e.device == d && r.events == r0.events + [e]
    ensures ForDevice(r.events, d) == ForDevice(r0.events, d) + [e]
  {
    FilterAppend(r0.events, [e], OfDevice(d));
    FilterSingle(e, OfDevice(d));
  }

  /** One probe keeps the alternation of every device's callbacks. */
  lemma ObserveAlternates(r0: PollState, s: Sample, once: bool, b: bool, d: string)
    requires var es := ForDevice(r0.events, d); Alternates(b, es) && Known(r0.states, d) == Replayed(b, es)
    ensures var r := Observe(r0, s, once); var es := ForDevice(r.events, d);
      Alternates(b, es) && Known(r.states, d) == Replayed(b, es)
  {
    var r := Observe(r0, s, once);
    if r.events != r0.events {
      var e := if s.present then Inserted(s.device) else Removed(s.device);
      assert r.events == r0.events + [e] && r.states == r0.states[s.device := s.present];
      if s.device == d {
        SameDevice(r0, r, e, d);
        AlternatesSnoc(b, ForDevice(r0.events, d), e);
      } else {
        OtherDevice(r0, r, e, d);
      }
    }
  }

  /**
   * Edge triggering: for every device, the callbacks made for it alternate insert and
   * remove starting from its initial state, and its last known state is where they lead.
   */
  lemma {:induction false} RunAlternates(st: PollState, p: seq<Sample>, k: nat, once: bool, d: string)
    requires st.events == [] && k <= |p|
    ensures var r := RunTo(st, p, k, once); var es := ForDevice(r.events, d);
      Alternates(Known(st.states, d), es) && Known(r.states, d) == Replayed(Known(st.states, d), es)
  {
    if k == 0 {
      assert ForDevice([], d) == [];
    } else {
      RunAlternates(st, p, k - 1, once, d);
      ObserveAlternates(RunTo(st, p, k - 1, once), p[k - 1], once, Known(st.states, d), d);
    }
  }

  /** Only a change of presence fires: probing a device in the state last known fires nothing. */
  lemma RepeatIsSilent(st: PollState, p: seq<Sample>, once: bool, d: string)
    ensures var r := Run(st, p, once);
      Run(st, p + [Sample(d, Known(r.states, d))], once) == r
  {
    var q := p + [Sample(d, Known(Run(st, p, once).states, d))];
    RunToPrefix(st, p, q, |p|, once);
  }

  /** The last of the first `k` probes that probed `d`, or `b` when none did. */
  function LastSample(b: bool, p: seq<Sample>, k: nat, d: string): bool
    requires k <= |p|
  {
    if k == 0 then b
    else if p[k - 1].device == d then p[k - 1].present
    else LastSample(b, p, k - 1, d)
  }

  /** Unless a one-shot run returned early, every device ends in the state its last probe found. */
  lemma {:induction false} RunTracksLastSample(st: PollState, p: seq<Sample>, k: nat, once: bool, d: string)
    requires !st.done && k <= |p|
    ensures var r := RunTo(st, p, k, once); !r.done ==> Known(r.states, d) == LastSample(Known(st.states, d), p, k, d)
  {
    if k > 0 {
      RunTracksLastSample(st, p, k - 1, once, d);
    }
  }

  /**
   * `once`: the run ends with its first insert, which is then its last callback; before it
   * only removes fired. Without `once` the run never ends by itself.
   */
  lemma {:induction false} OnceEndsAtFirstInsert(st: PollState, p: seq<Sample>, k: nat, once: bool)
    requires st.events == [] && !st.done && k <= |p|
    ensures var r := RunTo(st, p, k, once);
      (r.done <==> once && Inserts(r.events) > 0) &&
      (once ==> Inserts(r.events) <= 1 && (r.done ==> r.events[|r.events| - 1].Inserted?))
  {
    if k > 0 {
      OnceEndsAtFirstInsert(st, p, k - 1, once);
      var r0 := RunTo(st, p, k - 1, once);
      var r := RunTo(st, p, k, once);
      if r.events != r0.events {
        assert r.events[..|r.events| - 1] == r0.events;
      }
    }
  }

  /** A drive probed absent at start, then absent, present, present, absent: one insert, one remove. */
  lemma OneInsertOneRemove()
    ensures var probe := (r: nat, i: nat) => r == 2 || r == 3;
      PollRun(map[], ["/dev/sr0"], probe, 4, 0, false).events == [Inserted("/dev/sr0"), Removed("/dev/sr0")]
  {
    var probe := (r: nat, i: nat) => r == 2 || r == 3;
    var ds := ["/dev/sr0"];
    var a, b := Sample("/dev/sr0", false), Sample("/dev/sr0", true);
    assert Samples(ds, probe, 4, 0) == [a, b, b, a] by {
      assert Flat(ds, probe, 4, 0, 1) == [a];
      assert Flat(ds, probe, 4, 0, 2) == [a, b];
      assert Flat(ds, probe, 4, 0, 3) == [a, b, b];
      assert Flat(ds, probe, 4, 0, 4) == [a, b, b, a];
      assert Flat(ds, probe, 4, 0, 5) == [a, b, b, a] + [];
    }
    var st0 := PollState(Initial(map[], ds, probe, 1), [], false);
    assert st0.states == map["/dev/sr0" := false];
    var s := [a, b, b, a];
    var r2 := PollState(map["/dev/sr0" := true], [Inserted("/dev/sr0")], false);
    assert RunTo(st0, s, 1, false) == st0;
    assert RunTo(st0, s, 2, false) == r2;
    assert RunTo(st0, s, 3, false) == r2;
  }

  // ---------------------------------------------------------------------------
  // The poller object
  // ---------------------------------------------------------------------------

  class DevicePoller {
    var devices: seq<string>
    var interval: real
    var running: bool
    var discStates: map<string, bool>

    constructor(devices: Option<seq<string>>, interval: real)
      ensures this.devices == DeviceList(devices) && this.interval == interval
      ensures !running && discStates == map[]
    {
      this.devices := DeviceList(devices);
      this.interval := interval;
      running := false;
      discStates := map[];
    }

    /** `stop`: the loop ends at its next check, before a round or before a device. */
    method Stop()
      modifies this`running
      ensures !running
    {
      running := false;
    }

    /**
     * One round of the polling loop over the first `n` devices: each probe is compared with
     * the last known state; with `once`, the first insert ends the round and the run.
     */
    method ProbeRound(states0: map<string, bool>, events0: seq<DiscEvent>, probe: (nat, nat) -> bool,
                      r: nat, n: nat, once: bool) returns (states: map<string, bool>, events: seq<DiscEvent>, stopped: bool)
      requires n <= |devices|
      ensures Run(PollState(states0, events0, false), RoundSamples(devices, probe, r, n), once) == PollState(states, events, stopped)
    {
      ghost var st0 := PollState(states0, events0, false);
      ghost var round := RoundSamples(devices, probe, r, n);
      states, events, stopped := states0, events0, false;
      var i := 0;
      while i < n
        invariant 0 <= i <= n
        invariant RunTo(st0, round, i, once) == PollState(states, events, false)
      {
        var device := devices[i];
        var hasDisc := probe(r, i);
        assert round[i] == Sample(device, hasDisc);
        var previous := Known(states, device);
        if hasDisc && !previous {
          states := states[device := true];
          events := events + [Inserted(device)];
          if once {
            assert RunTo(st0, round, n, once) == RunTo(st0, round, i + 1, once) by {
              RunToStopped(st0, round, i + 1, n, once);
            }
            return states, events, true;
          }
        } else if !hasDisc && previous {
          states := states[device := false];
          events := events + [Removed(device)];
        }
        i := i + 1;
      }
    }

    /** The first loop of `poll`: every device's presence recorded, no callback fired. */
    method RecordInitial(states0: map<string, bool>, probe: (nat, nat) -> bool) returns (states: map<string, bool>)
      ensures states == Initial(states0, devices, probe, |devices|)
    {
      states := states0;
      var i := 0;
      while i < |devices|
        invariant 0 <= i <= |devices|
        invariant states == Initial(states0, devices, probe, i)
      {
        states := states[devices[i] := probe(0, i)];
        i := i + 1;
      }
    }

    /**
     * `poll`: the initial probe records every device's state and fires nothing; then each
     * round probes the devices in order and fires the callbacks of the edge-triggered run,
     * until `stop` is seen or, with `once`, the first insert has fired.
     */
    method Poll(probe: (nat, nat) -> bool, rounds: nat, cut: nat, once: bool) returns (events: seq<DiscEvent>)
      modifies this`running, this`discStates
      ensures !running
      ensures var r := PollRun(old(discStates), devices, probe, rounds, cut, once);
        events == r.events && discStates == r.states
    {
      running := true;
      var states := RecordInitial(discStates, probe);
      ghost var st0 := PollState(states, [], false);
      events := [];
      var r := 1;
      while r <= rounds + 1
        invariant 1 <= r <= rounds + 2
        invariant Run(st0, Flat(devices, probe, rounds, cut, r - 1), once) == PollState(states, events, false)
      {
        var n := RoundLength(devices, rounds, cut, r);
        var stopped;
        RoundContinues(st0, devices, probe, rounds, cut, r, once);
        states, events, stopped := ProbeRound(states, events, probe, r, n, once);
        if stopped {
          running := false;
          discStates := states;
          StoppedAtRound(st0, devices, probe, rounds, cut, r, once);
          return;
        }
        r := r + 1;
      }
      running := false;
      discStates := states;
    }
  }

  // ---------------------------------------------------------------------------
  // Scanning /dev
  // ---------------------------------------------------------------------------

  /** The device names `detect_drives_by_scan` tries first, `/dev/sr0` to `/dev/sr3`, in order. */
  const SrDevices: seq<string> := ["/dev/sr0", "/dev/sr1", "/dev/sr2", "/dev/sr3"]

  /** The well-known links tried after them, in order. */
  const Links: seq<string> := ["/dev/cdrom", "/dev/dvd"]

  lemma SrDevicesDistinct()
    ensures Distinct(SrDevices)
  {
    forall j, k | 0 <= j < k < 4 ensures SrDevices[j] != SrDevices[k] {
      assert SrDevices[j][7] != SrDevices[k][7];
    }
  }

  predicate Distinct(s: seq<string>)
  {
    forall j, k :: 0 <= j < k < |s| ==> s[j] != s[k]
  }

  lemma DistinctSnoc(s: seq<string>, x: string)
    requires Distinct(s) && x !in s
    ensures Distinct(s + [x])
  {
  }

  /** The first loop of `detect_drives_by_scan`: the numbered drives that exist, in order. */
  method ScanSr(present: string -> bool) returns (drives: seq<string>)
    ensures drives == Filter(SrDevices, present) && Distinct(drives)
  {
    var srs := SrDevices;
    drives := [];
    var i := 0;
    while i < 4
      invariant 0 <= i <= 4
      invariant drives == Filter(srs[..i], present)
      invariant Distinct(drives)
    {
      FilterStep(srs, i, present);
      if present(srs[i]) {
        assert srs[i] !in drives by {
          SrDevicesDistinct();
          assert srs[i] !in srs[..i];
        }
        DistinctSnoc(drives, srs[i]);
        drives := drives + [srs[i]];
      }
      i := i + 1;
    }
    assert srs[..4] == srs;
  }

  /** The targets of the first `k` links that exist, in order. */
  function Targets(present: string -> bool, realpath: string -> string, k: nat): seq<string>
    requires k <= |Links|
  {
    if k == 0 then []
    else Targets(present, realpath, k - 1) + (if present(Links[k - 1]) then [realpath(Links[k - 1])] else [])
  }

  /**
   * The scan after the first `k` links: the existing numbered drives, then each existing
   * link's target unless it is listed already.
   */
  function ScanTo(present: string -> bool, realpath: string -> string, k: nat): seq<string>
    requires k <= |Links|
  {
    if k == 0 then Filter(SrDevices, present)
    else
      var before := ScanTo(present, realpath, k - 1);
      var link := Links[k - 1];
      if present(link) && realpath(link) !in before then before + [realpath(link)] else before
  }

  /** One more link in the scan. */
  lemma ScanToNext(present: string -> bool, realpath: string -> string, k: nat)
    requires k < |Links|
    ensures var before, link := ScanTo(present, realpath, k), Links[k];
      ScanTo(present, realpath, k + 1) ==
        if present(link) && realpath(link) !in before then before + [realpath(link)] else before
  {
  }

  /**
   * What the scan lists: the existing numbered drives first and in order, each drive once,
   * at most one more per link, and exactly the existing numbered drives and link targets.
   */
  lemma {:induction false} ScanToShape(present: string -> bool, realpath: string -> string, k: nat)
    requires k <= |Links|
    ensures Filter(SrDevices, present) <= ScanTo(present, realpath, k)
    ensures |ScanTo(present, realpath, k)| <= |Filter(SrDevices, present)| + k
    ensures Distinct(ScanTo(present, realpath, k))
    ensures forall x :: x in ScanTo(present, realpath, k) <==>
      (x in SrDevices && present(x)) || x in Targets(present, realpath, k)
  {
    if k == 0 {
      SrDevicesDistinct();
      FilterDistinct(SrDevices, present);
      forall x ensures x in Filter(SrDevices, present) <==> x in SrDevices && present(x) {
        if x in SrDevices && present(x) {
          assert x in Filter(SrDevices, present);
        }
      }
    } else {
      ScanToShape(present, realpath, k - 1);
      var link := Links[k - 1];
      AddTarget(Filter(SrDevices, present), ScanTo(present, realpath, k - 1), Targets(present, realpath, k - 1),
        present(link), realpath(link), k - 1, x => x in SrDevices && present(x));
    }
  }

  /** One link step of the scan keeps the shape `ScanToShape` describes. */
  lemma AddTarget(base: seq<string>, before: seq<string>, targets: seq<string>, found: bool, t: string,
                  n: nat, listed: string -> bool)
    requires base <= before && |before| <= |base| + n && Distinct(before)
    requires forall x :: x in before <==> listed(x) || x in targets
    ensures var after := if found && t !in before then before + [t] else before;
      base <= after && |after| <= |base| + n + 1 && Distinct(after) &&
      forall x :: x in after <==> listed(x) || x in targets + (if found then [t] else [])
  {
    if found && t !in before {
      DistinctSnoc(before, t);
    }
  }

  /** Filtering a list without repeats leaves a list without repeats. */
  lemma {:induction false} FilterDistinct(s: seq<string>, p: string -> bool)
    requires Distinct(s)
    ensures Distinct(Filter(s, p))
    decreases |s|
  {
    if s != [] {
      var init, x := s[..|s| - 1], s[|s| - 1];
      assert Distinct(init);
      FilterDistinct(init, p);
      if p(x) {
        assert x !in Filter(init, p) by {
          assert x !in init;
        }
        DistinctSnoc(Filter(init, p), x);
      }
    }
  }

  /** The second loop's body: an existing link's target is added unless it is listed. */
  method AddLink(drives: seq<string>, link: string, present: string -> bool, realpath: string -> string)
    returns (r: seq<string>)
    ensures r == if present(link) && realpath(link) !in drives then drives + [realpath(link)] else drives
  {
    r := drives;
    if present(link) {
      var target := realpath(link);
      if target !in drives {
        r := drives + [target];
      }
    }
  }

  /**
   * `detect_drives_by_scan`: the existing `/dev/sr0`..`/dev/sr3` in order, then the targets
   * of `/dev/cdrom` and `/dev/dvd` that exist and are not listed yet. Which paths exist and
   * where links lead are inputs.
   */
  method DetectDrivesByScan(present: string -> bool, realpath: string -> string) returns (drives: seq<string>)
    ensures drives == ScanTo(present, realpath, |Links|)
    ensures Filter(SrDevices, present) <= drives
    ensures |drives| <= |Filter(SrDevices, present)| + |Links|
    ensures Distinct(drives)
    ensures forall x :: x in drives <==> (x in SrDevices && present(x)) || x in Targets(present, realpath, |Links|)
  {
    drives := ScanSr(present);
    var k := 0;
    while k < |Links|
      invariant 0 <= k <= |Links|
      invariant drives == ScanTo(present, realpath, k)
    {
      ScanToNext(present, realpath, k);
      drives := AddLink(drives, Links[k], present, realpath);
      k := k + 1;
    }
    ScanToShape(present, realpath, |Links|);
  }
}
