/**
 * The tracker behind riparr's dashboard (`riparr.tui.status`): the current rip and encode
 * records, the encode queue shown, and the ten most recent events. The clock is a
 * parameter (`now` for start times, `clock` for the `HH:MM:SS` stamp of an event), and the
 * update callback is counted rather than called.
 */
module Status {
  import opened Wrappers
  import opened Strings
  import opened Lists

  datatype TaskState = Idle | Active | Complete | Failed

  /** A rip in progress; the progress percentage is a real number. */
  datatype RipStatus = RipStatus(
    state: TaskState,
    device: string,
    discName: string,
    currentTitle: int,
    totalTitles: int,
    progress: real,
    startedAt: Option<int>,
    error: Option<string>)

  datatype EncodeStatus = EncodeStatus(
    state: TaskState,
    filename: string,
    progress: real,
    fps: real,
    eta: string,
    startedAt: Option<int>,
    error: Option<string>)

  datatype QueuedItem = QueuedItem(name: string, sizeStr: string, status: string, createdAt: int)

  const IdleRip := RipStatus(Idle, "", "", 0, 0, 0.0, None, None)

  const IdleEncode := EncodeStatus(Idle, "", 0.0, 0.0, "", None, None)

  /** How many events the tracker keeps. */
  const MaxEvents := 10

  /** `title_progress`: `—` before the number of titles is known, else `current/total`. */
  function TitleProgress(r: RipStatus): (s: string)
    ensures r.totalTitles == 0 <==> s == "—"
  {
    if r.totalTitles == 0 then "—"
    else
      var c := IntToString(r.currentTitle);
      var s := c + "/" + IntToString(r.totalTitles);
      assert s[|c|] == '/' && '/' !in "—";
      s
  }

  /** The progress text splits at `/` into the two numbers, which read back as current and total. */
  lemma TitleProgressFields(r: RipStatus)
    requires r.totalTitles != 0
    ensures var f := Split(TitleProgress(r), '/');
      |f| == 2 && ParseInt(f[0]) == Some(r.currentTitle) && ParseInt(f[1]) == Some(r.totalTitles)
  {
    var c, t := IntToString(r.currentTitle), IntToString(r.totalTitles);
    assert '/' !in c && '/' !in t by {
      assert forall i :: 0 <= i < |c| ==> c[i] != '/';
      assert forall i :: 0 <= i < |t| ==> t[i] != '/';
    }
    SplitAfterPiece(c, '/', t);
    SplitNoSeparator(t, '/');
    IntToStringRoundTrip(r.currentTitle);
    IntToStringRoundTrip(r.totalTitles);
  }

  /** One event line: the dimmed clock stamp, then the message. */
  function EventLine(clock: string, message: string): string
  {
    "[dim]" + clock + "[/] " + message
  }

  /** `add_event` on the list: append the newest, then drop the oldest if there are more than ten. */
  function WithEvent(events: seq<string>, e: string): (r: seq<string>)
    ensures |events| <= MaxEvents ==> |r| <= MaxEvents
    ensures 0 < |r| <= |events| + 1 && r[|r| - 1] == e
    ensures r == (events + [e])[|events| + 1 - |r|..]
  {
    var s := events + [e];
    if |s| > MaxEvents then s[1..] else s
  }

  /** Adding events one by one to a list of at most ten keeps the last ten of all of them, in order. */
  function WithEvents(events: seq<string>, es: seq<string>): seq<string>
    decreases |es|
  {
    if es == [] then events else WithEvents(WithEvent(events, es[0]), es[1..])
  }

  function LastTen(s: seq<string>): (r: seq<string>)
    ensures |r| <= MaxEvents
  {
    if |s| > MaxEvents then s[|s| - MaxEvents..] else s
  }

  lemma {:induction false} WithEventsLastTen(events: seq<string>, es: seq<string>)
    requires |events| <= MaxEvents
    ensures WithEvents(events, es) == LastTen(events + es)
    decreases |es|
  {
    if es == [] {
      assert events + es == events;
    } else {
      var e := WithEvent(events, es[0]);
      WithEventsLastTen(e, es[1..]);
      var s := events + [es[0]];
      var all := events + es;
      HeadTail(es);
      AppendAssoc(events, [es[0]], es[1..]);
      assert all == s + es[1..];
      if |s| > MaxEvents {
        TailAppend(s, es[1..]);
        LastTenTail(all);
      }
    }
  }

  /** The last ten of a list of more than ten do not depend on its first element. */
  lemma LastTenTail(s: seq<string>)
    requires |s| > MaxEvents
    ensures LastTen(s[1..]) == LastTen(s)
  {
    assert s[1..][|s| - 1 - MaxEvents..] == s[|s| - MaxEvents..];
  }

  class StatusTracker {
    var rip: RipStatus
    var encode: EncodeStatus
    var queue: seq<QueuedItem>
    var recentEvents: seq<string>
    var notifications: nat

    /** At most ten events are kept. */
    ghost predicate Valid()
      reads this
    {
      |recentEvents| <= MaxEvents
    }

    constructor()
      ensures rip == IdleRip && encode == IdleEncode && queue == [] && recentEvents == [] && notifications == 0
      ensures Valid()
    {
      rip := IdleRip;
      encode := IdleEncode;
      queue := [];
      recentEvents := [];
      notifications := 0;
    }

    /** `_notify`. */
    method Notify()
      modifies this
      ensures notifications == old(notifications) + 1
      ensures rip == old(rip) && encode == old(encode) && queue == old(queue) && recentEvents == old(recentEvents)
    {
      notifications := notifications + 1;
    }

    /** `add_event`: the stamped message is the newest of at most ten events. */
    method AddEvent(message: string, clock: string)
      modifies this
      ensures recentEvents == WithEvent(old(recentEvents), EventLine(clock, message))
      ensures rip == old(rip) && encode == old(encode) && queue == old(queue)
      ensures notifications == old(notifications) + 1
      ensures old(Valid()) ==> Valid()
    {
      recentEvents := recentEvents + [EventLine(clock, message)];
      if |recentEvents| > MaxEvents {
        recentEvents := recentEvents[1..];
      }
      Notify();
    }

    /** `start_rip`: a fresh active record for the disc, and one event. */
    method StartRip(device: string, discName: string, totalTitles: int, now: int, clock: string)
      modifies this
      ensures rip == RipStatus(Active, device, discName, 0, totalTitles, 0.0, Some(now), None)
      ensures recentEvents == WithEvent(old(recentEvents), EventLine(clock, "[green]Started ripping[/] " + discName))
      ensures encode == old(encode) && queue == old(queue) && notifications == old(notifications) + 1
      ensures old(Valid()) ==> Valid()
    {
      rip := RipStatus(Active, device, discName, 0, totalTitles, 0.0, Some(now), None);
      AddEvent("[green]Started ripping[/] " + discName, clock);
    }

    /** `update_rip`: only the current title and the progress change. */
    method UpdateRip(title: int, progress: real)
      modifies this
      ensures rip == old(rip).(currentTitle := title, progress := progress)
      ensures encode == old(encode) && queue == old(queue) && recentEvents == old(recentEvents)
      ensures notifications == old(notifications) + 1
    {
      rip := rip.(currentTitle := title, progress := progress);
      Notify();
    }

    /** `complete_rip`: complete at 100 per cent, the disc name kept and named in one event. */
    method CompleteRip(clock: string)
      modifies this
      ensures rip == old(rip).(state := Complete, progress := 100.0)
      ensures recentEvents == WithEvent(old(recentEvents), EventLine(clock, "[green]Completed ripping[/] " + old(rip.discName)))
      ensures encode == old(encode) && queue == old(queue) && notifications == old(notifications) + 1
      ensures old(Valid()) ==> Valid()
    {
      var discName := rip.discName;
      rip := rip.(state := Complete, progress := 100.0);
      AddEvent("[green]Completed ripping[/] " + discName, clock);
    }

    /** `fail_rip`: failed with the error, every other field as it was. */
    method FailRip(error: string, clock: string)
      modifies this
      ensures rip == old(rip).(state := Failed, error := Some(error))
      ensures recentEvents == WithEvent(old(recentEvents), EventLine(clock, "[red]Rip failed:[/] " + error))
      ensures encode == old(encode) && queue == old(queue) && notifications == old(notifications) + 1
      ensures old(Valid()) ==> Valid()
    {
      rip := rip.(state := Failed, error := Some(error));
      AddEvent("[red]Rip failed:[/] " + error, clock);
    }

    /** `clear_rip`: back to the idle defaults. */
    method ClearRip()
      modifies this
      ensures rip == IdleRip
      ensures encode == old(encode) && queue == old(queue) && recentEvents == old(recentEvents)
      ensures notifications == old(notifications) + 1
    {
      rip := IdleRip;
      Notify();
    }

    /** `start_encode`: a fresh active record for the file, and one event. */
    method StartEncode(filename: string, now: int, clock: string)
      modifies this
      ensures encode == EncodeStatus(Active, filename, 0.0, 0.0, "", Some(now), None)
      ensures recentEvents == WithEvent(old(recentEvents), EventLine(clock, "[blue]Started encoding[/] " + filename))
      ensures rip == old(rip) && queue == old(queue) && notifications == old(notifications) + 1
      ensures old(Valid()) ==> Valid()
    {
      encode := EncodeStatus(Active, filename, 0.0, 0.0, "", Some(now), None);
      AddEvent("[blue]Started encoding[/] " + filename, clock);
    }

    /** `update_encode`: only progress, frame rate and time left change. */
    method UpdateEncode(progress: real, fps: real, eta: string)
      modifies this
      ensures encode == old(encode).(progress := progress, fps := fps, eta := eta)
      ensures rip == old(rip) && queue == old(queue) && recentEvents == old(recentEvents)
      ensures notifications == old(notifications) + 1
    {
      encode := encode.(progress := progress, fps := fps, eta := eta);
      Notify();
    }

    /** `complete_encode`: complete at 100 per cent, the file name kept and named in one event. */
    method CompleteEncode(clock: string)
      modifies this
      ensures encode == old(encode).(state := Complete, progress := 100.0)
      ensures recentEvents == WithEvent(old(recentEvents), EventLine(clock, "[green]Completed encoding[/] " + old(encode.filename)))
      ensures rip == old(rip) && queue == old(queue) && notifications == old(notifications) + 1
      ensures old(Valid()) ==> Valid()
    {
      var filename := encode.filename;
      encode := encode.(state := Complete, progress := 100.0);
      AddEvent("[green]Completed encoding[/] " + filename, clock);
    }

    /** `fail_encode`: failed with the error, every other field as it was. */
    method FailEncode(error: string, clock: string)
      modifies this
      ensures encode == old(encode).(state := Failed, error := Some(error))
      ensures recentEvents == WithEvent(old(recentEvents), EventLine(clock, "[red]Encode failed:[/] " + error))
      ensures rip == old(rip) && queue == old(queue) && notifications == old(notifications) + 1
      ensures old(Valid()) ==> Valid()
    {
      encode := encode.(state := Failed, error := Some(error));
      AddEvent("[red]Encode failed:[/] " + error, clock);
    }

    /** `clear_encode`: back to the idle defaults. */
    method ClearEncode()
      modifies this
      ensures encode == IdleEncode
      ensures rip == old(rip) && queue == old(queue) && recentEvents == old(recentEvents)
      ensures notifications == old(notifications) + 1
    {
      encode := IdleEncode;
      Notify();
    }

    /** `update_queue`: the shown queue is replaced. */
    method UpdateQueue(items: seq<QueuedItem>)
      modifies this
      ensures queue == items
      ensures rip == old(rip) && encode == old(encode) && recentEvents == old(recentEvents)
      ensures notifications == old(notifications) + 1
    {
      queue := items;
      Notify();
    }
  }
}
