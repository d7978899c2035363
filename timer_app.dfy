/**
 * The stopwatch of the time-tracking window and the record it leaves.
 *
 * The wall clock is an input: every reading of `time.time()` is an
 * integer number of milliseconds passed to the method that takes it, and
 * each `root.after(10, update_timer)` expiry is an explicit `UpdateTimer`
 * call. The readings never go back; the ghost field `clock` holds the
 * latest one so that the methods can demand it.
 */
module TimerApp {
  import opened Wrappers
  import opened Text
  import opened TimeFormat
  import opened Timestamps
  import opened RecordCodec
  import opened RecordStore

  /** The client combobox's fixed choices. */
  const Clients: seq<string> := ["Mustard", "Musango", "Mousssee", "Trepadora", "Sarah"]

  /** The activity radio buttons. */
  const Activities: seq<string> := ["Packing", "Work", "Other"]

  /** The radio choice whose custom text replaces it. */
  const OtherActivity: string := "Other"

  /** What the widgets hold when the timer is stopped. */
  datatype Selection = Selection(client: string, activity: string, customText: string)

  /**
   * A selection the widgets can produce: the combobox is read-only and the
   * radio buttons carry fixed values.
   */
  predicate Offered(sel: Selection) {
    sel.client in Clients && sel.activity in Activities
  }

  /**
   * The activity written into the record: the radio value, except that
   * "Other" is replaced by the custom text, or stays "Other" when that text
   * is empty.
   */
  function ResolveActivity(choice: string, customText: string): (a: string)
    ensures choice != OtherActivity ==> a == choice
    ensures choice == OtherActivity && customText != "" ==> a == customText
    ensures choice == OtherActivity && customText == "" ==> a == OtherActivity
  {
    if choice == OtherActivity then
      if customText == "" then OtherActivity else customText
    else choice
  }

  /** The record `stop_timer` writes for this selection, time and duration. */
  function StopRecord(now: DateTime, sel: Selection, elapsed: int): Record {
    Record(Strftime(now), sel.client, ResolveActivity(sel.activity, sel.customText), FormatTime(elapsed))
  }

  lemma ClientsAreDashSafe(client: string)
    requires client in Clients
    ensures DashSafe(client)
  {
    NoHyphenIsDashSafe(client);
  }

  lemma ActivitiesAreColonSafe(activity: string)
    requires activity in Activities
    ensures ColonSafe(activity)
  {
    NoColonIsColonSafe(activity);
  }

  /**
   * A record written by the stopwatch from an offered selection reads back
   * unchanged exactly when its activity holds no `": "`; only a custom
   * activity can break the round trip.
   */
  lemma StopRecordRoundTrip(now: DateTime, sel: Selection, elapsed: int)
    requires sel.client in Clients
    ensures var r := StopRecord(now, sel, elapsed);
      Decode(Encode(r)) == Some(r) <==> ColonSafe(r.activity)
  {
    StrftimeIsDashSafe(now);
    ClientsAreDashSafe(sel.client);
    DecodeEncode(StopRecord(now, sel, elapsed));
  }

  /** With a standard activity, or a custom one free of `": "`, the record reads back unchanged. */
  lemma OfferedStopRecordRoundTrips(now: DateTime, sel: Selection, elapsed: int)
    requires Offered(sel) && ColonSafe(sel.customText)
    ensures Decode(Encode(StopRecord(now, sel, elapsed))) == Some(StopRecord(now, sel, elapsed))
  {
    ActivitiesAreColonSafe(sel.activity);
    StopRecordRoundTrip(now, sel, elapsed);
  }

  /** The custom activity "Break: lunch" does not read back as written. */
  lemma CustomActivityBreaksRoundTrip(now: DateTime)
    ensures var r := StopRecord(now, Selection("Sarah", OtherActivity, "Break: lunch"), 300000);
      Decode(Encode(r)) != Some(r)
  {
    var r := StopRecord(now, Selection("Sarah", OtherActivity, "Break: lunch"), 300000);
    assert r.activity == "Break: lunch";
    assert OccursAt(r.activity, ": ", 5);
    StopRecordRoundTrip(now, Selection("Sarah", OtherActivity, "Break: lunch"), 300000);
  }

  class Stopwatch {
    var isRunning: bool
    /** `start_time`; `None` until the first start. */
    var startTime: Option<int>
    /** `elapsed_time`, in milliseconds, as of the last tick. */
    var elapsed: int
    /** The text of the time display. */
    var display: string
    /** The latest clock reading any method was given. */
    ghost var clock: int
    /** The records list box. */
    const records: RecordList

    /**
     * The running stopwatch's elapsed time is the latest reading minus the
     * start, and the display always shows the elapsed time.
     */
    ghost predicate Valid()
      reads this
    {
      && elapsed >= 0
      && display == FormatTime(elapsed)
      && (isRunning ==> startTime.Some? && elapsed == clock - startTime.value)
    }

    /** The window as built: stopped, nothing elapsed, display "0:00:000", no records. */
    constructor(ghost now: int)
      ensures Valid()
      ensures !isRunning && startTime.None? && elapsed == 0 && display == InitialLabel
      ensures clock == now
      ensures fresh(records) && records.lines == []
    {
      isRunning := false;
      startTime := None;
      elapsed := 0;
      display := InitialLabel;
      clock := now;
      records := new RecordList();
      InitialLabelIsZero();
    }

    /**
     * `update_timer`, one tick: while running, read the clock and recompute
     * the elapsed time from the start; when stopped, do nothing (and read
     * nothing).
     */
    method UpdateTimer(now: int)
      requires Valid() && now >= clock
      modifies this
      ensures Valid()
      ensures isRunning == old(isRunning) && startTime == old(startTime)
      ensures old(isRunning) ==> elapsed == now - startTime.value && clock == now
      ensures old(isRunning) ==> elapsed >= old(elapsed)
      ensures !old(isRunning) ==> elapsed == old(elapsed) && display == old(display) && clock == old(clock)
    {
      if isRunning {
        clock := now;
        elapsed := now - startTime.value;
        display := FormatTime(elapsed);
      }
    }

    /**
     * `start_timer`: read the clock for the start (`now`), then tick at once
     * (`tickNow`, the second reading). Whatever elapsed before is dropped.
     */
    method StartTimer(now: int, tickNow: int)
      requires Valid() && clock <= now <= tickNow
      modifies this
      ensures Valid()
      ensures isRunning && startTime == Some(now)
      ensures elapsed == tickNow - now && clock == tickNow
    {
      isRunning := true;
      startTime := Some(now);
      // the immediate `update_timer` call, now running
      clock := tickNow;
      elapsed := tickNow - startTime.value;
      display := FormatTime(elapsed);
    }

    /**
     * `stop_timer`: stop, and append the record of the current selection
     * whose duration is the elapsed time of the last tick (the display's text);
     * no new clock reading is taken for it. `now` is the wall-clock date
     * and time stamped on the record.
     */
    method StopTimer(now: DateTime, sel: Selection)
      requires Valid()
      modifies this, records
      ensures Valid()
      ensures !isRunning
      ensures startTime == old(startTime) && elapsed == old(elapsed) && display == old(display)
      ensures clock == old(clock)
      ensures records.lines == old(records.lines) + [Encode(StopRecord(now, sel, old(elapsed)))]
      ensures StopRecord(now, sel, old(elapsed)).duration == old(display)
    {
      isRunning := false;
      var duration := FormatTime(elapsed);
      var activity := ResolveActivity(sel.activity, sel.customText);
      var timestamp := Strftime(now);
      records.Insert(Encode(Record(timestamp, sel.client, activity, duration)));
    }

    /**
     * `toggle_timer`: stop when running, start when stopped. Only stopping
     * writes a record, so the records grow by one on every second press.
     */
    method ToggleTimer(now: int, tickNow: int, stamp: DateTime, sel: Selection)
      requires Valid() && clock <= now <= tickNow
      modifies this, records
      ensures Valid()
      ensures isRunning == !old(isRunning)
      ensures !old(isRunning) ==> startTime == Some(now) && elapsed == tickNow - now
      ensures !old(isRunning) ==> records.lines == old(records.lines)
      ensures old(isRunning) ==> elapsed == old(elapsed)
      ensures old(isRunning) ==>
        records.lines == old(records.lines) + [Encode(StopRecord(stamp, sel, old(elapsed)))]
    {
      if isRunning {
        StopTimer(stamp, sel);
      } else {
        StartTimer(now, tickNow);
      }
    }

    /** `delete_record` on the records list box. */
    method DeleteRecord(selection: Option<nat>)
      requires Valid()
      modifies records
      ensures Valid()
      ensures records.lines == DeleteSelected(old(records.lines), selection)
    {
      var _ := records.DeleteRecord(selection);
    }
  }

  /**
   * A session: start at 1000 ms (first tick at the same instant), tick at
   * 62500 ms, stop with Sarah / Packing; the list then holds one line, and
   * it reads back as the record with duration "1:01:500".
   */
  method Session(stamp: DateTime) returns (lines: seq<string>, row: Option<Record>)
    ensures |lines| == 1
    ensures row == Decode(lines[0])
    ensures row == Some(Record(Strftime(stamp), "Sarah", "Packing", "1:01:500"))
  {
    var sel := Selection("Sarah", "Packing", "");
    var watch := new Stopwatch(0);
    watch.ToggleTimer(1000, 1000, stamp, sel);
    watch.UpdateTimer(62500);
    watch.ToggleTimer(62500, 62500, stamp, sel);
    lines := watch.records.lines;
    row := Decode(lines[0]);
    FormatTimeExamples();
    NoColonIsColonSafe("");
    OfferedStopRecordRoundTrips(stamp, sel, 61500);
  }
}
