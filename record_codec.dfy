/**
 * The text form of a time record, `"<timestamp> - <client> - <activity>: <duration>"`,
 * and its reading back by three first-occurrence splits: at `" - "`, again
 * at `" - "` in the remainder, then at `": "`.
 */
module RecordCodec {
  import opened Wrappers
  import opened Text

  datatype Record = Record(timestamp: string, client: string, activity: string, duration: string)

  /** The line `stop_timer` inserts into the record list. */
  function Encode(r: Record): string {
    r.timestamp + " - " + r.client + " - " + r.activity + ": " + r.duration
  }

  /** The per-line parse of the export and save loops; `None` is the `ValueError`. */
  function Decode(line: string): Option<Record> {
    match SplitOnce(line, " - ")
    case None => None
    case Some((timestamp, rest)) =>
      match SplitOnce(rest, " - ")
      case None => None
      case Some((client, rest')) =>
        match SplitOnce(rest', ": ")
        case None => None
        case Some((activity, duration)) => Some(Record(timestamp, client, activity, duration))
  }

  /**
   * The fields survive the round trip: neither the timestamp nor the client
   * can be cut early at `" - "`, and the activity cannot be cut at `": "`.
   * The duration is unconstrained.
   */
  ghost predicate Separable(r: Record) {
    DashSafe(r.timestamp) && DashSafe(r.client) && ColonSafe(r.activity)
  }

  lemma EncodeAssociates(r: Record)
    ensures Encode(r) == r.timestamp + " - " + (r.client + " - " + (r.activity + ": " + r.duration))
  {
  }

  /** The decoded record of a line that was split as `a - b - c: d`. */
  lemma DecodeParts(line: string)
    requires Decode(line).Some?
    ensures var r := Decode(line).value;
      && line == r.timestamp + " - " + (r.client + " - " + (r.activity + ": " + r.duration))
      && NoOccurrenceBefore(line, " - ", |r.timestamp|)
      && NoOccurrenceBefore(r.client + " - " + (r.activity + ": " + r.duration), " - ", |r.client|)
      && NoOccurrenceBefore(r.activity + ": " + r.duration, ": ", |r.activity|)
  {
  }

  /**
   * What follows the timestamp, with `" - "` at `k2` and `": "` at `k3`
   * after it, passes the second and third splits.
   */
  lemma RestSucceedsWith(rest: string, k2: int, k3: int)
    requires OccursAt(rest, " - ", k2) && OccursAt(rest, ": ", k3) && k2 + 3 <= k3
    ensures SplitOnce(rest, " - ").Some?
    ensures SplitOnce(SplitOnce(rest, " - ").value.1, ": ").Some?
  {
    SplitOnceFirst(rest, " - ", k2);
    var split := SplitOnce(rest, " - ").value;
    SplitOnceKeepsLater(rest, " - ", ": ", k3);
    SplitOnceFirst(split.1, ": ", k3 - |split.0| - 3);
  }

  /**
   * A line with `" - "` at `k1`, `" - "` again at `k2` and `": "` at `k3`,
   * none overlapping and in that order, is accepted.
   */
  lemma DecodeSucceedsWith(line: string, k1: int, k2: int, k3: int)
    requires OccursAt(line, " - ", k1) && OccursAt(line, " - ", k2) && OccursAt(line, ": ", k3)
    requires k1 + 3 <= k2 && k2 + 3 <= k3
    ensures Decode(line).Some?
  {
    SplitOnceFirst(line, " - ", k1);
    var split := SplitOnce(line, " - ").value;
    SplitOnceKeepsLater(line, " - ", " - ", k2);
    SplitOnceKeepsLater(line, " - ", ": ", k3);
    RestSucceedsWith(split.1, k2 - |split.0| - 3, k3 - |split.0| - 3);
  }

  /** Decoding an encoded record always succeeds, whatever its fields hold. */
  lemma DecodeEncodeSucceeds(r: Record)
    ensures Decode(Encode(r)).Some?
  {
    var tail := r.activity + ": " + r.duration;
    var rest := r.client + " - " + tail;
    EncodeAssociates(r);
    OccursJoined(r.activity, ": ", r.duration);
    OccursJoined(r.client, " - ", tail);
    OccursInSuffix(r.client + " - ", tail, ": ", |r.activity|);
    OccursJoined(r.timestamp, " - ", rest);
    OccursInSuffix(r.timestamp + " - ", rest, " - ", |r.client|);
    OccursInSuffix(r.timestamp + " - ", rest, ": ", |r.client| + 3 + |r.activity|);
    var k2 := |r.timestamp| + 3 + |r.client|;
    DecodeSucceedsWith(Encode(r), |r.timestamp|, k2, k2 + 3 + |r.activity|);
  }

  /** Decoding an encoded record gives it back exactly when it is separable. */
  lemma DecodeEncode(r: Record)
    ensures Decode(Encode(r)) == Some(r) <==> Separable(r)
  {
    var tail := r.activity + ": " + r.duration;
    var rest := r.client + " - " + tail;
    EncodeAssociates(r);
    SplitOnceJoined(r.timestamp, " - ", rest);
    DashSafeIff(r.timestamp, rest);
    SplitOnceJoined(r.client, " - ", tail);
    DashSafeIff(r.client, tail);
    SplitOnceJoined(r.activity, ": ", r.duration);
    ColonSafeIff(r.activity, r.duration);
    if Decode(Encode(r)) == Some(r) {
      DecodeParts(Encode(r));
    }
  }

  /**
   * Whatever line decodes is the encoding of what it decodes to, and what
   * it decodes to is separable.
   */
  lemma EncodeDecode(line: string)
    requires Decode(line).Some?
    ensures Encode(Decode(line).value) == line
    ensures Separable(Decode(line).value)
  {
    var r := Decode(line).value;
    DecodeParts(line);
    EncodeAssociates(r);
    DashSafeIff(r.timestamp, r.client + " - " + (r.activity + ": " + r.duration));
    DashSafeIff(r.client, r.activity + ": " + r.duration);
    ColonSafeIff(r.activity, r.duration);
  }

  /** A line is rejected exactly when it is not the encoding of any record. */
  lemma DecodeFailsIff(line: string)
    ensures Decode(line).None? <==> forall r :: Encode(r) != line
  {
    if Decode(line).Some? {
      EncodeDecode(line);
    } else {
      forall r
        ensures Encode(r) != line
      {
        DecodeEncodeSucceeds(r);
      }
    }
  }

  /** A line that decodes holds `" - "` right after its timestamp. */
  lemma DecodedHasDash(line: string)
    requires Decode(line).Some?
    ensures Contains(line, " - ")
  {
    var r := Decode(line).value;
    DecodeParts(line);
    OccursJoined(r.timestamp, " - ", r.client + " - " + (r.activity + ": " + r.duration));
  }

  /** A line that decodes holds `": "` right after its activity. */
  lemma DecodedHasColon(line: string)
    requires Decode(line).Some?
    ensures Contains(line, ": ")
  {
    var r := Decode(line).value;
    var tail := r.activity + ": " + r.duration;
    var rest := r.client + " - " + tail;
    DecodeParts(line);
    OccursJoined(r.activity, ": ", r.duration);
    OccursInSuffix(r.client + " - ", tail, ": ", |r.activity|);
    OccursInSuffix(r.timestamp + " - ", rest, ": ", |r.client| + 3 + |r.activity|);
  }

  /** A line with no `" - "`, or with no `": "`, is rejected. */
  lemma DecodeNeedsSeparators(line: string)
    ensures !Contains(line, " - ") ==> Decode(line).None?
    ensures !Contains(line, ": ") ==> Decode(line).None?
  {
    if Decode(line).Some? {
      DecodedHasDash(line);
      DecodedHasColon(line);
    }
  }

  /**
   * A line whose part after a well-formed timestamp has no second `" - "`
   * is rejected.
   */
  lemma DecodeMissingSecondSeparator(timestamp: string, rest: string)
    requires DashSafe(timestamp) && !Contains(rest, " - ")
    ensures Decode(timestamp + " - " + rest).None?
  {
    DashSafeIff(timestamp, rest);
    SplitOnceJoined(timestamp, " - ", rest);
  }

  /** The line `"2024-01-01 10:00:00 - Sarah Other 1:00:000"` is rejected. */
  lemma DecodeMissingSecondSeparatorExample()
    ensures Decode("2024-01-01 10:00:00 - Sarah Other 1:00:000").None?
  {
    var timestamp, rest := "2024-01-01 10:00:00", "Sarah Other 1:00:000";
    assert "2024-01-01 10:00:00 - Sarah Other 1:00:000" == timestamp + " - " + rest;
    NoSpaceHyphenIsDashSafe(timestamp);
    NoHyphenIsDashSafe(rest);
    DecodeMissingSecondSeparator(timestamp, rest);
  }

  /**
   * A custom activity that contains `": "` is cut there on the way back:
   * the rest of it moves into the duration.
   */
  lemma ColonInActivityMisparses(timestamp: string)
    requires DashSafe(timestamp)
    ensures Decode(Encode(Record(timestamp, "Sarah", "Break: lunch", "0:05:000")))
         == Some(Record(timestamp, "Sarah", "Break", "lunch: 0:05:000"))
  {
    var wrong := Record(timestamp, "Sarah", "Break", "lunch: 0:05:000");
    assert Encode(Record(timestamp, "Sarah", "Break: lunch", "0:05:000")) == Encode(wrong);
    NoHyphenIsDashSafe("Sarah");
    NoColonIsColonSafe("Break");
    DecodeEncode(wrong);
  }
}
