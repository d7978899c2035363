/**
 * The loops of the export and the save-to-database actions over a snapshot
 * of the record list: each line is decoded, a malformed line is reported
 * and skipped (`continue`), and every other line becomes one row, in
 * order. Saving then either stops with "No data to save" or issues one
 * insert per row, each tagged with the warehouse.
 */
module RecordBatch {
  import opened Wrappers
  import opened Text
  import opened RecordCodec

  /** The values held by the `Some` entries of `opts`, in order. */
  function Somes<T>(opts: seq<Option<T>>): seq<T> {
    if opts == [] then []
    else
      var last := opts[|opts| - 1];
      Somes(opts[..|opts| - 1]) + (if last.Some? then [last.value] else [])
  }

  /** The positions of the `Some` entries of `opts`, in increasing order. */
  ghost function SomeIndices<T>(opts: seq<Option<T>>): seq<nat> {
    if opts == [] then []
    else
      var last := |opts| - 1;
      SomeIndices(opts[..last]) + (if opts[last].Some? then [last] else [])
  }

  /** Collecting over two consecutive stretches collects each in turn. */
  lemma {:induction false} SomesAppend<T>(a: seq<Option<T>>, b: seq<Option<T>>)
    ensures Somes(a + b) == Somes(a) + Somes(b)
    decreases |b|
  {
    if b == [] {
      assert a + b == a;
    } else {
      var init := b[..|b| - 1];
      assert (a + b)[..|a + b| - 1] == a + init;
      assert (a + b)[|a + b| - 1] == b[|b| - 1];
      SomesAppend(a, init);
    }
  }

  /**
   * One value per `Some` entry, in the entries' relative order, and no value
   * from a `None` entry.
   */
  lemma {:induction false} SomesOrder<T>(opts: seq<Option<T>>)
    ensures |SomeIndices(opts)| == |Somes(opts)|
    ensures forall k :: 0 <= k < |SomeIndices(opts)| ==>
      SomeIndices(opts)[k] < |opts| && opts[SomeIndices(opts)[k]] == Some(Somes(opts)[k])
    ensures forall k1, k2 :: 0 <= k1 < k2 < |SomeIndices(opts)| ==>
      SomeIndices(opts)[k1] < SomeIndices(opts)[k2]
    ensures forall j :: 0 <= j < |opts| ==> (opts[j].Some? <==> j in SomeIndices(opts))
    decreases |opts|
  {
    if opts != [] {
      var last := |opts| - 1;
      var init := opts[..last];
      SomesOrder(init);
      assert forall j :: 0 <= j < last ==> init[j] == opts[j];
    }
  }

  /** Nothing is collected exactly when every entry is `None`. */
  lemma SomesEmptyIff<T>(opts: seq<Option<T>>)
    ensures Somes(opts) == [] <==> forall j :: 0 <= j < |opts| ==> opts[j].None?
  {
    SomesOrder(opts);
    if Somes(opts) != [] {
      assert opts[SomeIndices(opts)[0]].Some?;
    }
  }

  /** Taking one more entry adds its value, if it has one. */
  lemma SomesSnoc<T>(opts: seq<Option<T>>, i: nat)
    requires i < |opts|
    ensures Somes(opts[..i + 1]) == Somes(opts[..i]) + (if opts[i].Some? then [opts[i].value] else [])
  {
    assert opts[..i + 1][..i] == opts[..i];
  }

  /** The per-line outcome of the parse, line by line. */
  function DecodeAll(lines: seq<string>): (opts: seq<Option<Record>>)
    ensures |opts| == |lines|
  {
    seq(|lines|, j requires 0 <= j < |lines| => Decode(lines[j]))
  }

  /** The rows collected from `lines`, in order, malformed lines left out. */
  function DecodeBatch(lines: seq<string>): seq<Record> {
    Somes(DecodeAll(lines))
  }

  /** The positions of the lines that decode, in increasing order. */
  ghost function ValidIndices(lines: seq<string>): seq<nat> {
    SomeIndices(DecodeAll(lines))
  }

  /** Collecting over two consecutive stretches of lines collects each in turn. */
  lemma DecodeBatchAppend(a: seq<string>, b: seq<string>)
    ensures DecodeBatch(a + b) == DecodeBatch(a) + DecodeBatch(b)
  {
    assert DecodeAll(a + b) == DecodeAll(a) + DecodeAll(b);
    SomesAppend(DecodeAll(a), DecodeAll(b));
  }

  /**
   * The rows are exactly the decodings of the valid lines, one row per
   * valid line, in the lines' relative order; no invalid line contributes.
   */
  lemma DecodeBatchOrder(lines: seq<string>)
    ensures |ValidIndices(lines)| == |DecodeBatch(lines)|
    ensures forall k :: 0 <= k < |ValidIndices(lines)| ==>
      ValidIndices(lines)[k] < |lines| && Decode(lines[ValidIndices(lines)[k]]) == Some(DecodeBatch(lines)[k])
    ensures forall k1, k2 :: 0 <= k1 < k2 < |ValidIndices(lines)| ==>
      ValidIndices(lines)[k1] < ValidIndices(lines)[k2]
    ensures forall j :: 0 <= j < |lines| ==> (Decode(lines[j]).Some? <==> j in ValidIndices(lines))
  {
    SomesOrder(DecodeAll(lines));
  }

  /** Nothing is collected exactly when no line decodes. */
  lemma DecodeBatchEmptyIff(lines: seq<string>)
    ensures DecodeBatch(lines) == [] <==> forall j :: 0 <= j < |lines| ==> Decode(lines[j]).None?
  {
    SomesEmptyIff(DecodeAll(lines));
    assert forall j :: 0 <= j < |lines| ==> DecodeAll(lines)[j] == Decode(lines[j]);
  }

  /** The record list shown for a sequence of records. */
  function EncodeAll(rs: seq<Record>): (lines: seq<string>)
    ensures |lines| == |rs|
  {
    seq(|rs|, k requires 0 <= k < |rs| => Encode(rs[k]))
  }

  function AllSome<T>(vs: seq<T>): (opts: seq<Option<T>>)
    ensures |opts| == |vs|
  {
    seq(|vs|, k requires 0 <= k < |vs| => Some(vs[k]))
  }

  /** When every entry is `Some`, every value is collected. */
  lemma {:induction false} SomesOfAllSome<T>(vs: seq<T>)
    ensures Somes(AllSome(vs)) == vs
    decreases |vs|
  {
    if vs != [] {
      var init := vs[..|vs| - 1];
      assert AllSome(vs)[..|vs| - 1] == AllSome(init);
      SomesOfAllSome(init);
      assert vs == init + [vs[|vs| - 1]];
    }
  }

  /** A record list made of separable records is collected back to those records. */
  lemma DecodeBatchOfEncoded(rs: seq<Record>)
    requires forall k :: 0 <= k < |rs| ==> Separable(rs[k])
    ensures DecodeBatch(EncodeAll(rs)) == rs
  {
    var opts := DecodeAll(EncodeAll(rs));
    forall k | 0 <= k < |rs|
      ensures opts[k] == Some(rs[k])
    {
      DecodeEncode(rs[k]);
    }
    assert opts == AllSome(rs);
    SomesOfAllSome(rs);
  }

  /**
   * The loop shared by the export and the save actions: it returns the
   * collected rows and the lines it reported as malformed.
   */
  method CollectRows(lines: seq<string>) returns (rows: seq<Record>, skipped: seq<string>)
    ensures rows == DecodeBatch(lines)
    ensures |rows| + |skipped| == |lines|
    ensures forall l :: l in skipped ==> l in lines && Decode(l).None?
  {
    ghost var opts := DecodeAll(lines);
    rows, skipped := [], [];
    for i := 0 to |lines|
      invariant rows == Somes(opts[..i])
      invariant |rows| + |skipped| == i
      invariant forall l :: l in skipped ==> l in lines && Decode(l).None?
    {
      SomesSnoc(opts, i);
      var item := lines[i];
      var parsed := Decode(item);
      assert opts[i] == parsed;
      if parsed.Some? {
        rows := rows + [parsed.value];
      } else {
        skipped := skipped + [item];
      }
    }
    assert opts[..|lines|] == opts;
  }

  /** The parameters of one `INSERT INTO records` statement. */
  datatype InsertRow = InsertRow(datetime: string, client: string, activity: string, duration: string, warehouse: string)

  /** What the save action does with the database. */
  datatype SavePlan = NoDataToSave | InsertAll(rows: seq<InsertRow>)

  function Tag(r: Record, warehouse: string): InsertRow {
    InsertRow(r.timestamp, r.client, r.activity, r.duration, warehouse)
  }

  /**
   * The save action: with no valid line it stops before connecting;
   * otherwise it issues one insert per collected row, in order, each
   * tagged with the warehouse.
   */
  method PlanSave(lines: seq<string>, warehouse: string) returns (plan: SavePlan)
    ensures plan.NoDataToSave? <==> forall j :: 0 <= j < |lines| ==> Decode(lines[j]).None?
    ensures plan.InsertAll? ==> |plan.rows| == |DecodeBatch(lines)|
    ensures plan.InsertAll? ==> forall k :: 0 <= k < |plan.rows| ==> plan.rows[k] == Tag(DecodeBatch(lines)[k], warehouse)
  {
    var data, _ := CollectRows(lines);
    DecodeBatchEmptyIff(lines);
    if data == [] {
      return NoDataToSave;
    }
    var rows := [];
    for k := 0 to |data|
      invariant |rows| == k
      invariant forall j :: 0 <= j < k ==> rows[j] == Tag(data[j], warehouse)
    {
      rows := rows + [Tag(data[k], warehouse)];
    }
    plan := InsertAll(rows);
  }
}
