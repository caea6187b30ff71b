/**
 * The per-line step of the two worker loops: the PSoC telemetry stream,
 * whose lines are classified, and the plain RN2483 streams, which are logged
 * as they come.
 */
module Classifier {
  import opened Wrappers
  import opened Text
  import opened Records

  /** Logger name of the telemetry stream. */
  const PsocName: string := "PSoC Readings"
  /** How many fields after the sequence index the classifier looks at (`parse_trace[:8]`). */
  const MeasurementCount: nat := 8
  /** The value every measurement must have for a line to count as nominal. */
  const ZeroToken: string := "0"

  /**
   * The fields compared: split on commas, drop the first field (`pop(0)`),
   * keep at most the next eight (a shorter list is kept whole).
   */
  function Measurements(line: string): seq<string> {
    var rest := Split(line, ',')[1..];
    if |rest| <= MeasurementCount then rest else rest[..MeasurementCount]
  }

  predicate AllZero(m: seq<string>) {
    forall k :: 0 <= k < |m| ==> m[k] == ZeroToken
  }

  /** `all(x == '0' for x in parse_trace)`: true for an empty list. */
  function PsocLevel(line: string): Level {
    if AllZero(Measurements(line)) then Debug else Error
  }

  /** The measurements of a line given as its fields are the fields at positions 1 to 8 that are present. */
  lemma MeasurementsOfFields(fields: seq<string>)
    requires |fields| >= 1 && FreeOf(fields, ',')
    ensures Measurements(Join(fields, ',')) == fields[1..if |fields| <= MeasurementCount then |fields| else MeasurementCount + 1]
  {
    SplitJoin(fields, ',');
  }

  /**
   * A line given as its comma-separated fields is DEBUG exactly when each of
   * the fields at positions 1 to 8 that is present equals "0"; the field at
   * position 0 and those past position 8 play no part.
   */
  lemma PsocLevelByFields(fields: seq<string>)
    requires |fields| >= 1 && FreeOf(fields, ',')
    ensures PsocLevel(Join(fields, ',')) == Debug
        <==> forall k :: 1 <= k < |fields| && k <= MeasurementCount ==> fields[k] == ZeroToken
  {
    MeasurementsOfFields(fields);
    WindowAllZero(fields);
  }

  lemma WindowAllZero(fields: seq<string>)
    requires |fields| >= 1
    ensures AllZero(fields[1..if |fields| <= MeasurementCount then |fields| else MeasurementCount + 1])
        <==> forall k :: 1 <= k < |fields| && k <= MeasurementCount ==> fields[k] == ZeroToken
  {
    var m := fields[1..if |fields| <= MeasurementCount then |fields| else MeasurementCount + 1];
    assert forall k :: 1 <= k < |fields| && k <= MeasurementCount ==> m[k - 1] == fields[k];
  }

  /** Fields after the ninth never change the level. */
  lemma TrailingFieldsIgnored(fields: seq<string>, extra: seq<string>)
    requires |fields| > MeasurementCount && FreeOf(fields + extra, ',')
    ensures PsocLevel(Join(fields + extra, ',')) == PsocLevel(Join(fields, ','))
  {
    assert FreeOf(fields, ',') by {
      assert forall k :: 0 <= k < |fields| ==> fields[k] == (fields + extra)[k];
    }
    PsocLevelByFields(fields);
    PsocLevelByFields(fields + extra);
    assert forall k :: 1 <= k <= MeasurementCount ==> (fields + extra)[k] == fields[k];
  }

  /** Eight measurements of "0". */
  function EightZeros(): (zs: seq<string>)
    ensures |zs| == MeasurementCount && AllZero(zs) && FreeOf(zs, ',')
  {
    [ZeroToken, ZeroToken, ZeroToken, ZeroToken, ZeroToken, ZeroToken, ZeroToken, ZeroToken]
  }

  lemma EightZerosJoined()
    ensures Join(EightZeros(), ',') == "0,0,0,0,0,0,0,0"
  {
    var z := ZeroToken;
    JoinCons(z, [z], ',');
    JoinCons(z, [z, z], ',');
    JoinCons(z, [z, z, z], ',');
    JoinCons(z, [z, z, z, z], ',');
    JoinCons(z, [z, z, z, z, z], ',');
    JoinCons(z, [z, z, z, z, z, z], ',');
    JoinCons(z, [z, z, z, z, z, z, z], ',');
  }

  /** The nominal line, as its index followed by eight "0" fields. */
  lemma NominalLineFields()
    ensures Join(["5"] + EightZeros(), ',') == "5,0,0,0,0,0,0,0,0"
  {
    EightZerosJoined();
    JoinCons("5", EightZeros(), ',');
  }

  /** A full nominal line: all eight measurements "0". */
  lemma NominalLineIsDebug()
    ensures PsocLevel("5,0,0,0,0,0,0,0,0") == Debug
  {
    NominalLineFields();
    PsocLevelByFields(["5"] + EightZeros());
  }

  /** The anomalous line, as its index, a "1" and seven "0" fields. */
  lemma AnomalousLineFields()
    ensures Join(["5", "1"] + EightZeros()[1..], ',') == "5,1,0,0,0,0,0,0,0"
  {
    var zs := EightZeros();
    assert Join(zs[1..], ',') == "0,0,0,0,0,0,0" by {
      EightZerosJoined();
      JoinCons(ZeroToken, zs[1..], ',');
      assert [ZeroToken] + zs[1..] == zs;
    }
    JoinCons("1", zs[1..], ',');
    JoinCons("5", ["1"] + zs[1..], ',');
    assert ["5"] + (["1"] + zs[1..]) == ["5", "1"] + zs[1..];
  }

  /** One non-zero measurement makes the line an ERROR. */
  lemma AnomalousLineIsError()
    ensures PsocLevel("5,1,0,0,0,0,0,0,0") == Error
  {
    var fields := ["5", "1"] + EightZeros()[1..];
    AnomalousLineFields();
    PsocLevelByFields(fields);
    assert fields[1] == "1" != ZeroToken;
  }

  /** Short lines whose present measurements are "0", even a lone index, are DEBUG. */
  lemma ShortLinesAreDebug()
    ensures PsocLevel("5,0,0") == Debug
    ensures PsocLevel("5") == Debug
  {
    var z := ZeroToken;
    assert Join(["5"], ',') == "5";
    PsocLevelByFields(["5"]);
    JoinCons(z, [z], ',');
    JoinCons("5", [z, z], ',');
    assert Join(["5", z, z], ',') == "5,0,0";
    PsocLevelByFields(["5", z, z]);
  }

  /** The nominal line with a tenth field "7" appended. */
  lemma TenthFieldLineFields()
    ensures Join(["5"] + EightZeros() + ["7"], ',') == "5,0,0,0,0,0,0,0,0,7"
    ensures FreeOf(["5"] + EightZeros() + ["7"], ',')
  {
    NominalLineFields();
    JoinAppend(["5"] + EightZeros(), "7", ',');
  }

  /** A tenth field does not count, whatever it holds. */
  lemma TenthFieldIsIgnored()
    ensures PsocLevel("5,0,0,0,0,0,0,0,0,7") == Debug
  {
    var fields := ["5"] + EightZeros();
    TenthFieldLineFields();
    TrailingFieldsIgnored(fields, ["7"]);
    NominalLineFields();
    NominalLineIsDebug();
  }

  /**
   * One pass of the telemetry loop: strip the line, skip it if nothing is
   * left, otherwise make the record the level of its measurements decides.
   */
  function PsocStep(stamp: Stamp, raw: string): Option<Record> {
    var trace := Strip(raw);
    if trace == [] then None else Some(Record(stamp, PsocName, PsocLevel(trace), trace))
  }

  /**
   * A line that is empty once stripped gives no record; any other gives one
   * record named "PSoC Readings" holding the stripped line, at DEBUG exactly
   * when all its measurements are "0".
   */
  lemma PsocStepSpec(stamp: Stamp, raw: string)
    ensures PsocStep(stamp, raw).None? <==> AllEol(raw)
    ensures PsocStep(stamp, raw).Some? ==>
      var r := PsocStep(stamp, raw).value;
      r.stamp == stamp && r.name == PsocName && r.message == Strip(raw) && r.message != []
      && (r.level == Debug <==> AllZero(Measurements(r.message)))
  {
    StripEmptyIff(raw);
  }

  /** One pass of a plain stream's loop: strip the line, skip it if nothing is left, otherwise log it at DEBUG. */
  function PlainStep(name: string, stamp: Stamp, raw: string): Option<Record> {
    var readings := Strip(raw);
    if readings == [] then None else Some(Record(stamp, name, Debug, readings))
  }

  /**
   * A line that is empty once stripped gives no record; any other is logged
   * unchanged at DEBUG, whatever it says.
   */
  lemma PlainStepSpec(name: string, stamp: Stamp, raw: string)
    ensures PlainStep(name, stamp, raw).None? <==> AllEol(raw)
    ensures PlainStep(name, stamp, raw).Some? ==>
      PlainStep(name, stamp, raw).value == Record(stamp, name, Debug, Strip(raw)) && Strip(raw) != []
  {
    StripEmptyIff(raw);
  }
}
