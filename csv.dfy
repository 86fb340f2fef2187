/** The recording file's rows (kairos.js, the header written by
    startRecording and the row written by the 'data' handler). */
module Csv {
  import opened Wrappers
  import opened Text

  /** The first line of every recording file: eight column names. */
  const Header: string := "timestamp,electrode,s1,s2,s3,s4,s5,intuitive\n"

  /** One persisted row: capture time in epoch milliseconds, channel index,
      the decoded samples and the intuitive flag (0 or 1). */
  datatype Record = Record(timestamp: nat, electrode: nat, samples: seq<int>, intuitive: nat)

  function IntStrings(xs: seq<int>): (r: seq<string>)
    ensures |r| == |xs|
    ensures forall k :: 0 <= k < |xs| ==> r[k] == IntToString(xs[k])
  {
    seq(|xs|, k requires 0 <= k < |xs| => IntToString(xs[k]))
  }

  /** `${t},${i},${samples.join(',')},${isIntuitive}\n` */
  function FormatRow(r: Record): string
  {
    NatToString(r.timestamp) + "," + NatToString(r.electrode) + ","
      + Join(IntStrings(r.samples), ',') + "," + NatToString(r.intuitive) + "\n"
  }

  function ParseInts(fields: seq<string>): Option<seq<int>>
    decreases |fields|
  {
    if fields == [] then Some([])
    else
      match (ParseInt(fields[0]), ParseInts(fields[1..]))
      case (Some(x), Some(xs)) => Some([x] + xs)
      case _ => None
  }

  /** Reads a data row back: the first two fields and the last are the
      timestamp, electrode and flag; the ones between are the samples, a
      single empty field standing for no samples. */
  function ParseRow(line: string): Option<Record>
  {
    if |line| == 0 || line[|line| - 1] != '\n' then None
    else
      var fields := Split(line[..|line| - 1], ',');
      if |fields| < 4 then None
      else
        var middle := fields[2..|fields| - 1];
        var samples := if middle == [""] then Some([]) else ParseInts(middle);
        match (ParseNat(fields[0]), ParseNat(fields[1]), samples, ParseNat(fields[|fields| - 1]))
        case (Some(t), Some(e), Some(ss), Some(f)) => Some(Record(t, e, ss, f))
        case _ => None
  }

  /** The sample fields of a row: one empty field when there are no samples. */
  function SampleFields(samples: seq<int>): seq<string>
  {
    if samples == [] then [""] else IntStrings(samples)
  }

  lemma {:induction false} ParseIntsRoundTrip(xs: seq<int>)
    ensures ParseInts(IntStrings(xs)) == Some(xs)
    decreases |xs|
  {
    if xs != [] {
      IntToStringRoundTrip(xs[0]);
      assert IntStrings(xs)[1..] == IntStrings(xs[1..]);
      ParseIntsRoundTrip(xs[1..]);
      assert [xs[0]] + xs[1..] == xs;
    }
  }

  /** A row's fields are the timestamp, the electrode, the sample fields and
      the flag, so a row with five samples has as many fields as the header
      has columns. */
  lemma RowFields(r: Record)
    ensures FormatRow(r)[|FormatRow(r)| - 1] == '\n'
    ensures Split(FormatRow(r)[..|FormatRow(r)| - 1], ',')
              == [NatToString(r.timestamp), NatToString(r.electrode)] + SampleFields(r.samples) + [NatToString(r.intuitive)]
    ensures |r.samples| == 5 ==> |Split(FormatRow(r)[..|FormatRow(r)| - 1], ',')| == 8
  {
    var t, e, f := NatToString(r.timestamp), NatToString(r.electrode), NatToString(r.intuitive);
    var mid := SampleFields(r.samples);
    var line := FormatRow(r);
    SampleFieldsFree(r.samples);
    assert line[..|line| - 1] == t + [','] + e + [','] + Join(mid, ',') + [','] + f;
    SplitFourParts(t, e, mid, f, ',');
  }

  lemma SampleFieldsFree(samples: seq<int>)
    ensures 1 <= |SampleFields(samples)|
    ensures Join(SampleFields(samples), ',') == Join(IntStrings(samples), ',')
    ensures forall k :: 0 <= k < |SampleFields(samples)| ==> ',' !in SampleFields(samples)[k]
  {
    forall k | 0 <= k < |SampleFields(samples)| ensures ',' !in SampleFields(samples)[k] {
      if samples != [] { IntToStringRoundTrip(samples[k]); }
    }
  }

  /** Every data row reads back as the record it was written from. */
  lemma FormatRowRoundTrip(r: Record)
    ensures ParseRow(FormatRow(r)) == Some(r)
  {
    RowFields(r);
    var fields := Split(FormatRow(r)[..|FormatRow(r)| - 1], ',');
    var mid := SampleFields(r.samples);
    assert fields[2..|fields| - 1] == mid;
    NatToStringRoundTrip(r.timestamp);
    NatToStringRoundTrip(r.electrode);
    NatToStringRoundTrip(r.intuitive);
    if r.samples != [] {
      IntToStringRoundTrip(r.samples[0]);
      assert mid[0] != "";
      ParseIntsRoundTrip(r.samples);
    }
  }
}
