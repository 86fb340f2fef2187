/** Sample decoding in the per-channel data handler (kairos.js, the loop in
    the 'data' callback): signed 16-bit little-endian values read from byte
    offset 2 in steps of 2, at most five of them, while the offset is inside
    the payload. */
module Samples {
  import opened Wrappers
  import opened Bytes

  const MaxSamples: nat := 5
  const FirstOffset: nat := 2

  /** `readInt16LE` was asked for two bytes at an offset where only one is
      left (Node.js throws ERR_OUT_OF_RANGE). */
  datatype DecodeError = OutOfRange(offset: nat)

  function Min(a: int, b: int): int { if a <= b then a else b }

  /** How many times the loop body runs on a payload of `len` bytes: once per
      offset 2, 4, ... below `len`, at most five times. */
  function Iterations(len: nat): (n: nat)
    ensures n <= MaxSamples
    ensures n == 0 || FirstOffset + 2 * (n - 1) < len
    ensures n == MaxSamples || FirstOffset + 2 * n >= len
  {
    if len <= FirstOffset then 0 else Min(MaxSamples, (len - 1) / 2)
  }

  /** What the handler's loop yields for a payload: the samples it pushes,
      or the fault of its last read when that read starts at the payload's
      final byte. */
  function Decode(data: seq<Byte>): Result<seq<int>, DecodeError>
  {
    var n := Iterations(|data|);
    if 0 < n && FirstOffset + 2 * n > |data| then Err(OutOfRange(FirstOffset + 2 * (n - 1)))
    else Ok(seq(n, j requires 0 <= j < n => Int16LE(data[FirstOffset + 2 * j], data[FirstOffset + 2 * j + 1])))
  }

  /** The decode loop, as the handler runs it. */
  method DecodeSamples(data: seq<Byte>) returns (r: Result<seq<int>, DecodeError>)
    ensures r == Decode(data)
  {
    var samples: seq<int> := [];
    var off := FirstOffset;
    while off < |data| && |samples| < MaxSamples
      invariant off == FirstOffset + 2 * |samples|
      invariant |samples| <= Iterations(|data|)
      invariant |samples| == 0 || off <= |data|
      invariant forall j :: 0 <= j < |samples| ==>
                  FirstOffset + 2 * j + 1 < |data| &&
                  samples[j] == Int16LE(data[FirstOffset + 2 * j], data[FirstOffset + 2 * j + 1])
      decreases MaxSamples - |samples|
    {
      if off + 2 > |data| {
        return Err(OutOfRange(off));
      }
      samples := samples + [Int16LE(data[off], data[off + 1])];
      off := off + 2;
    }
    var n := Iterations(|data|);
    assert |samples| == n;
    assert samples == seq(n, j requires 0 <= j < n => Int16LE(data[FirstOffset + 2 * j], data[FirstOffset + 2 * j + 1]));
    return Ok(samples);
  }

  /** The loop faults exactly on odd payload lengths 3 to 11; otherwise it
      yields min(5, (L - 2) / 2) samples for a payload of L >= 2 bytes and
      none for a shorter one. */
  lemma DecodeShape(data: seq<Byte>)
    ensures Decode(data).Err? <==> |data| % 2 == 1 && 3 <= |data| <= 11
    ensures Decode(data).Ok? ==>
              |Decode(data).value| == if |data| <= 2 then 0 else Min(5, (|data| - 2) / 2)
    ensures |data| >= 12 ==> Decode(data).Ok? && |Decode(data).value| == MaxSamples
  {
  }

  /** Sample j is the signed value stored at offsets 2 + 2j (low byte) and
      3 + 2j (high byte), and lies in the signed 16-bit range. */
  lemma DecodedSample(data: seq<Byte>, j: nat)
    requires Decode(data).Ok? && j < |Decode(data).value|
    ensures FirstOffset + 2 * j + 1 < |data|
    ensures Int16Min <= Decode(data).value[j] <= Int16Max
    ensures Decode(data).value[j] % 0x1_0000 == data[2 + 2 * j] as int + 0x100 * data[3 + 2 * j] as int
  {
  }
}
