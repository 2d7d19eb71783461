/** The dial-gauge hub protocol: the CRC-16 of Modbus RTU, the framing of a
    "read holding registers" request, the device-specific decoding of the
    multi-channel reply, and the three-attempt sampling that averages each
    channel.  The serial port is abstracted to whether it opens and what
    each of the three reads returns. */
module HubDataReader {
  import opened Outcomes

  /** A byte of a frame, as `struct.pack('B', ...)` and `serial.read` produce it. */
  type byte = bv8

  // ---------------------------------------------------------------------------
  // CRC-16 as in section 6.2.2 of the MODBUS over Serial Line Specification
  // and Implementation Guide V1.02 (initial value 0xFFFF, reflected
  // polynomial 0xA001, eight shifts per byte, no final XOR).  The running
  // value never leaves 16 bits in the source, so a bv16 register is exact.
  // ---------------------------------------------------------------------------

  const CrcInit: bv16 := 0xFFFF
  const BitsPerByte := 8

  /** One shift of the register: drop the low bit, folding in the reflected
      polynomial 0xA001 if it was set. */
  function ShiftStep(crc: bv16): bv16 {
    if crc & 1 == 1 then (crc >> 1) ^ 0xA001 else crc >> 1
  }

  /** `n` shifts of the register. */
  function Shifts(crc: bv16, n: nat): bv16 {
    if n == 0 then crc else ShiftStep(Shifts(crc, n - 1))
  }

  lemma ShiftsEight(crc: bv16)
    ensures Shifts(crc, 8) == ShiftStep(ShiftStep(ShiftStep(ShiftStep(
                                ShiftStep(ShiftStep(ShiftStep(ShiftStep(crc))))))))
  {
    assert Shifts(crc, 1) == ShiftStep(crc);
    assert Shifts(crc, 3) == ShiftStep(ShiftStep(Shifts(crc, 1)));
    assert Shifts(crc, 5) == ShiftStep(ShiftStep(Shifts(crc, 3)));
    assert Shifts(crc, 7) == ShiftStep(ShiftStep(Shifts(crc, 5)));
  }

  /** The register after one input byte has been folded in. */
  function CrcByte(crc: bv16, b: byte): bv16 {
    Shifts(crc ^ (b as bv16), BitsPerByte)
  }

  /** The CRC of `data`, its bytes taken first to last. */
  function Crc(data: seq<byte>): bv16 {
    if |data| == 0 then CrcInit else CrcByte(Crc(data[..|data| - 1]), data[|data| - 1])
  }

  lemma CrcAppend(data: seq<byte>, b: byte)
    ensures Crc(data + [b]) == CrcByte(Crc(data), b)
  {
    assert (data + [b])[..|data|] == data;
  }

  /** `calculate_crc`: the outer loop folds each byte into the running value. */
  method CalculateCrc(data: seq<byte>) returns (crc: bv16)
    ensures crc == Crc(data)
    ensures data == [] ==> crc == 0xFFFF
  {
    crc := CrcInit;
    for k := 0 to |data|
      invariant crc == Crc(data[..k])
    {
      crc := crc ^ (data[k] as bv16);
      crc := ShiftByte(crc);
      assert data[..k + 1][..k] == data[..k];
    }
    assert data[..|data|] == data;
  }

  /** The inner loop of `calculate_crc`: eight conditional shifts. */
  method ShiftByte(mixed: bv16) returns (crc: bv16)
    ensures crc == Shifts(mixed, BitsPerByte)
  {
    crc := mixed;
    for s := 0 to BitsPerByte
      invariant crc == Shifts(mixed, s)
    {
      if crc & 1 == 1 {
        crc := crc >> 1;
        crc := crc ^ 0xA001;
      } else {
        crc := crc >> 1;
      }
    }
  }

  /** Eight shifts written out, the form in which the solver reasons about them. */
  function EightShifts(crc: bv16): bv16 {
    ShiftStep(ShiftStep(ShiftStep(ShiftStep(ShiftStep(ShiftStep(ShiftStep(ShiftStep(crc))))))))
  }

  lemma ResidueBits(crc: bv16)
    ensures EightShifts(EightShifts(crc ^ (crc & 0xFF)) ^ ((crc >> 8) & 0xFF)) == 0
  {
  }

  lemma ResidueShifts(crc: bv16)
    ensures Shifts(Shifts(crc ^ (crc & 0xFF), 8) ^ ((crc >> 8) & 0xFF), 8) == 0
  {
    var x := crc ^ (crc & 0xFF);
    var m := Shifts(x, 8);
    assert m == EightShifts(x) by { ShiftsEight(x); }
    var y := m ^ ((crc >> 8) & 0xFF);
    assert Shifts(y, 8) == EightShifts(y) by { ShiftsEight(y); }
    assert EightShifts(y) == 0 by { ResidueBits(crc); }
  }

  /** Folding a register's own low byte and then its high byte into it
      empties it: this is what a receiver computes over a frame that ends
      with its CRC. */
  lemma ResidueStep(crc: bv16)
    ensures CrcByte(CrcByte(crc, LowByte(crc)), HighByte(crc)) == 0
  {
    assert LowByte(crc) as bv16 == crc & 0xFF;
    assert HighByte(crc) as bv16 == (crc >> 8) & 0xFF;
    ResidueShifts(crc);
  }

  /** The request frame 01 03 00 00 00 08 has the CRC 0x0C44, sent as 44 0C. */
  lemma CrcKnownVector()
    ensures Crc([0x01, 0x03, 0x00, 0x00, 0x00, 0x08]) == 0x0C44
  {
    var d: seq<byte> := [0x01, 0x03, 0x00, 0x00, 0x00, 0x08];
    assert d[..1][..0] == [];
    ShiftsEight(0xFFFF ^ 0x01);
    assert Crc(d[..1]) == 0x807E;
    assert d[..2][..1] == d[..1];
    ShiftsEight(0x807E ^ 0x03);
    assert Crc(d[..2]) == 0x2140;
    assert d[..3][..2] == d[..2];
    ShiftsEight(0x2140);
    assert Crc(d[..3]) == 0xF020;
    assert d[..4][..3] == d[..3];
    ShiftsEight(0xF020);
    assert Crc(d[..4]) == 0xD8F1;
    assert d[..5][..4] == d[..4];
    ShiftsEight(0xD8F1);
    assert Crc(d[..5]) == 0x8419;
    assert d[..5] == d[..|d| - 1];
    ShiftsEight(0x8419 ^ 0x08);
  }

  // ---------------------------------------------------------------------------
  // Frames
  // ---------------------------------------------------------------------------

  /** Function code Read Holding Registers, section 6.3 of the MODBUS
      Application Protocol Specification V1.1b3. */
  const ReadHoldingRegisters: byte := 0x03
  const DefaultAddress: byte := 128
  const DefaultDataCount: bv16 := 8

  function LowByte(crc: bv16): byte {
    (crc & 0xFF) as bv8
  }

  function HighByte(crc: bv16): byte {
    ((crc >> 8) & 0xFF) as bv8
  }

  lemma ByteSplit(crc: bv16)
    ensures HighByte(crc) as int * 256 + LowByte(crc) as int == crc as int
  {
    ByteSplitBits(crc);
  }

  lemma ByteSplitBits(crc: bv16)
    ensures ((crc >> 8) & 0xFF) as bv8 as int * 256 + ((crc & 0xFF) as bv8) as int == crc as int
  {
  }

  /** `build_command`: address, function code, payload, then the CRC of
      those bytes, low byte first. */
  function BuildCommand(address: byte, functionCode: byte, data: seq<byte>): (frame: seq<byte>)
    ensures |frame| == |data| + 4
    ensures frame[..|data| + 2] == [address, functionCode] + data
  {
    var body := [address, functionCode] + data;
    var crc := Crc(body);
    body + [LowByte(crc), HighByte(crc)]
  }

  /** Recomputing the CRC over a built frame without its last two bytes gives
      back exactly those two bytes, read low then high. */
  lemma BuildCommandCrcRoundTrip(address: byte, functionCode: byte, data: seq<byte>)
    ensures var frame := BuildCommand(address, functionCode, data);
            var crc := Crc(frame[..|frame| - 2]);
            frame[|frame| - 2] == LowByte(crc) && frame[|frame| - 1] == HighByte(crc) &&
            frame[|frame| - 1] as int * 256 + frame[|frame| - 2] as int == crc as int
  {
    var frame := BuildCommand(address, functionCode, data);
    var body := [address, functionCode] + data;
    assert frame[..|frame| - 2] == body;
    ByteSplit(Crc(body));
  }

  /** A built frame passes the receiver's check: the CRC over the whole
      frame, checksum included, is zero. */
  lemma BuildCommandResidue(address: byte, functionCode: byte, data: seq<byte>)
    ensures Crc(BuildCommand(address, functionCode, data)) == 0
  {
    var body := [address, functionCode] + data;
    var crc := Crc(body);
    var lo, hi := LowByte(crc), HighByte(crc);
    assert BuildCommand(address, functionCode, data) == (body + [lo]) + [hi];
    CrcAppend(body + [lo], hi);
    CrcAppend(body, lo);
    ResidueStep(crc);
  }

  /** `struct.pack('>HH', start, count)`: two big-endian 16-bit fields. */
  function ReadPayload(start: bv16, count: bv16): (payload: seq<byte>)
    ensures |payload| == 4
    ensures payload[0] as int * 256 + payload[1] as int == start as int
    ensures payload[2] as int * 256 + payload[3] as int == count as int
  {
    ByteSplit(start);
    ByteSplit(count);
    [HighByte(start), LowByte(start), HighByte(count), LowByte(count)]
  }

  /** The request `read_average_data` sends on every attempt. */
  function ReadCommand(address: byte, dataCount: bv16): (frame: seq<byte>)
    ensures |frame| == 8
    ensures frame[0] == address && frame[1] == ReadHoldingRegisters
    ensures frame[2] == 0 && frame[3] == 0
    ensures frame[4] as int * 256 + frame[5] as int == dataCount as int
    ensures Crc(frame) == 0
  {
    var payload := ReadPayload(0, dataCount);
    var frame := BuildCommand(address, ReadHoldingRegisters, payload);
    assert frame[..6] == [address, ReadHoldingRegisters] + payload;
    BuildCommandResidue(address, ReadHoldingRegisters, payload);
    frame
  }

  // ---------------------------------------------------------------------------
  // Reply decoding: [header: 3][sign, reserved, hi, lo] ... [trailer: 2]
  // ---------------------------------------------------------------------------

  const HeaderLength := 3
  const TrailerLength := 2
  const SegmentLength := 4
  const MinResponseLength := 5
  const MaxMagnitude := 65535

  /** A channel value in micrometres from `[sign, reserved, hi, lo]`. */
  function SegmentValue(segment: seq<byte>): (v: int)
    requires |segment| >= SegmentLength
    ensures -MaxMagnitude <= v <= MaxMagnitude
    ensures v < 0 <==> segment[0] == 1 && segment[2] as int * 256 + segment[3] as int > 0
    ensures (if v < 0 then -v else v) == segment[2] as int * 256 + segment[3] as int
  {
    var magnitude := segment[2] as int * 256 + segment[3] as int;
    if segment[0] == 1 then -magnitude else magnitude
  }

  /** Micrometres to millimetres, the source's division by 1000.0. */
  function Millimetres(raw: int): real {
    raw as real / 1000.0
  }

  /** The reserved byte of a segment never affects its value. */
  lemma SegmentValueIgnoresReserved(segment: seq<byte>, reserved: byte)
    requires |segment| >= SegmentLength
    ensures SegmentValue(segment[1 := reserved]) == SegmentValue(segment)
  {
  }

  /** The channel readings of a reply, as `parse_data` produces them: nothing
      for a reply shorter than 5 bytes, an IndexError when the last segment is
      cut short (length 3 + 4k + 3), otherwise one value per segment start
      3, 7, ... below the length minus 2. */
  function Parse(response: seq<byte>): Outcome<Option<seq<real>>> {
    var n := |response|;
    if n < MinResponseLength then Returned(None)
    else if n % 4 == 2 then Aborted(IndexError)
    else Returned(Some(seq((n - 2) / 4, j requires 0 <= j < (n - 2) / 4 =>
      Millimetres(SegmentValue(response[HeaderLength + 4 * j .. HeaderLength + 4 * j + SegmentLength])))))
  }

  /** `parse_data`: the loop that walks 4-byte segments and appends their values. */
  method ParseData(response: seq<byte>) returns (r: Outcome<Option<seq<real>>>)
    ensures r == Parse(response)
  {
    if |response| < MinResponseLength {
      return Returned(None);
    }
    var values: seq<real> := [];
    var i := HeaderLength;
    while i < |response| - TrailerLength
      invariant HeaderLength <= i <= |response| && (i - HeaderLength) % 4 == 0
      invariant |values| == (i - HeaderLength) / 4
      invariant forall j :: 0 <= j < |values| ==>
        HeaderLength + 4 * j + SegmentLength <= |response| &&
        values[j] == Millimetres(SegmentValue(response[HeaderLength + 4 * j .. HeaderLength + 4 * j + SegmentLength]))
      decreases |response| - i
    {
      var segment := response[i .. if i + SegmentLength <= |response| then i + SegmentLength else |response|];
      var sign := segment[0];
      var isNegative := sign == 1;
      var highByte := segment[2];
      if |segment| < SegmentLength {
        // `data_segment[3]` on a 3-byte slice
        return Aborted(IndexError);
      }
      var lowByte := segment[3];
      var value: int := highByte as int * 256 + lowByte as int;
      if isNegative {
        value := -value;
      }
      assert value == SegmentValue(segment);
      values := values + [Millimetres(value)];
      i := i + SegmentLength;
    }
    var n := |response|;
    assert n - TrailerLength <= i <= n;
    assert n % 4 != 2 && |values| == (n - 2) / 4;
    ghost var expected := Parse(response).value.value;
    assert |expected| == |values|;
    assert forall j :: 0 <= j < |values| ==> expected[j] == values[j];
    assert values == expected;
    return Returned(Some(values));
  }

  /** A reply of exactly 3 + 4k + 2 bytes decodes to k values, value j taken
      from bytes 3 + 4j .. 3 + 4j + 3 alone. */
  lemma ParseAligned(response: seq<byte>, k: nat)
    requires |response| == HeaderLength + SegmentLength * k + TrailerLength
    ensures Parse(response).Returned?
    ensures k == 0 ==> Parse(response).value == Some([])
    ensures k > 0 ==> Parse(response).value.Some?
    ensures var values := Parse(response).value.value;
            |values| == k &&
            forall j :: 0 <= j < k ==>
              values[j] == Millimetres(SegmentValue(response[HeaderLength + 4 * j .. HeaderLength + 4 * j + SegmentLength]))
  {
    var n := |response|;
    assert n == 4 * k + 5;
    assert n % 4 == 1;
    assert (n - 2) / 4 == k;
    assert |Parse(response).value.value| == k;
  }

  /** The header and the trailer are never read: two aligned replies of the
      same length that agree on the channel bytes decode alike. */
  lemma ParseIgnoresFraming(a: seq<byte>, b: seq<byte>, k: nat)
    requires |a| == |b| == HeaderLength + SegmentLength * k + TrailerLength
    requires forall p :: HeaderLength <= p < |a| - TrailerLength ==> a[p] == b[p]
    ensures Parse(a) == Parse(b)
  {
    forall j | 0 <= j < k
      ensures a[HeaderLength + 4 * j .. HeaderLength + 4 * j + SegmentLength]
           == b[HeaderLength + 4 * j .. HeaderLength + 4 * j + SegmentLength]
    {
      var lo := HeaderLength + 4 * j;
      assert lo + SegmentLength <= |a| - TrailerLength;
      assert forall p :: lo <= p < lo + SegmentLength ==> a[p] == b[p];
    }
    ParseAligned(a, k);
    ParseAligned(b, k);
    assert Parse(a).value.value == Parse(b).value.value;
  }

  /** Segments [1, 0, 0, 100] and [0, 0, 0, 100] read -0.1 mm and +0.1 mm. */
  lemma SignExamples()
    ensures Millimetres(SegmentValue([1, 0, 0, 100])) == -0.1
    ensures Millimetres(SegmentValue([0, 0, 0, 100])) == 0.1
    ensures Millimetres(SegmentValue([2, 0, 0, 100])) == 0.1
  {
  }

  // ---------------------------------------------------------------------------
  // Sampling and averaging
  // ---------------------------------------------------------------------------

  const Channels := 4
  const ReadAttempts := 3

  /** What one attempt of the port gives: the bytes `read(256)` returned
      (empty on a timeout), or a serial error raised by `write` or `read`. */
  datatype Attempt = Reply(bytes: seq<byte>) | SerialFault

  /** A sample is kept only from a parse that yields exactly four values. */
  function Accept(parsed: Option<seq<real>>): seq<seq<real>> {
    if parsed.Some? && |parsed.value| == Channels then [parsed.value] else []
  }

  ghost predicate WellFormedRows(rows: seq<seq<real>>) {
    forall i :: 0 <= i < |rows| ==> |rows[i]| == Channels
  }

  /** The samples kept from a run of attempts, in order: `None` once a serial
      error ends the run, an abort when a reply makes `parse_data` raise. */
  function Sampled(attempts: seq<Attempt>): (r: Outcome<Option<seq<seq<real>>>>)
    ensures r.Returned? && r.value.Some? ==>
      |r.value.value| <= |attempts| && WellFormedRows(r.value.value)
    ensures r.Aborted? ==> r.reason == IndexError
  {
    if |attempts| == 0 then Returned(Some([]))
    else
      var rows :- Sampled(attempts[..|attempts| - 1]);
      if rows.None? then Returned(None)
      else match attempts[|attempts| - 1]
        case SerialFault => Returned(None)
        case Reply(bytes) =>
          if bytes == [] then Returned(Some(rows.value))
          else
            var parsed :- Parse(bytes);
            Returned(Some(rows.value + Accept(parsed)))
  }

  /** Once a run has stopped (a serial error or an exception), later attempts change nothing. */
  lemma {:induction false} SampledStops(attempts: seq<Attempt>, k: nat)
    requires k <= |attempts|
    requires !(Sampled(attempts[..k]).Returned? && Sampled(attempts[..k]).value.Some?)
    ensures Sampled(attempts) == Sampled(attempts[..k])
    decreases |attempts| - k
  {
    if k < |attempts| {
      assert attempts[..k + 1][..k] == attempts[..k];
      SampledStops(attempts, k + 1);
    } else {
      assert attempts[..k] == attempts;
    }
  }

  /** Every decoded value lies in the gauge's range [-65.535, 65.535] mm. */
  lemma ParseInRange(response: seq<byte>)
    ensures Parse(response).Returned? && Parse(response).value.Some? ==>
              forall j :: 0 <= j < |Parse(response).value.value| ==>
                -65.535 <= Parse(response).value.value[j] <= 65.535
  {
    var n := |response|;
    if n >= MinResponseLength && n % 4 != 2 {
      var values := Parse(response).value.value;
      forall j | 0 <= j < |values|
        ensures -65.535 <= values[j] <= 65.535
      {
        var raw := SegmentValue(response[HeaderLength + 4 * j .. HeaderLength + 4 * j + SegmentLength]);
        assert values[j] == Millimetres(raw);
        MillimetresBounds(raw);
      }
    }
  }

  lemma MillimetresBounds(raw: int)
    requires -MaxMagnitude <= raw <= MaxMagnitude
    ensures -65.535 <= Millimetres(raw) <= 65.535
  {
  }

  /** Every kept value is one the gauge can report. */
  lemma {:induction false} SampledInRange(attempts: seq<Attempt>)
    ensures var r := Sampled(attempts);
            r.Returned? && r.value.Some? ==>
              forall i, c :: 0 <= i < |r.value.value| && 0 <= c < |r.value.value[i]| ==>
                -65.535 <= r.value.value[i][c] <= 65.535
  {
    var r := Sampled(attempts);
    if |attempts| > 0 && r.Returned? && r.value.Some? {
      var front := attempts[..|attempts| - 1];
      SampledInRange(front);
      var last := attempts[|attempts| - 1];
      var rows := Sampled(front).value.value;
      if last.Reply? && last.bytes != [] {
        ParseInRange(last.bytes);
        assert r.value.value == rows + Accept(Parse(last.bytes).value);
      } else {
        assert r.value.value == rows;
      }
    }
  }

  /** The samples of one channel, `all_values[c]`. */
  function Column(rows: seq<seq<real>>, c: nat): (col: seq<real>)
    requires WellFormedRows(rows) && c < Channels
    ensures |col| == |rows|
  {
    seq(|rows|, i requires 0 <= i < |rows| => rows[i][c])
  }

  function Sum(xs: seq<real>): real {
    if |xs| == 0 then 0.0 else Sum(xs[..|xs| - 1]) + xs[|xs| - 1]
  }

  /** `sum(group) / len(group) if group else None`. */
  function Mean(xs: seq<real>): Option<real> {
    if |xs| == 0 then None else Some(Sum(xs) / |xs| as real)
  }

  lemma {:induction false} SumBounds(xs: seq<real>, lo: real, hi: real)
    requires forall i :: 0 <= i < |xs| ==> lo <= xs[i] <= hi
    ensures |xs| as real * lo <= Sum(xs) <= |xs| as real * hi
  {
    if |xs| > 0 {
      SumBounds(xs[..|xs| - 1], lo, hi);
    }
  }

  /** A mean lies between the least and the greatest possible sample. */
  lemma MeanBounds(xs: seq<real>, lo: real, hi: real)
    requires forall i :: 0 <= i < |xs| ==> lo <= xs[i] <= hi
    ensures Mean(xs).None? <==> |xs| == 0
    ensures Mean(xs).Some? ==> lo <= Mean(xs).value <= hi
  {
    if |xs| > 0 {
      SumBounds(xs, lo, hi);
      var n := |xs| as real;
      assert n > 0.0;
      assert Sum(xs) / n >= lo by {
        assert Sum(xs) >= n * lo;
      }
      assert Sum(xs) / n <= hi by {
        assert Sum(xs) <= n * hi;
      }
    }
  }

  /** The per-channel averages over the kept samples. */
  function Averages(rows: seq<seq<real>>): (avg: seq<Option<real>>)
    requires WellFormedRows(rows)
    ensures |avg| == Channels
    ensures forall c :: 0 <= c < Channels ==> (avg[c].None? <==> |rows| == 0)
  {
    seq(Channels, c requires 0 <= c < Channels => Mean(Column(rows, c)))
  }

  /** `read_average_data` with the port's failure to open reported as `None`,
      like every other serial error. */
  function ReadAverage(opens: bool, attempts: seq<Attempt>): (r: Outcome<Option<seq<Option<real>>>>)
    ensures !opens ==> r == Returned(None)
    ensures r.Returned? && r.value.Some? ==> |r.value.value| == Channels
    ensures r.Aborted? ==> r.reason == IndexError
  {
    if !opens then Returned(None)
    else
      var rows :- Sampled(attempts);
      if rows.None? then Returned(None) else Returned(Some(Averages(rows.value)))
  }

  /** `read_average_data` as written: when `serial.Serial` raises, `ser` is
      still unbound when the `finally` block calls `ser.close()`. */
  function ReadAverageAsWritten(opens: bool, attempts: seq<Attempt>): Outcome<Option<seq<Option<real>>>> {
    if !opens then Aborted(UnboundLocalError) else ReadAverage(true, attempts)
  }

  /** Every average that is present lies in the gauge's range
      [-65.535, 65.535] mm, and the channels are all present or all absent. */
  lemma ReadAverageInRange(opens: bool, attempts: seq<Attempt>)
    ensures var r := ReadAverage(opens, attempts);
            r.Returned? && r.value.Some? ==>
              (forall c :: 0 <= c < Channels ==> (r.value.value[c].None? <==> r.value.value[0].None?)) &&
              forall c :: 0 <= c < Channels && r.value.value[c].Some? ==>
                -65.535 <= r.value.value[c].value <= 65.535
  {
    var r := ReadAverage(opens, attempts);
    if opens && r.Returned? && r.value.Some? {
      SampledInRange(attempts);
      var rows := Sampled(attempts).value.value;
      assert r.value.value == Averages(rows);
      forall c | 0 <= c < Channels
        ensures r.value.value[c].Some? ==> -65.535 <= r.value.value[c].value <= 65.535
      {
        MeanBounds(Column(rows, c), -65.535, 65.535);
      }
    }
  }

  /** Two kept samples 1.0 and 3.0 on a channel average to 2.0. */
  lemma AveragingExample()
    ensures Averages([[1.0, 0.5, 0.0, -1.0], [3.0, 0.5, 0.0, -3.0]])
         == [Some(2.0), Some(0.5), Some(0.0), Some(-2.0)]
  {
    var rows := [[1.0, 0.5, 0.0, -1.0], [3.0, 0.5, 0.0, -3.0]];
    assert Column(rows, 0) == [1.0, 3.0];
    assert Column(rows, 1) == [0.5, 0.5];
    assert Column(rows, 2) == [0.0, 0.0];
    assert Column(rows, 3) == [-1.0, -3.0];
    forall xs: seq<real> | |xs| == 2
      ensures Sum(xs) == xs[0] + xs[1]
    {
      assert xs[..1][..0] == [];
      assert Sum(xs[..1]) == xs[0];
      assert xs[..|xs| - 1] == xs[..1];
    }
  }

  /** `all_values[i].append(parsed_data[i])` for the four channels. */
  method AddSample(allValues: seq<seq<real>>, sample: seq<real>) returns (updated: seq<seq<real>>)
    requires |allValues| == Channels && |sample| == Channels
    ensures |updated| == Channels
    ensures forall c :: 0 <= c < Channels ==> updated[c] == allValues[c] + [sample[c]]
  {
    updated := allValues;
    for c := 0 to Channels
      invariant |updated| == Channels
      invariant forall d :: 0 <= d < c ==> updated[d] == allValues[d] + [sample[d]]
      invariant forall d :: c <= d < Channels ==> updated[d] == allValues[d]
    {
      updated := updated[c := updated[c] + [sample[c]]];
    }
  }

  /** A kept sample extends every channel's column by its own value. */
  lemma ColumnsAppend(rows: seq<seq<real>>, row: seq<real>)
    requires WellFormedRows(rows) && |row| == Channels
    ensures WellFormedRows(rows + [row])
    ensures forall c :: 0 <= c < Channels ==> Column(rows + [row], c) == Column(rows, c) + [row[c]]
  {
    forall c | 0 <= c < Channels
      ensures Column(rows + [row], c) == Column(rows, c) + [row[c]]
    {
      assert forall i :: 0 <= i < |rows| ==> (rows + [row])[i] == rows[i];
    }
  }

  /** `read_average_data`, with `serial.Serial` opening or not, and the port
      answering the three reads with `attempts`.  A failed open is reported
      as `None`, like the serial errors the `except` clause catches. */
  method ReadAverageData(opens: bool, attempts: seq<Attempt>, address: byte, dataCount: bv16)
    returns (r: Outcome<Option<seq<Option<real>>>>)
    requires |attempts| == ReadAttempts
    ensures r == ReadAverage(opens, attempts)
  {
    if !opens {
      return Returned(None);
    }
    var allValues: seq<seq<real>> := [[], [], [], []];
    for k := 0 to ReadAttempts
      invariant Sampled(attempts[..k]).Returned? && Sampled(attempts[..k]).value.Some?
      invariant |allValues| == Channels
      invariant forall c :: 0 <= c < Channels ==> allValues[c] == Column(Sampled(attempts[..k]).value.value, c)
    {
      ghost var prefix := attempts[..k + 1];
      assert prefix[..k] == attempts[..k];
      ghost var rows := Sampled(attempts[..k]).value.value;
      var command := ReadCommand(address, dataCount);
      match attempts[k]
      case SerialFault =>
        SampledStops(attempts, k + 1);
        return Returned(None);
      case Reply(response) =>
        if response != [] {
          var parsed := ParseData(response);
          if parsed.Aborted? {
            SampledStops(attempts, k + 1);
            return Aborted(parsed.reason);
          }
          var values := parsed.value;
          if values.Some? && |values.value| == Channels {
            allValues := AddSample(allValues, values.value);
            ColumnsAppend(rows, values.value);
          }
          assert Sampled(prefix) == Returned(Some(rows + Accept(values)));
        } else {
          assert Sampled(prefix) == Returned(Some(rows));
        }
    }
    assert attempts[..ReadAttempts] == attempts;
    var rows := Sampled(attempts).value.value;
    var averages := seq(Channels, c requires 0 <= c < Channels => Mean(allValues[c]));
    assert averages == Averages(rows);
    return Returned(Some(averages));
  }

  /** `read_average_data` exactly as written, crashing when the port does not open. */
  method ReadAverageDataAsWritten(opens: bool, attempts: seq<Attempt>, address: byte, dataCount: bv16)
    returns (r: Outcome<Option<seq<Option<real>>>>)
    requires |attempts| == ReadAttempts
    ensures r == ReadAverageAsWritten(opens, attempts)
  {
    if !opens {
      return Aborted(UnboundLocalError);
    }
    r := ReadAverageData(true, attempts, address, dataCount);
  }

  /** The discrepancy: a port that fails to open crashes the caller instead
      of yielding `None`, whatever the port would have answered. */
  lemma OpenFailureCrashes(attempts: seq<Attempt>)
    ensures ReadAverageAsWritten(false, attempts) == Aborted(UnboundLocalError)
    ensures ReadAverage(false, attempts) == Returned(None)
    ensures forall a :: ReadAverageAsWritten(true, a) == ReadAverage(true, a)
  {
  }
}
