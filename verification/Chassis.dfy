/** The chassis driver: the byte-at-a-time receiver, the sender, and the unit conversions. */
module Chassis {
  import opened Wrappers
  import opened Arithmetic
  import opened SerialFrame

  /** Frames from the chassis, auto-charge frames, and commands to the chassis. */
  const MAIN := Format(0x7B, 0x7D, 24)
  const AUTO_CHARGE := Format(0x7C, 0x7F, 8)
  const COMMAND := Format(0x7B, 0x7D, 11)

  /** Bytes reserved for the auto-charge buffer. */
  const AUTO_CHARGE_BUFFER := 124

  // ---------- conversions ----------

  /** IMU_Trans: two bytes as a signed 16-bit value. */
  function Word(high: bv8, low: bv8): (w: int)
    ensures -32768 <= w < 32768
  {
    Signed(high as int, low as int)
  }

  /** The 16-bit two's complement value of two byte values. */
  function Signed(high: int, low: int): (w: int)
    requires 0 <= high < 256 && 0 <= low < 256
    ensures -32768 <= w < 32768
  {
    var u := high * 256 + low;
    if u >= 32768 then u - 65536 else u
  }

  function HighByte(t: int): bv8 {
    ((t / 256) % 256) as bv8
  }

  function LowByte(t: int): bv8 {
    (t % 256) as bv8
  }

  lemma ByteRoundTrip(x: int)
    requires 0 <= x < 256
    ensures (x as bv8) as int == x
  {
    assert x % 256 == x;
  }

  /** Splitting a signed 16-bit value into bytes and joining them gives the value back. */
  lemma WordRoundTrip(t: int)
    requires -32768 <= t < 32768
    ensures Word(HighByte(t), LowByte(t)) == t
  {
    HighByteValue(t);
    LowByteValue(t);
    SignedOfParts(t);
    hide HighByte, LowByte, Signed;
  }

  lemma SignedOfParts(t: int)
    requires -32768 <= t < 32768
    ensures Signed((t / 256) % 256, t % 256) == t
  {
    var q := t / 256;
    assert t == q * 256 + t % 256 && -128 <= q < 128;
  }

  lemma HighByteValue(t: int)
    ensures HighByte(t) as int == (t / 256) % 256
  {
    ByteRoundTrip((t / 256) % 256);
  }

  lemma LowByteValue(t: int)
    ensures LowByte(t) as int == t % 256
  {
    ByteRoundTrip(t % 256);
  }

  /** The high byte comes first: modulo 2^16 the word is 256 times the first byte plus the second. */
  lemma WordIsBigEndian(high: bv8, low: bv8)
    ensures Word(high, low) % 65536 == (high as int) * 256 + low as int
  {
    SignedModulo(high as int, low as int);
  }

  lemma SignedModulo(high: int, low: int)
    requires 0 <= high < 256 && 0 <= low < 256
    ensures Signed(high, low) % 65536 == high * 256 + low
  {
  }

  /** C division and remainder, which truncate towards zero. */
  function CDiv(a: int, b: nat): int
    requires b > 0
  {
    if a >= 0 then a / b else -((-a) / b)
  }

  function CMod(a: int, b: nat): int
    requires b > 0
  {
    a - CDiv(a, b) * b
  }

  /** Odom_Trans, and the voltage and current conversions: thousandths, whole part and rest apart. */
  function Milli(t: int): real {
    CDiv(t, 1000) as real + CMod(t, 1000) as real * 0.001
  }

  lemma MilliIsThousandths(t: int)
    ensures Milli(t) == t as real * 0.001
  {
    var q := CDiv(t, 1000);
    assert CMod(t, 1000) as real == t as real - q as real * 1000.0;
  }

  /** The velocity field of a command, in thousandths. */
  function VelocityWord(v: real): int {
    Trunc(v * 1000.0)
  }

  predicate FitsShort(v: real) {
    -32768 <= VelocityWord(v) < 32768
  }

  type Short = x: int | -32768 <= x < 32768

  /** The cast of thousandths to a short, which is up to the platform when they do not fit. */
  function ToShort(platform: real -> Short, v: real): Short {
    if FitsShort(v) then VelocityWord(v) else platform(v)
  }

  // ---------- what a frame means ----------

  /** Raw readings of the inertial sensor, and the same in metres and radians per second. */
  datatype Imu = Imu(accel: (int, int, int), gyro: (int, int, int)) {
    function LinearAcceleration(): (real, real, real) {
      (accel.0 as real / ACCEL_RATIO, accel.1 as real / ACCEL_RATIO, accel.2 as real / ACCEL_RATIO)
    }

    function AngularVelocity(): (real, real, real) {
      (gyro.0 as real * GYROSCOPE_RATIO, gyro.1 as real * GYROSCOPE_RATIO, gyro.2 as real * GYROSCOPE_RATIO)
    }
  }

  const ACCEL_RATIO := 1671.84
  const GYROSCOPE_RATIO := 0.00026644

  /** Readings stay within 2 g and, up to the rounding of the ratio, 500 degrees per second. */
  lemma ImuInRange(high: bv8, low: bv8)
    ensures -19.6 <= Word(high, low) as real / ACCEL_RATIO <= 19.6
    ensures -8.7308 <= Word(high, low) as real * GYROSCOPE_RATIO <= 8.7308
  {
    hide Word;
    var a := Word(high, low) as real;
    assert -32768.0 <= a <= 32767.0;
  }

  datatype MainData = MainData(flagStop: bv8, velX: real, velY: real, velZ: real, imu: Imu,
                               linearAcceleration: (real, real, real), angularVelocity: (real, real, real),
                               voltage: real)

  function DecodeMain(rx: seq<bv8>): MainData
    requires |rx| == MAIN.size
  {
    var imu := Imu((Word(rx[8], rx[9]), Word(rx[10], rx[11]), Word(rx[12], rx[13])),
                   (Word(rx[14], rx[15]), Word(rx[16], rx[17]), Word(rx[18], rx[19])));
    MainData(rx[1], Milli(Word(rx[2], rx[3])), Milli(Word(rx[4], rx[5])), Milli(Word(rx[6], rx[7])),
             imu, imu.LinearAcceleration(), imu.AngularVelocity(), Milli(Word(rx[20], rx[21])))
  }

  datatype ChargeData = ChargeData(current: real, red: bv8, charging: bool, setState: bool)

  function DecodeCharge(rx: seq<bv8>): ChargeData
    requires |rx| == AUTO_CHARGE.size
  {
    ChargeData(Milli(Word(rx[1], rx[2])), rx[3], rx[4] != 0, rx[5] != 0)
  }

  /** What the driver holds after a stream: the meaning of the last frame taken over, if there was one. */
  function DataAfter(before: MainData, last: Option<seq<bv8>>): MainData {
    if last.Some? && |last.value| == MAIN.size then DecodeMain(last.value) else before
  }

  function ChargeAfter(before: ChargeData, last: Option<seq<bv8>>): ChargeData {
    if last.Some? && |last.value| == AUTO_CHARGE.size then DecodeCharge(last.value) else before
  }

  // ---------- the protocol, from the sending side ----------

  /** A signed 16-bit value on the line. */
  function WordBytes(t: Short): seq<bv8> {
    [HighByte(t), LowByte(t)]
  }

  /** Header, body, check byte over both, tail. */
  function Framed(fmt: Format, body: seq<bv8>): seq<bv8> {
    [fmt.header] + body + [Xor([fmt.header] + body), fmt.tail]
  }

  lemma FramedIsWellFormed(fmt: Format, body: seq<bv8>)
    requires fmt.size == |body| + 3
    ensures WellFormed(fmt, Framed(fmt, body))
  {
    hide Xor;
    assert Framed(fmt, body)[..fmt.size - 2] == [fmt.header] + body;
  }

  /** What the chassis reports: velocities and voltage in thousandths, and the raw readings of the sensor. */
  datatype MainReadings = MainReadings(flagStop: bv8, velX: Short, velY: Short, velZ: Short, accelX: Short,
                                       accelY: Short, accelZ: Short, gyroX: Short, gyroY: Short, gyroZ: Short,
                                       voltage: Short)

  /** The words of a main body, in protocol order. */
  function MainWords(r: MainReadings): (words: seq<Short>)
    ensures |words| == 10
  {
    [r.velX, r.velY, r.velZ, r.accelX, r.accelY, r.accelZ, r.gyroX, r.gyroY, r.gyroZ, r.voltage]
  }

  function WordsBytes(words: seq<Short>): (bytes: seq<bv8>)
    ensures |bytes| == 2 * |words|
  {
    if words == [] then [] else WordsBytes(words[..|words| - 1]) + WordBytes(words[|words| - 1])
  }

  function MainBody(r: MainReadings): (body: seq<bv8>)
    ensures |body| == 21
  {
    [r.flagStop] + WordsBytes(MainWords(r))
  }

  lemma {:induction false} WordsBytesAt(words: seq<Short>, k: nat)
    requires k < |words|
    ensures WordsBytes(words)[2 * k] == HighByte(words[k]) && WordsBytes(words)[2 * k + 1] == LowByte(words[k])
  {
    hide HighByte, LowByte;
    if k < |words| - 1 {
      WordsBytesAt(words[..|words| - 1], k);
    }
  }

  /** Word `k` of a main frame starts at byte 2 + 2k. */
  lemma MainFrameWord(r: MainReadings, k: nat)
    requires k < 10
    ensures var rx := Framed(MAIN, MainBody(r));
      |rx| == 24 && Word(rx[2 + 2 * k], rx[3 + 2 * k]) == MainWords(r)[k]
  {
    hide WordsBytes, MainWords, HighByte, LowByte, Word, Xor;
    WordsBytesAt(MainWords(r), k);
    WordRoundTrip(MainWords(r)[k]);
  }

  /** Every reading of a main frame arrives as it was sent, field by field. */
  lemma MainReadingsArrive(r: MainReadings)
    ensures var rx := Framed(MAIN, MainBody(r));
      && |rx| == 24 && WellFormed(MAIN, rx)
      && var d := DecodeMain(rx);
      && d.flagStop == r.flagStop
      && d.velX == r.velX as real * 0.001 && d.velY == r.velY as real * 0.001 && d.velZ == r.velZ as real * 0.001
      && d.imu.accel == (r.accelX, r.accelY, r.accelZ) && d.imu.gyro == (r.gyroX, r.gyroY, r.gyroZ)
      && d.linearAcceleration ==
         (r.accelX as real / 1671.84, r.accelY as real / 1671.84, r.accelZ as real / 1671.84)
      && d.angularVelocity ==
         (r.gyroX as real * 0.00026644, r.gyroY as real * 0.00026644, r.gyroZ as real * 0.00026644)
      && d.voltage == r.voltage as real * 0.001
  {
    hide MainBody, Word, Xor, Milli;
    MainFrameFlag(r);
    MainFrameWord(r, 0);
    MainFrameWord(r, 1);
    MainFrameWord(r, 2);
    MainFrameWord(r, 3);
    MainFrameWord(r, 4);
    MainFrameWord(r, 5);
    MainFrameWord(r, 6);
    MainFrameWord(r, 7);
    MainFrameWord(r, 8);
    MainFrameWord(r, 9);
    FramedIsWellFormed(MAIN, MainBody(r));
    hide Framed;
    MilliIsThousandths(r.velX);
    MilliIsThousandths(r.velY);
    MilliIsThousandths(r.velZ);
    MilliIsThousandths(r.voltage);
  }

  lemma MainFrameFlag(r: MainReadings)
    ensures |MainBody(r)| == 21 && Framed(MAIN, MainBody(r))[1] == r.flagStop
  {
    hide WordsBytes, Xor;
  }

  /** What the charging dock reports: current in thousandths, infrared flags, charging, and the mode set. */
  datatype ChargeReadings = ChargeReadings(current: Short, red: bv8, charging: bv8, setState: bv8)

  function ChargeBody(r: ChargeReadings): seq<bv8> {
    WordBytes(r.current) + [r.red, r.charging, r.setState]
  }

  /** Every reading of an auto-charge frame arrives as it was sent. */
  lemma ChargeReadingsArrive(r: ChargeReadings)
    ensures var rx := Framed(AUTO_CHARGE, ChargeBody(r));
      && |rx| == 8 && WellFormed(AUTO_CHARGE, rx)
      && var d := DecodeCharge(rx);
      && d.current == r.current as real * 0.001
      && d.red == r.red && (d.charging <==> r.charging != 0) && (d.setState <==> r.setState != 0)
  {
    hide HighByte, LowByte, Word, Xor, Milli;
    FramedIsWellFormed(AUTO_CHARGE, ChargeBody(r));
    WordRoundTrip(r.current);
    MilliIsThousandths(r.current);
  }

  /** Fed to a resting receiver, one main frame is taken over, at its last byte, and nothing before. */
  lemma MainFrameReceived(c: Collector, r: MainReadings, before: MainData)
    requires Ready(MAIN, c) && c.count == 0
    ensures var rx := Framed(MAIN, MainBody(r));
      && Outputs(MAIN, c, rx) == Silence(23) + [Some(rx)]
      && |rx| == 24
      && DataAfter(before, LastTaken(Outputs(MAIN, c, rx))) == DecodeMain(rx)
  {
    hide DecodeMain, MainBody, Framed;
    MainReadingsArrive(r);
    var rx := Framed(MAIN, MainBody(r));
    WholeFrame(MAIN, c, rx);
    LastTakenOneMore(Silence(23), Some(rx));
  }

  lemma ChargeFrameReceived(c: Collector, r: ChargeReadings, before: ChargeData)
    requires Ready(AUTO_CHARGE, c) && c.count == 0
    ensures var rx := Framed(AUTO_CHARGE, ChargeBody(r));
      && Outputs(AUTO_CHARGE, c, rx) == Silence(7) + [Some(rx)]
      && |rx| == 8
      && ChargeAfter(before, LastTaken(Outputs(AUTO_CHARGE, c, rx))) == DecodeCharge(rx)
  {
    hide DecodeCharge, ChargeBody, Framed;
    ChargeReadingsArrive(r);
    var rx := Framed(AUTO_CHARGE, ChargeBody(r));
    WholeFrame(AUTO_CHARGE, c, rx);
    LastTakenOneMore(Silence(7), Some(rx));
  }

  // ---------- both kinds of frames on one stream ----------

  /**
   Main frames without the auto-charge header byte, auto-charge frames without the main header byte, and
   noise with neither: each frame is taken over once, at its last byte, by its own collector, and the
   other collector stays silent.
   */
  lemma MixedStream(main: Collector, charge: Collector, pieces: seq<Piece>)
    requires Ready(MAIN, main) && main.count == 0 && Ready(AUTO_CHARGE, charge) && charge.count == 0
    requires forall k :: 0 <= k < |pieces| ==>
      Undisturbed(MAIN, pieces[k]) && Undisturbed(AUTO_CHARGE, pieces[k])
    ensures Outputs(MAIN, main, StreamOf(pieces)) == TakenFrom(MAIN, pieces)
    ensures Outputs(AUTO_CHARGE, charge, StreamOf(pieces)) == TakenFrom(AUTO_CHARGE, pieces)
  {
    StreamTaken(MAIN, main, pieces);
    StreamTaken(AUTO_CHARGE, charge, pieces);
  }

  // ---------- the driver object ----------

  class TurnOnRobot {
    var receive: array<bv8>
    var receiveAutoCharge: array<bv8>
    var send: array<bv8>
    var count: nat
    var count2: nat
    var data: MainData
    var charge: ChargeData
    var checkAutoChargeData: bool
    var autoRecharge: bv8

    ghost predicate Valid()
      reads this
    {
      && receive.Length == MAIN.size && count < MAIN.size
      && receiveAutoCharge.Length == AUTO_CHARGE_BUFFER && count2 < AUTO_CHARGE.size
      && send.Length == COMMAND.size
      && receive != receiveAutoCharge && receive != send && receiveAutoCharge != send
    }

    ghost function MainCollector(): Collector
      reads this, receive
      requires Valid()
    {
      Collector(count, receive[..])
    }

    /** The auto-charge buffer is larger than its frame; only the frame's part is ever used. */
    ghost function ChargeCollector(): Collector
      reads this, receiveAutoCharge
      requires Valid()
    {
      Collector(count2, receiveAutoCharge[..AUTO_CHARGE.size])
    }

    constructor ()
      ensures Valid() && count == 0 && count2 == 0
      ensures fresh(receive) && fresh(receiveAutoCharge) && fresh(send)
    {
      receive := new bv8[24](i => 0);
      receiveAutoCharge := new bv8[AUTO_CHARGE_BUFFER];
      send := new bv8[11](i => 0);
      count, count2 := 0, 0;
      data := MainData(0, 0.0, 0.0, 0.0, Imu((0, 0, 0), (0, 0, 0)), (0.0, 0.0, 0.0), (0.0, 0.0, 0.0), 0.0);
      charge := ChargeData(0.0, 0, false, false);
      checkAutoChargeData := false;
      autoRecharge := 0;
    }

    /** Check_Sum and Check_Sum_AutoCharge: XOR of the first bytes of a buffer. */
    method CheckSum(buffer: array<bv8>, n: nat) returns (sum: bv8)
      requires n <= buffer.Length
      ensures sum == Xor(buffer[..n])
    {
      sum := 0;
      var k := 0;
      while k < n
        invariant 0 <= k <= n && sum == Xor(buffer[..k])
      {
        assert buffer[..k + 1][..k] == buffer[..k];
        sum := sum ^ buffer[k];
        k := k + 1;
      }
    }

    /**
     Get_Sensor_Data_New on one byte: both collectors advance independently, and success means
     that the main one has just completed a good frame, whose fields are taken over.
     */
    method GetSensorDataNew(b: bv8) returns (ok: bool)
      requires Valid()
      modifies this`count, this`count2, this`data, this`charge, this`checkAutoChargeData, receive, receiveAutoCharge
      ensures Valid()
      ensures MainCollector() == Push(MAIN, old(MainCollector()), b)
      ensures ChargeCollector() == Push(AUTO_CHARGE, old(ChargeCollector()), b)
      ensures receiveAutoCharge[AUTO_CHARGE.size..] == old(receiveAutoCharge[AUTO_CHARGE.size..])
      ensures ok <==> Emit(MAIN, old(MainCollector()), b).Some?
      ensures data == if ok then DecodeMain(Emit(MAIN, old(MainCollector()), b).value) else old(data)
      ensures var got := Emit(AUTO_CHARGE, old(ChargeCollector()), b);
        && charge == (if got.Some? then DecodeCharge(got.value) else old(charge))
        && checkAutoChargeData == (got.Some? || old(checkAutoChargeData))
    {
      hide Xor, DecodeMain, DecodeCharge, Accepted;
      ghost var main, aux := MainCollector(), ChargeCollector();
      receive[count] := b;
      receiveAutoCharge[count2] := b;
      ghost var rx, rx2 := receive[..], receiveAutoCharge[..AUTO_CHARGE.size];
      assert rx == main.rx[main.count := b] && rx2 == aux.rx[aux.count := b];

      CountByte(b);

      if count2 == AUTO_CHARGE.size {
        count2 := 0;
        TakeCharge();
      }

      ok := false;
      if count == MAIN.size {
        count := 0;
        ok := TakeMain();
      }
    }

    /** Both counters start on their own header and then count every byte. */
    method CountByte(b: bv8)
      modifies this`count, this`count2
      ensures count == if b == MAIN.header || old(count) > 0 then old(count) + 1 else 0
      ensures count2 == if b == AUTO_CHARGE.header || old(count2) > 0 then old(count2) + 1 else 0
    {
      if b == AUTO_CHARGE.header || count2 > 0 {
        count2 := count2 + 1;
      } else {
        count2 := 0;
      }
      if b == MAIN.header || count > 0 {
        count := count + 1;
      } else {
        count := 0;
      }
    }

    /** The auto-charge part: tail, check byte, then the assignments. */
    method TakeCharge()
      requires receiveAutoCharge.Length == AUTO_CHARGE_BUFFER
      modifies this`charge, this`checkAutoChargeData
      ensures var rx := receiveAutoCharge[..AUTO_CHARGE.size];
        && charge == (if Accepted(AUTO_CHARGE, rx) then DecodeCharge(rx) else old(charge))
        && checkAutoChargeData == (Accepted(AUTO_CHARGE, rx) || old(checkAutoChargeData))
    {
      hide Xor;
      ghost var rx := receiveAutoCharge[..AUTO_CHARGE.size];
      assert rx[..6] == receiveAutoCharge[..6];
      if receiveAutoCharge[7] == AUTO_CHARGE.tail {
        var check := CheckSum(receiveAutoCharge, 6);
        if check == receiveAutoCharge[6] {
          charge := ChargeData(Milli(Word(receiveAutoCharge[1], receiveAutoCharge[2])), receiveAutoCharge[3],
                               receiveAutoCharge[4] != 0, receiveAutoCharge[5] != 0);
          checkAutoChargeData := true;
        }
      }
    }

    /** The main part: tail, check byte, then the assignments. */
    method TakeMain() returns (ok: bool)
      requires receive.Length == MAIN.size
      modifies this`data
      ensures ok <==> Accepted(MAIN, receive[..])
      ensures data == if ok then DecodeMain(receive[..]) else old(data)
    {
      hide Xor;
      ok := false;
      assert receive[..][..22] == receive[..22];
      if receive[23] == MAIN.tail {
        var check := CheckSum(receive, 22);
        if check == receive[22] {
          var velX := Milli(Word(receive[2], receive[3]));
          var velY := Milli(Word(receive[4], receive[5]));
          var velZ := Milli(Word(receive[6], receive[7]));
          var accel := (Word(receive[8], receive[9]), Word(receive[10], receive[11]), Word(receive[12], receive[13]));
          var gyro := (Word(receive[14], receive[15]), Word(receive[16], receive[17]), Word(receive[18], receive[19]));
          var voltage := Milli(Word(receive[20], receive[21]));
          var imu := Imu(accel, gyro);
          data := MainData(receive[1], velX, velY, velZ, imu, imu.LinearAcceleration(), imu.AngularVelocity(), voltage);
          ok := true;
        }
      }
    }

    /**
     A whole stream of bytes: the successes are those of the main collector, byte by byte, and the
     driver ends up with the last main frame and the last auto-charge frame that were taken over.
     */
    method ReceiveAll(bytes: seq<bv8>) returns (oks: seq<bool>)
      requires Valid()
      modifies this`count, this`count2, this`data, this`charge, this`checkAutoChargeData, receive, receiveAutoCharge
      ensures Valid() && MainCollector() == Run(MAIN, old(MainCollector()), bytes)
      ensures ChargeCollector() == Run(AUTO_CHARGE, old(ChargeCollector()), bytes)
      ensures data == DataAfter(old(data), LastTaken(Outputs(MAIN, old(MainCollector()), bytes)))
      ensures var last := LastTaken(Outputs(AUTO_CHARGE, old(ChargeCollector()), bytes));
        && charge == ChargeAfter(old(charge), last)
        && checkAutoChargeData == (old(checkAutoChargeData) || last.Some?)
      ensures |oks| == |bytes|
      ensures forall k :: 0 <= k < |bytes| ==>
        (oks[k] <==> Outputs(MAIN, old(MainCollector()), bytes)[k].Some?)
    {
      hide Received, Outputs;
      ghost var c, c2, d, ch, flag := MainCollector(), ChargeCollector(), data, charge, checkAutoChargeData;
      NothingReceived();
      oks := [];
      var k := 0;
      assert bytes[..0] == [];
      while k < |bytes|
        invariant 0 <= k <= |bytes| && |oks| == k
        invariant receive == old(receive) && receiveAutoCharge == old(receiveAutoCharge)
        invariant Received(c, c2, d, ch, flag, bytes[..k])
        invariant forall j :: 0 <= j < k ==> (oks[j] <==> Outputs(MAIN, c, bytes)[j].Some?)
      {
        assert bytes[..k + 1] == bytes[..k] + [bytes[k]];
        ReceivedReady(c, c2, d, ch, flag, bytes[..k]);
        var ok := ReceiveNext(c, c2, d, ch, flag, bytes[..k], bytes[k]);
        OutputsPrefix(MAIN, c, bytes, k);
        oks := oks + [ok];
        k := k + 1;
      }
      assert bytes[..|bytes|] == bytes;
      ReceivedMeans(c, c2, d, ch, flag, bytes);
    }

    /** What the driver holds once `bytes` have arrived since the given state. */
    ghost predicate Received(c: Collector, c2: Collector, d: MainData, ch: ChargeData, flag: bool, bytes: seq<bv8>)
      reads this, receive, receiveAutoCharge
    {
      && Valid() && Ready(MAIN, c) && Ready(AUTO_CHARGE, c2)
      && MainCollector() == Run(MAIN, c, bytes) && ChargeCollector() == Run(AUTO_CHARGE, c2, bytes)
      && data == DataAfter(d, LastTaken(Outputs(MAIN, c, bytes)))
      && charge == ChargeAfter(ch, LastTaken(Outputs(AUTO_CHARGE, c2, bytes)))
      && checkAutoChargeData == (flag || LastTaken(Outputs(AUTO_CHARGE, c2, bytes)).Some?)
    }

    lemma NothingReceived()
      requires Valid()
      ensures Received(MainCollector(), ChargeCollector(), data, charge, checkAutoChargeData, [])
    {
    }

    lemma ReceivedReady(c: Collector, c2: Collector, d: MainData, ch: ChargeData, flag: bool, bytes: seq<bv8>)
      requires Received(c, c2, d, ch, flag, bytes)
      ensures Valid() && Ready(MAIN, c)
    {
    }

    lemma ReceivedMeans(c: Collector, c2: Collector, d: MainData, ch: ChargeData, flag: bool, bytes: seq<bv8>)
      requires Received(c, c2, d, ch, flag, bytes)
      ensures Valid() && Ready(MAIN, c) && Ready(AUTO_CHARGE, c2)
      ensures MainCollector() == Run(MAIN, c, bytes) && ChargeCollector() == Run(AUTO_CHARGE, c2, bytes)
      ensures data == DataAfter(d, LastTaken(Outputs(MAIN, c, bytes)))
      ensures charge == ChargeAfter(ch, LastTaken(Outputs(AUTO_CHARGE, c2, bytes)))
      ensures checkAutoChargeData == (flag || LastTaken(Outputs(AUTO_CHARGE, c2, bytes)).Some?)
    {
    }

    /** The byte after `before`. */
    method ReceiveNext(ghost c: Collector, ghost c2: Collector, ghost d: MainData, ghost ch: ChargeData,
                       ghost flag: bool, ghost before: seq<bv8>, b: bv8) returns (ok: bool)
      requires Valid() && Received(c, c2, d, ch, flag, before) && Ready(MAIN, c)
      modifies this`count, this`count2, this`data, this`charge, this`checkAutoChargeData, receive, receiveAutoCharge
      ensures Received(c, c2, d, ch, flag, before + [b])
      ensures ok <==> Outputs(MAIN, c, before + [b])[|before|].Some?
    {
      hide Push, Emit, DecodeMain, DecodeCharge, Run, Outputs, LastTaken;
      OneMoreByte(MAIN, c, before, b);
      OneMoreByte(AUTO_CHARGE, c2, before, b);
      LastTakenOneMore(Outputs(MAIN, c, before), Emit(MAIN, MainCollector(), b));
      LastTakenOneMore(Outputs(AUTO_CHARGE, c2, before), Emit(AUTO_CHARGE, ChargeCollector(), b));
      ok := GetSensorDataNew(b);
    }

    /** Cmd_Vel_Callback: the bytes written to the serial port. */
    method CmdVelCallback(platform: real -> Short, linearX: real, linearY: real, angularZ: real)
      returns (sent: seq<bv8>)
      requires Valid()
      modifies send
      ensures sent == send[..] && WellFormed(COMMAND, sent)
      ensures sent[1] == autoRecharge && sent[2] == 0
      ensures FitsShort(linearX) ==> Word(sent[3], sent[4]) == VelocityWord(linearX)
      ensures FitsShort(linearY) ==> Word(sent[5], sent[6]) == VelocityWord(linearY)
      ensures FitsShort(angularZ) ==> Word(sent[7], sent[8]) == VelocityWord(angularZ)
    {
      hide Xor, VelocityWord, Word, HighByte, LowByte;
      send[0] := COMMAND.header;
      send[1] := autoRecharge;
      send[2] := 0;
      var transition := ToShort(platform, linearX);
      WordRoundTrip(transition);
      send[4] := LowByte(transition);
      send[3] := HighByte(transition);
      transition := ToShort(platform, linearY);
      WordRoundTrip(transition);
      send[6] := LowByte(transition);
      send[5] := HighByte(transition);
      transition := ToShort(platform, angularZ);
      WordRoundTrip(transition);
      send[8] := LowByte(transition);
      send[7] := HighByte(transition);
      var check := CheckSum(send, 9);
      ghost var body := send[..9];
      send[9] := check;
      send[10] := COMMAND.tail;
      assert send[..9] == body;
      assert send[..][..9] == body;
      sent := send[..];
    }
  }

  /** A velocity survives encoding and decoding up to less than a thousandth, towards zero. */
  lemma VelocityRoundTrip(v: real, high: bv8, low: bv8)
    requires Word(high, low) == VelocityWord(v)
    ensures v >= 0.0 ==> v - 0.001 < Milli(Word(high, low)) <= v
    ensures v <= 0.0 ==> v <= Milli(Word(high, low)) < v + 0.001
  {
    MilliIsThousandths(Word(high, low));
    hide Milli, Word;
  }
}
