/** The sensor record relayed from the sensor node to the gateway
    (`SensorData`): a packed little-endian structure of 38 bytes with no
    padding.  The four floats are carried as uninterpreted 4-byte words. */
module SensorData {
  import opened Bytes
  import opened Wrappers

  newtype u32 = x: int | 0 <= x < 0x1_0000_0000

  /** A float's storage, uninterpreted. */
  type Word = w: seq<byte> | |w| == 4 witness [0, 0, 0, 0]

  /** The fixed 16-byte name field. */
  type NameField = n: seq<byte> | |n| == 16 witness [0, 0, 0, 0, 0, 0, 0, 0, 0, 0, 0, 0, 0, 0, 0, 0]

  datatype Record = Record(
    timestamp: u32,
    temperature: Word,
    humidity: Word,
    pressure: Word,
    uvIndex: Word,
    batteryLevel: byte,
    sensorId: byte,
    deviceName: NameField)

  const RecordSize: nat := 38

  // Field offsets.
  const TimestampAt: nat := 0
  const TemperatureAt: nat := 4
  const HumidityAt: nat := 8
  const PressureAt: nat := 12
  const UvIndexAt: nat := 16
  const BatteryAt: nat := 20
  const SensorIdAt: nat := 21
  const NameAt: nat := 22

  /** Least significant byte first. */
  function U32ToLe(x: u32): (bs: seq<byte>)
    ensures |bs| == 4
  {
    var n := x as int;
    [(n % 256) as byte, (n / 256 % 256) as byte, (n / 65536 % 256) as byte, (n / 16777216) as byte]
  }

  function LeToU32(bs: seq<byte>): u32
    requires |bs| == 4
  {
    (bs[0] as int + 256 * bs[1] as int + 65536 * bs[2] as int + 16777216 * bs[3] as int) as u32
  }

  lemma LeU32RoundTrip(x: u32)
    ensures LeToU32(U32ToLe(x)) == x
  {
    var n := x as int;
    var w := n / 256;
    var w2 := w / 256;
    assert n == w * 256 + n % 256;
    assert w == w2 * 256 + w % 256;
    assert w2 == w2 / 256 * 256 + w2 % 256;
    assert n / 65536 == w2 && n / 16777216 == w2 / 256;
  }

  lemma DivModByte(b: int, m: int)
    requires 0 <= b < 256 && 0 <= m
    ensures (b + 256 * m) % 256 == b && (b + 256 * m) / 256 == m
  {
  }

  lemma U32LeRoundTrip(bs: seq<byte>)
    requires |bs| == 4
    ensures U32ToLe(LeToU32(bs)) == bs
  {
    var b0, b1, b2, b3 := bs[0] as int, bs[1] as int, bs[2] as int, bs[3] as int;
    var m2 := b2 + 256 * b3;
    var m1 := b1 + 256 * m2;
    var n := b0 + 256 * m1;
    assert n == LeToU32(bs) as int;
    DivModByte(b0, m1);
    DivModByte(b1, m2);
    DivModByte(b2, b3);
    assert n / 65536 == (n / 256) / 256;
    assert n / 16777216 == ((n / 256) / 256) / 256;
    var e := U32ToLe(LeToU32(bs));
    assert e[0] == bs[0] && e[1] == bs[1] && e[2] == bs[2] && e[3] == bs[3];
  }

  /** The in-memory image of a record, as the radio carries it. */
  function Encode(r: Record): (bs: seq<byte>)
    ensures |bs| == RecordSize
    ensures bs[TimestampAt..TemperatureAt] == U32ToLe(r.timestamp)
    ensures bs[TemperatureAt..HumidityAt] == r.temperature
    ensures bs[HumidityAt..PressureAt] == r.humidity
    ensures bs[PressureAt..UvIndexAt] == r.pressure
    ensures bs[UvIndexAt..BatteryAt] == r.uvIndex
    ensures bs[BatteryAt] == r.batteryLevel && bs[SensorIdAt] == r.sensorId
    ensures bs[NameAt..RecordSize] == r.deviceName
  {
    var bs := U32ToLe(r.timestamp) + r.temperature + r.humidity + r.pressure + r.uvIndex
      + [r.batteryLevel, r.sensorId] + r.deviceName;
    assert bs[TimestampAt..TemperatureAt] == U32ToLe(r.timestamp);
    assert bs[TemperatureAt..HumidityAt] == r.temperature;
    assert bs[HumidityAt..PressureAt] == r.humidity;
    assert bs[PressureAt..UvIndexAt] == r.pressure;
    assert bs[UvIndexAt..BatteryAt] == r.uvIndex;
    assert bs[NameAt..RecordSize] == r.deviceName;
    bs
  }

  /** Reading a record out of a received frame; only a frame of exactly the
      record's size is one. */
  function Decode(bs: seq<byte>): (r: Option<Record>)
    ensures r.Some? <==> |bs| == RecordSize
  {
    if |bs| != RecordSize then None
    else Some(Record(
      LeToU32(bs[TimestampAt..TemperatureAt]),
      bs[TemperatureAt..HumidityAt],
      bs[HumidityAt..PressureAt],
      bs[PressureAt..UvIndexAt],
      bs[UvIndexAt..BatteryAt],
      bs[BatteryAt],
      bs[SensorIdAt],
      bs[NameAt..RecordSize]))
  }

  lemma DecodeEncode(r: Record)
    ensures Decode(Encode(r)) == Some(r)
  {
    LeU32RoundTrip(r.timestamp);
  }

  lemma EncodeDecode(bs: seq<byte>)
    requires |bs| == RecordSize
    ensures Encode(Decode(bs).value) == bs
  {
    var r := Decode(bs).value;
    U32LeRoundTrip(bs[TimestampAt..TemperatureAt]);
    var e := Encode(r);
    assert e[TimestampAt..TemperatureAt] == bs[TimestampAt..TemperatureAt];
    assert forall i :: 0 <= i < RecordSize ==> e[i] == bs[i] by {
      forall i | 0 <= i < RecordSize ensures e[i] == bs[i] {
        if i < TemperatureAt {
          assert e[i] == e[TimestampAt..TemperatureAt][i];
          assert bs[i] == bs[TimestampAt..TemperatureAt][i];
        } else if i < HumidityAt {
          assert e[i] == e[TemperatureAt..HumidityAt][i - TemperatureAt];
        } else if i < PressureAt {
          assert e[i] == e[HumidityAt..PressureAt][i - HumidityAt];
        } else if i < UvIndexAt {
          assert e[i] == e[PressureAt..UvIndexAt][i - PressureAt];
        } else if i < BatteryAt {
          assert e[i] == e[UvIndexAt..BatteryAt][i - UvIndexAt];
        } else if i >= NameAt {
          assert e[i] == e[NameAt..RecordSize][i - NameAt];
        }
      }
    }
  }

  /** `String(deviceName)`: the characters before the first NUL.  With no
      NUL in the field the model stops at its end. */
  function CName(n: seq<byte>): (s: string)
    ensures |s| <= |n|
    ensures forall i :: 0 <= i < |s| ==> n[i] != 0 && s[i] == ByteToChar(n[i])
    ensures |s| < |n| ==> n[|s|] == 0
  {
    if n == [] || n[0] == 0 then [] else [ByteToChar(n[0])] + CName(n[1..])
  }
}
