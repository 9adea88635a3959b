/** The 32-bit RF code decoder of custom_components/rebuli_rf_bridge/parsers.py.

    A code carries three fixed fields:
      bits 31..29  sensor-kind selector (3 bits)
      bits 28..13  device identifier (16 bits)
      bits 12..0   raw value payload (13 bits)
    The decoder is total: a code of 2^32 or more yields `None`, a negative code
    is reduced modulo 2^32 (Python's `code & 0xFFFFFFFF`), and every other code
    yields a reading. Floating-point division is modelled exactly with `real`. */
module Parsers {
  import opened Wrappers

  /** 2^32: the first code the decoder rejects. */
  const CodeLimit: int := 0x1_0000_0000
  const SelectorUnit: int := 0x2000_0000   // 2^29, weight of the selector field
  const DeviceUnit: int := 0x2000          // 2^13, weight of the device field

  type Selector = s: int | 0 <= s < 8
  type DeviceId = d: int | 0 <= d < 0x1_0000
  type Raw = r: int | 0 <= r < 0x2000

  /** The eight kinds the selector table names; Python's "unknown" is the
      `None` result of KindOf. */
  datatype SensorKind =
    | Temperature | Humidity | Binary | Distance
    | Power | Voltage | Current | Battery

  /** A reading's value: a Python float (`/ 100.0`, `/ 10.0`), a Python int
      (distance and power pass the payload through) or a Python bool. */
  datatype Value = Number(x: real) | Count(n: int) | Flag(on: bool)

  /** The decoder's dictionary: `autoOff` is present only for binary readings. */
  datatype Reading = Reading(kind: SensorKind, deviceId: DeviceId, value: Value, autoOff: Option<bool>)

  /** The selector table, read in the decoding direction; selectors outside
      0..7 are "unknown". */
  function KindOf(selector: int): (k: Option<SensorKind>)
    ensures k.Some? <==> 0 <= selector < 8
    ensures k.Some? ==> SelectorOf(k.value) == selector
  {
    match selector
    case 0 => Some(Temperature)
    case 1 => Some(Humidity)
    case 2 => Some(Binary)
    case 3 => Some(Distance)
    case 4 => Some(Power)
    case 5 => Some(Voltage)
    case 6 => Some(Current)
    case 7 => Some(Battery)
    case _ => None
  }

  /** The selector table, read in the encoding direction. */
  function SelectorOf(k: SensorKind): Selector
  {
    match k
    case Temperature => 0
    case Humidity => 1
    case Binary => 2
    case Distance => 3
    case Power => 4
    case Voltage => 5
    case Current => 6
    case Battery => 7
  }

  /** `(code >> 29) & 0b111` on a non-negative code. */
  function SelectorField(code: nat): (s: Selector)
    ensures code < CodeLimit ==> s == code / SelectorUnit
  {
    (code / SelectorUnit) % 8
  }

  /** `(code >> 13) & 0xFFFF` on a non-negative code. */
  function DeviceField(code: nat): (d: DeviceId)
    ensures d == (code % SelectorUnit) / DeviceUnit
  {
    (code / DeviceUnit) % 0x1_0000
  }

  /** `code & 0x1FFF`. */
  function RawField(code: nat): (r: Raw)
    ensures (code - r) % DeviceUnit == 0
  {
    code % 0x2000
  }

  /** Packs the three fields into a code: `s << 29 | d << 13 | r`. */
  function Encode(s: Selector, d: DeviceId, r: Raw): (code: nat)
    ensures code < CodeLimit
  {
    s * SelectorUnit + d * DeviceUnit + r
  }

  /** Reads a 13-bit two's-complement payload: when bit 12 (0x1000) is set,
      0x2000 is subtracted. */
  function SignExtend13(raw: Raw): (v: int)
    ensures -0x1000 <= v < 0x1000
    ensures v % 0x2000 == raw
    ensures (raw / 0x1000) % 2 == 0 ==> v == raw
  {
    if (raw / 0x1000) % 2 == 1 then raw - 0x2000 else raw
  }

  /** The per-kind value derivation of the decoder. */
  function MakeReading(kind: SensorKind, id: DeviceId, raw: Raw): (r: Reading)
    ensures r.kind == kind && r.deviceId == id
    ensures r.autoOff.Some? <==> kind == Binary
    ensures r.value.Flag? <==> kind == Binary
    ensures kind == Temperature ==>
              r.value.Number? && -40.96 <= r.value.x <= 40.95
              && r.value.x * 100.0 == SignExtend13(raw) as real
    ensures kind in {Humidity, Voltage, Current, Battery} ==>
              r.value.Number? && 0.0 <= r.value.x <= 819.1
              && r.value.x * 10.0 == raw as real
    ensures kind in {Distance, Power} ==> r.value == Count(raw)
    ensures kind == Binary ==>
              && r.value.on == (raw % 2 == 1)
              && r.autoOff.value == ((raw / 2) % 2 == 1)
  {
    match kind
    case Temperature => Reading(kind, id, Number(SignExtend13(raw) as real / 100.0), None)
    case Humidity => Reading(kind, id, Number(raw as real / 10.0), None)
    case Voltage => Reading(kind, id, Number(raw as real / 10.0), None)
    case Current => Reading(kind, id, Number(raw as real / 10.0), None)
    case Battery => Reading(kind, id, Number(raw as real / 10.0), None)
    case Distance => Reading(kind, id, Count(raw), None)
    case Power => Reading(kind, id, Count(raw), None)
    case Binary => Reading(kind, id, Flag(raw % 2 == 1), Some((raw / 2) % 2 == 1))
  }

  /** `decode_32bit_sensor`. */
  function Decode(code: int): (r: Option<Reading>)
    ensures code >= CodeLimit ==> r.None?
    ensures code < CodeLimit ==> r.Some?
    ensures r.Some? ==> (r.value.autoOff.Some? <==> r.value.kind == Binary)
    ensures r.Some? ==> (r.value.value.Flag? <==> r.value.kind == Binary)
  {
    if code >= CodeLimit then None
    else
      var c := code % CodeLimit;
      match KindOf(SelectorField(c))
      case None => None
      case Some(kind) => Some(MakeReading(kind, DeviceField(c), RawField(c)))
  }

  /** The three fields of a packed code are the fields it was packed from. */
  lemma FieldsOfEncode(s: Selector, d: DeviceId, r: Raw)
    ensures SelectorField(Encode(s, d, r)) == s
    ensures DeviceField(Encode(s, d, r)) == d
    ensures RawField(Encode(s, d, r)) == r
  {
  }

  /** Every code below 2^32 is the packing of its own three fields. */
  lemma EncodeOfFields(c: nat)
    requires c < CodeLimit
    ensures Encode(SelectorField(c), DeviceField(c), RawField(c)) == c
  {
  }

  /** Decoding a packed code recovers the kind and the device id exactly and
      derives the value from the packed payload. */
  lemma DecodeEncode(k: SensorKind, d: DeviceId, r: Raw)
    ensures Decode(Encode(SelectorOf(k), d, r)) == Some(MakeReading(k, d, r))
    ensures Decode(Encode(SelectorOf(k), d, r)).value.kind == k
    ensures Decode(Encode(SelectorOf(k), d, r)).value.deviceId == d
  {
    FieldsOfEncode(SelectorOf(k), d, r);
  }

  /** A negative code decodes like its residue modulo 2^32. */
  lemma DecodeNegative(code: int)
    requires code < 0
    ensures Decode(code) == Decode(code % CodeLimit)
    ensures Decode(code).Some?
  {
  }

  /** Sample codes: temperature of device 1 with payload 0, a binary code of
      device 0x1234 with both flag bits set, and the first rejected code. */
  lemma DecodeSamples()
    ensures Decode(0x0000_2000) == Some(Reading(Temperature, 1, Number(0.0), None))
    ensures Decode(0x4246_8003) == Some(Reading(Binary, 0x1234, Flag(true), Some(true)))
    ensures Decode(0x1_0000_0000) == None
    ensures Decode(0x1FFF) == Some(Reading(Temperature, 0, Number(-0.01), None))
  {
    FieldsOfEncode(2, 0x1234, 3);
    FieldsOfEncode(0, 1, 0);
    FieldsOfEncode(0, 0, 0x1FFF);
  }

}
