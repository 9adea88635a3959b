/** Entity keys of custom_components/rebuli_rf_bridge/mqtt_handler.py: a device is
    named `"{kind}_{device_id:04X}"`, the kind's table name, an underscore and
    the device id as exactly four upper-case hexadecimal digits. */
module EntityKeys {
  import opened Parsers

  const HexDigits: string := "0123456789ABCDEF"

  predicate IsUpperHexDigit(c: char)
  {
    '0' <= c <= '9' || 'A' <= c <= 'F'
  }

  /** The value of one upper-case hexadecimal digit. */
  function DigitValue(c: char): (v: int)
    requires IsUpperHexDigit(c)
    ensures 0 <= v < 16 && HexDigits[v] == c
  {
    if c <= '9' then c as int - '0' as int else c as int - 'A' as int + 10
  }

  /** The number a string of upper-case hexadecimal digits spells. */
  function HexValue(s: string): int
    requires forall i :: 0 <= i < |s| ==> IsUpperHexDigit(s[i])
  {
    if |s| == 0 then 0 else HexValue(s[..|s| - 1]) * 16 + DigitValue(s[|s| - 1])
  }

  /** `format(d, "04X")` for a 16-bit id: reading the digits back gives `d`. */
  function Hex4(d: DeviceId): (s: string)
    ensures |s| == 4
    ensures forall i :: 0 <= i < |s| ==> IsUpperHexDigit(s[i])
    ensures HexValue(s) == d
  {
    var s := [HexDigits[d / 0x1000], HexDigits[(d / 0x100) % 16], HexDigits[(d / 0x10) % 16], HexDigits[d % 16]];
    HexValueOfDigits(d, s);
    s
  }

  lemma DigitValueOfDigit(v: int)
    requires 0 <= v < 16
    ensures IsUpperHexDigit(HexDigits[v]) && DigitValue(HexDigits[v]) == v
  {
  }

  lemma HexValueSnoc(s: string, c: char)
    requires forall i :: 0 <= i < |s| ==> IsUpperHexDigit(s[i])
    requires IsUpperHexDigit(c)
    ensures HexValue(s + [c]) == HexValue(s) * 16 + DigitValue(c)
  {
    assert (s + [c])[..|s|] == s;
  }

  /** The positional decomposition of a 16-bit id into four hex places. */
  lemma HexPlaces(d: DeviceId)
    ensures d / 0x100 == (d / 0x1000) * 16 + (d / 0x100) % 16
    ensures d / 0x10 == (d / 0x100) * 16 + (d / 0x10) % 16
    ensures d == (d / 0x10) * 16 + d % 16
  {
  }

  lemma HexValueOfDigits(d: DeviceId, s: string)
    requires s == [HexDigits[d / 0x1000], HexDigits[(d / 0x100) % 16], HexDigits[(d / 0x10) % 16], HexDigits[d % 16]]
    ensures forall i :: 0 <= i < |s| ==> IsUpperHexDigit(s[i])
    ensures HexValue(s) == d
  {
    var a, b, c, e := d / 0x1000, (d / 0x100) % 16, (d / 0x10) % 16, d % 16;
    DigitValueOfDigit(a);
    DigitValueOfDigit(b);
    DigitValueOfDigit(c);
    DigitValueOfDigit(e);
    HexPlaces(d);
    HexValue4(s);
  }

  /** Distinct ids render to distinct hex strings. */
  lemma Hex4Injective(d1: DeviceId, d2: DeviceId)
    requires Hex4(d1) == Hex4(d2)
    ensures d1 == d2
  {
    assert HexValue(Hex4(d1)) == d1;
  }

  /** `x` is four upper-case hexadecimal digits that spell `d`. */
  predicate Spells(x: string, d: DeviceId)
  {
    |x| == 4 && (forall i :: 0 <= i < |x| ==> IsUpperHexDigit(x[i])) && HexValue(x) == d
  }

  /** The number four upper-case hexadecimal digits spell, place by place. */
  lemma HexValue4(x: string)
    requires |x| == 4 && forall i :: 0 <= i < |x| ==> IsUpperHexDigit(x[i])
    ensures HexValue(x) ==
      ((DigitValue(x[0]) * 16 + DigitValue(x[1])) * 16 + DigitValue(x[2])) * 16 + DigitValue(x[3])
  {
    var s1, s2, s3 := x[..1], x[..2], x[..3];
    HexValueSnoc([], x[0]);
    assert [] + [x[0]] == s1;
    HexValueSnoc(s1, x[1]);
    assert s1 + [x[1]] == s2;
    HexValueSnoc(s2, x[2]);
    assert s2 + [x[2]] == s3;
    HexValueSnoc(s3, x[3]);
    assert s3 + [x[3]] == x;
  }

  /** `{:04X}` is the only way to spell an id in four upper-case digits. */
  lemma Hex4Unique(x: string, d: DeviceId)
    requires Spells(x, d)
    ensures x == Hex4(d)
  {
    var v0, v1, v2, v3 := DigitValue(x[0]), DigitValue(x[1]), DigitValue(x[2]), DigitValue(x[3]);
    HexValue4(x);
    HexPlaceValues(v0, v1, v2, v3);
    assert d / 0x1000 == v0 && (d / 0x100) % 16 == v1 && (d / 0x10) % 16 == v2 && d % 16 == v3;
    var h := Hex4(d);
    assert h[0] == x[0] && h[1] == x[1] && h[2] == x[2] && h[3] == x[3];
  }

  /** Four digit values read back from the number they spell. */
  lemma HexPlaceValues(v0: int, v1: int, v2: int, v3: int)
    requires 0 <= v0 < 16 && 0 <= v1 < 16 && 0 <= v2 < 16 && 0 <= v3 < 16
    ensures var d := ((v0 * 16 + v1) * 16 + v2) * 16 + v3;
            d / 0x1000 == v0 && (d / 0x100) % 16 == v1 && (d / 0x10) % 16 == v2 && d % 16 == v3
  {
  }

  /** The `sensor_type` string of each kind. */
  function KindName(k: SensorKind): (name: string)
    ensures '_' !in name
    ensures |name| > 0
  {
    match k
    case Temperature => "temperature"
    case Humidity => "humidity"
    case Binary => "binary"
    case Distance => "distance"
    case Power => "power"
    case Voltage => "voltage"
    case Current => "current"
    case Battery => "battery"
  }

  /** `f"{sensor_type}_{device_id:04X}"`. */
  function EntityKey(k: SensorKind, d: DeviceId): (key: string)
    ensures |key| == |KindName(k)| + 5
    ensures key[|KindName(k)|] == '_'
    ensures forall i :: |KindName(k)| < i < |key| ==> IsUpperHexDigit(key[i])
    ensures key[..|KindName(k)|] == KindName(k)
    ensures HexValue(key[|KindName(k)| + 1..]) == d
  {
    KindName(k) + "_" + Hex4(d)
  }

  /** Two readings share an entity key only when they agree on both the kind
      and the device id. */
  lemma EntityKeyInjective(k1: SensorKind, d1: DeviceId, k2: SensorKind, d2: DeviceId)
    requires EntityKey(k1, d1) == EntityKey(k2, d2)
    ensures k1 == k2 && d1 == d2
  {
    var key := EntityKey(k1, d1);
    var n1, n2 := KindName(k1), KindName(k2);
    assert |n1| == |n2|;
    assert key[..|n1|] == n1;
    assert EntityKey(k2, d2)[..|n2|] == n2;
    assert key[|n1| + 1..] == Hex4(d1);
    assert EntityKey(k2, d2)[|n2| + 1..] == Hex4(d2);
    Hex4Injective(d1, d2);
  }
}
