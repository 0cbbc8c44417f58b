/**
 * WMBusParser and WMBusMeter: the packet router reads the meter address out of a raw
 * telegram, hands the telegram to the first configured meter with that address, and the
 * meter decodes it with the EVO868 decoder and publishes the result to its sensor.
 *
 * The sensor is modelled by whether one is bound and by the log of what the meter has
 * published to it.
 */
module Router {
  import opened Wrappers
  import opened Bytes
  import opened Text
  import Evo868

  /** Appending a `%02X` byte shifts the hex value by one byte. */
  lemma HexAppend(s: string, b: Byte)
    ensures ParseBase(s + Hex2(b), 16) == ParseBase(s, 16) * 256 + b
  {
    ParseAppend(s, Hex2(b), 16);
    assert Pow(16, 2) == 256;
  }

  /** `%02X%02X%02X%02X` of a, b, c, d is the number they spell most significant first. */
  lemma HexWordValue(a: Byte, b: Byte, c: Byte, d: Byte)
    ensures ParseBase(Hex2(a) + Hex2(b) + Hex2(c) + Hex2(d), 16) == LeValue([d, c, b, a])
  {
    HexAppend(Hex2(a), b);
    HexAppend(Hex2(a) + Hex2(b), c);
    HexAppend(Hex2(a) + Hex2(b) + Hex2(c), d);
    assert ParseBase(Hex2(a), 16) == a;
    assert [a][1..] == [];
    assert LeValue([a]) == a;
    assert [b, a][1..] == [a];
    assert LeValue([b, a]) == b + 256 * a;
    assert [c, b, a][1..] == [b, a];
    assert LeValue([c, b, a]) == c + 256 * (b + 256 * a);
    assert [d, c, b, a][1..] == [c, b, a];
    assert LeValue([d, c, b, a]) == d + 256 * (c + 256 * (b + 256 * a));
  }

  /**
   * The meter ID of a packet: none when it is shorter than 10 bytes; otherwise, past the
   * optional prefix, bytes 7, 6, 5 and 4 as eight upper-case hex digits, which read as a
   * number give the little-endian address field at bytes 4 to 7.
   */
  function PacketMeterId(raw: seq<Byte>): (id: Option<string>)
    ensures id.None? <==> |raw| < 10
    ensures id.Some? ==>
      var offset := Evo868.PrefixLength(raw);
      && offset + 8 <= |raw|
      && |id.value| == 8 && AllUpperHex(id.value)
      && ParseBase(id.value, 16) == LeValue(raw[offset + 4..offset + 8])
  {
    if |raw| < 10 then None
    else
      var offset := Evo868.PrefixLength(raw);
      if |raw| < offset + 8 then None
      else
        var data := raw[offset..];
        var id := Hex2(data[7]) + Hex2(data[6]) + Hex2(data[5]) + Hex2(data[4]);
        HexWordValue(data[7], data[6], data[5], data[4]);
        assert raw[offset + 4..offset + 8] == [data[4], data[5], data[6], data[7]];
        Some(id)
  }

  /** A packet with bytes 11 22 33 44 at offsets 4 to 7 belongs to meter "44332211". */
  lemma AddressExample(raw: seq<Byte>)
    requires |raw| >= 10 && raw[0] != 0x54
    requires raw[4] == 0x11 && raw[5] == 0x22 && raw[6] == 0x33 && raw[7] == 0x44
    ensures PacketMeterId(raw) == Some("44332211")
  {
    assert Evo868.PrefixLength(raw) == 0;
    var data := raw[0..];
    assert data[4] == 0x11 && data[5] == 0x22 && data[6] == 0x33 && data[7] == 0x44;
    assert Hex2(0x44) == "44" && Hex2(0x33) == "33" && Hex2(0x22) == "22" && Hex2(0x11) == "11";
    assert Hex2(data[7]) + Hex2(data[6]) + Hex2(data[5]) + Hex2(data[4]) == "44332211";
  }

  /** A configured ID that is not upper-case hex, such as a lower-case one, never matches. */
  lemma NonUpperHexNeverMatches(raw: seq<Byte>, meterId: string)
    requires !AllUpperHex(meterId)
    ensures PacketMeterId(raw) != Some(meterId)
  {
  }

  /** The index of the first entry equal to `id`. */
  function FirstMatch(ids: seq<string>, id: string): (r: Option<nat>)
    ensures r.None? <==> id !in ids
    ensures r.Some? ==> r.value < |ids| && ids[r.value] == id
    ensures r.Some? ==> forall j :: 0 <= j < r.value ==> ids[j] != id
    decreases |ids|
  {
    if |ids| == 0 then None
    else if ids[0] == id then Some(0)
    else
      var r := FirstMatch(ids[1..], id);
      if r.Some? then Some(r.value + 1) else None
  }

  /** What a meter publishes: the main value and the attribute map. */
  datatype Publication = Publication(value: nat, attributes: map<Evo868.Key, Evo868.AttrValue>)

  /** The driver name `decode_packet` accepts. */
  const SupportedDriver := "evo868"

  /**
   * What `decode_packet` yields for a driver name and a telegram: the EVO868 decode for
   * "evo868", failure for every other name (the registry is not consulted).
   */
  function Outcome(driver: string, raw: seq<Byte>): (r: Option<Publication>)
    ensures r.Some? <==> driver == SupportedDriver && Evo868.DecodeSpec(raw).Success?
    ensures r.Some? ==> Evo868.TotalM3 in r.value.attributes && r.value.attributes[Evo868.TotalM3] == Evo868.Milli(r.value.value)
  {
    Evo868.DecodeOutcome(raw);
    if driver == SupportedDriver && Evo868.DecodeSpec(raw).Success? then
      var d := Evo868.DecodeSpec(raw).value;
      Some(Publication(d.mainValue, d.attributes))
    else None
  }

  /** One configured meter. */
  class WMBusMeter {
    const id: string
    const meterId: string
    const driver: string
    var sensorBound: bool
    var published: seq<Publication>

    constructor(id: string, meterId: string, driver: string)
      ensures this.id == id && this.meterId == meterId && this.driver == driver
      ensures !sensorBound && published == []
    {
      this.id := id;
      this.meterId := meterId;
      this.driver := driver;
      sensorBound := false;
      published := [];
    }

    /** `set_total_m3`: bind (or, with null, unbind) the sensor. */
    method SetTotalM3(bound: bool)
      modifies this
      ensures sensorBound == bound && published == old(published)
    {
      sensorBound := bound;
    }

    /** `decode_packet`: only the "evo868" driver decodes; it changes nothing. */
    method DecodePacket(raw: seq<Byte>) returns (ok: bool, attrs: map<Evo868.Key, Evo868.AttrValue>, value: Option<nat>)
      ensures ok <==> Outcome(driver, raw).Some?
      ensures ok ==> value == Some(Outcome(driver, raw).value.value) && attrs == Outcome(driver, raw).value.attributes
      ensures !ok ==> attrs == map[] && value.None?
    {
      if driver == SupportedDriver {
        ok, attrs, value := Evo868.Decode(raw);
        return;
      }
      ok, attrs, value := false, map[], None;
    }

    /** `handle_packet`: publish the decode result, if it succeeded and a sensor is bound. */
    method HandlePacket(raw: seq<Byte>)
      modifies this
      ensures sensorBound == old(sensorBound)
      ensures published == old(published) + Delivered(sensorBound, Outcome(driver, raw))
    {
      var ok, attrs, value := DecodePacket(raw);
      if !ok {
        return;
      }
      if sensorBound {
        published := published + [Publication(value.value, attrs)];
      }
    }
  }

  /** What reaches the sensor: a successful decode, and only when a sensor is bound. */
  function Delivered(sensorBound: bool, outcome: Option<Publication>): (r: seq<Publication>)
    ensures |r| <= 1
    ensures |r| == 1 <==> sensorBound && outcome.Some?
    ensures |r| == 1 ==> r[0] == outcome.value
  {
    if sensorBound && outcome.Some? then [outcome.value] else []
  }

  /** The router: the configured meters in the order they were added. */
  class WMBusParser {
    var meters: seq<WMBusMeter>

    constructor()
      ensures meters == []
    {
      meters := [];
    }

    /** `add_meter`: append, keeping the earlier meters in order. */
    method AddMeter(meter: WMBusMeter)
      modifies this
      ensures meters == old(meters) + [meter]
    {
      meters := meters + [meter];
    }

    /** The configured IDs, in order. */
    function MeterIds(): (ids: seq<string>)
      reads this
      ensures |ids| == |meters|
      ensures forall i :: 0 <= i < |meters| ==> ids[i] == meters[i].meterId
    {
      seq(|meters|, i requires 0 <= i < |meters| reads this => meters[i].meterId)
    }

    /** The meter a packet is for: the first one whose ID equals the packet's meter ID. */
    function Target(raw: seq<Byte>): (r: Option<WMBusMeter>)
      reads this
      ensures r.Some? ==> PacketMeterId(raw).Some? && r.value in meters && r.value.meterId == PacketMeterId(raw).value
      ensures r.Some? ==>
        exists i :: 0 <= i < |meters| && meters[i] == r.value
          && (forall j :: 0 <= j < i ==> meters[j].meterId != PacketMeterId(raw).value)
      ensures r.None? ==> PacketMeterId(raw).None? || forall m :: m in meters ==> m.meterId != PacketMeterId(raw).value
    {
      match PacketMeterId(raw)
      case None => None
      case Some(id) =>
        match FirstMatch(MeterIds(), id)
        case None => None
        case Some(i) => Some(meters[i])
    }

    /**
     * `receive_packet`: the first meter with the packet's ID handles the whole,
     * unstripped packet, once; every other meter is left as it was.
     */
    method ReceivePacket(raw: seq<Byte>)
      modifies set m | m in meters
      ensures forall m :: m in meters && Some(m) != Target(raw) ==>
        m.published == old(m.published) && m.sensorBound == old(m.sensorBound)
      ensures Target(raw).Some? ==>
        var m := Target(raw).value;
        && m.sensorBound == old(m.sensorBound)
        && m.published == old(m.published) + Delivered(m.sensorBound, Outcome(m.driver, raw))
    {
      if |raw| < 10 {
        return;
      }
      var offset := 0;
      if |raw| >= 2 && raw[0] == 0x54 && (raw[1] == 0x3D || raw[1] == 0xCD) {
        offset := 2;
      }
      // The "too short for id extraction" check cannot fire after the length check.
      assert |raw| >= offset + 8;
      var data := raw[offset..];
      var meterIdStr := Hex2(data[7]) + Hex2(data[6]) + Hex2(data[5]) + Hex2(data[4]);
      assert PacketMeterId(raw) == Some(meterIdStr);
      var i := 0;
      while i < |meters|
        invariant 0 <= i <= |meters|
        invariant forall j :: 0 <= j < i ==> MeterIds()[j] != meterIdStr
        decreases |meters| - i
      {
        var m := meters[i];
        if m.meterId == meterIdStr {
          assert FirstMatch(MeterIds(), meterIdStr) == Some(i);
          m.HandlePacket(raw);
          return;
        }
        i := i + 1;
      }
      assert meterIdStr !in MeterIds();
    }
  }
}
