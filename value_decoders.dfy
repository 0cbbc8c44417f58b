/**
 * The value decoders of the EVO868 driver: BCD digit strings with a hexadecimal
 * fallback, packed dates (type G) and date-times (type F) of EN 13757-3 Annex A,
 * their `%04d-%02d-%02d` renderings, and the status-flag formatter.
 */
module ValueDecoders {
  import opened Wrappers
  import opened Bytes
  import opened Text

  // ---------------------------------------------------------------------------
  // BCD digit strings (decode_bcd_string)
  // ---------------------------------------------------------------------------

  /** Both nibbles of b are decimal digits. */
  predicate IsBcdByte(b: Byte) { b / 16 <= 9 && b % 16 <= 9 }

  predicate AllBcd(data: seq<Byte>) { forall i :: 0 <= i < |data| ==> IsBcdByte(data[i]) }

  /** What the digit pass pushes for one nibble: the digit, or '?' for 0xA..0xF. */
  function NibbleChar(n: nat): char
    requires n < 16
  {
    if n <= 9 then DigitChar(n) else '?'
  }

  /** The digit pass: high then low nibble of each byte, from the last byte to the first. */
  function NibbleChars(data: seq<Byte>): (s: string)
    ensures |s| == 2 * |data|
  {
    if |data| == 0 then [] else NibbleChars(data[1..]) + [NibbleChar(data[0] / 16), NibbleChar(data[0] % 16)]
  }

  /** The fallback pass: `%02X` of each byte, from the last byte to the first. */
  function HexString(data: seq<Byte>): (s: string)
    ensures |s| == 2 * |data|
  {
    if |data| == 0 then [] else HexString(data[1..]) + Hex2(data[0])
  }

  /** The string decode_bcd_string returns. */
  function BcdString(data: seq<Byte>): string
  {
    if |data| == 0 then [] else if AllBcd(data) then NibbleChars(data) else HexString(data)
  }

  /** The number the BCD bytes stand for, least significant byte first. */
  function BcdValue(data: seq<Byte>): nat
  {
    if |data| == 0 then 0 else (data[0] / 16) * 10 + data[0] % 16 + 100 * BcdValue(data[1..])
  }

  /** Character k of the digit pass comes from byte |data| - 1 - k / 2. */
  lemma {:induction false} NibbleCharsAt(data: seq<Byte>, k: nat)
    requires k < 2 * |data|
    ensures NibbleChars(data)[k] ==
      var b := data[|data| - 1 - k / 2];
      if k % 2 == 0 then NibbleChar(b / 16) else NibbleChar(b % 16)
  {
    if k < 2 * (|data| - 1) {
      NibbleCharsAt(data[1..], k);
    }
  }

  /** Character k of the fallback pass comes from byte |data| - 1 - k / 2. */
  lemma {:induction false} HexStringAt(data: seq<Byte>, k: nat)
    requires k < 2 * |data|
    ensures HexString(data)[k] == Hex2(data[|data| - 1 - k / 2])[k % 2]
  {
    if k < 2 * (|data| - 1) {
      HexStringAt(data[1..], k);
    }
  }

  lemma {:induction false} NibbleCharsValue(data: seq<Byte>)
    requires AllBcd(data)
    ensures AllDecimal(NibbleChars(data)) && ParseBase(NibbleChars(data), 10) == BcdValue(data)
  {
    if |data| > 0 {
      var rest := NibbleChars(data[1..]);
      var pair := [NibbleChar(data[0] / 16), NibbleChar(data[0] % 16)];
      assert IsBcdByte(data[0]);
      NibbleCharsValue(data[1..]);
      ParseAppend(rest, pair, 10);
      ParsePair(pair[0], pair[1], 10);
      assert Pow(10, 2) == 100;
      assert AllDecimal(rest + pair) by {
        forall i | 0 <= i < |rest + pair| ensures IsDecimalDigit((rest + pair)[i]) {
          if i >= |rest| { assert (rest + pair)[i] == pair[i - |rest|]; }
        }
      }
    }
  }

  lemma {:induction false} HexStringValue(data: seq<Byte>)
    ensures AllUpperHex(HexString(data)) && ParseBase(HexString(data), 16) == LeValue(data)
  {
    if |data| > 0 {
      var rest := HexString(data[1..]);
      var pair := Hex2(data[0]);
      HexStringValue(data[1..]);
      ParseAppend(rest, pair, 16);
      assert Pow(16, 2) == 256;
      assert AllUpperHex(rest + pair) by {
        forall i | 0 <= i < |rest + pair| ensures IsUpperHexDigit((rest + pair)[i]) {
          if i >= |rest| { assert (rest + pair)[i] == pair[i - |rest|]; }
        }
      }
    }
  }

  /**
   * decode_bcd_string: empty for no bytes; otherwise two characters per byte. When every
   * nibble is a decimal digit the string is the decimal numeral of the BCD number, most
   * significant (last) byte first; otherwise it is the upper-case hexadecimal numeral of
   * the little-endian value, so it never carries the '?' marks of the digit pass.
   */
  lemma BcdStringMeaning(data: seq<Byte>)
    ensures |data| == 0 ==> BcdString(data) == []
    ensures |BcdString(data)| == 2 * |data|
    ensures AllBcd(data) ==> AllDecimal(BcdString(data)) && ParseBase(BcdString(data), 10) == BcdValue(data)
    ensures !AllBcd(data) ==> AllUpperHex(BcdString(data)) && ParseBase(BcdString(data), 16) == LeValue(data)
    ensures '?' !in BcdString(data)
  {
    if |data| > 0 {
      if AllBcd(data) {
        NibbleCharsValue(data);
      } else {
        HexStringValue(data);
      }
    }
  }

  /** The all-digit string lists the nibbles of the last byte first. */
  lemma BcdStringDigitsAt(data: seq<Byte>, k: nat)
    requires AllBcd(data) && k < 2 * |data|
    ensures var b := data[|data| - 1 - k / 2];
      BcdString(data)[k] == if k % 2 == 0 then DigitChar(b / 16) else DigitChar(b % 16)
  {
    NibbleCharsAt(data, k);
    assert IsBcdByte(data[|data| - 1 - k / 2]);
  }

  /** The fallback string lists `%02X` of the last byte first. */
  lemma BcdStringHexAt(data: seq<Byte>, k: nat)
    requires !AllBcd(data) && k < 2 * |data|
    ensures BcdString(data)[k] == Hex2(data[|data| - 1 - k / 2])[k % 2]
  {
    HexStringAt(data, k);
  }

  /** decode_bcd_string: a digit pass that notes invalid nibbles, then a hexadecimal pass if needed. */
  method DecodeBcdString(data: seq<Byte>) returns (s: string)
    ensures s == BcdString(data)
  {
    if |data| == 0 {
      return [];
    }
    var digits: string := [];
    var hasInvalid := false;
    var idx := |data|;
    while idx > 0
      invariant 0 <= idx <= |data|
      invariant digits == NibbleChars(data[idx..])
      invariant hasInvalid <==> exists i :: idx <= i < |data| && !IsBcdByte(data[i])
    {
      idx := idx - 1;
      assert data[idx..][1..] == data[idx + 1..];
      var value := data[idx];
      var high := value / 16;
      var low := value % 16;
      if high <= 9 {
        digits := digits + [DigitChar(high)];
      } else {
        hasInvalid := true;
        digits := digits + ['?'];
      }
      if low <= 9 {
        digits := digits + [DigitChar(low)];
      } else {
        hasInvalid := true;
        digits := digits + ['?'];
      }
    }
    assert data[0..] == data;
    if hasInvalid {
      var hex: string := [];
      idx := |data|;
      while idx > 0
        invariant 0 <= idx <= |data|
        invariant hex == HexString(data[idx..])
      {
        idx := idx - 1;
        assert data[idx..][1..] == data[idx + 1..];
        hex := hex + Hex2(data[idx]);
      }
      return hex;
    }
    return digits;
  }

  // ---------------------------------------------------------------------------
  // Packed dates (decode_date_g, decode_datetime_f)
  // ---------------------------------------------------------------------------

  datatype Date = Date(year: nat, month: nat, day: nat)

  datatype DateTime = DateTime(year: nat, month: nat, day: nat, hour: nat, minute: nat)

  /** The dates a type G or type F field can carry: a seven-bit year offset from 2000. */
  predicate ValidDate(year: nat, month: nat, day: nat)
  {
    2000 <= year <= 2127 && 1 <= month <= 15 && 1 <= day <= 31
  }

  predicate ValidDateTime(dt: DateTime)
  {
    ValidDate(dt.year, dt.month, dt.day) && dt.hour <= 31 && dt.minute <= 63
  }

  /**
   * decode_date_g: day in bits 0-4, month in bits 8-11, year - 2000 in bits 12-15 (high)
   * and 5-7 (low). Absent unless day and month are both non-zero.
   */
  function DecodeDateG(raw: nat): (r: Option<Date>)
    requires raw < 0x10000
    ensures r.Some? <==> raw % 32 > 0 && raw / 256 % 16 > 0
    ensures r.Some? ==> ValidDate(r.value.year, r.value.month, r.value.day)
  {
    var day := raw % 32;
    var month := raw / 256 % 16;
    var yearHigh := raw / 4096 % 16;
    var yearLow := raw / 32 % 8;
    var year := 2000 + yearHigh * 8 + yearLow;
    if day > 0 && month > 0 then Some(Date(year, month, day)) else None
  }

  /** The type G encoding of a date (the inverse of DecodeDateG). */
  function EncodeDateG(d: Date): (raw: nat)
    requires ValidDate(d.year, d.month, d.day)
    ensures raw < 0x10000
  {
    d.day + 32 * ((d.year - 2000) % 8) + 256 * d.month + 4096 * ((d.year - 2000) / 8)
  }

  /** Every date a type G field can carry decodes from its encoding. */
  lemma DateGRoundTrip(d: Date)
    requires ValidDate(d.year, d.month, d.day)
    ensures DecodeDateG(EncodeDateG(d)) == Some(d)
  {
    var off := d.year - 2000;
    var raw := EncodeDateG(d);
    var high := d.month + 16 * (off / 8);
    var low := d.day + 32 * (off % 8);
    assert raw == low + 256 * high;
    Split(low, high, 256);
    Split(d.month, off / 8, 16);
    Split(d.day + 32 * (off % 8) + 256 * d.month, off / 8, 4096);
    Split(d.day, off % 8 + 8 * high, 32);
    Split(off % 8, high, 8);
    assert raw == d.day + 32 * (off % 8 + 8 * high);
    assert off / 8 < 16;
    Split(off / 8, 0, 16);
  }

  /** A valid type G field is the encoding of the date it decodes to. */
  lemma DateGEncodesDecoded(raw: nat)
    requires raw < 0x10000 && DecodeDateG(raw).Some?
    ensures EncodeDateG(DecodeDateG(raw).value) == raw
  {
    var d := DecodeDateG(raw).value;
    var day, yearLow, month, yearHigh := raw % 32, raw / 32 % 8, raw / 256 % 16, raw / 4096 % 16;
    Digits(raw);
    var off := d.year - 2000;
    assert off == 8 * yearHigh + yearLow;
    Split(yearLow, yearHigh, 8);
  }

  /** The four fields of a 16-bit word: bits 0-4, 5-7, 8-11 and 12-15. */
  lemma Digits(raw: nat)
    requires raw < 0x10000
    ensures raw == raw % 32 + 32 * (raw / 32 % 8) + 256 * (raw / 256 % 16) + 4096 * (raw / 4096 % 16)
  {
    assert raw == raw % 32 + 32 * (raw / 32);
    assert raw / 32 == raw / 32 % 8 + 8 * (raw / 256);
    assert raw / 256 == raw / 256 % 16 + 16 * (raw / 4096);
  }

  /** Division and remainder undo `a + k * b` when a < k. */
  lemma Split(a: nat, b: nat, k: nat)
    requires a < k
    ensures (a + k * b) / k == b && (a + k * b) % k == a
  {
    var n := a + k * b;
    var q := n / k;
    assert k * q <= n < k * q + k;
    assert k * (q + 1) == k * q + k && k * (b + 1) == k * b + k;
    MulStrict(k, q, b + 1);
    MulStrict(k, b, q + 1);
  }

  lemma MulStrict(k: nat, x: nat, y: nat)
    requires k * x < k * y
    ensures x < y
  {
  }

  /**
   * decode_datetime_f: minute in bits 0-5 of byte 0, hour in bits 0-4 of byte 1, day and the
   * low year bits in byte 2, month and the high year bits in byte 3. Absent for fewer than
   * four bytes, and unless day and month are both non-zero.
   */
  function DecodeDateTimeF(data: seq<Byte>): (r: Option<DateTime>)
    ensures |data| < 4 ==> r.None?
    ensures |data| >= 4 ==> (r.Some? <==> data[2] % 32 > 0 && data[3] % 16 > 0)
    ensures r.Some? ==> ValidDateTime(r.value)
  {
    if |data| < 4 then None
    else
      var minute := data[0] % 64;
      var hour := data[1] % 32;
      var day := data[2] % 32;
      var month := data[3] % 16;
      var yearHigh: nat := data[3] / 16 % 16;
      var yearLow: nat := data[2] / 32 % 8;
      var year: nat := 2000 + yearHigh * 8 + yearLow;
      if day > 0 && month > 0 then Some(DateTime(year, month, day, hour, minute)) else None
  }

  /** The four-byte type F encoding of a date-time (the inverse of DecodeDateTimeF). */
  function EncodeDateTimeF(dt: DateTime): (data: seq<Byte>)
    requires ValidDateTime(dt)
    ensures |data| == 4
  {
    var off := dt.year - 2000;
    [dt.minute, dt.hour, dt.day + 32 * (off % 8), dt.month + 16 * (off / 8)]
  }

  /** Every date-time a type F field can carry decodes from its encoding. */
  lemma DateTimeFRoundTrip(dt: DateTime)
    requires ValidDateTime(dt)
    ensures DecodeDateTimeF(EncodeDateTimeF(dt)) == Some(dt)
  {
    var off := dt.year - 2000;
    Split(dt.day, off % 8, 32);
    Split(dt.month, off / 8, 16);
    assert off / 8 < 16 && off % 8 < 8;
    Split(off / 8, 0, 16);
    Split(off % 8, 0, 8);
  }

  /**
   * A valid type F field agrees with the encoding of its date-time on every bit the
   * decoder reads; the ignored bits are bits 6-7 of byte 0, bits 5-7 of byte 1 and any
   * bytes after the fourth.
   */
  lemma DateTimeFEncodesDecoded(data: seq<Byte>)
    requires DecodeDateTimeF(data).Some?
    ensures var e := EncodeDateTimeF(DecodeDateTimeF(data).value);
      e[0] == data[0] % 64 && e[1] == data[1] % 32 && e[2] == data[2] && e[3] == data[3]
  {
    var off := DecodeDateTimeF(data).value.year - 2000;
    assert off == data[2] / 32 + 8 * (data[3] / 16);
    Split(data[2] / 32, data[3] / 16, 8);
  }

  /** format_date: `%04d-%02d-%02d`. */
  function FormatDate(d: Date): string
  {
    PadDecimal(d.year, 4) + "-" + PadDecimal(d.month, 2) + "-" + PadDecimal(d.day, 2)
  }

  /** format_datetime: `%04d-%02d-%02d %02d:%02d`. */
  function FormatDateTime(dt: DateTime): string
  {
    PadDecimal(dt.year, 4) + "-" + PadDecimal(dt.month, 2) + "-" + PadDecimal(dt.day, 2)
      + " " + PadDecimal(dt.hour, 2) + ":" + PadDecimal(dt.minute, 2)
  }

  lemma PadDecimalWidth(n: nat, width: nat)
    requires 0 < width && n < Pow(10, width)
    ensures |PadDecimal(n, width)| == width
  {
    NatToStringLength(n, width);
  }

  /** A rendered date is ten characters whose fields read back as year, month and day. */
  lemma FormatDateFields(d: Date)
    requires ValidDate(d.year, d.month, d.day)
    ensures var s := FormatDate(d);
      |s| == 10 && s[4] == '-' && s[7] == '-'
      && AllDecimal(s[..4]) && AllDecimal(s[5..7]) && AllDecimal(s[8..])
      && ParseBase(s[..4], 10) == d.year && ParseBase(s[5..7], 10) == d.month
      && ParseBase(s[8..], 10) == d.day
  {
    assert Pow(10, 2) == 100;
    assert Pow(10, 4) == 10000;
    PadDecimalWidth(d.year, 4);
    PadDecimalWidth(d.month, 2);
    PadDecimalWidth(d.day, 2);
    var s := FormatDate(d);
    assert s[..4] == PadDecimal(d.year, 4);
    assert s[5..7] == PadDecimal(d.month, 2);
    assert s[8..] == PadDecimal(d.day, 2);
  }

  /** A rendered date-time is sixteen characters whose fields read back as its components. */
  lemma FormatDateTimeFields(dt: DateTime)
    requires ValidDateTime(dt)
    ensures var s := FormatDateTime(dt);
      |s| == 16 && s[4] == '-' && s[7] == '-' && s[10] == ' ' && s[13] == ':'
      && AllDecimal(s[..4]) && AllDecimal(s[5..7]) && AllDecimal(s[8..10])
      && AllDecimal(s[11..13]) && AllDecimal(s[14..])
      && ParseBase(s[..4], 10) == dt.year && ParseBase(s[5..7], 10) == dt.month
      && ParseBase(s[8..10], 10) == dt.day && ParseBase(s[11..13], 10) == dt.hour
      && ParseBase(s[14..], 10) == dt.minute
  {
    var date := Date(dt.year, dt.month, dt.day);
    var d := FormatDate(date);
    FormatDateFields(date);
    assert Pow(10, 2) == 100;
    PadDecimalWidth(dt.hour, 2);
    PadDecimalWidth(dt.minute, 2);
    var hour, minute := PadDecimal(dt.hour, 2), PadDecimal(dt.minute, 2);
    var s := FormatDateTime(dt);
    assert s == d + " " + hour + ":" + minute;
    assert s[..10] == d;
    assert s[..4] == d[..4] && s[5..7] == d[5..7] && s[8..10] == d[8..];
    assert s[11..13] == hour && s[14..] == minute;
  }

  // ---------------------------------------------------------------------------
  // Status flags (format_error_flags)
  // ---------------------------------------------------------------------------

  /** format_error_flags: "OK" for no flags, else `ERROR_FLAGS_%04X` of the low 16 bits. */
  function FormatErrorFlags(flags: nat): (s: string)
    ensures s == "OK" <==> flags == 0
    ensures flags != 0 ==>
      |s| == 16 && s[..12] == "ERROR_FLAGS_" && AllUpperHex(s[12..])
      && ParseBase(s[12..], 16) == flags % 0x10000
  {
    if flags == 0 then "OK" else "ERROR_FLAGS_" + Hex4(flags % 0x10000)
  }
}
