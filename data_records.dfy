/**
 * The data-record reader of the EVO868 driver: DIF, DIFE chain, VIF, VIFE chain and
 * payload, as laid out by EN 13757-3, with the driver's own length table, and the
 * storage number assembled from DIF bit 6 and the DIFE low nibbles.
 */
module DataRecords {
  import opened Wrappers
  import opened Bytes

  /** The padding byte that may stand where a DIF is expected. */
  const Filler: Byte := 0x2F

  /**
   * Payload widths per DIF low-nibble code as the driver has them. Note that this is not
   * EN 13757-3's table: there 5 is a 32-bit real (4 bytes), 6 a 48-bit and 7 a 64-bit
   * integer, D variable length and E a 12-digit BCD; here 7 is variable length.
   */
  const LengthTable: seq<nat> := [0, 1, 2, 3, 4, 6, 8, 0, 0, 1, 2, 3, 4, 6, 8, 0]

  /** data_field_length: the table width, or for code 7 the byte at `pos` (0 past the end). */
  function FieldLength(code: Byte, raw: seq<Byte>, pos: nat): (len: nat)
    ensures len < 256
    ensures code < 16 && code != 7 ==> len == LengthTable[code]
    ensures code == 7 ==> len == if pos < |raw| then raw[pos] else 0
    ensures code >= 16 ==> len == 0
  {
    if code < 16 then
      if code == 7 then
        if pos >= |raw| then 0 else raw[pos]
      else LengthTable[code]
    else 0
  }

  /** The BCD codes 9..E have the widths of the integer codes 1..6; 0, 7, 8 and F have none. */
  lemma LengthTableShape()
    ensures forall c :: 1 <= c <= 6 ==> LengthTable[c + 8] == LengthTable[c] > 0
    ensures forall c :: 0 <= c < 16 ==> (LengthTable[c] == 0 <==> c == 0 || c == 7 || c == 8 || c == 15)
  {
  }

  // ---------------------------------------------------------------------------
  // Storage numbers (compute_storage_number)
  // ---------------------------------------------------------------------------

  /** The low nibbles of the DIFEs, the first one least significant. */
  function NibbleSum(difes: seq<Byte>): nat
  {
    if |difes| == 0 then 0 else difes[0] % 16 + 16 * NibbleSum(difes[1..])
  }

  /** DIF bit 6 at bit 0, then DIFE k's low nibble at bits 1 + 4k, without truncation. */
  function StorageValue(dif: Byte, difes: seq<Byte>): nat
  {
    dif / 64 % 2 + 2 * NibbleSum(difes)
  }

  /** The storage number as the driver keeps it: truncated to 16 bits. */
  function StorageNumber(dif: Byte, difes: seq<Byte>): nat
  {
    StorageValue(dif, difes) % 0x10000
  }

  lemma {:induction false} NibbleSumSnoc(difes: seq<Byte>, b: Byte)
    ensures NibbleSum(difes + [b]) == NibbleSum(difes) + b % 16 * Pow(16, |difes|)
  {
    if |difes| == 0 {
      assert (difes + [b])[1..] == [];
    } else {
      assert (difes + [b])[1..] == difes[1..] + [b];
      NibbleSumSnoc(difes[1..], b);
      assert 16 * (b % 16 * Pow(16, |difes| - 1)) == b % 16 * Pow(16, |difes|);
    }
  }

  lemma {:induction false} NibbleSumBound(difes: seq<Byte>)
    ensures NibbleSum(difes) < Pow(16, |difes|)
  {
    if |difes| > 0 {
      NibbleSumBound(difes[1..]);
    }
  }

  /** Bits 4k .. 4k + 3 of n. */
  function Nibble(n: nat, k: nat): nat
  {
    if k == 0 then n % 16 else Nibble(n / 16, k - 1)
  }

  /** Nibble k of NibbleSum is the low nibble of DIFE k. */
  lemma {:induction false} NibbleSumDigit(difes: seq<Byte>, k: nat)
    requires k < |difes|
    ensures Nibble(NibbleSum(difes), k) == difes[k] % 16
  {
    if k > 0 {
      NibbleSumDigit(difes[1..], k - 1);
      assert NibbleSum(difes) / 16 == NibbleSum(difes[1..]);
    }
  }

  /**
   * compute_storage_number: with at most three DIFEs no bit is lost; bit 0 is DIF bit 6
   * and bits 1 + 4k .. 4 + 4k hold DIFE k's low nibble. Without DIFEs it is 0 or 1.
   */
  lemma StorageNumberLayout(dif: Byte, difes: seq<Byte>)
    requires |difes| <= 3
    ensures StorageNumber(dif, difes) == StorageValue(dif, difes) < 0x2000
    ensures StorageNumber(dif, difes) % 2 == dif / 64 % 2
    ensures forall k :: 0 <= k < |difes| ==> Nibble(StorageNumber(dif, difes) / 2, k) == difes[k] % 16
    ensures |difes| == 0 ==> StorageNumber(dif, difes) == dif / 64 % 2
  {
    NibbleSumBound(difes);
    assert Pow(16, |difes|) <= 4096 by {
      PowAdd(16, |difes|, 3 - |difes|);
    }
    var s := StorageValue(dif, difes);
    assert s / 2 == NibbleSum(difes);
    forall k | 0 <= k < |difes| ensures Nibble(s / 2, k) == difes[k] % 16 {
      NibbleSumDigit(difes, k);
    }
  }

  /**
   * compute_storage_number: ORs each DIFE's low nibble in at shift 1, 5, 9, ... into a
   * 16-bit word; bits shifted beyond bit 15 are lost when the word is stored back.
   */
  method ComputeStorageNumber(dif: Byte, difes: seq<Byte>) returns (storage: nat)
    ensures storage == StorageNumber(dif, difes)
    ensures storage < 0x10000
  {
    storage := dif / 64 % 2;
    var shift := 1;
    var i := 0;
    while i < |difes|
      invariant 0 <= i <= |difes|
      invariant shift == 1 + 4 * i
      invariant storage == StorageValue(dif, difes[..i]) % 0x10000
    {
      StorageValueStep(dif, difes, i);
      TruncateAdd(StorageValue(dif, difes[..i]), difes[i] % 16 * Pow(2, shift));
      storage := (storage + difes[i] % 16 * Pow(2, shift)) % 0x10000;
      shift := shift + 4;
      i := i + 1;
    }
    assert difes[..i] == difes;
  }

  lemma StorageValueStep(dif: Byte, difes: seq<Byte>, i: nat)
    requires i < |difes|
    ensures StorageValue(dif, difes[..i + 1]) == StorageValue(dif, difes[..i]) + difes[i] % 16 * Pow(2, 1 + 4 * i)
  {
    var n := difes[i] % 16;
    var p := Pow(16, i);
    assert difes[..i + 1] == difes[..i] + [difes[i]];
    NibbleSumSnoc(difes[..i], difes[i]);
    assert NibbleSum(difes[..i + 1]) == NibbleSum(difes[..i]) + n * p;
    PowAdd(2, 1, 4 * i);
    PowFour(i);
    assert Pow(2, 1 + 4 * i) == 2 * p;
    Twice(n, p);
  }

  lemma Twice(n: nat, p: nat)
    ensures 2 * (n * p) == n * (2 * p)
  {
  }

  lemma TruncateAdd(a: nat, b: nat)
    ensures (a % 0x10000 + b) % 0x10000 == (a + b) % 0x10000
  {
  }

  lemma {:induction false} PowFour(i: nat)
    ensures Pow(2, 4 * i) == Pow(16, i)
  {
    if i > 0 {
      PowFour(i - 1);
      PowAdd(2, 4, 4 * (i - 1));
    }
  }

  // ---------------------------------------------------------------------------
  // Records
  // ---------------------------------------------------------------------------

  /** One data record as read from the telegram. */
  datatype Record = Record(dif: Byte, difes: seq<Byte>, vif: Byte, vifes: seq<Byte>, data: seq<Byte>)

  /** An extension chain and the position after it. */
  datatype Extension = Extension(bytes: seq<Byte>, next: nat)

  /** What one turn of the decode loop does at a position where a DIF is expected. */
  datatype Step =
    | Padding(next: nat)            // a 0x2F filler byte
    | Skipped(next: nat)            // a record without payload: `continue`
    | Got(rec: Record, next: nat)   // a complete record
    | Stop                          // `break`: the buffer ends inside the record

  /** A continuation chain: every byte but the last has bit 7 set, the last has it clear. */
  predicate IsChain(ext: seq<Byte>)
  {
    |ext| > 0 && ext[|ext| - 1] < 0x80 && forall i :: 0 <= i < |ext| - 1 ==> ext[i] >= 0x80
  }

  /**
   * The DIFE (or VIFE) loop: read bytes while the previous one had bit 7 set and bytes
   * remain.
   */
  function ReadExtension(raw: seq<Byte>, p: nat): (e: Extension)
    requires p <= |raw|
    ensures e.next == p + |e.bytes| <= |raw|
    decreases |raw| - p
  {
    if p >= |raw| then Extension([], p)
    else if raw[p] >= 0x80 then
      var rest := ReadExtension(raw, p + 1);
      Extension([raw[p]] + rest.bytes, rest.next)
    else Extension([raw[p]], p + 1)
  }

  /**
   * The chain read is the bytes it passed over, at least one when any remain; every byte
   * but the last has bit 7 set, and stopping before the end of the buffer means the chain
   * is complete.
   */
  lemma {:induction false} ReadExtensionShape(raw: seq<Byte>, p: nat)
    requires p <= |raw|
    ensures var e := ReadExtension(raw, p);
      && e.bytes == raw[p..e.next]
      && (p < |raw| ==> |e.bytes| > 0)
      && (forall i :: 0 <= i < |e.bytes| - 1 ==> e.bytes[i] >= 0x80)
      && (e.next < |raw| ==> IsChain(e.bytes))
    decreases |raw| - p
  {
    if p < |raw| && raw[p] >= 0x80 {
      ReadExtensionShape(raw, p + 1);
      var rest := ReadExtension(raw, p + 1);
      var e := ReadExtension(raw, p);
      assert e.bytes == [raw[p]] + rest.bytes;
      assert forall i :: 1 <= i < |e.bytes| ==> e.bytes[i] == rest.bytes[i - 1];
    }
  }

  /** A complete chain at p is read back exactly. */
  lemma {:induction false} ReadExtensionOfChain(raw: seq<Byte>, p: nat, ext: seq<Byte>)
    requires IsChain(ext) && p + |ext| <= |raw| && raw[p..p + |ext|] == ext
    ensures ReadExtension(raw, p) == Extension(ext, p + |ext|)
    decreases |ext|
  {
    assert raw[p] == ext[0];
    if |ext| > 1 {
      assert raw[p + 1..p + 1 + |ext[1..]|] == ext[1..];
      ReadExtensionOfChain(raw, p + 1, ext[1..]);
      assert ext == [ext[0]] + ext[1..];
    }
  }

  /** The extension bytes that follow a DIF or VIF: a chain exactly when bit 7 is set. */
  predicate ExtensionShape(head: Byte, ext: seq<Byte>)
  {
    if head >= 0x80 then IsChain(ext) else ext == []
  }

  /**
   * The records the reader produces: complete chains, a code with a payload, and a
   * payload of the table width, or for code 7 either empty (after a zero length byte)
   * or starting with its own length.
   */
  predicate WellFormed(rec: Record)
  {
    var code := rec.dif % 16;
    && ExtensionShape(rec.dif, rec.difes)
    && ExtensionShape(rec.vif, rec.vifes)
    && code != 0 && code != 8 && code != 15
    && (code == 7 ==> rec.data == [] || rec.data[0] == |rec.data|)
    && (code != 7 ==> |rec.data| == LengthTable[code])
  }

  /**
   * The bytes a record occupies. For code 7 a zero length byte precedes an empty payload;
   * a non-zero length byte is not consumed, so it is the first byte of the payload.
   */
  function Encode(rec: Record): seq<Byte>
  {
    [rec.dif] + rec.difes + [rec.vif] + rec.vifes
      + (if rec.dif % 16 == 7 && rec.data == [] then [0] else []) + rec.data
  }

  /** The fixed part of a record: DIF, DIFEs, VIF, VIFEs, and the position after them. */
  datatype Head = Head(dif: Byte, difes: seq<Byte>, vif: Byte, vifes: seq<Byte>, next: nat)

  /** The extension bytes after a DIF or VIF at p - 1: a chain only when its bit 7 is set. */
  function ExtensionAfter(raw: seq<Byte>, head: Byte, p: nat): (e: Extension)
    requires p <= |raw|
    ensures e.next == p + |e.bytes| <= |raw|
  {
    if head >= 0x80 then ReadExtension(raw, p) else Extension([], p)
  }

  /**
   * DIF, DIFEs, VIF and VIFEs from `pos`; None when the buffer ends right after the
   * DIFEs (the `break` before the VIF).
   */
  function ReadHead(raw: seq<Byte>, pos: nat): (h: Option<Head>)
    requires pos < |raw|
    ensures h.Some? ==> pos < h.value.next <= |raw|
  {
    var dif := raw[pos];
    var difes := ExtensionAfter(raw, dif, pos + 1);
    if difes.next >= |raw| then None
    else
      var vif := raw[difes.next];
      var vifes := ExtensionAfter(raw, vif, difes.next + 1);
      Some(Head(dif, difes.bytes, vif, vifes.bytes, vifes.next))
  }

  /**
   * The payload after a head: none for a zero width (`continue`), except that code 7 with
   * a byte left reads that (zero) length byte and an empty payload; `break` when the
   * payload does not fit.
   */
  function ReadPayload(raw: seq<Byte>, h: Head): (r: Step)
    requires h.next <= |raw|
    ensures !r.Stop? ==> h.next <= r.next <= |raw|
  {
    var code := h.dif % 16;
    var q := h.next;
    var len := FieldLength(code, raw, q);
    if len == 0 && !(code == 7 && q < |raw|) then Skipped(q)
    else
      var start := if len == 0 then q + 1 else q;
      var size := if len == 0 then raw[q] else len;
      if start + size > |raw| then Stop
      else Got(Record(h.dif, h.difes, h.vif, h.vifes, raw[start..start + size]), start + size)
  }

  /**
   * One turn of the decode loop at `pos` (the body of the record walk). A filler is
   * consumed alone; every turn that does not stop advances by at least one byte and
   * stays within the buffer.
   */
  function RecordAt(raw: seq<Byte>, pos: nat): (r: Step)
    requires pos < |raw|
    ensures r.Padding? <==> raw[pos] == Filler
    ensures r.Padding? ==> r.next == pos + 1
    ensures !r.Stop? ==> pos < r.next <= |raw|
  {
    if raw[pos] == Filler then Padding(pos + 1)
    else match ReadHead(raw, pos)
      case None => Stop
      case Some(h) => ReadPayload(raw, h)
  }

  /** The bytes of a head. */
  function EncodeHead(h: Head): seq<Byte>
  {
    [h.dif] + h.difes + [h.vif] + h.vifes
  }

  /** The length byte that code 7 consumes before an empty payload. */
  function LengthByte(rec: Record): seq<Byte>
  {
    if rec.dif % 16 == 7 && rec.data == [] then [0] else []
  }

  lemma ExtensionAfterShape(raw: seq<Byte>, head: Byte, p: nat)
    requires p <= |raw|
    ensures var e := ExtensionAfter(raw, head, p);
      e.bytes == raw[p..e.next] && (e.next < |raw| ==> ExtensionShape(head, e.bytes))
  {
    if head >= 0x80 {
      ReadExtensionShape(raw, p);
    }
  }

  lemma ReadHeadBytes(raw: seq<Byte>, pos: nat)
    requires pos < |raw| && ReadHead(raw, pos).Some?
    ensures var h := ReadHead(raw, pos).value;
      raw[pos..h.next] == EncodeHead(h) && ExtensionShape(h.dif, h.difes)
      && (h.next < |raw| ==> ExtensionShape(h.vif, h.vifes))
  {
    var h := ReadHead(raw, pos).value;
    var p := ExtensionAfter(raw, raw[pos], pos + 1).next;
    ExtensionAfterShape(raw, raw[pos], pos + 1);
    ExtensionAfterShape(raw, raw[p], p + 1);
    assert raw[pos..h.next] == [raw[pos]] + raw[pos + 1..p] + [raw[p]] + raw[p + 1..h.next];
  }

  lemma ReadPayloadBytes(raw: seq<Byte>, h: Head)
    requires h.next <= |raw| && ReadPayload(raw, h).Got?
    ensures var r := ReadPayload(raw, h);
      && h.next < |raw|
      && r.rec == Record(h.dif, h.difes, h.vif, h.vifes, r.rec.data)
      && raw[h.next..r.next] == LengthByte(r.rec) + r.rec.data
      && var code := h.dif % 16;
      && code != 0 && code != 8 && code != 15
      && (code == 7 ==> r.rec.data == [] || r.rec.data[0] == |r.rec.data|)
      && (code != 7 ==> |r.rec.data| == LengthTable[code])
  {
    var q := h.next;
    var len := FieldLength(h.dif % 16, raw, q);
    var start := if len == 0 then q + 1 else q;
    var size := if len == 0 then raw[q] else len;
    assert raw[q..start + size] == raw[q..start] + raw[start..start + size];
  }

  /** A record the walk hands out is well formed and is exactly the bytes the turn consumed. */
  lemma RecordAtConsumesEncoding(raw: seq<Byte>, pos: nat)
    requires pos < |raw| && RecordAt(raw, pos).Got?
    ensures WellFormed(RecordAt(raw, pos).rec)
    ensures raw[pos..RecordAt(raw, pos).next] == Encode(RecordAt(raw, pos).rec)
  {
    RecordAtWellFormed(raw, pos);
    RecordAtBytes(raw, pos);
  }

  lemma RecordAtWellFormed(raw: seq<Byte>, pos: nat)
    requires pos < |raw| && RecordAt(raw, pos).Got?
    ensures WellFormed(RecordAt(raw, pos).rec)
  {
    var h := ReadHead(raw, pos).value;
    assert RecordAt(raw, pos) == ReadPayload(raw, h);
    ReadHeadBytes(raw, pos);
    ReadPayloadBytes(raw, h);
  }

  lemma RecordAtBytes(raw: seq<Byte>, pos: nat)
    requires pos < |raw| && RecordAt(raw, pos).Got?
    ensures raw[pos..RecordAt(raw, pos).next] == Encode(RecordAt(raw, pos).rec)
  {
    var h := ReadHead(raw, pos).value;
    var r := RecordAt(raw, pos);
    assert r == ReadPayload(raw, h);
    ReadHeadBytes(raw, pos);
    ReadPayloadBytes(raw, h);
    SliceSplit(raw, pos, h.next, r.next);
    EncodeSplit(r.rec, h);
  }

  lemma SliceSplit(raw: seq<Byte>, a: nat, b: nat, c: nat)
    requires a <= b <= c <= |raw|
    ensures raw[a..c] == raw[a..b] + raw[b..c]
  {
  }

  lemma EncodeSplit(rec: Record, h: Head)
    requires h == Head(rec.dif, rec.difes, rec.vif, rec.vifes, h.next)
    ensures Encode(rec) == EncodeHead(h) + (LengthByte(rec) + rec.data)
  {
  }

  lemma MiddleOf(a: seq<Byte>, b: seq<Byte>, c: seq<Byte>)
    ensures (a + b + c)[|a|..|a| + |b|] == b
  {
  }

  /** An extension is read back from its own bytes. */
  lemma ExtensionAfterOf(raw: seq<Byte>, head: Byte, p: nat, ext: seq<Byte>)
    requires ExtensionShape(head, ext) && p + |ext| <= |raw| && raw[p..p + |ext|] == ext
    ensures ExtensionAfter(raw, head, p) == Extension(ext, p + |ext|)
  {
    if head >= 0x80 {
      ReadExtensionOfChain(raw, p, ext);
    }
  }

  /** A head is read from bytes that hold its fields in order. */
  lemma ReadHeadOfFields(raw: seq<Byte>, pos: nat, h: Head)
    requires ExtensionShape(h.dif, h.difes) && ExtensionShape(h.vif, h.vifes)
    requires pos + 1 + |h.difes| < h.next == pos + 2 + |h.difes| + |h.vifes| <= |raw|
    requires raw[pos] == h.dif && raw[pos + 1..pos + 1 + |h.difes|] == h.difes
    requires raw[pos + 1 + |h.difes|] == h.vif && raw[pos + 2 + |h.difes|..h.next] == h.vifes
    ensures ReadHead(raw, pos) == Some(h)
  {
    ExtensionAfterOf(raw, h.dif, pos + 1, h.difes);
    ExtensionAfterOf(raw, h.vif, pos + 2 + |h.difes|, h.vifes);
  }

  /** Where the fields of an encoded head sit in the buffer. */
  lemma HeadFields(pre: seq<Byte>, h: Head, rest: seq<Byte>)
    ensures var raw := pre + EncodeHead(h) + rest; var pos := |pre|; var p := pos + 1 + |h.difes|;
      && |raw| == |pre| + |EncodeHead(h)| + |rest|
      && raw[pos] == h.dif && raw[pos + 1..p] == h.difes
      && raw[p] == h.vif && raw[p + 1..p + 1 + |h.vifes|] == h.vifes
  {
    var raw := pre + EncodeHead(h) + rest;
    var p := |pre| + 1 + |h.difes|;
    assert raw == (pre + [h.dif]) + h.difes + ([h.vif] + h.vifes + rest);
    MiddleOf(pre + [h.dif], h.difes, [h.vif] + h.vifes + rest);
    assert raw == (pre + [h.dif] + h.difes + [h.vif]) + h.vifes + rest;
    MiddleOf(pre + [h.dif] + h.difes + [h.vif], h.vifes, rest);
  }

  /** A complete head is read back from its bytes, whatever follows. */
  lemma ReadHeadOfEncoding(pre: seq<Byte>, h: Head, rest: seq<Byte>)
    requires ExtensionShape(h.dif, h.difes) && ExtensionShape(h.vif, h.vifes)
    requires h.next == |pre| + |EncodeHead(h)|
    ensures ReadHead(pre + EncodeHead(h) + rest, |pre|) == Some(h)
  {
    HeadFields(pre, h, rest);
    ReadHeadOfFields(pre + EncodeHead(h) + rest, |pre|, h);
  }

  /** A well-formed payload is read back from its bytes after the head. */
  lemma ReadPayloadOfFields(raw: seq<Byte>, h: Head, rec: Record)
    requires WellFormed(rec) && h == Head(rec.dif, rec.difes, rec.vif, rec.vifes, h.next)
    requires h.next + |LengthByte(rec) + rec.data| <= |raw|
    requires raw[h.next..h.next + |LengthByte(rec) + rec.data|] == LengthByte(rec) + rec.data
    ensures ReadPayload(raw, h) == Got(rec, h.next + |LengthByte(rec) + rec.data|)
  {
    var q := h.next;
    var tail := LengthByte(rec) + rec.data;
    if rec.dif % 16 == 7 {
      assert raw[q] == raw[q..q + |tail|][0];
      if rec.data == [] {
        assert tail == [0];
      } else {
        assert tail == rec.data;
      }
    } else {
      assert tail == rec.data;
    }
  }

  /** The reader inverts Encode: a well-formed record is read back from its bytes, whatever follows. */
  lemma RecordAtEncode(pre: seq<Byte>, rec: Record, rest: seq<Byte>)
    requires WellFormed(rec)
    ensures RecordAt(pre + Encode(rec) + rest, |pre|) == Got(rec, |pre| + |Encode(rec)|)
  {
    var raw := pre + Encode(rec) + rest;
    var h := Head(rec.dif, rec.difes, rec.vif, rec.vifes, |pre| + 2 + |rec.difes| + |rec.vifes|);
    var tail := LengthByte(rec) + rec.data;
    assert Encode(rec) == EncodeHead(h) + tail;
    assert raw == pre + EncodeHead(h) + (tail + rest);
    ReadHeadOfEncoding(pre, h, tail + rest);
    assert raw == (pre + EncodeHead(h)) + tail + rest;
    MiddleOf(pre + EncodeHead(h), tail, rest);
    ReadPayloadOfFields(raw, h, rec);
    assert raw[|pre|] == rec.dif;
    assert rec.dif % 16 != 15 && Filler % 16 == 15;
    assert RecordAt(raw, |pre|) == ReadPayload(raw, h);
    assert h.next + |tail| == |pre| + |Encode(rec)|;
  }

  /** The positions the decode loop visits from `pos` on, and the records it hands out. */
  function RecordsFrom(raw: seq<Byte>, pos: nat): seq<Record>
    decreases |raw| - pos
  {
    if pos >= |raw| then []
    else match RecordAt(raw, pos)
      case Padding(n) => RecordsFrom(raw, n)
      case Skipped(n) => RecordsFrom(raw, n)
      case Got(rec, n) => [rec] + RecordsFrom(raw, n)
      case Stop => []
  }

  lemma RecordsFromGot(raw: seq<Byte>, pos: nat, rec: Record, n: nat)
    requires pos < |raw| && RecordAt(raw, pos) == Got(rec, n)
    ensures RecordsFrom(raw, pos) == [rec] + RecordsFrom(raw, n)
  {
  }

  /** Every record the walk hands out is well formed (so never of code 0, 8 or F). */
  lemma {:induction false} RecordsFromWellFormed(raw: seq<Byte>, pos: nat)
    ensures forall i :: 0 <= i < |RecordsFrom(raw, pos)| ==> WellFormed(RecordsFrom(raw, pos)[i])
    decreases |raw| - pos
  {
    if pos < |raw| {
      match RecordAt(raw, pos)
      case Padding(n) => RecordsFromWellFormed(raw, n);
      case Skipped(n) => RecordsFromWellFormed(raw, n);
      case Got(rec, n) =>
        RecordAtConsumesEncoding(raw, pos);
        RecordsFromWellFormed(raw, n);
      case Stop =>
    }
  }

  /** The bytes of a sequence of records, one after the other. */
  function EncodeAll(recs: seq<Record>): seq<Byte>
  {
    if |recs| == 0 then [] else Encode(recs[0]) + EncodeAll(recs[1..])
  }

  /** The walk inverts EncodeAll: well-formed records laid end to end are read back in order. */
  lemma {:induction false} RecordsFromEncodeAll(pre: seq<Byte>, recs: seq<Record>)
    requires forall i :: 0 <= i < |recs| ==> WellFormed(recs[i])
    ensures RecordsFrom(pre + EncodeAll(recs), |pre|) == recs
    decreases |recs|
  {
    if |recs| == 0 {
      assert pre + EncodeAll(recs) == pre;
    } else {
      var first := Encode(recs[0]);
      var rest := EncodeAll(recs[1..]);
      assert pre + EncodeAll(recs) == (pre + first) + rest;
      RecordsFromEncodeStep(pre, recs[0], rest);
      assert forall i :: 0 <= i < |recs[1..]| ==> WellFormed(recs[1..][i]);
      RecordsFromEncodeAll(pre + first, recs[1..]);
      assert recs == [recs[0]] + recs[1..];
    }
  }

  /** One encoded record at the front of the walk. */
  lemma RecordsFromEncodeStep(pre: seq<Byte>, rec: Record, rest: seq<Byte>)
    requires WellFormed(rec)
    ensures RecordsFrom((pre + Encode(rec)) + rest, |pre|)
      == [rec] + RecordsFrom((pre + Encode(rec)) + rest, |pre + Encode(rec)|)
  {
    assert (pre + Encode(rec)) + rest == pre + Encode(rec) + rest;
    RecordAtEncode(pre, rec, rest);
    RecordsFromGot((pre + Encode(rec)) + rest, |pre|, rec, |pre + Encode(rec)|);
  }

  /** A filler where a DIF is expected is consumed without producing a record. */
  lemma FillerProducesNoRecord(raw: seq<Byte>, pos: nat)
    requires pos < |raw| && raw[pos] == Filler
    ensures RecordsFrom(raw, pos) == RecordsFrom(raw, pos + 1)
  {
  }

  /** A payload wider than the bytes left after its head ends the walk at this record. */
  lemma OverlongPayloadEndsWalk(raw: seq<Byte>, pos: nat, h: Head)
    requires pos < |raw| && raw[pos] != Filler && ReadHead(raw, pos) == Some(h)
    requires FieldLength(h.dif % 16, raw, h.next) > 0
    requires h.next + FieldLength(h.dif % 16, raw, h.next) > |raw|
    ensures RecordsFrom(raw, pos) == []
  {
  }

  /** The padding skip before the first record: advance past 0x2F bytes. */
  function SkipFiller(raw: seq<Byte>, pos: nat): (p: nat)
    requires pos <= |raw|
    ensures pos <= p <= |raw|
    ensures forall i :: pos <= i < p ==> raw[i] == Filler
    ensures p < |raw| ==> raw[p] != Filler
    decreases |raw| - pos
  {
    if pos < |raw| && raw[pos] == Filler then SkipFiller(raw, pos + 1) else pos
  }

  /** The walk skips fillers on its own, so skipping them first changes no record. */
  lemma {:induction false} SkipFillerKeepsRecords(raw: seq<Byte>, pos: nat)
    requires pos <= |raw|
    ensures RecordsFrom(raw, SkipFiller(raw, pos)) == RecordsFrom(raw, pos)
    decreases |raw| - pos
  {
    if pos < |raw| && raw[pos] == Filler {
      SkipFillerKeepsRecords(raw, pos + 1);
    }
  }

  // ---------------------------------------------------------------------------
  // The record reader, as the decode loop runs it
  // ---------------------------------------------------------------------------

  /** The DIFE / VIFE loop: `more` starts true and follows bit 7 of each byte read. */
  method ReadChain(raw: seq<Byte>, p0: nat) returns (bytes: seq<Byte>, p: nat)
    requires p0 <= |raw|
    ensures Extension(bytes, p) == ReadExtension(raw, p0)
  {
    bytes := [];
    p := p0;
    var more := true;
    while more && p < |raw|
      invariant p0 <= p <= |raw|
      invariant more ==> ReadExtension(raw, p0).bytes == bytes + ReadExtension(raw, p).bytes
      invariant more ==> ReadExtension(raw, p0).next == ReadExtension(raw, p).next
      invariant !more ==> ReadExtension(raw, p0) == Extension(bytes, p)
      decreases |raw| - p
    {
      ghost var e := ReadExtension(raw, p);
      ghost var before := bytes;
      var b := raw[p];
      p := p + 1;
      bytes := bytes + [b];
      more := b >= 0x80;
      if more {
        assert e.bytes == [b] + ReadExtension(raw, p).bytes;
        assert bytes + ReadExtension(raw, p).bytes == before + e.bytes;
      } else {
        assert e == Extension([b], p);
      }
    }
    if more {
      assert ReadExtension(raw, p) == Extension([], p);
      assert bytes + [] == bytes;
    }
  }

  /** One turn of the decode loop: reads a record, or reports filler, skip or stop. */
  method ReadRecord(raw: seq<Byte>, pos0: nat) returns (step: Step)
    requires pos0 < |raw|
    ensures step == RecordAt(raw, pos0)
  {
    var pos := pos0;
    var dif := raw[pos];
    pos := pos + 1;
    if dif == Filler {
      return Padding(pos);
    }
    var difes: seq<Byte> := [];
    if dif >= 0x80 {
      difes, pos := ReadChain(raw, pos);
    }
    if pos >= |raw| {
      return Stop;
    }
    var vif := raw[pos];
    pos := pos + 1;
    var vifes: seq<Byte> := [];
    if vif >= 0x80 {
      vifes, pos := ReadChain(raw, pos);
    }
    assert ReadHead(raw, pos0) == Some(Head(dif, difes, vif, vifes, pos));
    var code := dif % 16;
    var len := FieldLength(code, raw, pos);
    if len == 0 {
      if code == 7 && pos < |raw| {
        len := raw[pos];
        pos := pos + 1;
      } else {
        return Skipped(pos);
      }
    }
    if pos + len > |raw| {
      return Stop;
    }
    var data := raw[pos..pos + len];
    pos := pos + len;
    return Got(Record(dif, difes, vif, vifes, data), pos);
  }
}
