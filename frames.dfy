/**
 * Command frames of the AS608/ZFM fingerprint sensor, as built by the
 * eight command builders of as608.c.
 *
 * A frame is: header EF 01, the 4-byte broadcast address FF FF FF FF,
 * the packet identifier 01 (command packet), a big-endian 16-bit length
 * (instruction + payload + checksum), the instruction byte, the payload
 * and a big-endian 16-bit checksum, the sum of every byte from the packet
 * identifier to the end of the payload.
 *
 * The builders below are the bytes the C code writes, literal by literal;
 * `Encode` is an independent reference definition of the layout, and the
 * lemmas connect the two.
 */
module Frames {
  import opened Common

  /** Header, broadcast address and command packet identifier. */
  const Prefix: seq<uint8> := [0xEF, 0x01, 0xFF, 0xFF, 0xFF, 0xFF, 0x01]

  /** `(x >> 8) & 0xFF` */
  function Hi(x: uint16): uint8 { x / 0x100 }

  /** `x & 0xFF` */
  function Lo(x: uint16): uint8 { x % 0x100 }

  /** The big-endian 16-bit value of two bytes. */
  function Word(hi: uint8, lo: uint8): uint16 { hi * 0x100 + lo }

  lemma WordHiLo(x: uint16)
    ensures Word(Hi(x), Lo(x)) == x
  {
  }

  lemma HiLoWord(hi: uint8, lo: uint8)
    ensures Hi(Word(hi, lo)) == hi && Lo(Word(hi, lo)) == lo
  {
  }

  /** Sum of the bytes of `s`, unbounded. */
  function Sum(s: seq<uint8>): nat
  {
    if s == [] then 0 else s[0] + Sum(s[1..])
  }

  lemma {:induction false} SumAppend(s: seq<uint8>, t: seq<uint8>)
    ensures Sum(s + t) == Sum(s) + Sum(t)
  {
    if s == [] {
      assert s + t == t;
    } else {
      assert (s + t)[1..] == s[1..] + t;
      SumAppend(s[1..], t);
    }
  }

  /** Adding one more byte to the end adds its value: the step of an accumulator loop. */
  lemma SumSnoc(s: seq<uint8>, x: uint8)
    ensures Sum(s + [x]) == Sum(s) + x
  {
    SumAppend(s, [x]);
  }

  /** The sum kept in a `uint16_t` accumulator, which wraps modulo 2^16. */
  function Sum16(s: seq<uint8>): uint16
  {
    Sum(s) % 0x1_0000
  }

  /** Adding one more byte to a wrapping 16-bit sum. */
  lemma Sum16Snoc(s: seq<uint8>, x: uint8)
    ensures Sum16(s + [x]) == (Sum16(s) + x) % 0x1_0000
  {
    SumSnoc(s, x);
    var q := Sum(s) / 0x1_0000;
    assert Sum(s) == q * 0x1_0000 + Sum16(s);
    WrapShift(q, Sum16(s) + x);
  }

  /** Whole multiples of 2^16 vanish from a wrapping sum. */
  lemma {:induction false} WrapShift(q: nat, y: nat)
    ensures (q * 0x1_0000 + y) % 0x1_0000 == y % 0x1_0000
  {
    if q > 0 {
      WrapShift(q - 1, y);
      assert q * 0x1_0000 + y == ((q - 1) * 0x1_0000 + y) + 0x1_0000;
    }
  }

  // ---------------------------------------------------------------------
  // The frames as the C code writes them
  // ---------------------------------------------------------------------

  /** as608_verify_password: the checksum bytes are hard-coded as 0x10 0x1B. */
  function VerifyPasswordFrame(): seq<uint8>
  {
    [0xEF, 0x01, 0xFF, 0xFF, 0xFF, 0xFF, 0x01, 0x00, 0x07, 0x13, 0x00, 0x00, 0x00, 0x00, 0x10, 0x1B]
  }

  /** as608_get_image */
  function GetImageFrame(): seq<uint8>
  {
    [0xEF, 0x01, 0xFF, 0xFF, 0xFF, 0xFF, 0x01, 0x00, 0x03, 0x01, 0x00, 0x05]
  }

  /** as608_image_to_template: the low checksum byte is `0x07 + slot` stored in a `uint8_t`. */
  function ImageToTemplateFrame(slot: uint8): seq<uint8>
  {
    [0xEF, 0x01, 0xFF, 0xFF, 0xFF, 0xFF, 0x01, 0x00, 0x04, 0x02, slot, 0x00, (0x07 + slot) % 0x100]
  }

  /** as608_create_model */
  function CreateModelFrame(): seq<uint8>
  {
    [0xEF, 0x01, 0xFF, 0xFF, 0xFF, 0xFF, 0x01, 0x00, 0x03, 0x05, 0x00, 0x09]
  }

  /** as608_store_model: buffer 1, the id split into high and low byte, checksum as an explicit sum. */
  function StoreModelFrame(id: uint16): seq<uint8>
  {
    var idHigh := Hi(id);
    var idLow := Lo(id);
    var checksum: uint16 := (0x01 + 0x00 + 0x06 + 0x06 + 0x01 + idHigh + idLow) % 0x1_0000;
    [0xEF, 0x01, 0xFF, 0xFF, 0xFF, 0xFF, 0x01, 0x00, 0x06, 0x06, 0x01, idHigh, idLow, Hi(checksum), Lo(checksum)]
  }

  /** The search frame before its checksum is filled in (bytes 15 and 16 are placeholders). */
  function SearchModelTemplate(): seq<uint8>
  {
    [0xEF, 0x01, 0xFF, 0xFF, 0xFF, 0xFF, 0x01, 0x00, 0x08, 0x04, 0x01, 0x00, 0x00, 0x00, 0x64, 0x00, 0x00]
  }

  /** as608_search_model: buffer 1, start page 0, page count 100; checksum accumulated over bytes 6..14. */
  function SearchModelFrame(): seq<uint8>
  {
    var cmd := SearchModelTemplate();
    var checksum := Sum16(cmd[6..15]);
    cmd[15 := Hi(checksum)][16 := Lo(checksum)]
  }

  /** The delete frame before its checksum is filled in (bytes 14 and 15 are placeholders). */
  function DeleteModelTemplate(id: uint16): seq<uint8>
  {
    [0xEF, 0x01, 0xFF, 0xFF, 0xFF, 0xFF, 0x01, 0x00, 0x07, 0x0C, Hi(id), Lo(id), 0x00, 0x01, 0x00, 0x00]
  }

  /** as608_delete_model: page id, count 1; checksum accumulated over bytes 6..13. */
  function DeleteModelFrame(id: uint16): seq<uint8>
  {
    var cmd := DeleteModelTemplate(id);
    var checksum := Sum16(cmd[6..14]);
    cmd[14 := Hi(checksum)][15 := Lo(checksum)]
  }

  /** as608_empty_database */
  function EmptyDatabaseFrame(): seq<uint8>
  {
    [0xEF, 0x01, 0xFF, 0xFF, 0xFF, 0xFF, 0x01, 0x00, 0x03, 0x0D, 0x00, 0x11]
  }

  // ---------------------------------------------------------------------
  // Reference definition of the packet layout
  // ---------------------------------------------------------------------

  datatype Packet = Packet(instruction: uint8, payload: seq<uint8>)

  /** The length field must fit in 16 bits. */
  predicate Encodable(p: Packet)
  {
    |p.payload| + 3 < 0x1_0000
  }

  /** The command packet for `p`, laid out as the sensor protocol prescribes. */
  function Encode(p: Packet): (f: seq<uint8>)
    requires Encodable(p)
    ensures |f| == |p.payload| + 12
  {
    var body := Prefix + [Hi(|p.payload| + 3), Lo(|p.payload| + 3), p.instruction] + p.payload;
    var checksum := Sum16(body[6..]);
    body + [Hi(checksum), Lo(checksum)]
  }

  /** The frame starts with header, broadcast address and command packet identifier. */
  predicate HasPrefix(f: seq<uint8>)
  {
    |f| >= 9 && f[..7] == Prefix
  }

  /** Bytes 7-8, big-endian, equal the frame length minus 9. */
  predicate LengthFieldOk(f: seq<uint8>)
  {
    |f| >= 9 && Word(f[7], f[8]) == |f| - 9
  }

  /** The last two bytes, big-endian, equal the 16-bit sum of bytes 6 up to the checksum. */
  predicate ChecksumOk(f: seq<uint8>)
  {
    |f| >= 9 && Word(f[|f| - 2], f[|f| - 1]) == Sum16(f[6..|f| - 2])
  }

  /** Parses a command frame back into its instruction and payload; None unless well formed. */
  function Decode(f: seq<uint8>): Option<Packet>
  {
    if |f| >= 12 && HasPrefix(f) && LengthFieldOk(f) && ChecksumOk(f)
    then Some(Packet(f[9], f[10..|f| - 2]))
    else None
  }

  lemma {:induction false} EncodeWellFormed(p: Packet)
    requires Encodable(p)
    ensures HasPrefix(Encode(p)) && LengthFieldOk(Encode(p)) && ChecksumOk(Encode(p))
  {
    var n := |p.payload| + 3;
    var body := Prefix + [Hi(n), Lo(n), p.instruction] + p.payload;
    var f := Encode(p);
    assert f[..|f| - 2] == body;
    assert f[6..|f| - 2] == body[6..];
    WordHiLo(n);
    WordHiLo(Sum16(body[6..]));
  }

  /** Decoding an encoded packet gives the packet back. */
  lemma {:induction false} DecodeEncode(p: Packet)
    requires Encodable(p)
    ensures Decode(Encode(p)) == Some(p)
  {
    EncodeWellFormed(p);
    var f := Encode(p);
    assert f[10..|f| - 2] == p.payload;
  }

  /** The length and checksum bytes of a frame that decodes are the bytes of the values they check. */
  lemma DecodedFields(f: seq<uint8>)
    requires Decode(f).Some?
    ensures var c := Sum16(f[6..|f| - 2]);
            Hi(|f| - 9) == f[7] && Lo(|f| - 9) == f[8] && Hi(c) == f[|f| - 2] && Lo(c) == f[|f| - 1]
  {
    HiLoWord(f[7], f[8]);
    HiLoWord(f[|f| - 2], f[|f| - 1]);
  }

  /** A frame that decodes is exactly the encoding of what it decodes to. */
  lemma {:induction false} EncodeDecode(f: seq<uint8>)
    requires Decode(f).Some?
    ensures Encodable(Decode(f).value) && Encode(Decode(f).value) == f
  {
    var p := Decode(f).value;
    DecodedFields(f);
    FrameBody(f);
    var g := f[..|f| - 2];
    assert Encode(p) == g + [Hi(Sum16(g[6..])), Lo(Sum16(g[6..]))];
    assert g[6..] == f[6..|f| - 2];
    assert f == g + [f[|f| - 2], f[|f| - 1]];
  }

  /** A frame that decodes is its prefix, length field and instruction, then its payload, then the checksum. */
  lemma FrameBody(f: seq<uint8>)
    requires Decode(f).Some?
    ensures var p := Decode(f).value;
            Encodable(p) && |p.payload| + 3 == |f| - 9
            && Prefix + [Hi(|p.payload| + 3), Lo(|p.payload| + 3), p.instruction] + p.payload == f[..|f| - 2]
  {
    var p := Decode(f).value;
    DecodedFields(f);
    var g := f[..|f| - 2];
    assert g == g[..7] + [g[7], g[8], g[9]] + g[10..];
  }

  // ---------------------------------------------------------------------
  // The builders against the reference layout
  // ---------------------------------------------------------------------

  lemma SumPair(a: uint8, b: uint8)
    ensures Sum([a]) == a && Sum([a, b]) == a + b
  {
    assert [a][1..] == [] && [b][1..] == [];
    assert Sum([b]) == b;
    assert [a, b][1..] == [b];
  }

  lemma {:induction false} GetImageIsEncoded()
    ensures GetImageFrame() == Encode(Packet(0x01, []))
  {
    var body := Prefix + [Hi(3), Lo(3), 0x01] + [];
    assert body[6..] == [0x01, 0x00, 0x03, 0x01];
    assert Sum([0x01, 0x00, 0x03, 0x01]) == 0x05;
  }

  lemma {:induction false} ImageToTemplateIsEncoded(slot: uint8)
    requires slot <= 0xF8
    ensures ImageToTemplateFrame(slot) == Encode(Packet(0x02, [slot]))
  {
    var body := Prefix + [Hi(4), Lo(4), 0x02] + [slot];
    assert body[6..] == [0x01, 0x00, 0x04, 0x02] + [slot];
    SumAppend([0x01, 0x00, 0x04, 0x02], [slot]);
    assert Sum([0x01, 0x00, 0x04, 0x02]) == 0x07;
    SumPair(slot, 0);
  }

  lemma {:induction false} CreateModelIsEncoded()
    ensures CreateModelFrame() == Encode(Packet(0x05, []))
  {
    var body := Prefix + [Hi(3), Lo(3), 0x05] + [];
    assert body[6..] == [0x01, 0x00, 0x03, 0x05];
    assert Sum([0x01, 0x00, 0x03, 0x05]) == 0x09;
  }

  lemma {:induction false} StoreModelIsEncoded(id: uint16)
    ensures StoreModelFrame(id) == Encode(Packet(0x06, [0x01, Hi(id), Lo(id)]))
  {
    var body := Prefix + [Hi(6), Lo(6), 0x06] + [0x01, Hi(id), Lo(id)];
    assert body[6..] == [0x01, 0x00, 0x06, 0x06, 0x01] + [Hi(id), Lo(id)];
    SumAppend([0x01, 0x00, 0x06, 0x06, 0x01], [Hi(id), Lo(id)]);
    assert Sum([0x01, 0x00, 0x06, 0x06, 0x01]) == 0x0E;
    SumPair(Hi(id), Lo(id));
  }

  lemma {:induction false} SearchModelIsEncoded()
    ensures SearchModelFrame() == Encode(Packet(0x04, [0x01, 0x00, 0x00, 0x00, 0x64]))
  {
    var t := SearchModelTemplate();
    var body := Prefix + [Hi(8), Lo(8), 0x04] + [0x01, 0x00, 0x00, 0x00, 0x64];
    assert Hi(8) == 0x00 && Lo(8) == 0x08;
    assert t[..15] == body;
    assert t[6..15] == body[6..];
    var c := Sum16(body[6..]);
    assert SearchModelFrame() == body + [Hi(c), Lo(c)];
  }

  lemma {:induction false} DeleteModelIsEncoded(id: uint16)
    ensures DeleteModelFrame(id) == Encode(Packet(0x0C, [Hi(id), Lo(id), 0x00, 0x01]))
  {
    var t := DeleteModelTemplate(id);
    var body := Prefix + [Hi(7), Lo(7), 0x0C] + [Hi(id), Lo(id), 0x00, 0x01];
    assert Hi(7) == 0x00 && Lo(7) == 0x07;
    assert t[..14] == body;
    assert t[6..14] == body[6..];
    var c := Sum16(body[6..]);
    assert DeleteModelFrame(id) == body + [Hi(c), Lo(c)];
  }

  lemma {:induction false} EmptyDatabaseIsEncoded()
    ensures EmptyDatabaseFrame() == Encode(Packet(0x0D, []))
  {
    var body := Prefix + [Hi(3), Lo(3), 0x0D] + [];
    assert body[6..] == [0x01, 0x00, 0x03, 0x0D];
    assert Sum([0x01, 0x00, 0x03, 0x0D]) == 0x11;
  }

  // ---------------------------------------------------------------------
  // Properties of the frames the driver sends
  // ---------------------------------------------------------------------

  /** Every builder's frame opens with EF 01 FF FF FF FF 01 and carries a length field equal to its length minus 9. */
  lemma {:induction false} FramesHaveHeaderAndLength(id: uint16, slot: uint8)
    ensures HasPrefix(VerifyPasswordFrame()) && LengthFieldOk(VerifyPasswordFrame())
    ensures HasPrefix(GetImageFrame()) && LengthFieldOk(GetImageFrame())
    ensures HasPrefix(ImageToTemplateFrame(slot)) && LengthFieldOk(ImageToTemplateFrame(slot))
    ensures HasPrefix(CreateModelFrame()) && LengthFieldOk(CreateModelFrame())
    ensures HasPrefix(StoreModelFrame(id)) && LengthFieldOk(StoreModelFrame(id))
    ensures HasPrefix(SearchModelFrame()) && LengthFieldOk(SearchModelFrame())
    ensures HasPrefix(DeleteModelFrame(id)) && LengthFieldOk(DeleteModelFrame(id))
    ensures HasPrefix(EmptyDatabaseFrame()) && LengthFieldOk(EmptyDatabaseFrame())
  {
    assert HasPrefix(GetImageFrame()) && LengthFieldOk(GetImageFrame()) by {
      GetImageIsEncoded();
      EncodeWellFormed(Packet(0x01, []));
    }
    assert HasPrefix(CreateModelFrame()) && LengthFieldOk(CreateModelFrame()) by {
      CreateModelIsEncoded();
      EncodeWellFormed(Packet(0x05, []));
    }
    assert HasPrefix(StoreModelFrame(id)) && LengthFieldOk(StoreModelFrame(id)) by {
      StoreModelIsEncoded(id);
      EncodeWellFormed(Packet(0x06, [0x01, Hi(id), Lo(id)]));
    }
    assert HasPrefix(SearchModelFrame()) && LengthFieldOk(SearchModelFrame()) by {
      SearchModelIsEncoded();
      EncodeWellFormed(Packet(0x04, [0x01, 0x00, 0x00, 0x00, 0x64]));
    }
    assert HasPrefix(DeleteModelFrame(id)) && LengthFieldOk(DeleteModelFrame(id)) by {
      DeleteModelIsEncoded(id);
      EncodeWellFormed(Packet(0x0C, [Hi(id), Lo(id), 0x00, 0x01]));
    }
    assert HasPrefix(EmptyDatabaseFrame()) && LengthFieldOk(EmptyDatabaseFrame()) by {
      EmptyDatabaseIsEncoded();
      EncodeWellFormed(Packet(0x0D, []));
    }
  }

  /**
   * The seven frames other than verify_password end in the big-endian 16-bit sum
   * of bytes 6 up to the checksum; image_to_template only while `0x07 + slot`
   * fits in the byte it is stored in, which holds for the slots 1 and 2 that
   * are ever passed.
   */
  lemma {:induction false} FramesChecksummed(id: uint16, slot: uint8)
    requires slot <= 0xF8
    ensures ChecksumOk(GetImageFrame())
    ensures ChecksumOk(ImageToTemplateFrame(slot))
    ensures ChecksumOk(CreateModelFrame())
    ensures ChecksumOk(StoreModelFrame(id))
    ensures ChecksumOk(SearchModelFrame())
    ensures ChecksumOk(DeleteModelFrame(id))
    ensures ChecksumOk(EmptyDatabaseFrame())
  {
    assert ChecksumOk(GetImageFrame()) by {
      GetImageIsEncoded();
      EncodeWellFormed(Packet(0x01, []));
    }
    assert ChecksumOk(ImageToTemplateFrame(slot)) by {
      ImageToTemplateIsEncoded(slot);
      EncodeWellFormed(Packet(0x02, [slot]));
    }
    assert ChecksumOk(CreateModelFrame()) by {
      CreateModelIsEncoded();
      EncodeWellFormed(Packet(0x05, []));
    }
    assert ChecksumOk(StoreModelFrame(id)) by {
      StoreModelIsEncoded(id);
      EncodeWellFormed(Packet(0x06, [0x01, Hi(id), Lo(id)]));
    }
    assert ChecksumOk(SearchModelFrame()) by {
      SearchModelIsEncoded();
      EncodeWellFormed(Packet(0x04, [0x01, 0x00, 0x00, 0x00, 0x64]));
    }
    assert ChecksumOk(DeleteModelFrame(id)) by {
      DeleteModelIsEncoded(id);
      EncodeWellFormed(Packet(0x0C, [Hi(id), Lo(id), 0x00, 0x01]));
    }
    assert ChecksumOk(EmptyDatabaseFrame()) by {
      EmptyDatabaseIsEncoded();
      EncodeWellFormed(Packet(0x0D, []));
    }
  }

  /** Each of the seven decodes back to its instruction and payload. */
  lemma {:induction false} FramesDecode(id: uint16, slot: uint8)
    requires slot <= 0xF8
    ensures Decode(GetImageFrame()) == Some(Packet(0x01, []))
    ensures Decode(ImageToTemplateFrame(slot)) == Some(Packet(0x02, [slot]))
    ensures Decode(CreateModelFrame()) == Some(Packet(0x05, []))
    ensures Decode(StoreModelFrame(id)) == Some(Packet(0x06, [0x01, Hi(id), Lo(id)]))
    ensures Decode(SearchModelFrame()) == Some(Packet(0x04, [0x01, 0x00, 0x00, 0x00, 0x64]))
    ensures Decode(DeleteModelFrame(id)) == Some(Packet(0x0C, [Hi(id), Lo(id), 0x00, 0x01]))
    ensures Decode(EmptyDatabaseFrame()) == Some(Packet(0x0D, []))
  {
    GetImageIsEncoded();
    DecodeEncode(Packet(0x01, []));
    ImageToTemplateIsEncoded(slot);
    DecodeEncode(Packet(0x02, [slot]));
    CreateModelIsEncoded();
    DecodeEncode(Packet(0x05, []));
    StoreModelIsEncoded(id);
    DecodeEncode(Packet(0x06, [0x01, Hi(id), Lo(id)]));
    SearchModelIsEncoded();
    DecodeEncode(Packet(0x04, [0x01, 0x00, 0x00, 0x00, 0x64]));
    DeleteModelIsEncoded(id);
    DecodeEncode(Packet(0x0C, [Hi(id), Lo(id), 0x00, 0x01]));
    EmptyDatabaseIsEncoded();
    DecodeEncode(Packet(0x0D, []));
  }

  /** The bytes verify_password's checksum should cover. */
  lemma VerifyPasswordSum()
    ensures Sum([0x01, 0x00, 0x07, 0x13, 0x00, 0x00, 0x00, 0x00]) == 0x1B
  {
    var s: seq<uint8> := [0x01, 0x00, 0x07, 0x13, 0x00, 0x00, 0x00, 0x00];
    assert s == [0x01, 0x00, 0x07, 0x13] + [0x00, 0x00, 0x00, 0x00];
    SumAppend([0x01, 0x00, 0x07, 0x13], [0x00, 0x00, 0x00, 0x00]);
  }

  /**
   * verify_password's hard-coded trailing bytes 10 1B are not the sum of its
   * bytes 6..13 (that sum is 00 1B): the frame differs from the encoding of
   * its own packet in byte 14 alone, and does not decode.
   */
  lemma {:induction false} VerifyPasswordChecksumMismatch()
    ensures !ChecksumOk(VerifyPasswordFrame())
    ensures Decode(VerifyPasswordFrame()) == None
    ensures Encode(Packet(0x13, [0x00, 0x00, 0x00, 0x00])) == VerifyPasswordFrame()[14 := 0x00]
  {
    var f := VerifyPasswordFrame();
    assert f[6..14] == [0x01, 0x00, 0x07, 0x13, 0x00, 0x00, 0x00, 0x00];
    VerifyPasswordSum();
    var body := Prefix + [Hi(7), Lo(7), 0x13] + [0x00, 0x00, 0x00, 0x00];
    assert body[6..] == f[6..14];
    assert body + [0x00, 0x1B] == f[14 := 0x00];
  }

  /** store_model writes the id big-endian at bytes 11-12. */
  lemma StoreModelId(id: uint16)
    ensures var f := StoreModelFrame(id); |f| == 15 && Word(f[11], f[12]) == id
  {
    WordHiLo(id);
  }

  /** delete_model writes the id big-endian at bytes 10-11. */
  lemma DeleteModelId(id: uint16)
    ensures var f := DeleteModelFrame(id); |f| == 16 && Word(f[10], f[11]) == id
  {
    WordHiLo(id);
  }

  /**
   * image_to_template puts the slot at byte 10 and `0x07 + slot`, truncated
   * to a byte, at byte 12; the sum rule holds exactly when that addition does
   * not wrap.
   */
  lemma {:induction false} ImageToTemplateSlot(slot: uint8)
    ensures var f := ImageToTemplateFrame(slot); |f| == 13 && f[10] == slot && f[12] == (0x07 + slot) % 0x100
    ensures ChecksumOk(ImageToTemplateFrame(slot)) <==> slot <= 0xF8
  {
    var f := ImageToTemplateFrame(slot);
    assert f[6..11] == [0x01, 0x00, 0x04, 0x02] + [slot];
    SumAppend([0x01, 0x00, 0x04, 0x02], [slot]);
    assert Sum([0x01, 0x00, 0x04, 0x02]) == 0x07;
    SumPair(slot, 0);
  }
}
