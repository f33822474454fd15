/** Register payload decoding and encoding, as the modelled code uses pymodbus'
    BinaryPayloadDecoder and BinaryPayloadBuilder. Those classes are not part of
    this model; their behaviour is DEFINED here, as an assumption:
    - registers travel big-endian, high byte first (section 4.2 of the MODBUS
      Application Protocol Specification V1.1b3);
    - "little" byte order swaps the two bytes of every word of a field;
    - "little" word order reverses the words of a field before they are joined;
    - the joined words are read as one big-endian unsigned number, and signed
      fields are two's complement;
    - a decoder is a cursor: it advances its pointer by the field width FIRST
      and then reads the bytes just passed; a slice shorter than the width is an
      error (the pointer stays advanced), and reset() puts the pointer back to 0. */
module Payload {
  import opened PyFormat

  type Byte = b: int | 0 <= b < 256
  type Word = w: int | 0 <= w < 65536

  /** The two values of a pymodbus Endian argument (">" and "<"). */
  datatype Endian = Big | Little

  const WordBase: nat := 65536

  /** The bytes of a register list on the wire. */
  function RegistersToBytes(ws: seq<Word>): (bs: seq<Byte>)
    ensures |bs| == 2 * |ws|
  {
    seq(2 * |ws|, k requires 0 <= k < 2 * |ws| => if k % 2 == 0 then ws[k / 2] / 256 else ws[k / 2] % 256)
  }

  /** Pairs of bytes read back as big-endian words. */
  function BytesToWords(bs: seq<Byte>): (ws: seq<Word>)
    requires |bs| % 2 == 0
    ensures |ws| == |bs| / 2
  {
    seq(|bs| / 2, i requires 0 <= i < |bs| / 2 => (bs[2 * i] as int) * 256 + bs[2 * i + 1] as int)
  }

  lemma WordBytes(w: Word)
    ensures (w / 256) * 256 + w % 256 == w
  {
  }

  /** Cutting the wire bytes at word boundaries gives back the registers. */
  lemma BytesToWordsSlice(ws: seq<Word>, j: nat, m: nat)
    requires j + m <= |ws|
    ensures BytesToWords(RegistersToBytes(ws)[2 * j..2 * j + 2 * m]) == ws[j..j + m]
  {
    var bs := RegistersToBytes(ws)[2 * j..2 * j + 2 * m];
    var r := BytesToWords(bs);
    forall i | 0 <= i < m ensures r[i] == ws[j + i] {
      assert bs[2 * i] == RegistersToBytes(ws)[2 * (j + i)];
      assert bs[2 * i + 1] == RegistersToBytes(ws)[2 * (j + i) + 1];
      WordBytes(ws[j + i]);
    }
  }

  /** The word with its two bytes exchanged. */
  function SwapBytes(w: Word): (r: Word)
    ensures r / 256 == w % 256 && r % 256 == w / 256
  {
    (w % 256) * 256 + w / 256
  }

  lemma SwapBytesInvolution(w: Word)
    ensures SwapBytes(SwapBytes(w)) == w
  {
    WordBytes(w);
  }

  /** One word with its bytes in the configured order. */
  function AdjustBytes(w: Word, byteOrder: Endian): Word
  {
    if byteOrder == Little then SwapBytes(w) else w
  }

  /** The words of one field in the order they are joined, bytes swapped as configured. */
  function Arrange(ws: seq<Word>, wordOrder: Endian, byteOrder: Endian): (r: seq<Word>)
    ensures |r| == |ws|
  {
    seq(|ws|, i requires 0 <= i < |ws| =>
      AdjustBytes(if wordOrder == Little then ws[|ws| - 1 - i] else ws[i], byteOrder))
  }

  /** Arranging twice with the same configuration is the identity: the builder
      and the decoder apply the same rearrangement. */
  lemma ArrangeInvolution(ws: seq<Word>, wordOrder: Endian, byteOrder: Endian)
    ensures Arrange(Arrange(ws, wordOrder, byteOrder), wordOrder, byteOrder) == ws
  {
    var a := Arrange(ws, wordOrder, byteOrder);
    var b := Arrange(a, wordOrder, byteOrder);
    forall i | 0 <= i < |ws| ensures b[i] == ws[i] {
      var j := if wordOrder == Little then |ws| - 1 - i else i;
      assert b[i] == AdjustBytes(a[j], byteOrder);
      SwapBytesInvolution(ws[i]);
    }
  }

  /** The words read as one big-endian number, first word most significant. */
  function BigEndianValue(ws: seq<Word>): nat
  {
    if ws == [] then 0 else BigEndianValue(ws[..|ws| - 1]) * WordBase + ws[|ws| - 1]
  }

  lemma {:induction false} BigEndianBound(ws: seq<Word>)
    ensures BigEndianValue(ws) < Pow(WordBase, |ws|)
    decreases |ws|
  {
    if ws != [] {
      var init := ws[..|ws| - 1];
      BigEndianBound(init);
      var p := Pow(WordBase, |init|);
      assert BigEndianValue(ws) <= (p - 1) * WordBase + (WordBase - 1) by {
        MulMono(BigEndianValue(init), p - 1, WordBase);
      }
    }
  }

  lemma MulMono(a: nat, b: nat, c: nat)
    requires a <= b
    ensures a * c <= b * c
  {
  }

  /** The k big-endian words of a number below 65536^k. */
  function ToWords(u: nat, k: nat): (ws: seq<Word>)
    ensures |ws| == k
  {
    if k == 0 then [] else ToWords(u / WordBase, k - 1) + [u % WordBase]
  }

  lemma {:induction false} ToWordsValue(u: nat, k: nat)
    requires u < Pow(WordBase, k)
    ensures BigEndianValue(ToWords(u, k)) == u
    decreases k
  {
    if k > 0 {
      var ws := ToWords(u, k);
      assert ws[..k - 1] == ToWords(u / WordBase, k - 1);
      assert u / WordBase < Pow(WordBase, k - 1) by {
        assert Pow(WordBase, k) == WordBase * Pow(WordBase, k - 1);
      }
      ToWordsValue(u / WordBase, k - 1);
    }
  }

  /** Two's complement reading of a field of k words. */
  function Signed(u: nat, k: nat): int
  {
    if u >= Pow(WordBase, k) / 2 then u - Pow(WordBase, k) else u
  }

  /** The number a field's bytes encode under the configuration. */
  function HandleValue(handle: seq<Byte>, wordOrder: Endian, byteOrder: Endian): nat
    requires |handle| % 2 == 0
  {
    BigEndianValue(Arrange(BytesToWords(handle), wordOrder, byteOrder))
  }

  /** The unsigned field of `width` bytes starting at byte `at`, or None when the
      payload is too short (pymodbus' struct.error). */
  function FieldAt(payload: seq<Byte>, at: nat, width: nat, wordOrder: Endian, byteOrder: Endian): Option<nat>
    requires width % 2 == 0
  {
    if at + width <= |payload| then Some(HandleValue(payload[at..at + width], wordOrder, byteOrder)) else None
  }

  /** On a register payload a field at a word boundary is the arranged registers. */
  lemma FieldOfRegisters(ws: seq<Word>, j: nat, m: nat, wordOrder: Endian, byteOrder: Endian)
    ensures FieldAt(RegistersToBytes(ws), 2 * j, 2 * m, wordOrder, byteOrder)
         == if j + m <= |ws| then Some(BigEndianValue(Arrange(ws[j..j + m], wordOrder, byteOrder))) else None
  {
    if j + m <= |ws| {
      BytesToWordsSlice(ws, j, m);
    }
  }

  /** The widths in bytes of the fields the code decodes. */
  predicate IsWidth(width: nat)
  {
    width == 2 || width == 4 || width == 8
  }

  /** A BinaryPayloadDecoder over a register list. */
  class PayloadDecoder {
    const payload: seq<Byte>
    const wordOrder: Endian
    const byteOrder: Endian
    var pointer: nat

    /** BinaryPayloadDecoder.fromRegisters */
    constructor FromRegisters(registers: seq<Word>, byteOrder: Endian, wordOrder: Endian)
      ensures payload == RegistersToBytes(registers)
      ensures this.byteOrder == byteOrder && this.wordOrder == wordOrder
      ensures pointer == 0
    {
      payload := RegistersToBytes(registers);
      this.byteOrder := byteOrder;
      this.wordOrder := wordOrder;
      pointer := 0;
    }

    method Reset()
      modifies this
      ensures pointer == 0
    {
      pointer := 0;
    }

    /** decode_16bit_uint, decode_32bit_uint, decode_64bit_uint (and the raw
        bits behind decode_32bit_float and decode_64bit_float). */
    method DecodeUint(width: nat) returns (r: Option<nat>)
      requires IsWidth(width)
      modifies this
      ensures pointer == old(pointer) + width
      ensures r == FieldAt(payload, old(pointer), width, wordOrder, byteOrder)
    {
      pointer := pointer + width;
      var lo := pointer - width;
      var handle := if pointer <= |payload| then payload[lo..pointer]
                    else if lo <= |payload| then payload[lo..]
                    else [];
      if |handle| < width {
        r := None;
      } else {
        r := Some(HandleValue(handle, wordOrder, byteOrder));
      }
    }

    /** decode_16bit_int, decode_32bit_int, decode_64bit_int */
    method DecodeInt(width: nat) returns (r: Option<int>)
      requires IsWidth(width)
      modifies this
      ensures pointer == old(pointer) + width
      ensures r == match FieldAt(payload, old(pointer), width, wordOrder, byteOrder)
                   case None => None
                   case Some(u) => Some(Signed(u, width / 2))
    {
      var u := DecodeUint(width);
      r := match u case None => None case Some(v) => Some(Signed(v, width / 2));
    }
  }

  /** What BinaryPayloadBuilder.add_<k*16>bit_(u)int followed by to_registers()
      produces for `value`, or None when the value does not fit the field
      (struct.error). */
  function EncodeWords(value: int, k: nat, signed: bool, wordOrder: Endian, byteOrder: Endian): (r: Option<seq<Word>>)
    ensures r.Some? ==> |r.value| == k
    ensures r.Some? <==> (if signed then -(Pow(WordBase, k) / 2) <= value < Pow(WordBase, k) / 2
                          else 0 <= value < Pow(WordBase, k))
  {
    var m := Pow(WordBase, k);
    if signed && -(m / 2) <= value < m / 2 then
      Some(Arrange(ToWords(TwosComplement(value, k), k), wordOrder, byteOrder))
    else if !signed && 0 <= value < m then
      Some(Arrange(ToWords(value, k), wordOrder, byteOrder))
    else None
  }

  /** The field read back from the words of u, arranged for the same orders, is u. */
  lemma ArrangedField(u: nat, k: nat, wordOrder: Endian, byteOrder: Endian)
    requires u < Pow(WordBase, k)
    ensures FieldAt(RegistersToBytes(Arrange(ToWords(u, k), wordOrder, byteOrder)), 0, 2 * k, wordOrder, byteOrder)
         == Some(u)
  {
    var t := ToWords(u, k);
    FieldOfArranged(t, wordOrder, byteOrder);
    ToWordsValue(u, k);
  }

  /** Words arranged for an order and read back as one field in that order are
      the words' big-endian value. */
  lemma FieldOfArranged(t: seq<Word>, wordOrder: Endian, byteOrder: Endian)
    ensures FieldAt(RegistersToBytes(Arrange(t, wordOrder, byteOrder)), 0, 2 * |t|, wordOrder, byteOrder)
         == Some(BigEndianValue(t))
  {
    var ws := Arrange(t, wordOrder, byteOrder);
    FieldOfRegisters(ws, 0, |t|, wordOrder, byteOrder);
    assert ws[0..|t|] == ws;
    ArrangeInvolution(t, wordOrder, byteOrder);
  }

  /** Round trip: words written by the builder decode to the value written, with
      the same word and byte order. */
  lemma EncodeDecodeUnsigned(value: nat, k: nat, wordOrder: Endian, byteOrder: Endian)
    requires value < Pow(WordBase, k)
    ensures EncodeWords(value, k, false, wordOrder, byteOrder).Some?
    ensures FieldAt(RegistersToBytes(EncodeWords(value, k, false, wordOrder, byteOrder).value), 0, 2 * k, wordOrder, byteOrder)
         == Some(value)
  {
    ArrangedField(value, k, wordOrder, byteOrder);
  }

  lemma EncodeDecodeSigned(value: int, k: nat, wordOrder: Endian, byteOrder: Endian)
    requires k >= 1 && -(Pow(WordBase, k) / 2) <= value < Pow(WordBase, k) / 2
    ensures EncodeWords(value, k, true, wordOrder, byteOrder).Some?
    ensures FieldAt(RegistersToBytes(EncodeWords(value, k, true, wordOrder, byteOrder).value), 0, 2 * k, wordOrder, byteOrder)
         == Some(TwosComplement(value, k))
    ensures Signed(TwosComplement(value, k), k) == value
  {
    ArrangedField(TwosComplement(value, k), k, wordOrder, byteOrder);
  }

  /** The unsigned field pattern of a signed value of k words. */
  function TwosComplement(value: int, k: nat): (u: nat)
    requires -(Pow(WordBase, k) / 2) <= value < Pow(WordBase, k) / 2
    ensures u < Pow(WordBase, k)
    ensures Signed(u, k) == value
  {
    var m := Pow(WordBase, k);
    if value < 0 then value + m else value
  }

  /** A one-word field is the register, bytes swapped under little byte order;
      word order plays no part. */
  lemma OneWordField(w: Word, wordOrder: Endian, byteOrder: Endian)
    ensures BigEndianValue(Arrange([w], wordOrder, byteOrder)) == AdjustBytes(w, byteOrder)
  {
    var a := Arrange([w], wordOrder, byteOrder);
    assert a[..0] == [];
  }

  /** A two-word field: the first word (after word ordering) is the high half. */
  lemma TwoWordField(w0: Word, w1: Word, wordOrder: Endian, byteOrder: Endian)
    ensures BigEndianValue(Arrange([w0, w1], wordOrder, byteOrder))
         == if wordOrder == Little then AdjustBytes(w1, byteOrder) * WordBase + AdjustBytes(w0, byteOrder)
            else AdjustBytes(w0, byteOrder) * WordBase + AdjustBytes(w1, byteOrder)
  {
    var a := Arrange([w0, w1], wordOrder, byteOrder);
    assert a[..1][..0] == [];
    assert BigEndianValue(a[..1]) == a[0];
    assert BigEndianValue(a) == a[0] * WordBase + a[1];
  }
}
