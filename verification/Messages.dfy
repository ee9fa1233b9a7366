/** A message and its encoding: BodyLength is set, the three parts are written, and the
    checksum of everything written is appended. */
module Messages {
  import opened Decimal
  import opened Fields
  import opened Wire
  import opened Encoder
  import opened Lengths

  datatype Parts = Parts(header: FieldMap, body: FieldMap, trailer: FieldMap)

  const LEADING: seq<Tag> := [BEGIN_STRING, BODY_LENGTH, MSG_TYPE]

  function SetField(fm: FieldMap, f: Field): FieldMap {
    fm.(fields := InsertField(fm.fields, f))
  }

  function PopField(fm: FieldMap, tag: Tag): FieldMap {
    fm.(fields := RemoveTag(fm.fields, tag))
  }

  // ----- checksum -----

  function ByteSum(data: seq<byte>): nat {
    if data == [] then 0 else ByteSum(data[..|data| - 1]) + data[|data| - 1]
  }

  /** `CheckSum::compute`: 8-bit wrap-around addition. */
  method ComputeCheckSum(data: seq<byte>) returns (value: byte)
    ensures value == ByteSum(data) % 256
  {
    value := 0;
    for i := 0 to |data|
      invariant value == ByteSum(data[..i]) % 256
    {
      assert data[..i + 1][..i] == data[..i];
      value := (value + data[i]) % 256;
    }
    assert data[..|data|] == data;
  }

  function CheckSumField(front: seq<byte>): Field {
    Field(CHECK_SUM, PrintPadded(ByteSum(front) % 256, 3))
  }

  /** `CheckSum::deserialize`: exactly three digits, weighed with 8-bit wrap-around. */
  function ParseCheckSum(data: seq<byte>): Option<byte> {
    if |data| == 3 && AllDigits(data) then Some(Horner(data) % 256) else None
  }

  lemma CheckSumPrinted(n: nat)
    requires n < 256
    ensures |PrintPadded(n, 3)| == 3 && ParseCheckSum(PrintPadded(n, 3)) == Some(n)
  {
    assert |Print(n / 10 / 10)| == 1;
    assert |Print(n / 10)| <= 2 && |Print(n)| <= 3;
    HornerPrint(n);
    if |Print(n)| < 3 {
      HornerLeadingZeros(3 - |Print(n)|, Print(n));
    }
  }

  /** A checksum of three digits is taken modulo 256. */
  lemma {:induction false} CheckSumWraps(n: nat)
    requires n < 1000
    ensures ParseCheckSum(PrintPadded(n, 3)) == Some(n % 256)
  {
    assert |Print(n / 10 / 10)| == 1;
    assert |Print(n / 10)| <= 2 && |Print(n)| <= 3;
    HornerPrint(n);
    if |Print(n)| < 3 {
      HornerLeadingZeros(3 - |Print(n)|, Print(n));
    }
    hide Print, Horner;
  }

  // ----- encoding -----

  /** The precomputed BodyLength: header without fields 8 and 9, body, trailer without field 10. */
  function BodyLength(m: Parts): nat {
    MapLength(m.header, [BEGIN_STRING, BODY_LENGTH]) + MapLength(m.body, []) + MapLength(m.trailer, [CHECK_SUM])
  }

  /** The message as it is when writing starts. */
  function Prepared(m: Parts): Parts {
    var m' := m.(trailer := PopField(m.trailer, CHECK_SUM));
    m'.(header := SetField(m.header, Field(BODY_LENGTH, Print(BodyLength(m')))))
  }

  function PartsFields(p: Parts): seq<Field> {
    Written(p.header, LEADING) + Written(p.body, []) + Written(p.trailer, [])
  }

  /** Everything before the checksum field. */
  function Front(m: Parts, sep: byte): seq<byte> {
    Render(PartsFields(Prepared(m)), sep)
  }

  /** All fields of the encoded message, in the order they are written. */
  function EncodedFields(m: Parts, sep: byte): seq<Field> {
    PartsFields(Prepared(m)) + [CheckSumField(Front(m, sep))]
  }

  function Encoded(m: Parts, sep: byte): seq<byte> {
    Render(EncodedFields(m, sep), sep)
  }

  /** Messages as they go over the wire, each with the default separator. */
  function EncodeAll(messages: seq<Parts>): (raws: seq<seq<byte>>)
    ensures |raws| == |messages|
  {
    seq(|messages|, i requires 0 <= i < |messages| => Encoded(messages[i], SOH))
  }

  /** What encoding leaves behind in the message. */
  function AfterEncode(m: Parts, sep: byte): Parts {
    var p := Prepared(m);
    p.(trailer := SetField(p.trailer, CheckSumField(Front(m, sep))))
  }

  lemma EncodedSplit(m: Parts, sep: byte)
    ensures Encoded(m, sep) == Front(m, sep) + RenderField(CheckSumField(Front(m, sep)), sep)
  {
    var f := CheckSumField(Front(m, sep));
    RenderConcat(PartsFields(Prepared(m)), [f], sep);
    RenderSingle(f, sep);
  }

  /** The three parts one after the other into one buffer. */
  method WriteParts(p: Parts, sep: byte, pre: seq<Tag>) returns (buffer: seq<byte>)
    ensures buffer == Render(Written(p.header, pre) + Written(p.body, []) + Written(p.trailer, []), sep)
  {
    buffer := WriteMap(p.header, sep, [], pre);
    buffer := WriteMap(p.body, sep, buffer, []);
    buffer := WriteMap(p.trailer, sep, buffer, []);
    RenderThree(Written(p.header, pre), Written(p.body, []), Written(p.trailer, []), sep);
  }

  lemma RenderThree(a: seq<Field>, b: seq<Field>, c: seq<Field>, sep: byte)
    ensures [] + Render(a, sep) + Render(b, sep) + Render(c, sep) == Render(a + b + c, sep)
  {
    hide *;
    RenderConcat(a + b, c, sep);
    RenderConcat(a, b, sep);
    assert [] + Render(a, sep) == Render(a, sep);
  }

  lemma CheckSumBytes(value: seq<byte>, sep: byte)
    ensures RenderField(Field(CHECK_SUM, value), sep) == [49, 48, EQUALS] + value + [sep]
  {
    assert Print(10) == Print(1) + [48];
  }

  class Message {
    var header: FieldMap
    var body: FieldMap
    var trailer: FieldMap

    ghost function Value(): Parts
      reads this
    {
      Parts(header, body, trailer)
    }

    constructor (beginString: seq<byte>, messageType: seq<byte>)
      ensures Value() == Parts(FieldMap([Field(BEGIN_STRING, beginString), Field(MSG_TYPE, messageType)], []), EMPTY,
              EMPTY)
    {
      header := FieldMap([Field(BEGIN_STRING, beginString), Field(MSG_TYPE, messageType)], []);
      body, trailer := EMPTY, EMPTY;
    }

    /** `Message::encode`. */
    method Encode(sep: byte) returns (buffer: seq<byte>)
      modifies this
      ensures buffer == Encoded(old(Value()), sep)
      ensures Value() == AfterEncode(old(Value()), sep)
    {
      ghost var m := Value();
      trailer := PopField(trailer, CHECK_SUM);
      var bodyLength := BodyLength(Parts(header, body, trailer));
      header := SetField(header, Field(BODY_LENGTH, Print(bodyLength)));
      var front := WriteParts(Parts(header, body, trailer), sep, LEADING);
      var checkSum := ComputeCheckSum(front);
      var value := PrintPadded(checkSum, 3);
      trailer := SetField(trailer, Field(CHECK_SUM, value));
      buffer := front + ([49, 48, EQUALS] + value + [sep]);
      CheckSumBytes(value, sep);
      EncodedSplit(m, sep);
    }
  }
}
