/** What the checksum protects against. */
module Corruption {
  import opened Decimal
  import opened Fields
  import opened Layouts
  import opened Wire
  import opened Messages
  import opened Reading
  import opened RoundTrip

  lemma {:induction false} FindSame(a: seq<byte>, c: seq<byte>, pos: nat, b: byte)
    requires |a| == |c| && pos <= |a| && forall i :: pos <= i < |a| ==> a[i] == c[i]
    ensures FindByte(a, pos, b) == FindByte(c, pos, b)
    decreases |a| - pos
  {
    if pos < |a| && a[pos] != b {
      FindSame(a, c, pos + 1, b);
    }
  }

  /** A field is read from the bytes behind it only. */
  lemma {:induction false} FieldSame(a: seq<byte>, c: seq<byte>, sep: byte, pos: nat)
    requires |a| == |c| && pos <= |a| && forall i :: pos <= i < |a| ==> a[i] == c[i]
    ensures FieldAt(a, sep, pos) == FieldAt(c, sep, pos)
  {
    hide FindByte, TagOf;
    FindSame(a, c, pos, EQUALS);
    match FindByte(a, pos, EQUALS)
    case None =>
    case Some(eq) =>
      FindSame(a, c, eq + 1, sep);
      assert a[pos..eq] == c[pos..eq];
      if FindByte(a, eq + 1, sep).Some? {
        var end := FindByte(a, eq + 1, sep).value;
        assert a[eq + 1..end] == c[eq + 1..end];
      }
  }

  lemma {:induction false} SumChanged(a: seq<byte>, i: nat, x: byte)
    requires i < |a|
    ensures ByteSum(a[i := x]) as int == ByteSum(a) as int - a[i] as int + x as int
  {
    var c := a[i := x];
    if i < |a| - 1 {
      assert c[..|a| - 1] == a[..|a| - 1][i := x];
      SumChanged(a[..|a| - 1], i, x);
    } else {
      assert c[..|a| - 1] == a[..|a| - 1];
    }
  }

  lemma SumsDiffer(n: nat, was: byte, x: byte, m: nat)
    requires was != x && m as int == n as int - was as int + x as int
    ensures m % 256 != n % 256
  {}

  /** What a passed integrity check says about the checksum. */
  lemma {:induction false} PassedCheckSum(raw: seq<byte>, sep: byte, end: nat)
    requires Integrity(raw, sep).Ok? && |raw| == end + CHECKSUM_LENGTH
    ensures FieldAt(raw, sep, end).Some? && FieldAt(raw, sep, end).value.0 == Integrity(raw, sep).value.checkSum
    ensures var checkSum := ParseCheckSum(Integrity(raw, sep).value.checkSum.data);
            checkSum.Some? ==> checkSum.value == ByteSum(raw[..end]) % 256
  {
    hide *;
    var f8, f9, start := IntegrityPassed(raw, sep);
    EnvelopePassed(raw, sep, f8, f9, start, end);
  }

  lemma EnvelopePassed(raw: seq<byte>, sep: byte, f8: Field, f9: Field, start: nat, end: nat)
    requires start <= end <= |raw| && EnvelopeAt(raw, sep, f8, f9, start, end).Ok?
    ensures var f := EnvelopeAt(raw, sep, f8, f9, start, end).value.checkSum;
            && FieldAt(raw, sep, end).Some? && FieldAt(raw, sep, end).value.0 == f
            && (ParseCheckSum(f.data).Some? ==> ParseCheckSum(f.data).value == ByteSum(raw[..end]) % 256)
  {
    hide FieldAt, ByteSum, ParseCheckSum;
  }

  /** If a message passes and its checksum is three digits, no message that differs from it in
      one byte in front of the checksum passes: whatever that byte was part of. */
  lemma {:induction false} OneByteDetected(raw: seq<byte>, sep: byte, i: nat, x: byte)
    requires Integrity(raw, sep).Ok? && ParseCheckSum(Integrity(raw, sep).value.checkSum.data).Some?
    requires i + CHECKSUM_LENGTH < |raw| && x != raw[i]
    ensures Integrity(raw[i := x], sep).Err?
  {
    hide *;
    var c, end: nat := raw[i := x], |raw| - CHECKSUM_LENGTH;
    PassedCheckSum(raw, sep, end);
    FieldSame(raw, c, sep, end);
    assert c[..end] == raw[..end][i := x];
    SumChanged(raw[..end], i, x);
    SumsDiffer(ByteSum(raw[..end]), raw[i], x, ByteSum(c[..end]));
    if Integrity(c, sep).Ok? {
      PassedCheckSum(c, sep, end);
    }
  }

  /** Any three bytes that are not all digits can stand in for the checksum of a sent message
      without being noticed. */
  lemma {:induction false} UnreadCheckSum(b: MessageBuilder, m: Parts, data: seq<byte>)
    requires WellFormedBuilder(b) && Sendable(b, m)
    requires |data| == 3 && !AllDigits(data) && b.config.separator !in data
    ensures var sep := b.config.separator;
            Integrity(Front(m, sep) + RenderField(Field(CHECK_SUM, data), sep), sep).Ok?
  {
    hide *;
    var sep := b.config.separator;
    var fields, f := EncodedFields(m, sep), Field(CHECK_SUM, data);
    EncodedEnvelope(b, m);
    CheckSumFacts(Front(m, sep), sep);
    ReplacementFits(data, sep);
    var k := |fields| - 1;
    SameWidth(fields, f, sep);
    IntegrityRendered(fields[..k] + [f], sep, BodyLength(Prepared(m)));
  }

  lemma ReplacementFits(data: seq<byte>, sep: byte)
    requires |data| == 3 && sep !in data
    ensures Field(CHECK_SUM, data).Length() == CHECKSUM_LENGTH && Separable(Field(CHECK_SUM, data), sep)
  {
    CheckSumBytes(data, sep);
  }

  /** Another last field of the same length changes nothing before it, and no length. */
  lemma {:induction false} SameWidth(fields: seq<Field>, f: Field, sep: byte)
    requires |fields| >= 4 && AllSeparable(fields, sep) && Separable(f, sep)
    requires f.Length() == fields[|fields| - 1].Length()
    ensures var k := |fields| - 1;
            var fields' := fields[..k] + [f];
            && |fields'| == |fields| && AllSeparable(fields', sep)
            && fields'[..k] == fields[..k] && fields'[..2] == fields[..2] && fields'[..3] == fields[..3]
            && Render(fields', sep) == Render(fields[..k], sep) + RenderField(f, sep)
            && |Render(fields', sep)| == |Render(fields, sep)|
  {
    hide *;
    var k := |fields| - 1;
    assert fields[..k] + [fields[k]] == fields;
    ReplacedLast(fields, f, sep);
    SeparableAt(fields, sep);
    ReplacedLast(fields, fields[k], sep);
    RenderedLength(f, sep);
    RenderedLength(fields[k], sep);
  }

  lemma RenderedLength(f: Field, sep: byte)
    ensures |RenderField(f, sep)| == f.Length()
  {}

  lemma ReplacedLast(fields: seq<Field>, f: Field, sep: byte)
    requires fields != [] && AllSeparable(fields, sep) && Separable(f, sep)
    ensures var fields' := fields[..|fields| - 1] + [f];
            && AllSeparable(fields', sep)
            && Render(fields', sep) == Render(fields[..|fields| - 1], sep) + RenderField(f, sep)
  {
    var front := fields[..|fields| - 1];
    RenderConcat(front, [f], sep);
    RenderSingle(f, sep);
    hide Render, RenderField;
  }
}
