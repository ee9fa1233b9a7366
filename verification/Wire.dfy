/** The tag=value syntax: how one field is written, and how the next one is found in raw bytes. */
module Wire {
  import opened Decimal
  import opened Fields

  const EQUALS: byte := 61

  /** The default field separator. */
  const SOH: byte := 1

  /** A byte string whose length is a machine integer. */
  predicate Short(raw: seq<byte>) {
    |raw| < U64_LIMIT
  }

  function RenderField(f: Field, sep: byte): (s: seq<byte>)
    ensures |s| == f.Length()
  {
    Print(f.tag) + [EQUALS] + f.data + [sep]
  }

  function Render(fields: seq<Field>, sep: byte): seq<byte> {
    if fields == [] then [] else RenderField(fields[0], sep) + Render(fields[1..], sep)
  }

  lemma Associative(a: seq<byte>, b: seq<byte>, c: seq<byte>)
    ensures a + (b + c) == a + b + c
  {}

  lemma {:induction false} RenderConcat(a: seq<Field>, b: seq<Field>, sep: byte)
    ensures Render(a + b, sep) == Render(a, sep) + Render(b, sep)
  {
    if a == [] {
      assert a + b == b;
    } else {
      var ab := a + b;
      assert ab[0] == a[0] && ab[1..] == a[1..] + b;
      RenderConcat(a[1..], b, sep);
      Associative(RenderField(a[0], sep), Render(a[1..], sep), Render(b, sep));
    }
  }

  lemma RenderSingle(f: Field, sep: byte)
    ensures Render([f], sep) == RenderField(f, sep)
  {
    assert [f][1..] == [];
  }

  /** Index of the first `b` at or after `from`. */
  function FindByte(raw: seq<byte>, from: nat, b: byte): (r: Option<nat>)
    requires from <= |raw|
    ensures r.Some? ==> from <= r.value < |raw| && raw[r.value] == b
    ensures r.Some? ==> forall i :: from <= i < r.value ==> raw[i] != b
    ensures r.None? ==> forall i :: from <= i < |raw| ==> raw[i] != b
    decreases |raw| - from
  {
    if from == |raw| then None
    else if raw[from] == b then Some(from)
    else FindByte(raw, from + 1, b)
  }

  lemma FoundByte(raw: seq<byte>, from: nat, b: byte, k: nat)
    requires from <= k < |raw| && raw[k] == b
    requires forall i :: from <= i < k ==> raw[i] != b
    ensures FindByte(raw, from, b) == Some(k)
  {}

  /** `tag_from_bytes`: 32-bit wrap-around accumulation; zero is not a tag. */
  function TagOf(bytes: seq<byte>): (r: Option<Tag>) {
    var n := Horner(bytes) % U32_LIMIT;
    if n == 0 then None else Some(n)
  }

  /** The field that starts at `pos`, with the position of the separator that ends it. */
  function FieldAt(raw: seq<byte>, sep: byte, pos: nat): (r: Option<(Field, nat)>)
    requires pos <= |raw|
    ensures r.Some? ==> pos < r.value.1 < |raw| && raw[r.value.1] == sep
  {
    match FindByte(raw, pos, EQUALS)
    case None => None
    case Some(eq) =>
      match FindByte(raw, eq + 1, sep)
      case None => None
      case Some(end) =>
        match TagOf(raw[pos..eq])
        case None => None
        case Some(tag) => Some((Field(tag, raw[eq + 1..end]), end))
  }

  /** All fields that can be read one after the other from `pos` on. */
  function Tokens(raw: seq<byte>, sep: byte, pos: nat): seq<Field>
    requires pos <= |raw|
    decreases |raw| - pos
  {
    match FieldAt(raw, sep, pos)
    case None => []
    case Some((f, end)) => [f] + Tokens(raw, sep, end + 1)
  }

  predicate Separable(f: Field, sep: byte) {
    sep !in f.data
  }

  /** A tag of any size is taken modulo 2^32, and zero is no tag. */
  lemma TagsWrap(n: nat)
    ensures TagOf(Print(n)) == if n % U32_LIMIT == 0 then None else Some(n % U32_LIMIT)
  {
    HornerPrint(n);
  }

  lemma TagRoundTrip(tag: Tag)
    ensures TagOf(Print(tag)) == Some(tag)
  {
    HornerPrint(tag);
  }

  lemma {:induction false} FieldFound(raw: seq<byte>, sep: byte, pos: nat, eq: nat, end: nat, tag: Tag)
    requires pos <= eq < end < |raw| && raw[eq] == EQUALS && raw[end] == sep
    requires forall i :: pos <= i < eq ==> raw[i] != EQUALS
    requires forall i :: eq < i < end ==> raw[i] != sep
    requires TagOf(raw[pos..eq]) == Some(tag)
    ensures FieldAt(raw, sep, pos) == Some((Field(tag, raw[eq + 1..end]), end))
  {
    FoundByte(raw, pos, EQUALS, eq);
    FoundByte(raw, eq + 1, sep, end);
  }

  /** A written field is found again wherever it stands. */
  lemma {:induction false} FieldAtRendered(pre: seq<byte>, f: Field, post: seq<byte>, sep: byte)
    requires Separable(f, sep)
    ensures var raw := pre + RenderField(f, sep) + post;
            FieldAt(raw, sep, |pre|) == Some((f, |pre| + f.Length() - 1))
  {
    var raw, digits := pre + RenderField(f, sep) + post, Print(f.tag);
    var eq := |pre| + |digits|;
    var end := eq + 1 + |f.data|;
    assert raw[|pre|..eq] == digits && raw[eq + 1..end] == f.data by {
      hide Print;
    }
    assert forall i :: |pre| <= i < eq ==> raw[i] == digits[i - |pre|];
    assert forall i :: eq < i < end ==> raw[i] == f.data[i - eq - 1];
    TagRoundTrip(f.tag);
    FieldFound(raw, sep, |pre|, eq, end, f.tag);
  }

  lemma {:induction false} NextToken(raw: seq<byte>, sep: byte, pos: nat, f: Field, end: nat)
    requires pos <= |raw| && FieldAt(raw, sep, pos) == Some((f, end))
    ensures end < |raw| && Tokens(raw, sep, pos) == [f] + Tokens(raw, sep, end + 1)
  {}

  lemma {:induction false} NoToken(raw: seq<byte>, sep: byte)
    ensures Tokens(raw, sep, |raw|) == []
  {}

  lemma {:induction false} TokenRendered(pre: seq<byte>, f: Field, post: seq<byte>, sep: byte)
    requires Separable(f, sep)
    ensures var pre' := pre + RenderField(f, sep);
            Tokens(pre' + post, sep, |pre|) == [f] + Tokens(pre' + post, sep, |pre'|)
  {
    hide *;
    FieldAtRendered(pre, f, post, sep);
    assert |RenderField(f, sep)| == f.Length();
    NextToken(pre + RenderField(f, sep) + post, sep, |pre|, f, |pre| + f.Length() - 1);
  }

  /** Writing a list of fields and reading it back, behind any prefix. */
  lemma {:induction false} TokensRendered(pre: seq<byte>, fields: seq<Field>, sep: byte)
    requires forall i :: 0 <= i < |fields| ==> Separable(fields[i], sep)
    ensures Tokens(pre + Render(fields, sep), sep, |pre|) == fields
    decreases |fields|
  {
    if fields == [] {
      assert pre + Render(fields, sep) == pre;
      NoToken(pre, sep);
    } else {
      var f, rest := fields[0], fields[1..];
      TokenRendered(pre, f, Render(rest, sep), sep);
      TokensRendered(pre + RenderField(f, sep), rest, sep);
      Associative(pre, RenderField(f, sep), Render(rest, sep));
    }
  }
}
