/** The text files of the file store: index lines and the sequence-number file. */
module StoreFiles {
  import opened Decimal
  import opened Wire

  const NEWLINE: byte := 10
  const SPACE: byte := 32
  const COMMA: byte := 44
  const COLON: byte := 58

  datatype MessageDef = MessageDef(offset: nat, size: nat)

  // ----- text -----

  predicate IsBlank(b: byte) {
    b == SPACE || 9 <= b <= 13
  }

  function TrimStart(s: seq<byte>): seq<byte> {
    if s != [] && IsBlank(s[0]) then TrimStart(s[1..]) else s
  }

  function TrimEnd(s: seq<byte>): seq<byte> {
    if s != [] && IsBlank(s[|s| - 1]) then TrimEnd(s[..|s| - 1]) else s
  }

  function Trim(s: seq<byte>): seq<byte> {
    TrimEnd(TrimStart(s))
  }

  function Split(s: seq<byte>, sep: byte): (parts: seq<seq<byte>>)
    ensures parts != []
    decreases |s|
  {
    match FindByte(s, 0, sep)
    case None => [s]
    case Some(k) => [s[..k]] + Split(s[k + 1..], sep)
  }

  lemma {:induction false} SplitHead(head: seq<byte>, sep: byte, tail: seq<byte>)
    requires sep !in head
    ensures Split(head + [sep] + tail, sep) == [head] + Split(tail, sep)
  {
    var s := head + [sep] + tail;
    assert forall i :: 0 <= i < |head| ==> s[i] == head[i];
    assert s[|head|] == sep;
    FoundByte(s, 0, sep, |head|);
    assert s[..|head|] == head && s[|head| + 1..] == tail;
  }

  lemma SplitLast(s: seq<byte>, sep: byte)
    requires sep !in s
    ensures Split(s, sep) == [s]
  {}

  lemma TrimSolid(s: seq<byte>)
    requires s != [] && !IsBlank(s[0]) && !IsBlank(s[|s| - 1])
    ensures Trim(s) == s
  {}

  predicate AllBlank(s: seq<byte>) {
    forall i :: 0 <= i < |s| ==> IsBlank(s[i])
  }

  /** Trimming takes blanks off both ends, and all of them. */
  lemma {:induction false} TrimExact(s: seq<byte>) returns (left: seq<byte>, right: seq<byte>)
    ensures s == left + Trim(s) + right && AllBlank(left) && AllBlank(right)
    ensures Trim(s) != [] ==> !IsBlank(Trim(s)[0]) && !IsBlank(Trim(s)[|Trim(s)| - 1])
  {
    left := TrimStartExact(s);
    right := TrimEndExact(TrimStart(s));
  }

  lemma {:induction false} TrimStartExact(s: seq<byte>) returns (left: seq<byte>)
    ensures s == left + TrimStart(s) && AllBlank(left)
    ensures TrimStart(s) != [] ==> !IsBlank(TrimStart(s)[0])
  {
    if s != [] && IsBlank(s[0]) {
      var more := TrimStartExact(s[1..]);
      left := [s[0]] + more;
    } else {
      left := [];
    }
  }

  lemma {:induction false} TrimEndExact(s: seq<byte>) returns (right: seq<byte>)
    ensures s == TrimEnd(s) + right && AllBlank(right)
    ensures TrimEnd(s) != [] ==> !IsBlank(TrimEnd(s)[|TrimEnd(s)| - 1]) && TrimEnd(s)[0] == s[0]
  {
    if s != [] && IsBlank(s[|s| - 1]) {
      var more := TrimEndExact(s[..|s| - 1]);
      right := more + [s[|s| - 1]];
    } else {
      right := [];
    }
  }

  /** Two parts mean one separator between them. */
  lemma {:induction false} SplitTwo(s: seq<byte>, sep: byte, a: seq<byte>, b: seq<byte>)
    ensures Split(s, sep) == [a, b] <==> s == a + [sep] + b && sep !in a && sep !in b
  {
    if s == a + [sep] + b && sep !in a && sep !in b {
      SplitHead(a, sep, b);
      SplitLast(b, sep);
    }
    if Split(s, sep) == [a, b] {
      var k := SplitFirst(s, sep);
      HeadsAndTails(s[..k], Split(s[k + 1..], sep), a, [b]);
      SplitOne(s[k + 1..], sep, b);
    }
  }

  /** More than one part: the first ends at the first separator. */
  lemma {:induction false} SplitFirst(s: seq<byte>, sep: byte) returns (k: nat)
    requires |Split(s, sep)| > 1
    ensures k < |s| && s == s[..k] + [sep] + s[k + 1..] && sep !in s[..k]
    ensures Split(s, sep) == [s[..k]] + Split(s[k + 1..], sep)
  {
    k := FindByte(s, 0, sep).value;
  }

  lemma HeadsAndTails(x: seq<byte>, xs: seq<seq<byte>>, y: seq<byte>, ys: seq<seq<byte>>)
    requires [x] + xs == [y] + ys
    ensures x == y && xs == ys
  {
    assert ([x] + xs)[0] == x && ([y] + ys)[0] == y;
    assert ([x] + xs)[1..] == xs && ([y] + ys)[1..] == ys;
  }

  lemma {:induction false} SplitOne(s: seq<byte>, sep: byte, a: seq<byte>)
    requires Split(s, sep) == [a]
    ensures s == a && sep !in a
  {
    assert FindByte(s, 0, sep).Some? ==> |Split(s, sep)| >= 2;
  }

  /** Three parts mean two separators. */
  lemma {:induction false} SplitThree(s: seq<byte>, sep: byte, a: seq<byte>, b: seq<byte>, c: seq<byte>)
    ensures Split(s, sep) == [a, b, c] <==> s == a + [sep] + (b + [sep] + c) && sep !in a && sep !in b && sep !in c
  {
    if s == a + [sep] + (b + [sep] + c) && sep !in a && sep !in b && sep !in c {
      SplitHead(a, sep, b + [sep] + c);
      SplitTwo(b + [sep] + c, sep, b, c);
    }
    if Split(s, sep) == [a, b, c] {
      var k := SplitFirst(s, sep);
      assert [a, b, c] == [a] + [b, c];
      HeadsAndTails(s[..k], Split(s[k + 1..], sep), a, [b, c]);
      SplitTwo(s[k + 1..], sep, b, c);
    }
  }

  // ----- the index file -----

  /** One index line without its newline. */
  function IndexLine(number: nat, def: MessageDef): seq<byte> {
    Print(number) + [COMMA] + (Print(def.offset) + [COMMA] + Print(def.size))
  }

  /** A line that does not parse is skipped. */
  function LoadLine(line: seq<byte>, index: map<nat, MessageDef>): map<nat, MessageDef> {
    var parts := Split(Trim(line), COMMA);
    if |parts| != 3 then index
    else
      var number, offset, size := ParseUnsigned(parts[0], U64_LIMIT), ParseUnsigned(parts[1], U64_LIMIT),
        ParseUnsigned(parts[2], U64_LIMIT);
      if number.Some? && offset.Some? && size.Some? then index[number.value := MessageDef(offset.value, size.value)]
      else index
  }

  function LoadLines(text: seq<byte>, index: map<nat, MessageDef>): map<nat, MessageDef>
    decreases |text|
  {
    match FindByte(text, 0, NEWLINE)
    case None => if text == [] then index else LoadLine(text, index)
    case Some(k) => LoadLines(text[k + 1..], LoadLine(text[..k], index))
  }

  /** `load_message_index`. */
  method LoadMessageIndex(text: seq<byte>) returns (index: map<nat, MessageDef>)
    ensures index == LoadLines(text, map[])
  {
    hide LoadLine, FindByte;
    index := map[];
    var rest := text;
    while rest != []
      invariant LoadLines(text, map[]) == LoadLines(rest, index)
      decreases |rest|
    {
      var end := FindByte(rest, 0, NEWLINE);
      if end.None? {
        return LoadLine(rest, index);
      }
      index := LoadLine(rest[..end.value], index);
      rest := rest[end.value + 1..];
    }
  }

  predicate Terminated(text: seq<byte>) {
    text == [] || text[|text| - 1] == NEWLINE
  }

  lemma FoundEarlier(text: seq<byte>, more: seq<byte>, k: nat)
    requires FindByte(text, 0, NEWLINE) == Some(k)
    ensures FindByte(text + more, 0, NEWLINE) == Some(k)
  {
    assert forall i :: 0 <= i <= k ==> (text + more)[i] == text[i];
    FoundByte(text + more, 0, NEWLINE, k);
  }

  lemma LoadFirst(text: seq<byte>, k: nat, index: map<nat, MessageDef>)
    requires FindByte(text, 0, NEWLINE) == Some(k)
    ensures LoadLines(text, index) == LoadLines(text[k + 1..], LoadLine(text[..k], index))
  {
    hide FindByte, LoadLine;
  }

  lemma LoadNone(index: map<nat, MessageDef>)
    ensures LoadLines([], index) == index
  {}

  /** A line written at the end of a terminated file is loaded last. */
  lemma {:induction false} LoadAppended(text: seq<byte>, line: seq<byte>, index: map<nat, MessageDef>)
    requires Terminated(text) && NEWLINE !in line
    ensures LoadLines(text + line + [NEWLINE], index) == LoadLine(line, LoadLines(text, index))
    decreases |text|
  {
    hide LoadLine, LoadLines, FindByte;
    LoadNone(index);
    if text == [] {
      var all := line + [NEWLINE];
      assert text + line + [NEWLINE] == all;
      FoundByte(all, 0, NEWLINE, |line|);
      LoadFirst(all, |line|, index);
      LoadNone(LoadLine(line, index));
      assert all[..|line|] == line && all[|line| + 1..] == [];
    } else {
      assert text[|text| - 1] == NEWLINE;
      var k, more := FindByte(text, 0, NEWLINE).value, line + [NEWLINE];
      FoundEarlier(text, more, k);
      LoadFirst(text, k, index);
      LoadFirst(text + more, k, index);
      Associative(text, line, [NEWLINE]);
      assert (text + more)[..k] == text[..k] && (text + more)[k + 1..] == text[k + 1..] + more;
      Associative(text[k + 1..], line, [NEWLINE]);
      LoadAppended(text[k + 1..], line, LoadLine(text[..k], index));
    }
  }

  /** Three numerals joined by commas come apart again. */
  lemma {:induction false} CommaSplit(a: seq<byte>, b: seq<byte>, c: seq<byte>)
    requires AllDigits(a) && AllDigits(b) && AllDigits(c) && a != [] && c != []
    ensures var line := a + [COMMA] + (b + [COMMA] + c);
            Split(Trim(line), COMMA) == [a] + ([b] + [c]) && NEWLINE !in line
  {
    hide Split, Trim;
    CommaSolid(a, b, c);
    SplitHead(a, COMMA, b + [COMMA] + c);
    SplitHead(b, COMMA, c);
    SplitLast(c, COMMA);
  }

  lemma {:induction false} CommaSolid(a: seq<byte>, b: seq<byte>, c: seq<byte>)
    requires AllDigits(a) && AllDigits(b) && AllDigits(c) && a != [] && c != []
    ensures var line := a + [COMMA] + (b + [COMMA] + c); Trim(line) == line && NEWLINE !in line
  {
    hide Trim;
    var line := a + [COMMA] + (b + [COMMA] + c);
    assert line[0] == a[0] && line[|line| - 1] == c[|c| - 1];
    TrimSolid(line);
  }

  /** A line is taken in exactly if it consists of three numbers between commas, blanks around it
      aside; every other line changes nothing. */
  lemma {:induction false} LineLoaded(line: seq<byte>, index: map<nat, MessageDef>, a: seq<byte>, b: seq<byte>,
                                      c: seq<byte>)
    ensures |Split(Trim(line), COMMA)| != 3 ==> LoadLine(line, index) == index
    ensures Trim(line) == a + [COMMA] + (b + [COMMA] + c) && COMMA !in a && COMMA !in b && COMMA !in c ==>
              var n := ParseUnsigned(a, U64_LIMIT);
              var offset, size := ParseUnsigned(b, U64_LIMIT), ParseUnsigned(c, U64_LIMIT);
              LoadLine(line, index) ==
              if n.Some? && offset.Some? && size.Some? then index[n.value := MessageDef(offset.value, size.value)]
              else index
  {
    hide Split, Trim, ParseUnsigned;
    SplitThree(Trim(line), COMMA, a, b, c);
  }

  /** A printed line reads back to the entry it was printed from. */
  lemma {:induction false} LineRoundTrip(number: nat, def: MessageDef, index: map<nat, MessageDef>)
    requires number < U64_LIMIT && def.offset < U64_LIMIT && def.size < U64_LIMIT
    ensures LoadLine(IndexLine(number, def), index) == index[number := def]
    ensures NEWLINE !in IndexLine(number, def)
  {
    hide Print, ParseUnsigned, Split, Trim;
    ParsePrinted(number, 0, U64_LIMIT);
    ParsePrinted(def.offset, 0, U64_LIMIT);
    ParsePrinted(def.size, 0, U64_LIMIT);
    CommaSplit(Print(number), Print(def.offset), Print(def.size));
  }

  // ----- the sequence-number file -----

  /** `"{:020} : {:020}"`. */
  function SeqnumsText(sender: nat, target: nat): (s: seq<byte>)
    ensures s != []
  {
    PrintPadded(sender, 20) + [SPACE] + [COLON] + ([SPACE] + PrintPadded(target, 20))
  }

  /** `parse_seqnums`: two numbers around one colon. */
  function ParseSeqnums(text: seq<byte>): Option<(nat, nat)> {
    var parts := Split(Trim(text), COLON);
    if |parts| != 2 then None
    else
      var sender, target := ParseUnsigned(Trim(parts[0]), U64_LIMIT), ParseUnsigned(Trim(parts[1]), U64_LIMIT);
      if sender.Some? && target.Some? then Some((sender.value, target.value)) else None
  }

  /** `read_initial_seqnums`: an empty file means both numbers are zero. */
  function ReadSeqnums(text: seq<byte>): Option<(nat, nat)> {
    if Trim(text) == [] then Some((0, 0)) else ParseSeqnums(text)
  }

  lemma TrimTail(s: seq<byte>)
    requires s != [] && !IsBlank(s[0]) && !IsBlank(s[|s| - 1])
    ensures Trim(s + [SPACE]) == s && Trim([SPACE] + s) == s
  {
    var right, left := s + [SPACE], [SPACE] + s;
    assert right[..|s|] == s && right[|s|] == SPACE && right[0] == s[0];
    assert TrimEnd(right) == TrimEnd(s) == s;
    assert left[1..] == s && left[0] == SPACE;
    assert TrimStart(left) == TrimStart(s) == s;
  }

  /** Two numerals around a spaced colon come apart again. */
  lemma {:induction false} ColonSplit(a: seq<byte>, b: seq<byte>)
    requires AllDigits(a) && AllDigits(b) && a != [] && b != []
    ensures var text := a + [SPACE] + [COLON] + ([SPACE] + b);
            Trim(text) == text && Split(text, COLON) == [a + [SPACE]] + [[SPACE] + b]
  {
    var text := a + [SPACE] + [COLON] + ([SPACE] + b);
    assert text[0] == a[0] && text[|text| - 1] == b[|b| - 1];
    TrimSolid(text);
    hide Split, Trim;
    SplitHead(a + [SPACE], COLON, [SPACE] + b);
    SplitLast([SPACE] + b, COLON);
  }

  /** The number file is read exactly if it is blank, as two zeros, or consists of two numbers
      with one colon between them, blanks aside; otherwise opening the store fails. */
  lemma {:induction false} SeqnumsRead(text: seq<byte>, sender: nat, target: nat)
    ensures ReadSeqnums(text) == Some((sender, target)) <==>
            || (Trim(text) == [] && sender == 0 && target == 0)
            || (exists a, b ::
                  && Trim(text) == a + [COLON] + b && COLON !in a && COLON !in b
                  && ParseUnsigned(Trim(a), U64_LIMIT) == Some(sender)
                  && ParseUnsigned(Trim(b), U64_LIMIT) == Some(target))
  {
    hide Split, Trim, ParseUnsigned;
    var parts := Split(Trim(text), COLON);
    if |parts| == 2 {
      assert parts == [parts[0], parts[1]];
      SplitTwo(Trim(text), COLON, parts[0], parts[1]);
    }
    if a, b :| && Trim(text) == a + [COLON] + b && COLON !in a && COLON !in b
               && ParseUnsigned(Trim(a), U64_LIMIT) == Some(sender)
               && ParseUnsigned(Trim(b), U64_LIMIT) == Some(target) {
      SplitTwo(Trim(text), COLON, a, b);
      assert |Trim(text)| > 0;
    }
  }

  /** The text of the number file comes apart into the two printed numbers. */
  lemma {:induction false} SeqnumsParts(a: seq<byte>, b: seq<byte>)
    requires AllDigits(a) && AllDigits(b) && a != [] && b != []
    ensures var text := a + [SPACE] + [COLON] + ([SPACE] + b);
            var parts := Split(Trim(text), COLON);
            Trim(text) != [] && |parts| == 2 && Trim(parts[0]) == a && Trim(parts[1]) == b
  {
    hide Split, Trim;
    ColonSplit(a, b);
    TrimTail(a);
    TrimTail(b);
  }

  lemma ReadFromParts(text: seq<byte>, a: seq<byte>, b: seq<byte>, sender: nat, target: nat)
    requires var parts := Split(Trim(text), COLON);
             Trim(text) != [] && |parts| == 2 && Trim(parts[0]) == a && Trim(parts[1]) == b
    requires ParseUnsigned(a, U64_LIMIT) == Some(sender) && ParseUnsigned(b, U64_LIMIT) == Some(target)
    ensures ReadSeqnums(text) == Some((sender, target))
  {
    hide Split, Trim, ParseUnsigned;
  }

  /** Printing and parsing are inverse on all pairs of 64-bit numbers. */
  lemma {:induction false} SeqnumsRoundTrip(sender: nat, target: nat)
    requires sender < U64_LIMIT && target < U64_LIMIT
    ensures ReadSeqnums(SeqnumsText(sender, target)) == Some((sender, target))
  {
    hide ReadSeqnums, PrintPadded, ParseUnsigned, Split, Trim;
    var a, b := PrintPadded(sender, 20), PrintPadded(target, 20);
    ParsePrinted(sender, 20, U64_LIMIT);
    ParsePrinted(target, 20, U64_LIMIT);
    SeqnumsParts(a, b);
    ReadFromParts(SeqnumsText(sender, target), a, b, sender, target);
  }
}
