/** Over the transport: messages encoded on one side, cut up by the network, framed and built on
    the other. */
module Transport {
  import opened Decimal
  import opened Fields
  import opened Layouts
  import opened Wire
  import opened Messages
  import opened BodyLengths
  import opened Reading
  import opened RoundTrip
  import opened Rereading
  import opened Framing

  function BuildAll(b: MessageBuilder, raws: seq<seq<byte>>): seq<ParsedMessage>
    requires WellFormedBuilder(b)
  {
    seq(|raws|, i requires 0 <= i < |raws| => Build(b, raws[i]))
  }

  lemma {:induction false} SendableFramable(b: MessageBuilder, m: Parts)
    requires WellFormedBuilder(b) && b.config.separator == SOH && Sendable(b, m) && Short(Encoded(m, SOH))
    ensures Framable(m)
  {
    SendableValid(b, m);
    SendableNoOrphans(b, m);
    var f8 := FieldOf(m.header.fields, BEGIN_STRING);
    HeaderGood(b, m.header);
    assert Carried(b, f8);
    hide Encoded, SendableHeader, SendableBody, AllSeparable, ValidParts, NoOrphans, BodyLength, Prepared;
  }

  /** However the network cuts up a stream of encoded messages, the receiver frames and builds
      exactly the messages that were sent, in order, and has nothing left over. */
  lemma {:induction false} SentAndReceived(b: MessageBuilder, messages: seq<Parts>, chunks: seq<seq<byte>>)
    requires WellFormedBuilder(b) && b.config.separator == SOH
    requires forall i :: 0 <= i < |messages| ==> Sendable(b, messages[i]) && Short(Encoded(messages[i], SOH))
    requires Concat(chunks) == Concat(EncodeAll(messages))
    ensures |Delivered([], chunks)| == |messages| && Feed([], chunks).rest == []
    ensures forall i :: 0 <= i < |messages| ==>
              BuildAll(b, Delivered([], chunks))[i] == ParsedMessage.Valid(AsRead(messages[i], SOH))
  {
    hide Sendable, Build, Encoded, AsRead, Framable, Feed, Delivered, Concat, WellFormedBuilder;
    forall i | 0 <= i < |messages| ensures Framable(messages[i]) {
      SendableFramable(b, messages[i]);
    }
    StreamRoundTrip(messages, chunks);
    forall i | 0 <= i < |messages| ensures Build(b, EncodeAll(messages)[i])
      == ParsedMessage.Valid(AsRead(messages[i], SOH)) {
      EncodeThenBuild(b, messages[i]);
    }
  }
}
