/** The grammar of message bodies, and the body parser's soundness and completeness for it. */
module BodyGrammar {
  import opened Decimal
  import opened Fields
  import opened Layouts
  import opened Grammar
  import opened Assembly
  import opened Reading

  ghost predicate BodyNodeConforms(b: MessageBuilder, l: Layout, n: Node, follow: Tag)
    requires WellFormed(l)
  {
    if Declares(l, n.field.tag) then
      && n.field.tag in b.fieldTags
      && match GroupFor(l, n.field.tag)
         case Some(g) => RunConforms(b, g, n.entries, follow) && RequiredPresent(g, BuildRun(g, n.entries))
         case None => n.entries == []
    else
      AcceptsUnknown(b, n.field.tag) && n.entries == []
  }

  /** A body: declared fields in any order, each count field with its run, up to a trailer field. */
  ghost predicate BodyConforms(b: MessageBuilder, l: Layout, nodes: seq<Node>, follow: Tag)
    requires WellFormed(l)
  {
    && !Absorbs(b, l, follow) && follow in b.trailerTags
    && PrefixConforms(b, l, nodes, follow)
  }

  ghost predicate PrefixConforms(b: MessageBuilder, l: Layout, nodes: seq<Node>, follow: Tag)
    requires WellFormed(l)
  {
    forall i :: 0 <= i < |nodes| ==> BodyNodeConforms(b, l, nodes[i], NextTag(nodes, i, follow))
  }

  /** What the first field ahead does to the body. */
  datatype BodyStep = Take(node: Node, rest: seq<Field>) | Stop | Reject(error: ParserError)

  function NextBodyStep(b: MessageBuilder, l: Layout, toks: seq<Field>): BodyStep
    requires WellFormed(l) && toks != []
  {
    var f := toks[0];
    if Declares(l, f.tag) then
      if f.tag !in b.fieldTags then Reject(InvalidField(f.tag))
      else
        match GroupFor(l, f.tag)
        case None => Take(Node(f, []), toks[1..])
        case Some(g) =>
          match ParseRun(b, g, toks[1..])
          case Err(e) => Reject(e)
          case Ok(p) =>
            var missing := FirstMissing(g, BuildRun(g, p.entries));
            if missing.Some? then Reject(missing.value) else Take(Node(f, p.entries), p.rest)
    else if AcceptsUnknown(b, f.tag) then Take(Node(f, []), toks[1..])
    else if f.tag !in b.trailerTags then Reject(InvalidField(f.tag))
    else Stop
  }

  lemma {:induction false} BodyUnfold(b: MessageBuilder, l: Layout, done: seq<Node>, toks: seq<Field>)
    requires WellFormed(l) && toks != []
    ensures ParseBody(b, l, done, toks) ==
            match NextBodyStep(b, l, toks)
            case Take(n, rest) => ParseBody(b, l, done + [n], rest)
            case Stop => Ok(ParsedBody(done, toks))
            case Reject(e) => Err(e)
    ensures NextBodyStep(b, l, toks).Take? ==> |NextBodyStep(b, l, toks).rest| < |toks|
  {}

  lemma {:induction false} BodyStepSound(b: MessageBuilder, l: Layout, toks: seq<Field>)
    requires WellFormed(l) && toks != []
    requires var s := NextBodyStep(b, l, toks); s.Take? && s.rest != []
    ensures var s := NextBodyStep(b, l, toks);
            && s.node.field == toks[0]
            && toks == [s.node.field] + (FlatEntries(s.node.entries) + s.rest)
            && BodyNodeConforms(b, l, s.node, s.rest[0].tag)
  {
    hide FirstMissing, RequiredPresent, RunConforms, BuildRun, ParseRun;
    assert toks == [toks[0]] + toks[1..];
    assert FlatEntries([]) == [];
    if Declares(l, toks[0].tag) && GroupFor(l, toks[0].tag).Some? {
      var g := GroupFor(l, toks[0].tag).value;
      RunSound(b, g, toks[1..]);
      MissingCorrect(g, BuildRun(g, ParseRun(b, g, toks[1..]).value.entries));
    }
  }

  lemma {:induction false} BodyStepComplete(b: MessageBuilder, l: Layout, n: Node, rest: seq<Field>)
    requires WellFormed(l) && rest != [] && BodyNodeConforms(b, l, n, rest[0].tag)
    ensures NextBodyStep(b, l, [n.field] + (FlatEntries(n.entries) + rest)) == Take(n, rest)
  {
    hide FirstMissing, RequiredPresent, RunConforms, BuildRun, ParseRun;
    var toks := [n.field] + (FlatEntries(n.entries) + rest);
    assert toks[1..] == FlatEntries(n.entries) + rest;
    if Declares(l, n.field.tag) && GroupFor(l, n.field.tag).Some? {
      var g := GroupFor(l, n.field.tag).value;
      RunComplete(b, g, n.entries, rest);
      MissingCorrect(g, BuildRun(g, n.entries));
    } else {
      assert FlatEntries([]) == [] && toks[1..] == rest && n == Node(n.field, []);
    }
  }

  lemma PrefixSnoc(b: MessageBuilder, l: Layout, nodes: seq<Node>, n: Node, follow: Tag)
    requires WellFormed(l) && PrefixConforms(b, l, nodes, n.field.tag) && BodyNodeConforms(b, l, n, follow)
    ensures PrefixConforms(b, l, nodes + [n], follow)
  {
    hide BodyNodeConforms;
    var all := nodes + [n];
    forall i | 0 <= i < |all| ensures BodyNodeConforms(b, l, all[i], NextTag(all, i, follow)) {
      if i < |nodes| {
        assert NextTag(all, i, follow) == NextTag(nodes, i, n.field.tag);
      }
    }
  }

  /** Whatever body is accepted is in the grammar, and all its fields are accounted for. */
  lemma {:induction false} BodySound(b: MessageBuilder, l: Layout, done: seq<Node>, toks: seq<Field>)
    requires WellFormed(l) && ParseBody(b, l, done, toks).Ok?
    requires toks != [] ==> PrefixConforms(b, l, done, toks[0].tag)
    ensures var p := ParseBody(b, l, done, toks).value;
            && FlatNodes(p.nodes) + p.rest == FlatNodes(done) + toks
            && BodyConforms(b, l, p.nodes, p.rest[0].tag)
    decreases |toks|
  {
    assert toks != [];
    BodyUnfold(b, l, done, toks);
    match NextBodyStep(b, l, toks) {
      case Take(n, rest) =>
        RestLeft(b, l, done + [n], rest);
        hide *;
        BodyStepSound(b, l, toks);
        PrefixSnoc(b, l, done, n, rest[0].tag);
        BodySound(b, l, done + [n], rest);
        FlatSnoc(done, n, rest, toks);
      case Stop =>
    }
  }

  lemma {:induction false} RestLeft(b: MessageBuilder, l: Layout, done: seq<Node>, toks: seq<Field>)
    requires WellFormed(l) && ParseBody(b, l, done, toks).Ok?
    ensures toks != []
  {}

  lemma FlatSnoc(done: seq<Node>, n: Node, rest: seq<Field>, toks: seq<Field>)
    requires toks == [n.field] + (FlatEntries(n.entries) + rest)
    ensures FlatNodes(done + [n]) + rest == FlatNodes(done) + toks
  {
    FlatNodesConcat(done, [n]);
    FlatSingleNode(n);
  }

  /** Whatever is in the grammar is accepted, unchanged. */
  lemma {:induction false} BodyComplete(b: MessageBuilder, l: Layout, done: seq<Node>, nodes: seq<Node>,
                                        rest: seq<Field>)
    requires WellFormed(l) && rest != [] && BodyConforms(b, l, nodes, rest[0].tag)
    ensures ParseBody(b, l, done, FlatNodes(nodes) + rest) == Ok(ParsedBody(done + nodes, rest))
    decreases |nodes|
  {
    hide *;
    BodyUnfold(b, l, done, FlatNodes(nodes) + rest);
    if nodes == [] {
      BodyStops(b, l, rest);
      assert done + nodes == done && FlatNodes(nodes) + rest == rest;
    } else {
      var rest' := FlatNodes(nodes[1..]) + rest;
      HeadConforms(b, l, nodes, rest);
      TailConforms(b, l, nodes, rest[0].tag);
      FlatCons(nodes, rest);
      BodyStepComplete(b, l, nodes[0], rest');
      BodyComplete(b, l, done + [nodes[0]], nodes[1..], rest);
      assert done + [nodes[0]] + nodes[1..] == done + nodes;
    }
  }

  lemma BodyStops(b: MessageBuilder, l: Layout, rest: seq<Field>)
    requires WellFormed(l) && rest != [] && BodyConforms(b, l, [], rest[0].tag)
    ensures FlatNodes([]) == [] && NextBodyStep(b, l, rest) == Stop
  {}

  lemma HeadConforms(b: MessageBuilder, l: Layout, nodes: seq<Node>, rest: seq<Field>)
    requires WellFormed(l) && nodes != [] && rest != [] && BodyConforms(b, l, nodes, rest[0].tag)
    ensures BodyNodeConforms(b, l, nodes[0], (FlatNodes(nodes[1..]) + rest)[0].tag)
  {
    hide BodyNodeConforms;
    assert (FlatNodes(nodes[1..]) + rest)[0].tag == NextTag(nodes, 0, rest[0].tag);
  }

  lemma TailConforms(b: MessageBuilder, l: Layout, nodes: seq<Node>, follow: Tag)
    requires WellFormed(l) && nodes != [] && BodyConforms(b, l, nodes, follow)
    ensures BodyConforms(b, l, nodes[1..], follow)
  {
    hide BodyNodeConforms;
    var more := nodes[1..];
    forall i | 0 <= i < |more| ensures BodyNodeConforms(b, l, more[i], NextTag(more, i, follow)) {
      assert more[i] == nodes[i + 1] && NextTag(more, i, follow) == NextTag(nodes, i + 1, follow);
    }
  }

  lemma FlatCons(nodes: seq<Node>, rest: seq<Field>)
    requires nodes != []
    ensures FlatNodes(nodes) + rest
            == [nodes[0].field] + (FlatEntries(nodes[0].entries) + (FlatNodes(nodes[1..]) + rest))
  {}
}
