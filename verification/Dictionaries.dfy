/** From dictionary to layouts: message definitions refer to components by name, components to
    other components, and groups nest; the builder flattens all of it. */
module Dictionaries {
  import opened Decimal
  import opened Fields
  import opened Layouts

  datatype Item =
    | FieldItem(tag: Tag, required: bool)
    | GroupItem(tag: Tag, required: bool, items: seq<Item>)
    | ComponentItem(name: string, required: bool)

  type Components = map<string, seq<Item>>

  /** A witness that no component contains itself. */
  type Ranks = map<string, nat>

  /** Every component named here, at any depth of groups, is known and ranks below `bound`. */
  predicate Below(d: Components, rank: Ranks, bound: nat, items: seq<Item>) {
    forall i :: 0 <= i < |items| ==> ItemBelow(d, rank, bound, items[i])
  }

  predicate ItemBelow(d: Components, rank: Ranks, bound: nat, item: Item) {
    match item
    case FieldItem(_, _) => true
    case GroupItem(_, _, items) => Below(d, rank, bound, items)
    case ComponentItem(name, _) => name in d && name in rank && rank[name] < bound
  }

  ghost predicate Acyclic(d: Components, rank: Ranks) {
    forall name :: name in d ==> name in rank && Below(d, rank, rank[name], d[name])
  }

  // ----- extraction -----

  /** `extract_fields` over a list of items. */
  function FieldsOf(d: Components, ghost rank: Ranks, ghost bound: nat, items: seq<Item>): seq<FieldSpec>
    requires Acyclic(d, rank) && Below(d, rank, bound, items)
    decreases bound, items
  {
    if items == [] then []
    else FieldsOf(d, rank, bound, items[..|items| - 1]) + FieldsOfItem(d, rank, bound, items[|items| - 1])
  }

  /** A group contributes its count tag, a component its own items; whether the component was
      required plays no part. */
  function FieldsOfItem(d: Components, ghost rank: Ranks, ghost bound: nat, item: Item): seq<FieldSpec>
    requires Acyclic(d, rank) && ItemBelow(d, rank, bound, item)
    decreases bound, item
  {
    match item
    case FieldItem(tag, required) => [FieldSpec(tag, required)]
    case GroupItem(tag, required, _) => [FieldSpec(tag, required)]
    case ComponentItem(name, _) => FieldsOf(d, rank, rank[name], d[name])
  }

  /** `HashMap::insert`, with the keys listed in the order they first came. */
  function InsertSpec(groups: seq<GroupSpec>, g: GroupSpec): seq<GroupSpec> {
    if groups == [] then [g]
    else if groups[0].countTag == g.countTag then [g] + groups[1..]
    else [groups[0]] + InsertSpec(groups[1..], g)
  }

  /** `HashMap::extend`. */
  function Extend(groups: seq<GroupSpec>, more: seq<GroupSpec>): seq<GroupSpec> {
    if more == [] then groups else InsertSpec(Extend(groups, more[..|more| - 1]), more[|more| - 1])
  }

  /** `extract_groups` over a list of items. */
  function GroupsOf(d: Components, ghost rank: Ranks, ghost bound: nat, items: seq<Item>): seq<GroupSpec>
    requires Acyclic(d, rank) && Below(d, rank, bound, items)
    decreases bound, items, 0
  {
    if items == [] then []
    else Extend(GroupsOf(d, rank, bound, items[..|items| - 1]), GroupsOfItem(d, rank, bound, items[|items| - 1]))
  }

  function GroupsOfItem(d: Components, ghost rank: Ranks, ghost bound: nat, item: Item): seq<GroupSpec>
    requires Acyclic(d, rank) && ItemBelow(d, rank, bound, item)
    decreases bound, item
  {
    match item
    case FieldItem(_, _) => []
    case GroupItem(tag, _, items) => [GroupSpec(tag, LayoutOf(d, rank, bound, items))]
    case ComponentItem(name, _) => GroupsOf(d, rank, rank[name], d[name])
  }

  function LayoutOf(d: Components, ghost rank: Ranks, ghost bound: nat, items: seq<Item>): Layout
    requires Acyclic(d, rank) && Below(d, rank, bound, items)
    decreases bound, items, 1
  {
    Layout(FieldsOf(d, rank, bound, items), GroupsOf(d, rank, bound, items))
  }

  method CollectGroups(d: Components, ghost rank: Ranks, ghost bound: nat, items: seq<Item>)
    returns (groups: seq<GroupSpec>)
    requires Acyclic(d, rank) && Below(d, rank, bound, items)
    ensures groups == GroupsOf(d, rank, bound, items)
    decreases bound, items, 1
  {
    groups := [];
    for i := 0 to |items|
      invariant groups == GroupsOf(d, rank, bound, items[..i])
    {
      var more := ExtractGroups(d, rank, bound, items[i]);
      groups := Extend(groups, more);
      assert items[..i + 1][..i] == items[..i];
    }
    assert items[..|items|] == items;
  }

  /** `extract_groups`: a map filled item by item. */
  method ExtractGroups(d: Components, ghost rank: Ranks, ghost bound: nat, item: Item) returns (groups: seq<GroupSpec>)
    requires Acyclic(d, rank) && ItemBelow(d, rank, bound, item)
    ensures groups == GroupsOfItem(d, rank, bound, item)
    decreases bound, item
  {
    match item
    case FieldItem(_, _) => groups := [];
    case ComponentItem(name, _) => groups := CollectGroups(d, rank, rank[name], d[name]);
    case GroupItem(tag, _, items) =>
      var nested := CollectGroups(d, rank, bound, items);
      groups := [GroupSpec(tag, Layout(FieldsOf(d, rank, bound, items), nested))];
  }

  // ----- the reference: components written out -----

  /** The items with every component replaced by what it stands for, inside groups too. */
  function Inline(d: Components, ghost rank: Ranks, ghost bound: nat, items: seq<Item>): (tree: seq<Item>)
    requires Acyclic(d, rank) && Below(d, rank, bound, items)
    ensures Plain(tree)
    decreases bound, items
  {
    if items == [] then []
    else Inline(d, rank, bound, items[..|items| - 1]) + InlineItem(d, rank, bound, items[|items| - 1])
  }

  function InlineItem(d: Components, ghost rank: Ranks, ghost bound: nat, item: Item): (tree: seq<Item>)
    requires Acyclic(d, rank) && ItemBelow(d, rank, bound, item)
    ensures Plain(tree)
    decreases bound, item
  {
    match item
    case FieldItem(_, _) => [item]
    case GroupItem(tag, required, items) => [GroupItem(tag, required, Inline(d, rank, bound, items))]
    case ComponentItem(name, _) => Inline(d, rank, rank[name], d[name])
  }

  predicate Plain(tree: seq<Item>) {
    forall i :: 0 <= i < |tree| ==> PlainItem(tree[i])
  }

  predicate PlainItem(item: Item) {
    match item
    case FieldItem(_, _) => true
    case GroupItem(_, _, items) => Plain(items)
    case ComponentItem(_, _) => false
  }

  /** One field per item, in order, a group standing for its count tag. */
  function Direct(tree: seq<Item>): (fields: seq<FieldSpec>)
    requires Plain(tree)
    ensures |fields| == |tree|
  {
    seq(|tree|, i requires 0 <= i < |tree| => assert PlainItem(tree[i]); FieldSpec(tree[i].tag, tree[i].required))
  }

  function Shape(tree: seq<Item>): Layout
    requires Plain(tree)
    decreases tree, 1
  {
    Layout(Direct(tree), ShapeGroups(tree))
  }

  function ShapeGroups(tree: seq<Item>): seq<GroupSpec>
    requires Plain(tree)
    decreases tree, 0
  {
    if tree == [] then []
    else
      var front, last := tree[..|tree| - 1], tree[|tree| - 1];
      assert PlainItem(last);
      match last
      case GroupItem(tag, _, items) => InsertSpec(ShapeGroups(front), GroupSpec(tag, Shape(items)))
      case FieldItem(_, _) => ShapeGroups(front)
  }

  // ----- insertion-ordered maps -----

  predicate HasSpec(groups: seq<GroupSpec>, t: Tag) {
    exists i :: 0 <= i < |groups| && groups[i].countTag == t
  }

  predicate UniqueSpecs(groups: seq<GroupSpec>) {
    forall i, j :: 0 <= i < j < |groups| ==> groups[i].countTag != groups[j].countTag
  }

  lemma {:induction false} InsertAgain(m: seq<GroupSpec>, y: GroupSpec, x: GroupSpec)
    requires y.countTag == x.countTag
    ensures InsertSpec(InsertSpec(m, y), x) == InsertSpec(m, x)
  {
    if m != [] && m[0].countTag != x.countTag {
      InsertAgain(m[1..], y, x);
    }
  }

  lemma {:induction false} InsertCommutes(m: seq<GroupSpec>, x: GroupSpec, z: GroupSpec)
    requires x.countTag != z.countTag && HasSpec(m, x.countTag)
    ensures InsertSpec(InsertSpec(m, x), z) == InsertSpec(InsertSpec(m, z), x)
  {
    if m[0].countTag != x.countTag && m[0].countTag != z.countTag {
      assert HasSpec(m[1..], x.countTag) by {
        var i :| 0 <= i < |m| && m[i].countTag == x.countTag;
        assert m[1..][i - 1].countTag == x.countTag;
      }
      InsertCommutes(m[1..], x, z);
    } else if m[0].countTag == z.countTag {
      assert InsertSpec(m, z) == [z] + m[1..];
      assert InsertSpec(m, x) == [m[0]] + InsertSpec(m[1..], x);
    }
  }

  lemma {:induction false} InsertedKeys(m: seq<GroupSpec>, x: GroupSpec)
    ensures UniqueSpecs(m) ==> UniqueSpecs(InsertSpec(m, x))
    ensures forall t: Tag :: HasSpec(InsertSpec(m, x), t) <==> HasSpec(m, t) || t == x.countTag
    ensures forall g :: g in InsertSpec(m, x) ==> g == x || g in m
    ensures x in InsertSpec(m, x)
  {
    if m != [] && m[0].countTag != x.countTag {
      var rest, r := m[1..], InsertSpec(m[1..], x);
      InsertedKeys(rest, x);
      assert m == [m[0]] + rest;
      KeysCons(m[0], rest);
      KeysCons(m[0], r);
      if UniqueSpecs(m) {
        assert UniqueSpecs(rest);
        assert !HasSpec(rest, m[0].countTag);
      }
    } else {
      if m != [] {
        assert m == [m[0]] + m[1..];
        KeysCons(m[0], m[1..]);
        KeysCons(x, m[1..]);
      } else {
        KeysCons(x, []);
      }
    }
  }

  lemma KeysCons(g: GroupSpec, rest: seq<GroupSpec>)
    ensures forall t: Tag :: HasSpec([g] + rest, t) <==> t == g.countTag || HasSpec(rest, t)
    ensures UniqueSpecs(rest) && !HasSpec(rest, g.countTag) ==> UniqueSpecs([g] + rest)
  {
    var all := [g] + rest;
    forall t: Tag ensures HasSpec(all, t) <==> t == g.countTag || HasSpec(rest, t) {
      if HasSpec(all, t) && t != g.countTag {
        var i :| 0 <= i < |all| && all[i].countTag == t;
        assert rest[i - 1].countTag == t;
      }
      if HasSpec(rest, t) {
        var i :| 0 <= i < |rest| && rest[i].countTag == t;
        assert all[i + 1].countTag == t;
      }
      assert all[0] == g;
    }
  }

  lemma {:induction false} ExtendKeys(a: seq<GroupSpec>, m: seq<GroupSpec>)
    ensures forall t: Tag :: HasSpec(Extend(a, m), t) <==> HasSpec(a, t) || HasSpec(m, t)
  {
    if m != [] {
      var front, last := m[..|m| - 1], m[|m| - 1];
      ExtendKeys(a, front);
      InsertedKeys(Extend(a, front), last);
      forall t: Tag ensures HasSpec(m, t) <==> HasSpec(front, t) || t == last.countTag {
        if HasSpec(front, t) {
          var i :| 0 <= i < |front| && front[i].countTag == t;
          assert m[i].countTag == t;
        }
        if HasSpec(m, t) && t != last.countTag {
          var i :| 0 <= i < |m| && m[i].countTag == t;
          assert front[i].countTag == t;
        }
      }
    }
  }

  lemma {:induction false} InsertSnoc(m: seq<GroupSpec>, x: GroupSpec)
    requires !HasSpec(m, x.countTag)
    ensures InsertSpec(m, x) == m + [x]
  {
    if m != [] {
      assert m[0].countTag != x.countTag;
      forall i | 0 <= i < |m[1..]| ensures m[1..][i].countTag != x.countTag {
        assert m[1..][i] == m[i + 1];
      }
      InsertSnoc(m[1..], x);
    }
  }

  lemma {:induction false} InsertUnderSnoc(m: seq<GroupSpec>, z: GroupSpec, x: GroupSpec)
    requires HasSpec(m, x.countTag)
    ensures InsertSpec(m + [z], x) == InsertSpec(m, x) + [z]
  {
    var all := m + [z];
    assert all[0] == m[0] && all[1..] == m[1..] + [z];
    if m[0].countTag != x.countTag {
      assert HasSpec(m[1..], x.countTag) by {
        var i :| 0 <= i < |m| && m[i].countTag == x.countTag;
        assert m[1..][i - 1].countTag == x.countTag;
      }
      InsertUnderSnoc(m[1..], z, x);
    }
  }

  lemma ExtendSnoc(a: seq<GroupSpec>, m: seq<GroupSpec>, z: GroupSpec)
    ensures Extend(a, m + [z]) == InsertSpec(Extend(a, m), z)
  {
    assert (m + [z])[..|m|] == m;
  }

  /** Inserting into the second map and then extending is extending and then inserting. */
  lemma {:induction false} ExtendInsert(a: seq<GroupSpec>, m: seq<GroupSpec>, x: GroupSpec)
    requires UniqueSpecs(m)
    ensures Extend(a, InsertSpec(m, x)) == InsertSpec(Extend(a, m), x)
  {
    if !HasSpec(m, x.countTag) {
      InsertSnoc(m, x);
      ExtendSnoc(a, m, x);
    } else {
      var front, z := m[..|m| - 1], m[|m| - 1];
      assert m == front + [z];
      ExtendSnoc(a, front, z);
      if z.countTag == x.countTag {
        assert !HasSpec(front, x.countTag) by {
          assert forall i :: 0 <= i < |front| ==> front[i] == m[i];
        }
        LastReplaced(front, z, x);
        ExtendSnoc(a, front, x);
        InsertAgain(Extend(a, front), z, x);
      } else {
        assert HasSpec(front, x.countTag) by {
          var i :| 0 <= i < |m| && m[i].countTag == x.countTag;
          assert front[i].countTag == x.countTag;
        }
        InsertUnderSnoc(front, z, x);
        ExtendSnoc(a, InsertSpec(front, x), z);
        assert UniqueSpecs(front);
        ExtendInsert(a, front, x);
        ExtendKeys(a, front);
        InsertCommutes(Extend(a, front), x, z);
      }
    }
  }

  lemma {:induction false} LastReplaced(front: seq<GroupSpec>, z: GroupSpec, x: GroupSpec)
    requires z.countTag == x.countTag && !HasSpec(front, x.countTag)
    ensures InsertSpec(front + [z], x) == front + [x]
  {
    InsertSnoc(front, z);
    InsertAgain(front, z, x);
    InsertSnoc(front, x);
  }

  // ----- flattening is faithful -----

  lemma {:induction false} ShapeGroupsUnique(tree: seq<Item>)
    requires Plain(tree)
    ensures UniqueSpecs(ShapeGroups(tree))
  {
    if tree != [] {
      var front, last := tree[..|tree| - 1], tree[|tree| - 1];
      ShapeGroupsUnique(front);
      assert PlainItem(last);
      if last.GroupItem? {
        InsertedKeys(ShapeGroups(front), GroupSpec(last.tag, Shape(last.items)));
      }
    }
  }

  lemma {:induction false} ShapeGroupsConcat(a: seq<Item>, c: seq<Item>)
    requires Plain(a) && Plain(c)
    ensures Plain(a + c) && ShapeGroups(a + c) == Extend(ShapeGroups(a), ShapeGroups(c))
    decreases |c|
  {
    if c == [] {
      assert a + c == a;
    } else {
      var front, last := c[..|c| - 1], c[|c| - 1];
      assert PlainItem(last) && Plain(front);
      ShapeGroupsConcat(a, front);
      hide ShapeGroups, Shape, InsertSpec;
      ShapeGroupsUnique(front);
      ShapeGroupsSnoc(front, last);
      ShapeGroupsSnoc(a + front, last);
      assert front + [last] == c && a + front + [last] == a + c;
      if last.GroupItem? {
        ExtendInsert(ShapeGroups(a), ShapeGroups(front), GroupSpec(last.tag, Shape(last.items)));
      }
    }
  }

  lemma ShapeGroupsSnoc(tree: seq<Item>, item: Item)
    requires Plain(tree) && PlainItem(item)
    ensures Plain(tree + [item])
    ensures ShapeGroups(tree + [item]) ==
            if item.GroupItem? then InsertSpec(ShapeGroups(tree), GroupSpec(item.tag, Shape(item.items)))
              else ShapeGroups(tree)
  {
    assert (tree + [item])[..|tree|] == tree;
  }

  lemma DirectConcat(a: seq<Item>, c: seq<Item>)
    requires Plain(a) && Plain(c)
    ensures Plain(a + c) && Direct(a + c) == Direct(a) + Direct(c)
  {}

  /** The field list of any definition is the in-order expansion of its components, each group
      contributing its count tag only; the groups are those of the expansion, at every depth. */
  lemma {:induction false} FlatteningFaithful(d: Components, rank: Ranks, bound: nat, items: seq<Item>)
    requires Acyclic(d, rank) && Below(d, rank, bound, items)
    ensures LayoutOf(d, rank, bound, items) == Shape(Inline(d, rank, bound, items))
    decreases bound, items, 1
  {
    if items != [] {
      var front, last := items[..|items| - 1], items[|items| - 1];
      FlatteningFaithful(d, rank, bound, front);
      ItemFaithful(d, rank, bound, last);
      var a, c := Inline(d, rank, bound, front), InlineItem(d, rank, bound, last);
      DirectConcat(a, c);
      ShapeGroupsConcat(a, c);
    }
  }

  lemma {:induction false} ItemFaithful(d: Components, rank: Ranks, bound: nat, item: Item)
    requires Acyclic(d, rank) && ItemBelow(d, rank, bound, item)
    ensures Direct(InlineItem(d, rank, bound, item)) == FieldsOfItem(d, rank, bound, item)
    ensures ShapeGroups(InlineItem(d, rank, bound, item)) == GroupsOfItem(d, rank, bound, item)
    decreases bound, item
  {
    match item
    case FieldItem(_, _) =>
      assert [item][..0] == [];
    case ComponentItem(name, _) =>
      FlatteningFaithful(d, rank, rank[name], d[name]);
    case GroupItem(tag, required, items) =>
      FlatteningFaithful(d, rank, bound, items);
      var g := GroupItem(tag, required, Inline(d, rank, bound, items));
      assert [g][..0] == [];
      assert ShapeGroups([g]) == InsertSpec([], GroupSpec(tag, Shape(g.items)));
  }

  // ----- every group is reached -----

  /** Every group's count tag is a field of its level and leads to that group, at every depth. */
  ghost predicate Reachable(l: Layout) {
    forall i :: 0 <= i < |l.groups| ==>
      && Declares(l, l.groups[i].countTag)
      && GroupFor(l, l.groups[i].countTag) == Some(l.groups[i])
      && Reachable(l.groups[i].layout)
  }

  lemma {:induction false} ShapeMembers(tree: seq<Item>, g: GroupSpec)
    requires Plain(tree) && g in ShapeGroups(tree)
    ensures exists k ::
              && 0 <= k < |tree| && tree[k].GroupItem? && PlainItem(tree[k])
              && g == GroupSpec(tree[k].tag, Shape(tree[k].items))
  {
    var front, last := tree[..|tree| - 1], tree[|tree| - 1];
    assert PlainItem(last);
    if last.GroupItem? {
      InsertedKeys(ShapeGroups(front), GroupSpec(last.tag, Shape(last.items)));
    }
    if !(last.GroupItem? && g == GroupSpec(last.tag, Shape(last.items))) {
      ShapeMembers(front, g);
      var k :| 0 <= k < |front| && front[k].GroupItem? && PlainItem(front[k])
        && g == GroupSpec(front[k].tag, Shape(front[k].items));
      assert tree[k] == front[k];
    }
  }

  lemma {:induction false} FoundUnique(groups: seq<GroupSpec>, i: nat)
    requires UniqueSpecs(groups) && i < |groups|
    ensures FindGroup(groups, groups[i].countTag) == Some(groups[i])
  {
    var r := FindGroup(groups, groups[i].countTag);
    assert r.Some?;
    var j :| 0 <= j < |groups| && groups[j] == r.value;
    assert j == i;
  }

  lemma {:induction false} ShapeReachable(tree: seq<Item>)
    requires Plain(tree)
    ensures Reachable(Shape(tree))
    decreases tree
  {
    var l := Shape(tree);
    ShapeGroupsUnique(tree);
    forall i | 0 <= i < |l.groups|
      ensures Declares(l, l.groups[i].countTag) && GroupFor(l, l.groups[i].countTag) == Some(l.groups[i])
              && Reachable(l.groups[i].layout)
    {
      var g := l.groups[i];
      ShapeMembers(tree, g);
      var k :| 0 <= k < |tree| && tree[k].GroupItem? && PlainItem(tree[k])
        && g == GroupSpec(tree[k].tag, Shape(tree[k].items));
      assert l.fields[k].tag == g.countTag;
      FoundUnique(l.groups, i);
      assert tree[k] in tree;
      ShapeReachable(tree[k].items);
    }
  }

  /** Whatever the dictionary says, the parser reaches every group it declares. */
  lemma EveryGroupReached(d: Components, rank: Ranks, bound: nat, items: seq<Item>)
    requires Acyclic(d, rank) && Below(d, rank, bound, items)
    ensures Reachable(LayoutOf(d, rank, bound, items))
  {
    FlatteningFaithful(d, rank, bound, items);
    ShapeReachable(Inline(d, rank, bound, items));
  }

  /** No group of the expansion is empty. */
  predicate NoEmptyGroup(tree: seq<Item>)
    requires Plain(tree)
  {
    forall i :: 0 <= i < |tree| ==>
      && PlainItem(tree[i])
      && (tree[i].GroupItem? ==> tree[i].items != [] && NoEmptyGroup(tree[i].items))
  }

  lemma {:induction false} ShapeWellFormed(tree: seq<Item>)
    requires Plain(tree) && NoEmptyGroup(tree)
    ensures WellFormed(Shape(tree))
    decreases tree
  {
    var l := Shape(tree);
    forall i | 0 <= i < |l.groups| ensures WellFormedGroup(l.groups[i]) {
      var g := l.groups[i];
      ShapeMembers(tree, g);
      var k :| 0 <= k < |tree| && tree[k].GroupItem? && PlainItem(tree[k])
        && g == GroupSpec(tree[k].tag, Shape(tree[k].items));
      assert tree[k] in tree;
      ShapeWellFormed(tree[k].items);
    }
  }

  /** If no group is empty once components are written out, every group has a delimiter. */
  lemma FlattenedWellFormed(d: Components, rank: Ranks, bound: nat, items: seq<Item>)
    requires Acyclic(d, rank) && Below(d, rank, bound, items) && NoEmptyGroup(Inline(d, rank, bound, items))
    ensures WellFormed(LayoutOf(d, rank, bound, items))
  {
    FlatteningFaithful(d, rank, bound, items);
    ShapeWellFormed(Inline(d, rank, bound, items));
  }

  /** Of several groups counted by the same tag at one level, the last one counts. */
  lemma {:induction false} LastGroupWins(tree: seq<Item>, k: nat)
    requires Plain(tree) && k < |tree| && tree[k].GroupItem?
    requires forall j :: k < j < |tree| && tree[j].GroupItem? ==> tree[j].tag != tree[k].tag
    ensures PlainItem(tree[k])
            && GroupFor(Shape(tree), tree[k].tag) == Some(GroupSpec(tree[k].tag, Shape(tree[k].items)))
  {
    assert PlainItem(tree[k]);
    var front, last := tree[..|tree| - 1], tree[|tree| - 1];
    assert PlainItem(last);
    var before, g := ShapeGroups(front), GroupSpec(tree[k].tag, Shape(tree[k].items));
    ShapeGroupsUnique(front);
    if k == |front| {
      InsertedFound(before, g, g.countTag);
    } else {
      LastGroupWins(front, k);
      if last.GroupItem? {
        InsertedFound(before, GroupSpec(last.tag, Shape(last.items)), g.countTag);
      }
    }
  }

  lemma {:induction false} InsertedFound(m: seq<GroupSpec>, x: GroupSpec, t: Tag)
    ensures FindGroup(InsertSpec(m, x), t) == if t == x.countTag then Some(x) else FindGroup(m, t)
  {
    if m != [] && m[0].countTag != x.countTag {
      InsertedFound(m[1..], x, t);
    }
  }
}
