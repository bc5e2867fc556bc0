/** cJSON_Duplicate and cJSON_Compare. */
module Copy {
  import opened Text
  import opened Json
  import opened Tree

  const CIRCULAR_LIMIT: nat := 10000

  // ----- Duplicate -----

  /** How many levels of children there are below a value; an empty container has none. */
  function Levels(v: Json): (n: nat)
    decreases v, 1
  {
    match v
    case Arr(items) => if items == [] then 0 else 1 + ItemsLevels(items)
    case Obj(members) => if members == [] then 0 else 1 + MembersLevels(members)
    case _ => 0
  }

  function ItemsLevels(items: seq<Json>): nat
    decreases items, 0
  {
    if items == [] then 0 else Max(Levels(items[0]), ItemsLevels(items[1..]))
  }

  function MembersLevels(members: seq<Member>): nat
    decreases members, 0
  {
    if members == [] then 0 else Max(Levels(members[0].value), MembersLevels(members[1..]))
  }

  /** The levels below the children of a container from the i-th on; 0 when there are none. */
  ghost function Below(v: Json, i: nat): nat {
    match v
    case Arr(items) => if i <= |items| then ItemsLevels(items[i..]) else 0
    case Obj(members) => if i <= |members| then MembersLevels(members[i..]) else 0
    case _ => 0
  }

  lemma BelowStep(item: Node, i: nat)
    requires item.Valid() && i < |item.kids|
    ensures Below(item.val, i) == Max(Levels(item.kids[i].val), Below(item.val, i + 1))
    ensures Levels(item.val) == 1 + Below(item.val, 0)
    ensures i + 1 == |item.kids| ==> Below(item.val, i + 1) == 0
    ensures item.kids[i].val < item.val
  {
    Kid(item, i);
    if item.val.Arr? {
      var items := item.val.items;
      assert items[i..][1..] == items[i + 1..] && items[0..] == items && items[i..][0] == item.kids[i].val;
    } else {
      var members := item.val.members;
      assert members[i..][1..] == members[i + 1..] && members[0..] == members;
      assert members[i..][0] == members[i] == Member(item.kids[i].name.value, item.kids[i].val);
    }
  }

  lemma NoLevels(item: Node)
    requires item.Valid() && item.kids == []
    ensures Levels(item.val) == 0
  {
  }

  lemma Leaf(item: Node)
    requires item.Valid()
    ensures item.Denotes() && item in item.repr
    ensures item.kind != Array && item.kind != Object ==> Levels(item.val) == 0
  {
  }

  /** The values copied so far, as a container of the same kind. */
  ghost function Front(v: Json, i: nat): Json {
    match v
    case Arr(items) => if i <= |items| then Arr(items[..i]) else v
    case Obj(members) => if i <= |members| then Obj(members[..i]) else v
    case _ => v
  }

  lemma ContainsNext(item: Node, kids: seq<Node>, i: nat, n: Node)
    requires item.Valid() && i < |item.kids| && Contains(kids, Front(item.val, i))
    requires n.val == item.kids[i].val && n.name == item.kids[i].name
    ensures Contains(kids + [n], Front(item.val, i + 1))
  {
    hide Node.Valid, Contains;
    Kid(item, i);
    if item.val.Arr? {
      ContainsItem(kids, item.val.items[..i], n);
      assert item.val.items[..i] + [n.val] == item.val.items[..i + 1];
    } else {
      ContainsMember(kids, item.val.members[..i], n);
      assert item.val.members[..i] + [Member(n.name.value, n.val)] == item.val.members[..i + 1];
    }
  }

  lemma FrontWhole(item: Node)
    requires item.Valid() && (item.kind == Array || item.kind == Object)
    ensures Front(item.val, |item.kids|) == item.val && item.val.Arr? == (item.kind == Array)
    ensures Front(item.val, 0) == if item.kind == Array then Arr([]) else Obj([])
  {
    if item.val.Arr? {
      assert item.val.items[..|item.kids|] == item.val.items;
    } else {
      assert item.val.members[..|item.kids|] == item.val.members;
    }
  }

  /** A tree of new nodes with the same value and the same key, exactly when the item has at most
      CIRCULAR_LIMIT levels of children. */
  method Duplicate(item: Node?, depth: nat) returns (copy: Node?)
    requires item != null ==> item.Valid() && depth <= CIRCULAR_LIMIT
    ensures copy == null <==> item == null || depth + Levels(item.val) > CIRCULAR_LIMIT
    ensures copy != null ==>
      && copy in copy.repr && fresh(copy.repr) && copy.Valid()
      && copy.val == item.val && copy.name == item.name && copy.next == null && copy.prev == null
    decreases if item == null then Null else item.val, 1
  {
    hide Node.Valid, Levels;
    if item == null { return null; }
    Leaf(item);
    copy := new Node();
    copy.kind, copy.valueint, copy.valuedouble := item.kind, item.valueint, item.valuedouble;
    copy.valuestring, copy.name := item.valuestring, item.name;
    if item.kind != Array && item.kind != Object {
      copy.val := item.val;
      copy.Scalar();
      return;
    }
    var ok := DuplicateChildren(item, copy, depth);
    if !ok { return null; }
  }

  /** One round of the loop: a copy of the child behind the copies made so far. */
  method DuplicateNext(child: Node, depth: nat, ghost kids: seq<Node>, ghost nodes: set<Node>, last: Node?)
    returns (newChild: Node?)
    requires child.Valid() && depth <= CIRCULAR_LIMIT && Forest(kids, nodes, null) && child.repr !! nodes
    requires last == if kids == [] then null else kids[|kids| - 1]
    modifies Tail(kids)`next
    ensures newChild == null <==> depth + Levels(child.val) > CIRCULAR_LIMIT
    ensures newChild != null ==>
      && newChild in newChild.repr && fresh(newChild.repr) && Forest(kids + [newChild], nodes + newChild.repr, null)
      && newChild.val == child.val && newChild.name == child.name
    decreases child.val, 2
  {
    hide Node.Valid, Forest, Levels;
    InForest(kids, nodes);
    newChild := Duplicate(child, depth);
    if newChild == null { return; }
    Link(kids, nodes, last, newChild);
    ForestSnoc(kids, nodes, newChild);
  }

  /** The loop over the children, with the list links and the tail pointer at the end. */
  method DuplicateChildren(item: Node, copy: Node, depth: nat) returns (ok: bool)
    requires item.Valid() && (item.kind == Array || item.kind == Object) && depth <= CIRCULAR_LIMIT
    requires copy !in item.repr && copy.child == null && copy.kind == item.kind && copy.repr == {copy}
    modifies copy`child, copy`kids, copy`repr, copy`val, copy`kind
    ensures ok <==> depth + Levels(item.val) <= CIRCULAR_LIMIT
    ensures ok ==> copy in copy.repr && copy.Valid() && copy.val == item.val && fresh(copy.repr - {copy})
    decreases item.val, 0
  {
    hide Node.Valid, Forest, Contains, Levels, Front, Below;
    ghost var kids: seq<Node>, nodes: set<Node> := [], {};
    EmptyForest();
    ContainsNothing();
    FrontWhole(item);
    Kids(item);
    if item.kids == [] { NoLevels(item); } else { BelowStep(item, 0); }
    var child, head: Node?, last: Node? := item.child, null, null;
    ghost var i := 0;
    while child != null
      invariant i <= |item.kids| && child == After(item.kids, i - 1, null) && item.Valid()
      invariant |kids| == i && Forest(kids, nodes, null) && fresh(nodes) && Contains(kids, Front(item.val, i))
      invariant head == (if kids == [] then null else kids[0])
      invariant last == if kids == [] then null else kids[|kids| - 1]
      invariant i < |item.kids| ==>
        (depth + Levels(item.val) <= CIRCULAR_LIMIT <==> depth + 1 + Below(item.val, i) <= CIRCULAR_LIMIT)
      invariant i == |item.kids| ==> depth + Levels(item.val) <= CIRCULAR_LIMIT
      decreases |item.kids| - i
    {
      BelowStep(item, i);
      Kid(item, i);
      InForest(kids, nodes);
      if depth >= CIRCULAR_LIMIT { return false; }
      var newChild := DuplicateNext(child, depth + 1, kids, nodes, last);
      if newChild == null { return false; }
      ContainsNext(item, kids, i, newChild);
      if head == null { head := newChild; }
      last := newChild;
      kids, nodes := kids + [newChild], nodes + newChild.repr;
      i := i + 1;
      child := child.next;
    }
    InForest(kids, nodes);
    Adopt(copy, item.kind, head, last, kids, nodes, item.val);
    ok := true;
  }

  // ----- Compare -----

  /** 2 to the power of -52 */
  const DBL_EPSILON: real := 1.0 / 4503599627370496.0

  function Abs(x: real): real {
    if x < 0.0 then -x else x
  }

  predicate CompareDouble(a: real, b: real) {
    var maxVal := if Abs(a) > Abs(b) then Abs(a) else Abs(b);
    Abs(a - b) <= maxVal * DBL_EPSILON
  }

  predicate SameKey(a: string, b: string, caseSensitive: bool) {
    if caseSensitive then a == b else LowerAll(a) == LowerAll(b)
  }

  /** get_object_item: the index of the first member with this key, or the number of members. */
  function Lookup(members: seq<Member>, key: string, caseSensitive: bool): (i: nat)
    ensures i <= |members|
    ensures forall j :: 0 <= j < i ==> !SameKey(key, members[j].key, caseSensitive)
    ensures i < |members| ==> SameKey(key, members[i].key, caseSensitive)
  {
    if members == [] || SameKey(key, members[0].key, caseSensitive) then 0
    else 1 + Lookup(members[1..], key, caseSensitive)
  }

  lemma {:induction false} NestingItem(items: seq<Json>, i: nat)
    requires i < |items|
    ensures Nesting(items[i]) < Nesting(Arr(items))
  {
    if i > 0 {
      NestingItem(items[1..], i - 1);
    }
  }

  lemma {:induction false} NestingMember(members: seq<Member>, i: nat)
    requires i < |members|
    ensures Nesting(members[i].value) < Nesting(Obj(members))
  {
    if i > 0 {
      NestingMember(members[1..], i - 1);
    }
  }

  /** cJSON_Compare on the values of two different trees. */
  predicate Same(a: Json, b: Json, caseSensitive: bool)
    decreases Nesting(a) + Nesting(b)
  {
    match (a, b)
    case (Null, Null) => true
    case (Bool(x), Bool(y)) => x == y
    case (Num(x), Num(y)) => CompareDouble(x, y)
    case (Str(x), Str(y)) => x == y
    case (Arr(x), Arr(y)) =>
      |x| == |y| && forall i :: 0 <= i < |x| ==> (NestingItem(x, i); NestingItem(y, i); Same(x[i], y[i], caseSensitive))
    case (Obj(x), Obj(y)) =>
      && (forall i :: 0 <= i < |x| ==>
            var j := Lookup(y, x[i].key, caseSensitive);
            j < |y| && (NestingMember(x, i); NestingMember(y, j); Same(x[i].value, y[j].value, caseSensitive)))
      && (forall i :: 0 <= i < |y| ==>
            var j := Lookup(x, y[i].key, caseSensitive);
            j < |x| && (NestingMember(y, i); NestingMember(x, j); Same(y[i].value, x[j].value, caseSensitive)))
    case _ => false
  }

  /** Comparing is symmetric on all values. */
  lemma {:induction false} SameSymmetric(a: Json, b: Json, caseSensitive: bool)
    ensures Same(a, b, caseSensitive) == Same(b, a, caseSensitive)
    decreases Nesting(a) + Nesting(b)
  {
    if a.Arr? && b.Arr? {
      forall i | 0 <= i < |a.items| && i < |b.items|
        ensures Same(a.items[i], b.items[i], caseSensitive) == Same(b.items[i], a.items[i], caseSensitive)
      {
        NestingItem(a.items, i);
        NestingItem(b.items, i);
        SameSymmetric(a.items[i], b.items[i], caseSensitive);
      }
    }
  }

  /** No object in the value has two members with the same key, under the chosen case rule. */
  ghost predicate UniqueKeys(v: Json, caseSensitive: bool) {
    match v
    case Arr(items) => forall i :: 0 <= i < |items| ==> UniqueKeys(items[i], caseSensitive)
    case Obj(members) =>
      && (forall i :: 0 <= i < |members| ==> UniqueKeys(members[i].value, caseSensitive))
      && (forall i, j :: 0 <= i < j < |members| ==> !SameKey(members[i].key, members[j].key, caseSensitive))
    case _ => true
  }

  /** Every member compares as the same as the first member with its key; only the first of several
      namesakes is ever compared with itself. */
  ghost predicate NamesakesAgree(v: Json, caseSensitive: bool) {
    match v
    case Arr(items) => forall i :: 0 <= i < |items| ==> NamesakesAgree(items[i], caseSensitive)
    case Obj(members) =>
      forall i :: 0 <= i < |members| ==>
        var j := Lookup(members, members[i].key, caseSensitive);
        if j == i then NamesakesAgree(members[i].value, caseSensitive)
        else j < |members| && Same(members[i].value, members[j].value, caseSensitive)
    case _ => true
  }

  /** A value is the same as a copy of it if and only if its namesakes agree. */
  lemma {:induction false} SameAsCopyExactly(v: Json, caseSensitive: bool)
    ensures Same(v, v, caseSensitive) <==> NamesakesAgree(v, caseSensitive)
    decreases v
  {
    match v
    case Arr(items) =>
      forall i | 0 <= i < |items|
        ensures Same(items[i], items[i], caseSensitive) <==> NamesakesAgree(items[i], caseSensitive)
      {
        SameAsCopyExactly(items[i], caseSensitive);
      }
    case Obj(members) =>
      forall i | 0 <= i < |members|
        ensures Lookup(members, members[i].key, caseSensitive) < |members|
        ensures Same(members[i].value, members[i].value, caseSensitive)
                <==> NamesakesAgree(members[i].value, caseSensitive)
      {
        SameAsCopyExactly(members[i].value, caseSensitive);
        assert SameKey(members[i].key, members[i].key, caseSensitive);
      }
    case _ =>
  }

  lemma {:induction false} UniqueKeysAgree(v: Json, caseSensitive: bool)
    requires UniqueKeys(v, caseSensitive)
    ensures NamesakesAgree(v, caseSensitive)
    decreases v
  {
    match v
    case Arr(items) =>
      forall i | 0 <= i < |items| ensures NamesakesAgree(items[i], caseSensitive) {
        UniqueKeysAgree(items[i], caseSensitive);
      }
    case Obj(members) =>
      forall i | 0 <= i < |members|
        ensures Lookup(members, members[i].key, caseSensitive) == i && NamesakesAgree(members[i].value, caseSensitive)
      {
        UniqueKeysAgree(members[i].value, caseSensitive);
        var j := Lookup(members, members[i].key, caseSensitive);
        assert SameKey(members[i].key, members[i].key, caseSensitive);
        assert j <= i && SameKey(members[i].key, members[j].key, caseSensitive);
        assert j < i ==> SameKey(members[j].key, members[i].key, caseSensitive);
      }
    case _ =>
  }

  /** A value with unique keys is the same as any copy of it. */
  lemma SameAsCopy(v: Json, caseSensitive: bool)
    requires UniqueKeys(v, caseSensitive)
    ensures Same(v, v, caseSensitive)
  {
    UniqueKeysAgree(v, caseSensitive);
    SameAsCopyExactly(v, caseSensitive);
  }

  /** Without unique keys that is false: the second member of {"a":1,"a":2} is compared with the first. */
  lemma DuplicateKeysDiffer()
    ensures var v := Obj([Member("a", Num(1.0)), Member("a", Num(2.0))]);
            !UniqueKeys(v, true) && !Same(v, v, true)
  {
    var members := [Member("a", Num(1.0)), Member("a", Num(2.0))];
    assert Lookup(members, members[1].key, true) == 0;
    assert !CompareDouble(2.0, 1.0);
    assert !Same(members[1].value, members[0].value, true);
    assert SameKey(members[0].key, members[1].key, true);
  }
}
