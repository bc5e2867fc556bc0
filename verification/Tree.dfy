/** The tree of heap nodes: every item points to its siblings and to its first child. */
module Tree {
  import opened Text
  import opened Number
  import opened Json

  datatype Kind = Invalid | False | True | NULL | Number | String | Array | Object

  /** The node behind the i-th of a list that goes on with `last`. */
  ghost function After(kids: seq<Node>, i: int, last: Node?): Node?
    requires -1 <= i
  {
    if i + 1 < |kids| then kids[i + 1] else last
  }

  /** What the i-th child's `prev` points to: the tail of the list when it is the first. */
  ghost function Before(kids: seq<Node>, i: nat): Node
    requires i < |kids|
  {
    if i == 0 then kids[|kids| - 1] else kids[i - 1]
  }

  class Node {
    var kind: Kind
    var valueint: int
    var valuedouble: real
    var valuestring: Option<string>
    /** The key, when the node is a member of an object. */
    var name: Option<string>
    var next: Node?
    var prev: Node?
    var child: Node?

    /** The children in order, all nodes of the tree, and the value the tree stands for. */
    ghost var kids: seq<Node>
    ghost var repr: set<Node>
    ghost var val: Json

    /** cJSON_New_Item: a zeroed node. */
    constructor ()
      ensures kind == Invalid && valueint == 0 && valuedouble == 0.0 && valuestring == None && name == None
      ensures next == null && prev == null && child == null
      ensures kids == [] && repr == {this}
    {
      kind, valueint, valuedouble, valuestring, name := Invalid, 0, 0.0, None, None;
      next, prev, child := null, null, null;
      kids, repr, val := [], {this}, Null;
    }

    /** A node that holds no value yet; it may already be linked into a list and named. */
    ghost predicate Blank()
      reads this`valuestring, this`child, this`kids, this`repr
    {
      valuestring == None && child == null && kids == [] && repr == {this}
    }

    /** A node without children is a tree when its fields agree with its value. */
    lemma Scalar()
      requires child == null && kids == [] && repr == {this} && Denotes()
      ensures Valid()
    {
    }

    /** The children are linked as the list functions expect: `next` runs to a null, `prev` runs back,
        and the first child's `prev` is the last child. */
    ghost predicate Linked()
      reads this`child, this`kids, kids
    {
      && child == (if kids == [] then null else kids[0])
      && (forall i {:trigger kids[i].next} :: 0 <= i < |kids| ==> kids[i].next == After(kids, i, null))
      && (forall i {:trigger kids[i].prev} :: 0 <= i < |kids| ==> kids[i].prev == Before(kids, i))
    }

    /** The node's own fields and its children's values make up `val`. */
    ghost predicate Denotes()
      reads this`kind, this`valueint, this`valuedouble, this`valuestring, this`kids, this`val, kids
    {
      && (kind != Array && kind != Object ==> kids == [])
      && match kind
         case Invalid => false
         case False => val == Bool(false)
         case True => val == Bool(true)
         case NULL => val == Null
         case Number => val == Num(valuedouble) && valueint == Saturate(valuedouble)
         case String => valuestring.Some? && NulFree(valuestring.value) && val == Str(valuestring.value)
         case Array =>
           && val.Arr? && |val.items| == |kids|
           && forall i :: 0 <= i < |kids| ==> kids[i].val == val.items[i]
         case Object =>
           && val.Obj? && |val.members| == |kids|
           && forall i :: 0 <= i < |kids| ==>
                && kids[i].name.Some? && NulFree(kids[i].name.value)
                && Member(kids[i].name.value, kids[i].val) == val.members[i]
    }

    /** The subtrees of the children are inside this tree and apart from each other. */
    ghost predicate Separate()
      reads this`kids, this`repr, kids
    {
      && this in repr
      && (forall i :: 0 <= i < |kids| ==> kids[i] in kids[i].repr && kids[i].repr <= repr - {this})
      && (forall i, j :: 0 <= i < j < |kids| ==> kids[i].repr !! kids[j].repr)
    }

    /** A well-formed tree.  The links of the root itself belong to the list it is a member of, so
        they are not part of this. */
    ghost predicate Valid()
      reads this`kind, this`valueint, this`valuedouble, this`valuestring, this`child
      reads this`kids, this`repr, this`val, repr - {this}
      decreases repr
    {
      && this in repr
      && (forall i :: 0 <= i < |kids| ==> kids[i] in repr - {this})
      && Separate() && Linked() && Denotes()
      && (forall i :: 0 <= i < |kids| ==> kids[i].Valid())
    }
  }

  /** What a well-formed container says about its children. */
  lemma Kid(item: Node, i: nat)
    requires item.Valid() && i < |item.kids|
    ensures item.kids[i] in item.repr && item.kids[i].Valid()
    ensures item.kids[i] in item.kids[i].repr && item.kids[i].repr <= item.repr - {item}
    ensures item.kids[i].next == After(item.kids, i, null)
    ensures item.kind == Array || item.kind == Object
    ensures Printable(item.val) ==> Printable(item.kids[i].val)
    ensures item.kind == Array ==>
      item.val.Arr? && |item.val.items| == |item.kids| && item.kids[i].val == item.val.items[i]
    ensures item.kind == Object ==>
      item.val.Obj? && |item.val.members| == |item.kids| && item.kids[i].name.Some? && NulFree(item.kids[i].name.value)
      && item.val.members[i] == Member(item.kids[i].name.value, item.kids[i].val)
  {
  }

  lemma Parts(item: Node)
    requires item.Valid()
    ensures item.Separate() && item.Linked() && item.Denotes()
    ensures forall i :: 0 <= i < |item.kids| ==> item.kids[i].Valid()
  {
  }

  /** The head of the children and how many there are. */
  lemma Kids(item: Node)
    requires item.Valid()
    ensures item.child == if item.kids == [] then null else item.kids[0]
    ensures item.kind == Array ==> item.val.Arr? && |item.val.items| == |item.kids|
    ensures item.kind == Object ==> item.val.Obj? && |item.val.members| == |item.kids|
  {
  }

  // ----- Lists under construction -----

  /** Well-formed trees inside `nodes` that share no node. */
  ghost predicate Apart(kids: seq<Node>, nodes: set<Node>)
    reads nodes
  {
    && (forall i :: 0 <= i < |kids| ==> kids[i] in nodes)
    && (forall i :: 0 <= i < |kids| ==> kids[i] in kids[i].repr && kids[i].repr <= nodes && kids[i].Valid())
    && (forall i, j :: 0 <= i < j < |kids| ==> kids[i].repr !! kids[j].repr)
  }

  /** Nodes linked to each other in order, the last one to `last`. */
  ghost predicate Chain(kids: seq<Node>, last: Node?)
    reads kids
  {
    && (forall i {:trigger kids[i].next} :: 0 <= i < |kids| ==> kids[i].next == After(kids, i, last))
    && (forall i {:trigger kids[i].prev} :: 1 <= i < |kids| ==> kids[i].prev == kids[i - 1])
  }

  /** A list of trees without a parent. */
  ghost predicate Forest(kids: seq<Node>, nodes: set<Node>, last: Node?)
    reads kids, nodes
  {
    Apart(kids, nodes) && Chain(kids, last)
  }

  /** The last node, as a set: what linking a new node behind the list writes to. */
  ghost function Tail(kids: seq<Node>): set<Node> {
    if kids == [] then {} else {kids[|kids| - 1]}
  }

  lemma EmptyForest()
    ensures Forest([], {}, null)
  {
  }

  lemma InForest(kids: seq<Node>, nodes: set<Node>)
    requires Forest(kids, nodes, null)
    ensures forall i :: 0 <= i < |kids| ==> kids[i] in nodes
  {
  }

  /** Link a new node behind the list. */
  method Link(ghost kids: seq<Node>, ghost nodes: set<Node>, current: Node?, n: Node)
    requires Forest(kids, nodes, null) && n !in nodes
    requires current == if kids == [] then null else kids[|kids| - 1]
    modifies Tail(kids)`next, n`prev
    ensures Forest(kids, nodes, n) && (kids != [] ==> n.prev == kids[|kids| - 1])
  {
    hide Node.Valid;
    if current != null {
      current.next := n;
      n.prev := current;
    }
  }

  lemma ApartSnoc(kids: seq<Node>, nodes: set<Node>, n: Node)
    requires Apart(kids, nodes) && n in n.repr && n.Valid() && n.repr !! nodes
    ensures Apart(kids + [n], nodes + n.repr)
  {
    hide Node.Valid;
    var all := kids + [n];
    forall i | 0 <= i < |all| ensures all[i] in all[i].repr && all[i].repr <= nodes + n.repr && all[i].Valid() {
      if i < |kids| { assert all[i] == kids[i]; }
    }
    forall i, j | 0 <= i < j < |all| ensures all[i].repr !! all[j].repr {
      assert all[i] == kids[i] && kids[i].repr <= nodes;
      if j < |kids| { assert all[j] == kids[j]; }
    }
  }

  lemma ChainSnoc(kids: seq<Node>, n: Node)
    requires Chain(kids, n) && n.next == null
    requires kids != [] ==> n.prev == kids[|kids| - 1]
    ensures Chain(kids + [n], null)
  {
    var all := kids + [n];
    forall i | 0 <= i < |all| ensures all[i].next == After(all, i, null) {
      if i < |kids| { assert all[i] == kids[i] && kids[i].next == After(kids, i, n); }
    }
    forall i | 1 <= i < |all| ensures all[i].prev == all[i - 1] {
      if i < |kids| { assert all[i] == kids[i]; }
    }
  }

  lemma ForestSnoc(kids: seq<Node>, nodes: set<Node>, n: Node)
    requires Forest(kids, nodes, n) && n in n.repr && n.Valid() && n.repr !! nodes && n.next == null
    requires kids != [] ==> n.prev == kids[|kids| - 1]
    ensures Forest(kids + [n], nodes + n.repr, null)
  {
    hide Apart, Chain, Node.Valid;
    ApartSnoc(kids, nodes, n);
    ChainSnoc(kids, n);
  }

  /** The values, and for objects the keys, of a list of nodes are those of a container. */
  ghost predicate Contains(kids: seq<Node>, val: Json)
    reads kids`val, kids`name
  {
    match val
    case Arr(items) =>
      |items| == |kids| && forall i :: 0 <= i < |kids| ==> kids[i].val == items[i]
    case Obj(members) =>
      && |members| == |kids|
      && forall i :: 0 <= i < |kids| ==>
           && kids[i].name.Some? && NulFree(kids[i].name.value)
           && Member(kids[i].name.value, kids[i].val) == members[i]
    case _ => false
  }

  lemma ContainsNothing()
    ensures Contains([], Arr([])) && Contains([], Obj([]))
  {
  }

  lemma ContainsItem(kids: seq<Node>, vals: seq<Json>, n: Node)
    requires Contains(kids, Arr(vals))
    ensures Contains(kids + [n], Arr(vals + [n.val]))
  {
  }

  lemma ContainsMember(kids: seq<Node>, members: seq<Member>, n: Node)
    requires Contains(kids, Obj(members)) && n.name.Some? && NulFree(n.name.value)
    ensures Contains(kids + [n], Obj(members + [Member(n.name.value, n.val)]))
  {
  }

  /** The end of parse_array and parse_object: the list gets its tail pointer and becomes the children
      of the item. */
  method Adopt(item: Node, kind: Kind, head: Node?, current: Node?, ghost kids: seq<Node>, ghost nodes: set<Node>,
               ghost val: Json)
    requires Forest(kids, nodes, null) && item !in nodes
    requires Contains(kids, val) && kind == if val.Arr? then Array else Object
    requires head == if kids == [] then null else kids[0]
    requires current == if kids == [] then null else kids[|kids| - 1]
    modifies item`kind, item`child, item`kids, item`repr, item`val, (if kids == [] then {} else {kids[0]})`prev
    ensures item.Valid() && item.val == val && item.repr == {item} + nodes
  {
    hide Node.Valid, Apart, Chain, Contains;
    InForest(kids, nodes);
    if head != null { SetTail(head, current, kids, nodes); }
    item.kind, item.child := kind, head;
    item.kids, item.repr, item.val := kids, {item} + nodes, val;
    Adopted(item, nodes);
  }

  /** The first node's `prev` becomes the tail pointer of its list. */
  method SetTail(head: Node, current: Node?, ghost kids: seq<Node>, ghost nodes: set<Node>)
    requires Forest(kids, nodes, null) && kids != [] && head == kids[0] && current == kids[|kids| - 1]
    modifies head`prev
    ensures Forest(kids, nodes, null) && head.prev == kids[|kids| - 1]
  {
    hide Node.Valid;
    assert forall i :: 0 < i < |kids| ==> kids[i] != head by {
      assert forall i :: 0 < i < |kids| ==> kids[0].repr !! kids[i].repr;
    }
    head.prev := current;
  }

  /** A forest that gets a parent is a tree. */
  lemma Adopted(item: Node, nodes: set<Node>)
    requires Forest(item.kids, nodes, null) && item !in nodes && item.repr == {item} + nodes
    requires item.child == if item.kids == [] then null else item.kids[0]
    requires item.kids != [] ==> item.kids[0].prev == item.kids[|item.kids| - 1]
    requires Contains(item.kids, item.val) && item.kind == if item.val.Arr? then Array else Object
    ensures item.Valid()
  {
  }
}
