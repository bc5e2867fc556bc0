/** Whole sequences of list operations on one container. */
module ListRun {
  import opened Json
  import opened Tree
  import opened ListEdit

  /** One operation.  Items come from a pool of loose trees, and a detached child goes into it; a replaced
      child is deleted. */
  datatype Edit =
    | Append(item: Node)
    | Insert(which: nat, item: Node)
    | Detach(which: nat)
    | Replace(which: nat, item: Node)

  /** The children after one operation; an index behind the last detaches and replaces nothing. */
  ghost function ChildrenStep(kids: seq<Node>, e: Edit): seq<Node> {
    match e
    case Append(item) => kids + [item]
    case Insert(which, item) => Inserted(kids, which, item)
    case Detach(which) => if which < |kids| then Removed(kids, which) else kids
    case Replace(which, item) => if which < |kids| then kids[which := item] else kids
  }

  ghost function PoolStep(kids: seq<Node>, pool: set<Node>, e: Edit): set<Node> {
    match e
    case Append(item) => pool - {item}
    case Insert(which, item) => pool - {item}
    case Detach(which) => if which < |kids| then pool + {kids[which]} else pool
    case Replace(which, item) => if which < |kids| then pool - {item} else pool
  }

  ghost function Size(val: Json): nat {
    match val
    case Arr(items) => |items|
    case Obj(members) => |members|
    case _ => 0
  }

  ghost function Items(edits: seq<Edit>): set<Node> {
    set e | e in edits && !e.Detach? :: e.item
  }

  /** The value after one operation. */
  ghost function ValueStep(val: Json, e: Edit): Json
    reads Items([e])`val, Items([e])`name
  {
    match e
    case Append(item) =>
      assert e in [e];
      WithInserted(val, Size(val), item.name, item.val)
    case Insert(which, item) =>
      assert e in [e];
      WithInserted(val, which, item.name, item.val)
    case Detach(which) => WithRemoved(val, which)
    case Replace(which, item) =>
      assert e in [e];
      WithReplaced(val, which, item.name, item.val)
  }

  // ----- Runs -----

  ghost function ChildrenAfter(kids: seq<Node>, edits: seq<Edit>): seq<Node>
    decreases |edits|
  {
    if edits == [] then kids else ChildrenAfter(ChildrenStep(kids, edits[0]), edits[1..])
  }

  ghost function PoolAfter(kids: seq<Node>, pool: set<Node>, edits: seq<Edit>): set<Node>
    decreases |edits|
  {
    if edits == [] then pool else PoolAfter(ChildrenStep(kids, edits[0]), PoolStep(kids, pool, edits[0]), edits[1..])
  }

  ghost function ValueAfter(val: Json, edits: seq<Edit>): Json
    reads Items(edits)`val, Items(edits)`name
    decreases |edits|
  {
    if edits == [] then val
    else
      assert Items(edits[..1]) <= Items(edits) && Items(edits[1..]) <= Items(edits) && edits[..1] == [edits[0]];
      ValueAfter(ValueStep(val, edits[0]), edits[1..])
  }

  /** Every item is loose when it is used. */
  ghost predicate Legal(kids: seq<Node>, pool: set<Node>, edits: seq<Edit>)
    decreases |edits|
  {
    edits != [] ==>
      && (edits[0].Detach? || edits[0].item in pool)
      && Legal(ChildrenStep(kids, edits[0]), PoolStep(kids, pool, edits[0]), edits[1..])
  }

  /** A well-formed container and a pool of trees that can be put into it, all apart from each other. */
  ghost predicate Ready(parent: Node, pool: set<Node>)
    reads parent, parent.repr, pool, set n, m | n in pool && m in n.repr :: m
  {
    && Container(parent)
    && (forall n :: n in pool ==> Admissible(parent, n) && n.next == null)
    && (forall m, n :: m in pool && n in pool && m != n ==> m.repr !! n.repr)
  }

  method DoAppend(parent: Node, item: Node, ghost pool: set<Node>)
    requires Ready(parent, pool) && item in pool
    modifies parent`child, parent`kids, parent`repr, parent`val
    modifies (Children(parent) + pool)`next, (Children(parent) + pool)`prev
    ensures Ready(parent, PoolStep(old(parent.kids), pool, Append(item)))
    ensures parent.kids == ChildrenStep(old(parent.kids), Append(item))
    ensures parent.val == ValueStep(old(parent.val), Append(item))
  {
    hide Node.Valid, WithInserted;
    Opened(parent);
    var ok := AddItemToArray(parent, item);
  }

  method DoInsert(parent: Node, which: nat, item: Node, ghost pool: set<Node>)
    requires Ready(parent, pool) && item in pool
    modifies parent`child, parent`kids, parent`repr, parent`val
    modifies (Children(parent) + pool)`next, (Children(parent) + pool)`prev
    ensures Ready(parent, PoolStep(old(parent.kids), pool, Insert(which, item)))
    ensures parent.kids == ChildrenStep(old(parent.kids), Insert(which, item))
    ensures parent.val == ValueStep(old(parent.val), Insert(which, item))
  {
    hide Node.Valid, WithInserted;
    Opened(parent);
    var ok := InsertItemInArray(parent, which, item);
  }

  method DoDetach(parent: Node, which: nat, ghost pool: set<Node>)
    requires Ready(parent, pool)
    modifies parent`child, parent`kids, parent`repr, parent`val
    modifies (Children(parent) + pool)`next, (Children(parent) + pool)`prev
    ensures Ready(parent, PoolStep(old(parent.kids), pool, Detach(which)))
    ensures parent.kids == ChildrenStep(old(parent.kids), Detach(which))
    ensures parent.val == ValueStep(old(parent.val), Detach(which))
  {
    hide Node.Valid, Removed;
    Kids(parent);
    Opened(parent);
    var item := DetachItemFromArray(parent, which);
  }

  method DoReplace(parent: Node, which: nat, item: Node, ghost pool: set<Node>)
    requires Ready(parent, pool) && item in pool
    modifies parent`child, parent`kids, parent`repr, parent`val
    modifies (Children(parent) + pool)`next, (Children(parent) + pool)`prev
    ensures Ready(parent, PoolStep(old(parent.kids), pool, Replace(which, item)))
    ensures parent.kids == ChildrenStep(old(parent.kids), Replace(which, item))
    ensures parent.val == ValueStep(old(parent.val), Replace(which, item))
  {
    hide Node.Valid;
    Kids(parent);
    Opened(parent);
    var ok := ReplaceItemInArray(parent, which, item);
  }

  method Do(parent: Node, e: Edit, ghost pool: set<Node>)
    requires Ready(parent, pool) && (e.Detach? || e.item in pool)
    modifies parent`child, parent`kids, parent`repr, parent`val
    modifies (Children(parent) + pool)`next, (Children(parent) + pool)`prev
    ensures Ready(parent, PoolStep(old(parent.kids), pool, e))
    ensures parent.kids == ChildrenStep(old(parent.kids), e) && parent.val == ValueStep(old(parent.val), e)
  {
    hide Ready, ChildrenStep, PoolStep, ValueStep;
    match e
    case Append(item) => DoAppend(parent, item, pool);
    case Insert(which, item) => DoInsert(parent, which, item, pool);
    case Detach(which) => DoDetach(parent, which, pool);
    case Replace(which, item) => DoReplace(parent, which, item, pool);
  }

  /** No operation brings in a node that is neither a child nor in the pool. */
  lemma StaysWithin(kids: seq<Node>, pool: set<Node>, e: Edit)
    requires e.Detach? || e.item in pool
    ensures forall n :: n in ChildrenStep(kids, e) || n in PoolStep(kids, pool, e) ==> n in kids || n in pool
  {
    hide Node.Valid;
  }

  /** Any sequence of operations keeps the container well formed, and its children and its value are the
      old ones with the same operations done on sequences. */
  method Run(parent: Node, edits: seq<Edit>, ghost pool: set<Node>)
    requires Ready(parent, pool) && Legal(parent.kids, pool, edits)
    modifies parent`child, parent`kids, parent`repr, parent`val
    modifies (Children(parent) + pool)`next, (Children(parent) + pool)`prev
    ensures Ready(parent, PoolAfter(old(parent.kids), pool, edits))
    ensures parent.kids == ChildrenAfter(old(parent.kids), edits) && parent.val == ValueAfter(old(parent.val), edits)
    decreases |edits|
  {
    hide ChildrenStep, PoolStep, Node.Valid;
    if edits != [] {
      StaysWithin(parent.kids, pool, edits[0]);
      Do(parent, edits[0], pool);
      Run(parent, edits[1..], PoolStep(old(parent.kids), pool, edits[0]));
    }
  }
}
