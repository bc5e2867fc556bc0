/** The list operations: they rewrite `next`, `prev` and `child` in place and refine the same
    operations on a mathematical sequence of children. */
module ListEdit {
  import opened Text
  import opened Json
  import opened Tree

  // ----- The operations on sequences -----

  function Inserted<T>(s: seq<T>, which: nat, x: T): (r: seq<T>)
    ensures |r| == |s| + 1
    ensures forall i :: 0 <= i < |r| && which < |s| ==>
      r[i] == if i == which then x else s[if i < which then i else i - 1]
  {
    if which < |s| then s[..which] + [x] + s[which..] else s + [x]
  }

  function Removed<T>(s: seq<T>, which: nat): (r: seq<T>)
    requires which < |s|
    ensures |r| == |s| - 1
    ensures forall i :: 0 <= i < |r| ==> r[i] == s[if i < which then i else i + 1]
  {
    s[..which] + s[which + 1..]
  }

  // ----- The links by themselves -----

  /** A sibling list as the source keeps it: chained both ways, with the tail pointer in the first
      node, and no node twice. */
  ghost predicate Links(kids: seq<Node>, head: Node?)
    reads kids
  {
    && head == After(kids, -1, null)
    && (forall i {:trigger kids[i].next} :: 0 <= i < |kids| ==> kids[i].next == After(kids, i, null))
    && (forall i {:trigger kids[i].prev} :: 0 <= i < |kids| ==> kids[i].prev == Before(kids, i))
    && (forall i, j :: 0 <= i < j < |kids| ==> kids[i] != kids[j])
  }

  /** The pointer work of add_item_to_array. */
  method LinkLast(parent: Node, item: Node, ghost kids: seq<Node>, ghost nodes: set<Node>)
    requires Links(kids, parent.child) && item !in kids && parent !in kids && parent != item && item.next == null
    requires Apart(kids, nodes) && item !in nodes && parent !in nodes
    modifies parent`child, item`next, item`prev, kids`next, kids`prev
    ensures Links(kids + [item], parent.child) && Apart(kids, nodes)
  {
    hide Node.Valid;
    var child := parent.child;
    if child == null {
      parent.child := item;
      item.prev := item;
      item.next := null;
    } else if child.prev != null {
      var last := child.prev;
      last.next := item;
      item.prev := last;
      child.prev := item;
    }
    assert Apart(kids, nodes) by {
      forall i, j | 0 <= i < |kids| && 0 <= j < |kids| && j != i ensures kids[j] !in kids[i].repr {
        assert old(kids[j].repr) !! old(kids[i].repr);
      }
    }
  }

  /** The pointer work of cJSON_DetachItemViaPointer. */
  method UnlinkPointers(parent: Node, item: Node, ghost kids: seq<Node>, ghost k: nat)
    requires Links(kids, parent.child) && k < |kids| && item == kids[k] && parent !in kids
    requires forall i, j :: 0 <= i < j < |kids| ==> kids[i] != kids[j]
    modifies parent`child, kids`next, kids`prev
    ensures Links(Removed(kids, k), parent.child) && item.next == null && item.prev == null
  {
    hide Removed;
    if item != parent.child {
      item.prev.next := item.next;
    }
    if item.next != null {
      item.next.prev := item.prev;
    }
    if item == parent.child {
      parent.child := item.next;
    } else if item.next == null {
      parent.child.prev := item.prev;
    }
    item.prev := null;
    item.next := null;
    ghost var all := Removed(kids, k);
    forall i | 0 <= i < |all| ensures all[i].next == After(all, i, null) && all[i].prev == Before(all, i) {
      ghost var j := if i < k then i else i + 1;
      assert all[i] == kids[j] && old(kids[j].next) == After(kids, j, null) && old(kids[j].prev) == Before(kids, j);
    }
  }

  method Unlink(parent: Node, item: Node, ghost kids: seq<Node>,
    ghost nodes: set<Node>, ghost k: nat)
    requires Links(kids, parent.child) && k < |kids| && item == kids[k] && parent !in kids
    requires Apart(kids, nodes) && parent !in nodes
    modifies parent`child, kids`next, kids`prev
    ensures Links(Removed(kids, k), parent.child) && item.next == null && item.prev == null
    ensures Apart(kids, nodes)
  {
    hide Node.Valid, Removed, Links;
    forall i, j | 0 <= i < j < |kids| ensures kids[i] != kids[j] {
      assert kids[i].repr !! kids[j].repr;
    }
    UnlinkPointers(parent, item, kids, k);
    assert Apart(kids, nodes) by {
      forall i, j | 0 <= i < |kids| && 0 <= j < |kids| && j != i ensures kids[j] !in kids[i].repr {
        assert old(kids[j].repr) !! old(kids[i].repr);
      }
    }
  }

  /** The pointer work of cJSON_InsertItemInArray in front of an existing node. */
  method LinkBeforePointers(parent: Node, afterInserted: Node, item: Node, ghost kids: seq<Node>, ghost k: nat)
    requires Links(kids, parent.child) && k < |kids| && afterInserted == kids[k]
    requires item !in kids && parent !in kids && parent != item
    modifies parent`child, item`next, item`prev, kids`next, kids`prev
    ensures Links(Inserted(kids, k, item), parent.child)
  {
    hide Inserted;
    item.next := afterInserted;
    item.prev := afterInserted.prev;
    afterInserted.prev := item;
    if afterInserted == parent.child {
      parent.child := item;
    } else {
      item.prev.next := item;
    }
    ghost var all := Inserted(kids, k, item);
    forall i | 0 <= i < |all| ensures all[i].next == After(all, i, null) && all[i].prev == Before(all, i) {
      if i != k {
        ghost var j := if i < k then i else i - 1;
        assert all[i] == kids[j] && old(kids[j].next) == After(kids, j, null) && old(kids[j].prev) == Before(kids, j);
      }
    }
  }

  method LinkBefore(parent: Node, afterInserted: Node, item: Node, ghost kids: seq<Node>,
    ghost nodes: set<Node>, ghost k: nat)
    requires Links(kids, parent.child) && k < |kids| && afterInserted == kids[k]
    requires item !in kids && parent !in kids && parent != item
    requires Apart(kids, nodes) && parent !in nodes && item !in nodes
    modifies parent`child, item`next, item`prev, kids`next, kids`prev
    ensures Links(Inserted(kids, k, item), parent.child)
    ensures Apart(kids, nodes)
  {
    hide Node.Valid, Links;
    LinkBeforePointers(parent, afterInserted, item, kids, k);
    assert Apart(kids, nodes) by {
      forall i, j | 0 <= i < |kids| && 0 <= j < |kids| && j != i ensures kids[j] !in kids[i].repr {
        assert old(kids[j].repr) !! old(kids[i].repr);
      }
    }
  }

  /** The pointer work of cJSON_ReplaceItemViaPointer. */
  method RelinkPointers(parent: Node, item: Node, replacement: Node, ghost kids: seq<Node>, ghost k: nat)
    requires Links(kids, parent.child) && k < |kids| && item == kids[k]
    requires replacement !in kids && parent !in kids && parent != replacement
    modifies parent`child, replacement`next, replacement`prev, kids`next, kids`prev
    ensures Links(kids[k := replacement], parent.child) && item.next == null && item.prev == null
  {
    replacement.next := item.next;
    replacement.prev := item.prev;
    if replacement.next != null {
      replacement.next.prev := replacement;
    }
    if parent.child == item {
      if parent.child.prev == parent.child {
        replacement.prev := replacement;
      }
      parent.child := replacement;
    } else {
      if replacement.prev != null {
        replacement.prev.next := replacement;
      }
      if replacement.next == null {
        parent.child.prev := replacement;
      }
    }
    item.next := null;
    item.prev := null;
    ghost var all := kids[k := replacement];
    forall i | 0 <= i < |all| ensures all[i].next == After(all, i, null) && all[i].prev == Before(all, i) {
      assert old(kids[i].next) == After(kids, i, null) && old(kids[i].prev) == Before(kids, i);
    }
  }

  method Relink(parent: Node, item: Node, replacement: Node, ghost kids: seq<Node>,
    ghost nodes: set<Node>, ghost k: nat)
    requires Links(kids, parent.child) && k < |kids| && item == kids[k]
    requires replacement !in kids && parent !in kids && parent != replacement
    requires Apart(kids, nodes) && parent !in nodes && replacement !in nodes
    modifies parent`child, replacement`next, replacement`prev, kids`next, kids`prev
    ensures Links(kids[k := replacement], parent.child) && item.next == null && item.prev == null
    ensures Apart(kids, nodes)
  {
    hide Node.Valid, Links;
    RelinkPointers(parent, item, replacement, kids, k);
    assert Apart(kids, nodes) by {
      forall i, j | 0 <= i < |kids| && 0 <= j < |kids| && j != i ensures kids[j] !in kids[i].repr {
        assert old(kids[j].repr) !! old(kids[i].repr);
      }
    }
  }

  // ----- The trees in the list -----

  /** A tree of its own that can be linked into a list of trees inside `nodes`. */
  ghost predicate Loose(item: Node, nodes: set<Node>)
    reads item, item.repr
  {
    item in item.repr && item.Valid() && item.repr !! nodes
  }

  /** Taking nodes out of a list, or letting one newcomer in, keeps the trees apart. */
  lemma ApartAgain(kids: seq<Node>, nodes: set<Node>, all: seq<Node>, allNodes: set<Node>, item: Node)
    requires Apart(kids, nodes)
    requires forall i :: 0 <= i < |all| ==> all[i] in kids || (all[i] == item && Loose(item, nodes))
    requires forall i, j :: 0 <= i < j < |all| ==> all[i] != all[j]
    requires forall i :: 0 <= i < |all| ==> all[i].repr <= allNodes
    ensures Apart(all, allNodes)
  {
    hide Node.Valid;
    forall i | 0 <= i < |all| ensures all[i] in all[i].repr && all[i].Valid() {
      if all[i] in kids {
        var k :| 0 <= k < |kids| && kids[k] == all[i];
      }
    }
    forall i, j | 0 <= i < j < |all| ensures all[i].repr !! all[j].repr {
      if all[i] in kids && all[j] in kids {
        var k :| 0 <= k < |kids| && kids[k] == all[i];
        var l :| 0 <= l < |kids| && kids[l] == all[j];
      } else if all[i] in kids {
        var k :| 0 <= k < |kids| && kids[k] == all[i];
      } else {
        var l :| 0 <= l < |kids| && kids[l] == all[j];
      }
    }
  }

  // ----- The operations on containers -----

  ghost predicate Container(parent: Node)
    reads parent, parent.repr
  {
    parent.Valid() && (parent.kind == Array || parent.kind == Object)
  }

  /** The node, and its children, as sets: what the operations may write to. */
  ghost function Self(item: Node?): set<Node> {
    if item == null then {} else {item}
  }

  ghost function Children(item: Node?): set<Node>
    reads Self(item)`kids
  {
    if item == null then {} else set k | k in item.kids
  }

  /** What may become a child of the container: a tree apart from it, with a key if it is an object. */
  ghost predicate Admissible(parent: Node, item: Node)
    reads parent, item, item.repr
  {
    Loose(item, parent.repr) && (parent.kind == Object ==> item.name.Some? && NulFree(item.name.value))
  }

  function KeyOf(name: Option<string>): string {
    if name.Some? then name.value else ""
  }

  /** The value of a container after its list of children changed at one place. */
  ghost function WithInserted(val: Json, k: nat, name: Option<string>, v: Json): Json {
    match val
    case Arr(items) => Arr(Inserted(items, k, v))
    case Obj(members) => Obj(Inserted(members, k, Member(KeyOf(name), v)))
    case _ => val
  }

  ghost function WithRemoved(val: Json, k: nat): Json {
    match val
    case Arr(items) => if k < |items| then Arr(Removed(items, k)) else val
    case Obj(members) => if k < |members| then Obj(Removed(members, k)) else val
    case _ => val
  }

  ghost function WithReplaced(val: Json, k: nat, name: Option<string>, v: Json): Json {
    match val
    case Arr(items) => if k < |items| then Arr(items[k := v]) else val
    case Obj(members) => if k < |members| then Obj(members[k := Member(KeyOf(name), v)]) else val
    case _ => val
  }

  lemma Opened(parent: Node)
    requires Container(parent)
    ensures parent in parent.repr && Apart(parent.kids, parent.repr - {parent})
    ensures Links(parent.kids, parent.child) && parent !in parent.kids
    ensures Contains(parent.kids, parent.val) && parent.val.Arr? == (parent.kind == Array)
  {
    hide Node.Valid;
    Parts(parent);
    forall i, j | 0 <= i < j < |parent.kids| ensures parent.kids[i] != parent.kids[j] {
      assert parent.kids[i].repr !! parent.kids[j].repr;
    }
  }

  /** The children's list and the ghost fields of its parent are brought in line again. */
  ghost method Settle(parent: Node, kids: seq<Node>, nodes: set<Node>, val: Json)
    requires Apart(kids, nodes) && Links(kids, parent.child) && parent !in nodes
    requires Contains(kids, val) && parent.kind == if val.Arr? then Array else Object
    modifies parent`kids, parent`repr, parent`val
    ensures Container(parent) && parent.kids == kids && parent.repr == {parent} + nodes && parent.val == val
  {
    hide Node.Valid;
    parent.kids, parent.repr, parent.val := kids, {parent} + nodes, val;
    Adopted(parent, nodes);
  }

  lemma ContainsRemoved(kids: seq<Node>, val: Json, k: nat)
    requires Contains(kids, val) && k < |kids|
    ensures Contains(Removed(kids, k), WithRemoved(val, k))
  {
  }

  lemma ContainsReplaced(kids: seq<Node>, val: Json, k: nat, item: Node)
    requires Contains(kids, val) && k < |kids| && (val.Obj? ==> item.name.Some? && NulFree(item.name.value))
    ensures Contains(kids[k := item], WithReplaced(val, k, item.name, item.val))
  {
  }

  /** get_array_item: walk `next` from the first child. */
  method GetArrayItem(parent: Node?, index: nat) returns (r: Node?)
    requires parent != null ==> parent.Valid()
    ensures r == if parent != null && index < |parent.kids| then parent.kids[index] else null
  {
    hide Node.Valid;
    if parent == null { return null; }
    Kids(parent);
    r := parent.child;
    var left := index;
    ghost var at: nat := 0;
    while r != null && left > 0
      invariant at + left == index && r == After(parent.kids, at - 1, null)
      invariant at <= |parent.kids|
      decreases left
    {
      Kid(parent, at);
      left := left - 1;
      r := r.next;
      at := at + 1;
    }
    assert at < |parent.kids| ==> r == parent.kids[at] && r != null;
  }

  /** add_item_to_array: the item becomes the last child. */
  method AddItemToArray(parent: Node?, item: Node?) returns (ok: bool)
    requires parent != null ==> Container(parent)
    requires parent != null && item != null && item != parent ==> Admissible(parent, item) && item.next == null
    modifies Self(parent)`child, Self(parent)`kids, Self(parent)`repr, Self(parent)`val
    modifies Children(parent)`next, Children(parent)`prev, Self(item)`next, Self(item)`prev
    ensures ok == (parent != null && item != null && parent != item)
    ensures !ok && parent != null ==> Container(parent) && unchanged(parent)
    ensures ok ==>
      && Container(parent) && parent.kids == old(parent.kids) + [item]
      && parent.repr == old(parent.repr) + old(item.repr)
      && parent.val == WithInserted(old(parent.val), |old(parent.kids)|, item.name, item.val)
  {
    hide Node.Valid, Apart, Contains;
    if item == null || parent == null || parent == item { return false; }
    Opened(parent);
    ghost var kids, nodes, val := parent.kids, parent.repr - {parent}, parent.val;
    InApart(kids, nodes);
    LinkLast(parent, item, kids, nodes);
    ApartBehind(kids, nodes, item);
    ContainsInserted(kids, val, |kids|, item);
    Settle(parent, Inserted(kids, |kids|, item), nodes + item.repr, WithInserted(val, |kids|, item.name, item.val));
    ok := true;
  }

  lemma ApartBehind(kids: seq<Node>, nodes: set<Node>, item: Node)
    requires Apart(kids, nodes) && Loose(item, nodes)
    ensures Apart(Inserted(kids, |kids|, item), nodes + item.repr)
  {
    ApartSnoc(kids, nodes, item);
  }

  lemma InApart(kids: seq<Node>, nodes: set<Node>)
    requires Apart(kids, nodes)
    ensures forall i :: 0 <= i < |kids| ==> kids[i] in nodes && kids[i] in kids[i].repr && kids[i].repr <= nodes
  {
  }

  lemma ContainsInserted(kids: seq<Node>, val: Json, k: nat, item: Node)
    requires Contains(kids, val) && (val.Obj? ==> item.name.Some? && NulFree(item.name.value))
    ensures Contains(Inserted(kids, k, item), WithInserted(val, k, item.name, item.val))
  {
  }

  /** cJSON_DetachItemViaPointer: the child leaves the list and keeps its tree; a node that is no child
      and linked to nothing is refused. */
  method DetachItemViaPointer(parent: Node?, item: Node?) returns (r: Node?)
    requires parent != null ==> Container(parent)
    requires parent != null && item != null ==> item in parent.kids || item.prev == null
    modifies Self(parent)`child, Self(parent)`kids, Self(parent)`repr, Self(parent)`val
    modifies Children(parent)`next, Children(parent)`prev
    ensures r == if parent != null && item != null && old(item in parent.kids) then item else null
    ensures r == null && parent != null ==> Container(parent) && unchanged(parent)
    ensures r != null ==> Container(parent) && Loose(r, parent.repr) && r.next == null && r.prev == null
    ensures r != null ==>
      exists k ::
        && 0 <= k < |old(parent.kids)| && old(parent.kids)[k] == r
        && parent.kids == Removed(old(parent.kids), k) && parent.val == WithRemoved(old(parent.val), k)
    ensures r != null ==> parent.repr == old(parent.repr - item.repr) && r.val == old(item.val)
  {
    hide Node.Valid, Apart, Contains, Removed;
    if parent != null {
      Opened(parent);
      assert item != null && item in parent.kids ==> item.prev != null;
    }
    if parent == null || item == null || (item != parent.child && item.prev == null) { return null; }
    Opened(parent);
    ghost var kids, nodes, val := parent.kids, parent.repr - {parent}, parent.val;
    assert item in kids;
    ghost var k :| 0 <= k < |kids| && kids[k] == item;
    InApart(kids, nodes);
    Unlink(parent, item, kids, nodes, k);
    ApartWithout(kids, nodes, k);
    ContainsRemoved(kids, val, k);
    Settle(parent, Removed(kids, k), nodes - item.repr, WithRemoved(val, k));
    r := item;
  }

  lemma ApartWithout(kids: seq<Node>, nodes: set<Node>, k: nat)
    requires Apart(kids, nodes) && k < |kids|
    ensures Apart(Removed(kids, k), nodes - kids[k].repr)
    ensures kids[k] in kids[k].repr && kids[k].Valid()
  {
    hide Node.Valid, Removed;
    var all := Removed(kids, k);
    forall i, j | 0 <= i < j < |kids| ensures kids[i] != kids[j] && kids[i].repr !! kids[j].repr {
    }
    ApartAgain(kids, nodes, all, nodes - kids[k].repr, kids[k]);
  }

  /** cJSON_InsertItemInArray: in front of the child at `which`, or behind the last when there is none. */
  method InsertItemInArray(parent: Node?, which: int, item: Node?) returns (ok: bool)
    requires parent != null ==> Container(parent)
    requires parent != null && item != null && item != parent ==> Admissible(parent, item) && item.next == null
    requires parent != null && parent == item ==> which >= |parent.kids|
    modifies Self(parent)`child, Self(parent)`kids, Self(parent)`repr, Self(parent)`val
    modifies Children(parent)`next, Children(parent)`prev, Self(item)`next, Self(item)`prev
    ensures ok == (parent != null && item != null && parent != item && which >= 0)
    ensures !ok && parent != null ==> Container(parent) && unchanged(parent)
    ensures ok ==>
      && Container(parent) && parent.kids == Inserted(old(parent.kids), which, item)
      && parent.repr == old(parent.repr) + old(item.repr)
      && parent.val == WithInserted(old(parent.val), which, item.name, item.val)
  {
    hide Node.Valid, Apart, Contains;
    if which < 0 || item == null { return false; }
    var afterInserted := GetArrayItem(parent, which);
    if afterInserted == null {
      if parent != null {
        Opened(parent);
        InApart(parent.kids, parent.repr - {parent});
        InsertedLast(parent.kids, which, item);
        InsertedLastValue(parent, which, item);
      }
      ok := AddItemToArray(parent, item);
      return;
    }
    ok := InsertBefore(parent, afterInserted, item, which);
  }

  method InsertBefore(parent: Node, afterInserted: Node, item: Node, which: nat) returns (ok: bool)
    requires Container(parent) && Admissible(parent, item) && parent != item
    requires which < |parent.kids| && afterInserted == parent.kids[which]
    modifies parent`child, parent`kids, parent`repr, parent`val, parent.kids`next, parent.kids`prev
    modifies item`next, item`prev
    ensures ok && Container(parent) && parent.kids == Inserted(old(parent.kids), which, item)
    ensures parent.repr == old(parent.repr) + old(item.repr)
    ensures parent.val == WithInserted(old(parent.val), which, item.name, item.val)
  {
    hide Node.Valid, Apart, Contains;
    Opened(parent);
    if afterInserted != parent.child && afterInserted.prev == null { return false; }
    ghost var kids, nodes, val := parent.kids, parent.repr - {parent}, parent.val;
    InApart(kids, nodes);
    LinkBefore(parent, afterInserted, item, kids, nodes, which);
    ApartWith(kids, nodes, which, item);
    ContainsInserted(kids, val, which, item);
    Settle(parent, Inserted(kids, which, item), nodes + item.repr, WithInserted(val, which, item.name, item.val));
    ok := true;
  }

  lemma InsertedLast<T>(s: seq<T>, which: nat, x: T)
    requires which >= |s|
    ensures Inserted(s, which, x) == s + [x] == Inserted(s, |s|, x)
  {
  }

  lemma InsertedLastValue(parent: Node, which: nat, item: Node)
    requires Container(parent) && which >= |parent.kids|
    ensures WithInserted(parent.val, which, item.name, item.val)
         == WithInserted(parent.val, |parent.kids|, item.name, item.val)
  {
    Opened(parent);
  }

  lemma ApartWith(kids: seq<Node>, nodes: set<Node>, k: nat, item: Node)
    requires Apart(kids, nodes) && k < |kids| && Loose(item, nodes)
    ensures Apart(Inserted(kids, k, item), nodes + item.repr)
  {
    hide Node.Valid, Inserted;
    InApart(kids, nodes);
    var all := Inserted(kids, k, item);
    forall i, j | 0 <= i < j < |kids| ensures kids[i] != kids[j] {
      assert kids[i].repr !! kids[j].repr;
    }
    ApartAgain(kids, nodes, all, nodes + item.repr, item);
  }

  /** cJSON_ReplaceItemViaPointer: the replacement takes the child's place, and the child is deleted. */
  method ReplaceItemViaPointer(parent: Node?, item: Node?, replacement: Node?) returns (ok: bool)
    requires parent != null ==> Container(parent)
    requires parent != null && item != null && parent.child != null ==> item in parent.kids
    requires parent != null && replacement != null && replacement != item ==> Admissible(parent, replacement)
    modifies Self(parent)`child, Self(parent)`kids, Self(parent)`repr, Self(parent)`val
    modifies Children(parent)`next, Children(parent)`prev, Self(replacement)`next, Self(replacement)`prev
    ensures ok == (parent != null && old(parent.child) != null && replacement != null && item != null)
    ensures parent != null && (!ok || replacement == item) ==> Container(parent) && unchanged(parent)
    ensures replacement != null && (!ok || replacement == item) ==> unchanged(replacement)
    ensures ok && replacement != item ==>
      Container(parent) && parent.repr == old(parent.repr - item.repr + replacement.repr)
    ensures ok && replacement != item ==>
      exists k ::
        && 0 <= k < |old(parent.kids)| && old(parent.kids)[k] == item
        && parent.kids == old(parent.kids)[k := replacement]
        && parent.val == WithReplaced(old(parent.val), k, replacement.name, replacement.val)
  {
    hide Node.Valid, Apart, Contains;
    if parent == null || parent.child == null || replacement == null || item == null { return false; }
    if replacement == item { return true; }
    Opened(parent);
    ghost var kids, nodes, val := parent.kids, parent.repr - {parent}, parent.val;
    ghost var k :| 0 <= k < |kids| && kids[k] == item;
    InApart(kids, nodes);
    Relink(parent, item, replacement, kids, nodes, k);
    ApartInstead(kids, nodes, k, replacement);
    ContainsReplaced(kids, val, k, replacement);
    Settle(parent, kids[k := replacement], nodes - item.repr + replacement.repr,
           WithReplaced(val, k, replacement.name, replacement.val));
    ok := true;
  }

  /** cJSON_DetachItemFromArray: the child at the index, if there is one. */
  method DetachItemFromArray(parent: Node?, which: int) returns (r: Node?)
    requires parent != null ==> Container(parent)
    modifies Self(parent)`child, Self(parent)`kids, Self(parent)`repr, Self(parent)`val
    modifies Children(parent)`next, Children(parent)`prev
    ensures r == if parent != null && 0 <= which < |old(parent.kids)| then old(parent.kids)[which] else null
    ensures r == null && parent != null ==> Container(parent) && unchanged(parent)
    ensures r != null ==>
      && Container(parent) && Loose(r, parent.repr) && r.next == null && r.prev == null
      && parent.kids == Removed(old(parent.kids), which) && parent.val == WithRemoved(old(parent.val), which)
      && parent.repr == old(parent.repr) - r.repr
  {
    hide Node.Valid, Removed, WithRemoved;
    if which < 0 { return null; }
    var item := GetArrayItem(parent, which);
    if parent != null { Opened(parent); }
    r := DetachItemViaPointer(parent, item);
  }

  /** cJSON_ReplaceItemInArray */
  method ReplaceItemInArray(parent: Node?, which: int, replacement: Node?) returns (ok: bool)
    requires parent != null ==> Container(parent)
    requires parent != null && replacement != null ==> Admissible(parent, replacement)
    modifies Self(parent)`child, Self(parent)`kids, Self(parent)`repr, Self(parent)`val
    modifies Children(parent)`next, Children(parent)`prev, Self(replacement)`next, Self(replacement)`prev
    ensures ok == (parent != null && replacement != null && 0 <= which < |old(parent.kids)|)
    ensures !ok && parent != null ==> Container(parent) && unchanged(parent)
    ensures !ok && replacement != null ==> unchanged(replacement)
    ensures ok ==>
      && Container(parent) && parent.repr == old(parent.repr - parent.kids[which].repr + replacement.repr)
      && parent.kids == old(parent.kids)[which := replacement]
      && parent.val == WithReplaced(old(parent.val), which, replacement.name, replacement.val)
  {
    hide Node.Valid, WithReplaced;
    if which < 0 { return false; }
    var item := GetArrayItem(parent, which);
    if parent != null {
      Opened(parent);
      InApart(parent.kids, parent.repr - {parent});
    }
    ok := ReplaceItemViaPointer(parent, item, replacement);
  }

  lemma ApartInstead(kids: seq<Node>, nodes: set<Node>, k: nat, item: Node)
    requires Apart(kids, nodes) && k < |kids| && Loose(item, nodes)
    ensures Apart(kids[k := item], nodes - kids[k].repr + item.repr)
  {
    hide Node.Valid;
    InApart(kids, nodes);
    var all := kids[k := item];
    forall i, j | 0 <= i < j < |kids| ensures kids[i] != kids[j] && kids[i].repr !! kids[j].repr {
    }
    ApartAgain(kids, nodes, all, nodes - kids[k].repr + item.repr, item);
  }
}
