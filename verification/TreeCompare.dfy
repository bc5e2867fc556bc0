/** cJSON_Compare and get_object_item on heap trees. */
module TreeCompare {
  import opened Text
  import opened Json
  import opened Tree
  import opened Copy

  /** Where the search of get_object_item ends: at the key, or case-sensitively at a child without a key. */
  predicate Stops(name: Option<string>, key: string, caseSensitive: bool) {
    if name.None? then caseSensitive else SameKey(key, name.value, caseSensitive)
  }

  ghost function StopAt(kids: seq<Node>, key: string, caseSensitive: bool): (at: nat)
    reads kids`name
    ensures at <= |kids| && forall k :: 0 <= k < at ==> !Stops(kids[k].name, key, caseSensitive)
    ensures at < |kids| ==> Stops(kids[at].name, key, caseSensitive)
  {
    if kids == [] || Stops(kids[0].name, key, caseSensitive) then 0
    else 1 + StopAt(kids[1..], key, caseSensitive)
  }

  lemma StopAtIs(kids: seq<Node>, key: string, caseSensitive: bool, at: nat)
    requires at <= |kids| && forall k :: 0 <= k < at ==> !Stops(kids[k].name, key, caseSensitive)
    requires at < |kids| ==> Stops(kids[at].name, key, caseSensitive)
    ensures StopAt(kids, key, caseSensitive) == at
  {
    hide Stops;
  }

  lemma StopIsLookup(b: Node, key: string, caseSensitive: bool)
    requires b.Valid() && b.kind == Object
    ensures b.val.Obj? && StopAt(b.kids, key, caseSensitive) == Lookup(b.val.members, key, caseSensitive)
  {
    hide Node.Valid, StopAt, SameKey;
    Kids(b);
    var at := Lookup(b.val.members, key, caseSensitive);
    forall k | 0 <= k < |b.kids|
      ensures Stops(b.kids[k].name, key, caseSensitive) == SameKey(key, b.val.members[k].key, caseSensitive)
    {
      Kid(b, k);
    }
    StopAtIs(b.kids, key, caseSensitive, at);
  }

  /** get_object_item: the child where the search ends, unless it has no key.  In an object, where every child
      has one, that is the first member with the key. */
  method GetObjectItem(parent: Node, name: string, caseSensitive: bool) returns (r: Node?)
    requires parent.Valid()
    ensures var at := StopAt(parent.kids, name, caseSensitive);
            r == if at == |parent.kids| || parent.kids[at].name.None? then null else parent.kids[at]
    ensures parent.kind == Object ==>
      var i := Lookup(parent.val.members, name, caseSensitive);
      i <= |parent.kids| && r == After(parent.kids, i - 1, null)
  {
    hide Node.Valid, Lookup, StopAt;
    Kids(parent);
    r := parent.child;
    ghost var at: nat := 0;
    while r != null && !(r.name.None? && caseSensitive) && (r.name.None? || !SameKey(name, r.name.value, caseSensitive))
      invariant at <= |parent.kids| && r == After(parent.kids, at - 1, null)
      invariant forall k :: 0 <= k < at ==> !Stops(parent.kids[k].name, name, caseSensitive)
      decreases |parent.kids| - at
    {
      Kid(parent, at);
      r := r.next;
      at := at + 1;
    }
    StopAtIs(parent.kids, name, caseSensitive, at);
    if parent.kind == Object {
      StopIsLookup(parent, name, caseSensitive);
      if at < |parent.kids| { Kid(parent, at); }
    }
    if r != null && r.name.None? { r := null; }
  }

  /** The members of a are all found in b with the same value. */
  ghost predicate Covered(x: seq<Member>, y: seq<Member>, caseSensitive: bool) {
    forall i :: 0 <= i < |x| ==>
      var j := Lookup(y, x[i].key, caseSensitive);
      j < |y| && Same(x[i].value, y[j].value, caseSensitive)
  }

  ghost predicate Pairwise(x: seq<Json>, y: seq<Json>, caseSensitive: bool) {
    |x| == |y| && forall i :: 0 <= i < |x| ==> Same(x[i], y[i], caseSensitive)
  }

  lemma SameUnfolds(a: Json, b: Json, caseSensitive: bool)
    ensures a.Arr? && b.Arr? ==> Same(a, b, caseSensitive) == Pairwise(a.items, b.items, caseSensitive)
    ensures a.Obj? && b.Obj? ==>
      Same(a, b, caseSensitive)
      == (Covered(a.members, b.members, caseSensitive) && Covered(b.members, a.members, caseSensitive))
    ensures (a.Arr? && !b.Arr?) || (a.Obj? && !b.Obj?) ==> !Same(a, b, caseSensitive)
  {
  }

  /** The pointer test of cJSON_Compare never answers more than the values do: the trees share no node, or
      in one of them every key is unique, so that a shared node is the same as itself by value, too. */
  ghost predicate ByValue(a: Node, b: Node, caseSensitive: bool)
    reads a, b
  {
    a.repr !! b.repr || UniqueKeys(a.val, caseSensitive) || UniqueKeys(b.val, caseSensitive)
  }

  // ----- What the comparison answers on heap trees -----

  /** A child's value is nested less deep. */
  lemma Below(item: Node, i: nat)
    requires item.Valid() && i < |item.kids|
    ensures item.kids[i] in item.repr && item.kids[i].repr <= item.repr && item.kids[i].Valid()
    ensures Nesting(item.kids[i].val) < Nesting(item.val)
    ensures item.kind == Object ==> item.kids[i].name.Some?
  {
    hide Node.Valid, Nesting;
    Kid(item, i);
    if item.kind == Array { NestingItem(item.val.items, i); } else { NestingMember(item.val.members, i); }
  }

  /** Two trees are alike: the same node, or the same kind with the same content, each pair of children with
      its own pointer test. */
  ghost predicate Alike(a: Node, b: Node, caseSensitive: bool)
    requires a.Valid() && b.Valid()
    reads a, b, a.repr, b.repr
    decreases Nesting(a.val) + Nesting(b.val), 1
  {
    a.kind == b.kind && a.kind != Invalid
    && (a == b
        || match a.kind
           case Number => CompareDouble(a.valuedouble, b.valuedouble)
           case String => a.valuestring == b.valuestring
           case Array => ItemsAlike(a, b, 0, caseSensitive)
           case Object => MembersAlike(a, b, 0, caseSensitive) && MembersAlike(b, a, 0, caseSensitive)
           case _ => true)
  }

  ghost predicate ItemsAlike(a: Node, b: Node, from: nat, caseSensitive: bool)
    requires a.Valid() && b.Valid()
    reads a, b, a.repr, b.repr
    decreases Nesting(a.val) + Nesting(b.val), 0
  {
    |a.kids| == |b.kids|
    && forall i :: from <= i < |a.kids| ==>
         (Below(a, i); Below(b, i); Alike(a.kids[i], b.kids[i], caseSensitive))
  }

  /** From the i-th on, every member of a is found in b, and the first with its key is alike. */
  ghost predicate MembersAlike(a: Node, b: Node, from: nat, caseSensitive: bool)
    requires a.Valid() && b.Valid()
    reads a, b, a.repr, b.repr
    decreases Nesting(a.val) + Nesting(b.val), 0
  {
    forall i :: from <= i < |a.kids| && a.kids[i].name.Some? ==>
      var j := StopAt(b.kids, a.kids[i].name.value, caseSensitive);
      j < |b.kids| && (Below(a, i); Below(b, j); Alike(a.kids[i], b.kids[j], caseSensitive))
  }

  lemma ItemsAlikeStep(a: Node, b: Node, i: nat, caseSensitive: bool)
    requires a.Valid() && b.Valid() && i < |a.kids| == |b.kids|
    ensures ItemsAlike(a, b, i, caseSensitive)
         == ((Below(a, i); Below(b, i); Alike(a.kids[i], b.kids[i], caseSensitive))
             && ItemsAlike(a, b, i + 1, caseSensitive))
  {
    hide Node.Valid, Alike;
  }

  lemma MembersAlikeStep(a: Node, b: Node, i: nat, caseSensitive: bool)
    requires a.Valid() && b.Valid() && i < |a.kids| && a.kids[i].name.Some?
    ensures var j := StopAt(b.kids, a.kids[i].name.value, caseSensitive);
            MembersAlike(a, b, i, caseSensitive)
            == (j < |b.kids| && (Below(a, i); Below(b, j); Alike(a.kids[i], b.kids[j], caseSensitive))
                && MembersAlike(a, b, i + 1, caseSensitive))
  {
    hide Node.Valid, Alike, StopAt;
  }

  lemma AlikeAtEnd(a: Node, b: Node, caseSensitive: bool)
    requires a.Valid() && b.Valid()
    ensures |a.kids| == |b.kids| ==> ItemsAlike(a, b, |a.kids|, caseSensitive)
    ensures MembersAlike(a, b, |a.kids|, caseSensitive)
  {
    hide Node.Valid, Alike;
  }

  lemma ItemsDiffer(a: Node, b: Node, caseSensitive: bool)
    requires a.Valid() && b.Valid()
    ensures |a.kids| != |b.kids| ==> forall i: nat :: !ItemsAlike(a, b, i, caseSensitive)
  {
    hide Node.Valid, Alike;
  }

  /** The answer does not depend on the order of the two trees, whatever they share and repeat. */
  lemma {:induction false} AlikeSymmetric(a: Node, b: Node, caseSensitive: bool)
    requires a.Valid() && b.Valid()
    ensures Alike(a, b, caseSensitive) == Alike(b, a, caseSensitive)
    decreases Nesting(a.val) + Nesting(b.val)
  {
    hide Node.Valid, MembersAlike;
    if a.kind == Array && b.kind == Array && |a.kids| == |b.kids| {
      forall i | 0 <= i < |a.kids|
        ensures (Below(a, i); Below(b, i);
                 Alike(a.kids[i], b.kids[i], caseSensitive) == Alike(b.kids[i], a.kids[i], caseSensitive))
      {
        Below(a, i);
        Below(b, i);
        AlikeSymmetric(a.kids[i], b.kids[i], caseSensitive);
      }
    }
  }

  lemma ByValueSymmetric(a: Node, b: Node, caseSensitive: bool)
    ensures ByValue(a, b, caseSensitive) == ByValue(b, a, caseSensitive)
  {
  }

  lemma Shape(item: Node)
    requires item.Valid()
    ensures item.Denotes()
  {
  }

  lemma KindsDiffer(a: Json, b: Json, caseSensitive: bool)
    ensures Same(a, b, caseSensitive) ==>
      && a.Null? == b.Null? && a.Bool? == b.Bool? && a.Num? == b.Num?
      && a.Str? == b.Str? && a.Arr? == b.Arr? && a.Obj? == b.Obj?
    ensures a.Null? && b.Null? ==> Same(a, b, caseSensitive)
    ensures a.Bool? && b.Bool? ==> Same(a, b, caseSensitive) == (a.b == b.b)
    ensures a.Num? && b.Num? ==> Same(a, b, caseSensitive) == CompareDouble(a.d, b.d)
    ensures a.Str? && b.Str? ==> Same(a, b, caseSensitive) == (a.s == b.s)
  {
  }

  /** Two children inherit ByValue from their parents; children that are one node compare equal by value. */
  lemma ByValueBelow(a: Node, i: nat, b: Node, j: nat, caseSensitive: bool)
    requires a.Valid() && b.Valid() && i < |a.kids| && j < |b.kids| && ByValue(a, b, caseSensitive)
    ensures a.kids[i] != b.kids[j] ==> ByValue(a.kids[i], b.kids[j], caseSensitive)
    ensures a.kids[i] == b.kids[j] ==> Same(a.kids[i].val, b.kids[j].val, caseSensitive)
  {
    hide Node.Valid, Same;
    Kid(a, i);
    Kid(b, j);
    if a.kids[i] == b.kids[j] { SameAsCopy(a.kids[i].val, caseSensitive); }
  }

  /** Trees with the same value are alike, and where ByValue holds only they are. */
  lemma {:induction false} AlikeIsSame(a: Node, b: Node, caseSensitive: bool)
    requires a.Valid() && b.Valid()
    ensures Same(a.val, b.val, caseSensitive) ==> Alike(a, b, caseSensitive)
    ensures a != b && ByValue(a, b, caseSensitive) && Alike(a, b, caseSensitive) ==> Same(a.val, b.val, caseSensitive)
    decreases Nesting(a.val) + Nesting(b.val), 1
  {
    hide Node.Valid, Same, ByValue, ItemsAlike, MembersAlike, Pairwise, Covered, Nesting;
    Shape(a);
    Shape(b);
    KindsDiffer(a.val, b.val, caseSensitive);
    if a.kind == b.kind == Array {
      SameUnfolds(a.val, b.val, caseSensitive);
      ItemsAreSame(a, b, caseSensitive);
    } else if a.kind == b.kind == Object {
      SameUnfolds(a.val, b.val, caseSensitive);
      ByValueSymmetric(a, b, caseSensitive);
      MembersAreCovered(a, b, caseSensitive);
      MembersAreCovered(b, a, caseSensitive);
    }
  }

  lemma {:induction false} ItemsAreSame(a: Node, b: Node, caseSensitive: bool)
    requires a.Valid() && b.Valid() && a.kind == b.kind == Array
    ensures a.val.Arr? && b.val.Arr?
    ensures Pairwise(a.val.items, b.val.items, caseSensitive) ==> ItemsAlike(a, b, 0, caseSensitive)
    ensures ByValue(a, b, caseSensitive) && ItemsAlike(a, b, 0, caseSensitive) ==>
      Pairwise(a.val.items, b.val.items, caseSensitive)
    decreases Nesting(a.val) + Nesting(b.val), 0
  {
    hide Node.Valid, Same, ByValue, Alike, Nesting;
    Kids(a);
    Kids(b);
    forall i | 0 <= i < |a.kids| && i < |b.kids|
      ensures (Below(a, i); Below(b, i);
               Same(a.val.items[i], b.val.items[i], caseSensitive) ==> Alike(a.kids[i], b.kids[i], caseSensitive))
      ensures (Below(a, i); Below(b, i);
               ByValue(a, b, caseSensitive) && Alike(a.kids[i], b.kids[i], caseSensitive) ==>
                 Same(a.val.items[i], b.val.items[i], caseSensitive))
    {
      Kid(a, i);
      Kid(b, i);
      Below(a, i);
      Below(b, i);
      if ByValue(a, b, caseSensitive) { ByValueBelow(a, i, b, i, caseSensitive); }
      AlikeIsSame(a.kids[i], b.kids[i], caseSensitive);
    }
  }

  lemma {:induction false} MembersAreCovered(a: Node, b: Node, caseSensitive: bool)
    requires a.Valid() && b.Valid() && a.kind == b.kind == Object
    ensures a.val.Obj? && b.val.Obj?
    ensures Covered(a.val.members, b.val.members, caseSensitive) ==> MembersAlike(a, b, 0, caseSensitive)
    ensures ByValue(a, b, caseSensitive) && MembersAlike(a, b, 0, caseSensitive) ==>
      Covered(a.val.members, b.val.members, caseSensitive)
    decreases Nesting(a.val) + Nesting(b.val), 0
  {
    hide Node.Valid, Same, ByValue, Alike, Nesting, Lookup, StopAt;
    Kids(a);
    Kids(b);
    ghost var x, y := a.val.members, b.val.members;
    forall i | 0 <= i < |a.kids|
      ensures a.kids[i].name == Some(x[i].key)
      ensures StopAt(b.kids, x[i].key, caseSensitive) == Lookup(y, x[i].key, caseSensitive)
      ensures var j := Lookup(y, x[i].key, caseSensitive);
              j < |y| ==>
                (Below(a, i); Below(b, j);
                 && (Same(x[i].value, y[j].value, caseSensitive) ==> Alike(a.kids[i], b.kids[j], caseSensitive))
                 && (ByValue(a, b, caseSensitive) && Alike(a.kids[i], b.kids[j], caseSensitive) ==>
                       Same(x[i].value, y[j].value, caseSensitive)))
    {
      Kid(a, i);
      StopIsLookup(b, x[i].key, caseSensitive);
      var j := Lookup(y, x[i].key, caseSensitive);
      if j < |y| {
        Kid(b, j);
        Below(a, i);
        Below(b, j);
        if ByValue(a, b, caseSensitive) { ByValueBelow(a, i, b, j, caseSensitive); }
        AlikeIsSame(a.kids[i], b.kids[j], caseSensitive);
      }
    }
  }

  // ----- The methods -----

  /** Any two trees, whatever they share and repeat. */
  method Compare(a: Node?, b: Node?, caseSensitive: bool) returns (same: bool)
    requires a != null ==> a.Valid()
    requires b != null ==> b.Valid()
    ensures same == (a != null && b != null && Alike(a, b, caseSensitive))
    ensures a != null && b != null && (a == b || Same(a.val, b.val, caseSensitive)) ==> same
    ensures a != null && b != null && a != b && ByValue(a, b, caseSensitive) ==>
      same == Same(a.val, b.val, caseSensitive)
    decreases if a == null || b == null then 0 else Nesting(a.val) + Nesting(b.val), 2
  {
    hide Node.Valid, ItemsAlike, MembersAlike, Same, ByValue;
    if a == null || b == null { return false; }
    AlikeIsSame(a, b, caseSensitive);
    Shape(a);
    Shape(b);
    if a.kind != b.kind { return false; }
    if a.kind == Invalid { return false; }
    if a == b { return true; }
    match a.kind
    case False | True | NULL => same := true;
    case Number => same := CompareDouble(a.valuedouble, b.valuedouble);
    case String => same := a.valuestring == b.valuestring;
    case Array => same := CompareItems(a, b, caseSensitive);
    case Object =>
      same := CompareMembers(a, b, caseSensitive);
      if same { same := CompareMembers(b, a, caseSensitive); }
  }

  /** Side by side through two arrays until one of them ends. */
  method CompareItems(a: Node, b: Node, caseSensitive: bool) returns (same: bool)
    requires a.Valid() && b.Valid() && a.kind == b.kind == Array
    ensures same == ItemsAlike(a, b, 0, caseSensitive)
    decreases Nesting(a.val) + Nesting(b.val), 0
  {
    hide Node.Valid, Alike, Nesting, ItemsAlike;
    Kids(a);
    Kids(b);
    ItemsDiffer(a, b, caseSensitive);
    var p, q := a.child, b.child;
    ghost var i: nat := 0;
    while p != null && q != null
      invariant i <= |a.kids| && i <= |b.kids| && p == After(a.kids, i - 1, null) && q == After(b.kids, i - 1, null)
      invariant ItemsAlike(a, b, 0, caseSensitive) == ItemsAlike(a, b, i, caseSensitive)
      decreases |a.kids| - i
    {
      Kid(a, i);
      Kid(b, i);
      Below(a, i);
      Below(b, i);
      if |a.kids| == |b.kids| { ItemsAlikeStep(a, b, i, caseSensitive); }
      var both := Compare(p, q, caseSensitive);
      if !both { return false; }
      p, q, i := p.next, q.next, i + 1;
    }
    if |a.kids| == |b.kids| { AlikeAtEnd(a, b, caseSensitive); }
    same := p == q;
  }

  /** One member of a is looked up in b. */
  method CompareMember(a: Node, ghost i: nat, p: Node, b: Node, caseSensitive: bool) returns (found: bool)
    requires a.Valid() && b.Valid() && a.kind == b.kind == Object && i < |a.kids| && p == a.kids[i] && p.name.Some?
    ensures var j := StopAt(b.kids, p.name.value, caseSensitive);
            found == (j < |b.kids| && (Below(a, i); Below(b, j); Alike(p, b.kids[j], caseSensitive)))
    decreases Nesting(a.val) + Nesting(b.val), 0
  {
    hide Node.Valid, Alike, Nesting, Lookup, StopAt;
    Kids(b);
    Below(a, i);
    ghost var j := StopAt(b.kids, p.name.value, caseSensitive);
    var q := GetObjectItem(b, p.name.value, caseSensitive);
    if q == null {
      MemberMissing(b, j);
      return false;
    }
    Below(b, j);
    found := Compare(p, q, caseSensitive);
  }

  /** In an object every child has a key, so a search that finds nothing ran to the end. */
  lemma MemberMissing(b: Node, j: nat)
    requires b.Valid() && b.kind == Object && j <= |b.kids| && (j < |b.kids| ==> b.kids[j].name.None?)
    ensures j == |b.kids|
  {
    hide Node.Valid;
    if j < |b.kids| { Kid(b, j); }
  }

  /** Every member of a is looked up in b. */
  method CompareMembers(a: Node, b: Node, caseSensitive: bool) returns (covered: bool)
    requires a.Valid() && b.Valid() && a.kind == b.kind == Object
    ensures covered == MembersAlike(a, b, 0, caseSensitive)
    decreases Nesting(a.val) + Nesting(b.val), 1
  {
    hide Node.Valid, Alike, MembersAlike, Nesting, StopAt;
    Kids(a);
    var p := a.child;
    ghost var i: nat := 0;
    while p != null
      invariant i <= |a.kids| && p == After(a.kids, i - 1, null)
      invariant MembersAlike(a, b, 0, caseSensitive) == MembersAlike(a, b, i, caseSensitive)
      decreases |a.kids| - i
    {
      Kid(a, i);
      MembersAlikeStep(a, b, i, caseSensitive);
      var found := CompareMember(a, i, p, b, caseSensitive);
      if !found { return false; }
      p, i := p.next, i + 1;
    }
    AlikeAtEnd(a, b, caseSensitive);
    covered := true;
  }
}
