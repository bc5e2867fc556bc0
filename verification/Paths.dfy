/** How deep a value is: the two counts of the engine as lengths of paths into the value. */
module Paths {
  import opened Text
  import opened Json
  import C = Copy

  function Children(v: Json): (r: seq<Json>)
    ensures forall i :: 0 <= i < |r| ==> r[i] < v
  {
    match v
    case Arr(items) => items
    case Obj(members) => seq(|members|, i requires 0 <= i < |members| => members[i].value)
    case _ => []
  }

  /** What stands at the end of a path of child numbers. */
  function Reached(v: Json, path: seq<nat>): Option<Json>
    decreases v
  {
    if path == [] then Some(v)
    else if path[0] < |Children(v)| then Reached(Children(v)[path[0]], path[1..])
    else None
  }

  predicate Container(v: Json) {
    v.Arr? || v.Obj?
  }

  lemma {:induction false} ItemsDeepest(items: seq<Json>) returns (i: nat)
    ensures forall j :: 0 <= j < |items| ==> Nesting(items[j]) <= ItemsNesting(items)
    ensures forall j :: 0 <= j < |items| ==> C.Levels(items[j]) <= C.ItemsLevels(items)
    ensures items == [] ==> ItemsNesting(items) == C.ItemsLevels(items) == 0
    ensures items != [] ==> i < |items| && Nesting(items[i]) == ItemsNesting(items)
    decreases |items|
  {
    hide Nesting, C.Levels;
    i := 0;
    if items != [] {
      var other := ItemsDeepest(items[1..]);
      if |items| > 1 && Nesting(items[0]) < ItemsNesting(items[1..]) { i := other + 1; }
      assert forall j :: 1 <= j < |items| ==> items[j] == items[1..][j - 1];
    }
  }

  lemma {:induction false} ItemsTallest(items: seq<Json>) returns (i: nat)
    ensures items != [] ==> i < |items| && C.Levels(items[i]) == C.ItemsLevels(items)
    decreases |items|
  {
    hide C.Levels;
    i := 0;
    if items != [] {
      var other := ItemsTallest(items[1..]);
      if |items| > 1 && C.Levels(items[0]) < C.ItemsLevels(items[1..]) { i := other + 1; }
    }
  }

  /** Members count as their values do. */
  lemma {:induction false} MembersAsItems(members: seq<Member>)
    ensures MembersNesting(members) == ItemsNesting(Children(Obj(members)))
    ensures C.MembersLevels(members) == C.ItemsLevels(Children(Obj(members)))
    decreases |members|
  {
    hide Nesting, C.Levels;
    if members != [] {
      MembersAsItems(members[1..]);
      assert Children(Obj(members)) == [members[0].value] + Children(Obj(members[1..]));
      assert Children(Obj(members))[1..] == Children(Obj(members[1..]));
    }
  }

  lemma Counts(v: Json)
    ensures Nesting(v) == if Container(v) then 1 + ItemsNesting(Children(v)) else 0
    ensures C.Levels(v) == if Children(v) != [] then 1 + C.ItemsLevels(Children(v)) else 0
  {
    if v.Obj? { MembersAsItems(v.members); }
  }

  /** The nesting that parsing limits: the greatest number of containers inside one another. */
  lemma {:induction false} NestingIs(v: Json, n: nat)
    ensures Nesting(v) <= n
       <==> forall path :: Reached(v, path).Some? && Container(Reached(v, path).value) ==> |path| < n
    decreases v
  {
    Counts(v);
    if Nesting(v) <= n {
      forall path | Reached(v, path).Some? && Container(Reached(v, path).value) ensures |path| < n {
        NoDeeper(v, path);
      }
    } else {
      var path := Deepest(v);
    }
  }

  lemma {:induction false} NoDeeper(v: Json, path: seq<nat>)
    requires Reached(v, path).Some? && Container(Reached(v, path).value)
    ensures |path| < Nesting(v)
    decreases v
  {
    hide Nesting, ItemsNesting, Children;
    Counts(v);
    if path != [] {
      var _ := ItemsDeepest(Children(v));
      NoDeeper(Children(v)[path[0]], path[1..]);
    }
  }

  lemma {:induction false} Deepest(v: Json) returns (path: seq<nat>)
    requires Nesting(v) > 0
    ensures Reached(v, path).Some? && Container(Reached(v, path).value) && |path| + 1 == Nesting(v)
    decreases v
  {
    hide Nesting, ItemsNesting, Children;
    Counts(v);
    path := [];
    if Nesting(v) > 1 {
      var i := ItemsDeepest(Children(v));
      var rest := Deepest(Children(v)[i]);
      path := [i] + rest;
      assert path[1..] == rest;
    }
  }

  /** The levels that copying limits: the length of the longest way down. */
  lemma {:induction false} LevelsAre(v: Json, n: nat)
    ensures C.Levels(v) <= n <==> forall path :: Reached(v, path).Some? ==> |path| <= n
    decreases v
  {
    if C.Levels(v) <= n {
      forall path | Reached(v, path).Some? ensures |path| <= n { NoLonger(v, path); }
    } else {
      var path := Longest(v);
    }
  }

  lemma {:induction false} NoLonger(v: Json, path: seq<nat>)
    requires Reached(v, path).Some?
    ensures |path| <= C.Levels(v)
    decreases v
  {
    hide C.Levels, C.ItemsLevels, Children;
    Counts(v);
    if path != [] {
      var _ := ItemsDeepest(Children(v));
      NoLonger(Children(v)[path[0]], path[1..]);
    }
  }

  lemma {:induction false} Longest(v: Json) returns (path: seq<nat>)
    ensures Reached(v, path).Some? && |path| == C.Levels(v)
    decreases v
  {
    hide C.Levels, C.ItemsLevels, Children;
    Counts(v);
    path := [];
    if Children(v) != [] {
      var i := ItemsTallest(Children(v));
      var rest := Longest(Children(v)[i]);
      path := [i] + rest;
      assert path[1..] == rest;
    }
  }
}
