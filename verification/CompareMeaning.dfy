/** What cJSON_Compare decides: whether two trees hold the same data, whatever the order of their members. */
module CompareMeaning {
  import opened Text
  import opened Number
  import opened Json
  import opened RoundTrip
  import opened Copy
  import opened TreeCompare

  /** The data of a tree: members are a map. */
  datatype Data =
    | Nothing
    | Truth(b: bool)
    | Amount(d: real)
    | Words(s: string)
    | List(items: seq<Data>)
    | Record(fields: map<string, Data>)

  function DataOf(v: Json, cs: bool): Data
    decreases v, 1
  {
    match v
    case Null => Nothing
    case Bool(b) => Truth(b)
    case Num(d) => Amount(d)
    case Str(s) => Words(s)
    case Arr(items) => List(ItemsData(items, cs))
    case Obj(members) => Record(FieldsData(members, cs))
  }

  function ItemsData(items: seq<Json>, cs: bool): (r: seq<Data>)
    ensures |r| == |items|
    ensures forall i :: 0 <= i < |items| ==> r[i] == DataOf(items[i], cs)
    decreases items, 0
  {
    if items == [] then [] else [DataOf(items[0], cs)] + ItemsData(items[1..], cs)
  }

  function FieldsData(members: seq<Member>, cs: bool): map<string, Data>
    decreases members, 0
  {
    if members == [] then map[]
    else FieldsData(members[1..], cs)[Fold(members[0].key, cs) := DataOf(members[0].value, cs)]
  }

  /** A key as it is compared. */
  function Fold(key: string, cs: bool): string {
    if cs then key else seq(|key|, i requires 0 <= i < |key| => Lower(key[i]))
  }

  lemma FoldIs(a: string, b: string, cs: bool)
    ensures SameKey(a, b, cs) <==> Fold(a, cs) == Fold(b, cs)
  {
    assert LowerAll(a) == Fold(a, false) && LowerAll(b) == Fold(b, false);
  }

  predicate DistinctKeys(members: seq<Member>, cs: bool) {
    forall i, j :: 0 <= i < j < |members| ==> Fold(members[i].key, cs) != Fold(members[j].key, cs)
  }

  lemma {:induction false} FieldsAre(members: seq<Member>, cs: bool)
    requires DistinctKeys(members, cs)
    ensures var fields := FieldsData(members, cs);
            && (forall i :: 0 <= i < |members| ==>
                  && Fold(members[i].key, cs) in fields
                  && fields[Fold(members[i].key, cs)] == DataOf(members[i].value, cs))
            && (forall k :: k in fields ==> exists i :: 0 <= i < |members| && Fold(members[i].key, cs) == k)
    decreases |members|
  {
    hide DataOf, Fold;
    if members != [] {
      var rest := members[1..];
      FieldsAre(rest, cs);
      forall i | 0 <= i < |members|
        ensures Fold(members[i].key, cs) in FieldsData(members, cs)
                && FieldsData(members, cs)[Fold(members[i].key, cs)] == DataOf(members[i].value, cs)
      {
        if i > 0 { assert members[i] == rest[i - 1]; }
      }
      forall k | k in FieldsData(members, cs) ensures exists i :: 0 <= i < |members| && Fold(members[i].key, cs) == k {
        if k != Fold(members[0].key, cs) {
          var i :| 0 <= i < |rest| && Fold(rest[i].key, cs) == k;
          assert Fold(members[i + 1].key, cs) == k;
        } else {
          assert Fold(members[0].key, cs) == k;
        }
      }
    }
  }

  /** Integers in int range are taken for equal only when they are. */
  lemma IntsCompare(x: real, y: real)
    requires x == Saturate(x) as real && y == Saturate(y) as real
    ensures CompareDouble(x, y) <==> x == y
  {
    var m, n := Saturate(x), Saturate(y);
    assert Abs(x) <= 2147483648.0 && Abs(y) <= 2147483648.0;
    if m != n { assert Abs(x - y) >= 1.0; }
  }

  /** Doubles are taken for equal when they differ by at most 2 to the power of -52 times the larger. */
  lemma Tolerance(x: real, y: real)
    requires x >= y >= 0.0
    ensures CompareDouble(x, y) <==> x - y <= x / 4503599627370496.0
  {
  }

  lemma LookupFinds(members: seq<Member>, key: string, i: nat, cs: bool)
    requires DistinctKeys(members, cs) && i < |members| && Fold(members[i].key, cs) == Fold(key, cs)
    ensures Lookup(members, key, cs) == i
  {
    hide Fold, SameKey;
    FoldIs(key, members[i].key, cs);
    var at := Lookup(members, key, cs);
    if at < |members| { FoldIs(key, members[at].key, cs); }
  }

  /** A member is found in y with the same value exactly when the map of y has that value for its key. */
  lemma CoversOne(key: string, value: Json, y: seq<Member>, cs: bool)
    requires DistinctKeys(y, cs)
    requires forall j :: 0 <= j < |y| ==> (Same(value, y[j].value, cs) <==> DataOf(value, cs) == DataOf(y[j].value, cs))
    ensures (var j := Lookup(y, key, cs); j < |y| && Same(value, y[j].value, cs))
            <==> Fold(key, cs) in FieldsData(y, cs) && FieldsData(y, cs)[Fold(key, cs)] == DataOf(value, cs)
  {
    hide Same, DataOf, FieldsData, Fold, SameKey, DistinctKeys;
    FieldsAre(y, cs);
    var j := Lookup(y, key, cs);
    if Fold(key, cs) in FieldsData(y, cs) {
      var n :| 0 <= n < |y| && Fold(y[n].key, cs) == Fold(key, cs);
      LookupFinds(y, key, n, cs);
    }
    if j < |y| { FoldIs(key, y[j].key, cs); }
  }

  /** Every member of x is in y, under the map of y. */
  lemma CoversMeans(x: seq<Member>, y: seq<Member>, cs: bool)
    requires DistinctKeys(x, cs) && DistinctKeys(y, cs)
    requires forall i, j :: 0 <= i < |x| && 0 <= j < |y| ==>
      (Same(x[i].value, y[j].value, cs) <==> DataOf(x[i].value, cs) == DataOf(y[j].value, cs))
    ensures Covered(x, y, cs)
            <==> (forall k :: k in FieldsData(x, cs) ==>
                    k in FieldsData(y, cs) && FieldsData(y, cs)[k] == FieldsData(x, cs)[k])
  {
    hide Same, DataOf, FieldsData, Fold, DistinctKeys, Lookup;
    FieldsAre(x, cs);
    forall i | 0 <= i < |x|
      ensures (var j := Lookup(y, x[i].key, cs); j < |y| && Same(x[i].value, y[j].value, cs))
              <==> (Fold(x[i].key, cs) in FieldsData(y, cs)
                    && FieldsData(y, cs)[Fold(x[i].key, cs)] == FieldsData(x, cs)[Fold(x[i].key, cs)])
    {
      CoversOne(x[i].key, x[i].value, y, cs);
    }
  }

  /** Trees of integers whose siblings have different keys compare equal exactly when they hold the same data,
      with regard to the case of the keys or without. */
  lemma {:induction false} CompareDecidesData(a: Json, b: Json, cs: bool)
    requires UniqueKeys(a, cs) && UniqueKeys(b, cs) && IntNumbers(a) && IntNumbers(b)
    ensures Same(a, b, cs) <==> DataOf(a, cs) == DataOf(b, cs)
    decreases a
  {
    match (a, b)
    case (Num(x), Num(y)) => IntsCompare(x, y);
    case (Arr(x), Arr(y)) => ItemsDecideData(x, y, cs);
    case (Obj(x), Obj(y)) => MembersDecideData(x, y, cs);
    case _ =>
  }

  lemma {:induction false} ItemsDecideData(x: seq<Json>, y: seq<Json>, cs: bool)
    requires UniqueKeys(Arr(x), cs) && UniqueKeys(Arr(y), cs) && IntNumbers(Arr(x)) && IntNumbers(Arr(y))
    ensures Same(Arr(x), Arr(y), cs) <==> ItemsData(x, cs) == ItemsData(y, cs)
    decreases x, 0
  {
    forall i | 0 <= i < |x| && i < |y| ensures Same(x[i], y[i], cs) <==> DataOf(x[i], cs) == DataOf(y[i], cs) {
      CompareDecidesData(x[i], y[i], cs);
    }
    hide DataOf, CompareDouble, Lookup;
    if ItemsData(x, cs) == ItemsData(y, cs) {
      assert forall i :: 0 <= i < |x| ==>
          DataOf(x[i], cs) == ItemsData(x, cs)[i] == ItemsData(y, cs)[i] == DataOf(y[i], cs);
    }
    if |x| == |y| && forall i :: 0 <= i < |x| ==> Same(x[i], y[i], cs) {
      assert forall i :: 0 <= i < |x| ==> ItemsData(x, cs)[i] == ItemsData(y, cs)[i];
    }
  }

  lemma {:induction false} MembersDecideData(x: seq<Member>, y: seq<Member>, cs: bool)
    requires UniqueKeys(Obj(x), cs) && UniqueKeys(Obj(y), cs) && IntNumbers(Obj(x)) && IntNumbers(Obj(y))
    ensures Same(Obj(x), Obj(y), cs) <==> FieldsData(x, cs) == FieldsData(y, cs)
    decreases x, 0
  {
    forall i, j | 0 <= i < |x| && 0 <= j < |y|
      ensures Same(x[i].value, y[j].value, cs) <==> DataOf(x[i].value, cs) == DataOf(y[j].value, cs)
      ensures Same(y[j].value, x[i].value, cs) <==> DataOf(y[j].value, cs) == DataOf(x[i].value, cs)
    {
      CompareDecidesData(x[i].value, y[j].value, cs);
      SameSymmetric(x[i].value, y[j].value, cs);
    }
    assert DistinctKeys(x, cs) && DistinctKeys(y, cs);
    SameUnfolds(Obj(x), Obj(y), cs);
    hide Same, Covered, DataOf, FieldsData, Lookup, UniqueKeys, IntNumbers;
    CoversMeans(x, y, cs);
    CoversMeans(y, x, cs);
  }
}
