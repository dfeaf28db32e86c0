/** Deep equality and the drift report (lib/drift.ts) over JSON values and `undefined`. */
module Drift {
  import opened Strings

  /** An object lists its own fields; NaN is no JSON value. */
  datatype Json = Undefined | Null | Bool(b: bool) | Num(n: real) | Str(s: string) | Arr(items: seq<Json>)
                | Obj(fields: seq<Field>)

  datatype Field = Field(key: string, value: Json)

  function Keys(fs: seq<Field>): (ks: seq<string>)
    ensures |ks| == |fs| && forall i :: 0 <= i < |fs| ==> ks[i] == fs[i].key
  {
    if fs == [] then [] else Keys(fs[..|fs| - 1]) + [fs[|fs| - 1].key]
  }

  function Position(fs: seq<Field>, k: string): (i: nat)
    ensures i <= |fs| && (i < |fs| ==> fs[i].key == k) && forall j :: 0 <= j < i ==> fs[j].key != k
  {
    if fs == [] || fs[0].key == k then 0 else 1 + Position(fs[1..], k)
  }

  predicate HasKey(fs: seq<Field>, k: string) {
    Position(fs, k) < |fs|
  }

  /** Keys are distinct at every level. */
  ghost predicate WellFormed(v: Json) {
    match v
    case Arr(items) => forall i :: 0 <= i < |items| ==> WellFormed(items[i])
    case Obj(fields) =>
      && (forall i :: 0 <= i < |fields| ==> WellFormed(fields[i].value))
      && (forall i, j :: 0 <= i < j < |fields| ==> fields[i].key != fields[j].key)
    case _ => true
  }

  lemma KeysAre(fs: seq<Field>, k: string)
    ensures k in Keys(fs) <==> HasKey(fs, k)
  {
    if HasKey(fs, k) {
      assert Keys(fs)[Position(fs, k)] == k;
    }
    if k in Keys(fs) {
      var i :| 0 <= i < |fs| && Keys(fs)[i] == k;
      assert fs[i].key == k;
    }
  }

  lemma SortedKeys(fs: seq<Field>, k: string)
    ensures |Sort(Keys(fs))| == |fs| && (k in Sort(Keys(fs)) <==> HasKey(fs, k))
  {
    SortSorts(Keys(fs));
    KeysAre(fs, k);
    assert k in Sort(Keys(fs)) <==> k in multiset(Sort(Keys(fs)));
    assert k in Keys(fs) <==> k in multiset(Keys(fs));
  }

  /** `===` on values that are no objects; two objects are the same object only if they are deeply equal anyway. */
  predicate Primitive(v: Json) {
    !v.Arr? && !v.Obj?
  }

  predicate DeepEquals(a: Json, b: Json)
    decreases a
  {
    if Primitive(a) || Primitive(b) then a == b
    else if a.Arr? != b.Arr? then false
    else if a.Arr? then
      |a.items| == |b.items| && forall i :: 0 <= i < |a.items| ==> DeepEquals(a.items[i], b.items[i])
    else
      var aKeys, bKeys := Sort(Keys(a.fields)), Sort(Keys(b.fields));
      && |aKeys| == |bKeys| && aKeys == bKeys
      && (forall i :: 0 <= i < |aKeys| ==>
            (SortedKeys(a.fields, aKeys[i]);
             SortedKeys(b.fields, aKeys[i]);
             DeepEquals(a.fields[Position(a.fields, aKeys[i])].value, b.fields[Position(b.fields, aKeys[i])].value)))
  }

  // ----- structural equality ---------------------------------------------

  /** A JSON value up to the order of keys. */
  datatype Canonical = Leaf(value: Json) | List(items: seq<Canonical>) | Record(fields: map<string, Canonical>)

  ghost function Canon(v: Json): Canonical {
    match v
    case Arr(items) => List(CanonItems(items))
    case Obj(fields) => Record(CanonFields(fields))
    case _ => Leaf(v)
  }

  ghost function CanonItems(items: seq<Json>): (cs: seq<Canonical>)
    ensures |cs| == |items| && forall i :: 0 <= i < |items| ==> cs[i] == Canon(items[i])
  {
    if items == [] then [] else CanonItems(items[..|items| - 1]) + [Canon(items[|items| - 1])]
  }

  ghost function CanonFields(fields: seq<Field>): map<string, Canonical> {
    if fields == [] then map[]
    else CanonFields(fields[1..])[fields[0].key := Canon(fields[0].value)]
  }

  lemma {:induction false} CanonFieldsAt(fields: seq<Field>, k: string)
    ensures k in CanonFields(fields) <==> HasKey(fields, k)
    ensures HasKey(fields, k) ==> CanonFields(fields)[k] == Canon(fields[Position(fields, k)].value)
  {
    if fields != [] {
      CanonFieldsAt(fields[1..], k);
    }
  }

  ghost predicate CanonDiffers(a: seq<Field>, b: seq<Field>, k: string) {
    HasKey(a, k) != HasKey(b, k) || (HasKey(a, k) && HasKey(b, k) &&
      Canon(a[Position(a, k)].value) != Canon(b[Position(b, k)].value))
  }

  ghost predicate MapsDiffer<V>(m: map<string, V>, n: map<string, V>, k: string) {
    (k in m) != (k in n) || (k in m && k in n && m[k] != n[k])
  }

  lemma MapsEqual<V>(m: map<string, V>, n: map<string, V>)
    ensures m == n <==> forall k :: !MapsDiffer(m, n, k)
  {
    if forall k :: !MapsDiffer(m, n, k) {
      forall k ensures k in m <==> k in n {
        assert !MapsDiffer(m, n, k);
      }
      forall k <- m ensures m[k] == n[k] {
        assert !MapsDiffer(m, n, k);
      }
    }
  }

  lemma CanonFieldsEqual(a: seq<Field>, b: seq<Field>)
    ensures CanonFields(a) == CanonFields(b) <==> forall k :: !CanonDiffers(a, b, k)
  {
    forall k
      ensures CanonDiffers(a, b, k) <==> MapsDiffer(CanonFields(a), CanonFields(b), k)
    {
      CanonFieldsAt(a, k);
      CanonFieldsAt(b, k);
    }
    hide CanonDiffers, CanonFields;
    MapsEqual(CanonFields(a), CanonFields(b));
  }

  /** Objects with distinct keys have the same sorted keys exactly when they have the same keys. */
  lemma {:induction false} SameSortedKeys(a: seq<Field>, b: seq<Field>)
    requires WellFormed(Obj(a)) && WellFormed(Obj(b))
    ensures Sort(Keys(a)) == Sort(Keys(b)) <==> forall k :: HasKey(a, k) == HasKey(b, k)
  {
    if Sort(Keys(a)) == Sort(Keys(b)) {
      forall k ensures HasKey(a, k) == HasKey(b, k) {
        SortedKeys(a, k);
        SortedKeys(b, k);
      }
    } else if forall k :: HasKey(a, k) == HasKey(b, k) {
      forall k ensures multiset(Keys(a))[k] == multiset(Keys(b))[k] {
        KeyCount(a, k);
        KeyCount(b, k);
      }
      assert multiset(Keys(a)) == multiset(Keys(b));
      SortCanonical(Keys(a), Keys(b));
      assert false;
    }
  }

  lemma {:induction false} KeyCount(fs: seq<Field>, k: string)
    requires forall i, j :: 0 <= i < j < |fs| ==> fs[i].key != fs[j].key
    ensures multiset(Keys(fs))[k] == if HasKey(fs, k) then 1 else 0
  {
    KeysAre(fs, k);
    DistinctCount(Keys(fs), k);
  }

  lemma {:induction false} DistinctCount(ks: seq<string>, k: string)
    requires forall i, j :: 0 <= i < j < |ks| ==> ks[i] != ks[j]
    ensures multiset(ks)[k] == if k in ks then 1 else 0
  {
    if ks != [] {
      var rest, last := ks[..|ks| - 1], ks[|ks| - 1];
      DistinctCount(rest, k);
      assert ks == rest + [last];
      assert last !in rest;
    }
  }

  /** Deep equality decides equality up to the order of keys. */
  lemma {:induction false} DeepEqualsIsStructural(a: Json, b: Json)
    requires WellFormed(a) && WellFormed(b)
    ensures DeepEquals(a, b) <==> Canon(a) == Canon(b)
    decreases a
  {
    if a.Arr? && b.Arr? {
      if |a.items| == |b.items| {
        forall i | 0 <= i < |a.items|
          ensures DeepEquals(a.items[i], b.items[i]) <==> Canon(a.items[i]) == Canon(b.items[i])
        {
          DeepEqualsIsStructural(a.items[i], b.items[i]);
        }
        SameItems(a.items, b.items);
      }
    } else if a.Obj? && b.Obj? {
      forall i, j | 0 <= i < |a.fields| && 0 <= j < |b.fields|
        ensures DeepEquals(a.fields[i].value, b.fields[j].value)
          <==> Canon(a.fields[i].value) == Canon(b.fields[j].value)
      {
        DeepEqualsIsStructural(a.fields[i].value, b.fields[j].value);
      }
      ObjectsEqual(a, b);
      CanonFieldsEqual(a.fields, b.fields);
      forall k ensures FieldDiffers(a, b, k) <==> CanonDiffers(a.fields, b.fields, k) {
      }
      assert Canon(a) == Record(CanonFields(a.fields)) && Canon(b) == Record(CanonFields(b.fields));
      hide DeepEquals, FieldDiffers, CanonDiffers, CanonFields;
    }
  }

  lemma SameItems(a: seq<Json>, b: seq<Json>)
    requires |a| == |b|
    ensures CanonItems(a) == CanonItems(b) <==> forall i :: 0 <= i < |a| ==> Canon(a[i]) == Canon(b[i])
  {
    if CanonItems(a) == CanonItems(b) {
      forall i | 0 <= i < |a| ensures Canon(a[i]) == Canon(b[i]) {
        assert CanonItems(a)[i] == CanonItems(b)[i];
      }
    }
  }

  ghost predicate FieldDiffers(a: Json, b: Json, k: string)
    requires a.Obj? && b.Obj?
  {
    HasKey(a.fields, k) != HasKey(b.fields, k) || (HasKey(a.fields, k) && HasKey(b.fields, k) &&
      !DeepEquals(a.fields[Position(a.fields, k)].value, b.fields[Position(b.fields, k)].value))
  }

  /** Two objects are compared key by key, whatever the order. */
  lemma ObjectsEqual(a: Json, b: Json)
    requires WellFormed(a) && WellFormed(b) && a.Obj? && b.Obj?
    ensures DeepEquals(a, b) <==> forall k :: !FieldDiffers(a, b, k)
  {
    var ks := Sort(Keys(a.fields));
    SameSortedKeys(a.fields, b.fields);
    forall k
      ensures k in ks <==> HasKey(a.fields, k)
      ensures k in Sort(Keys(b.fields)) <==> HasKey(b.fields, k)
    {
      SortedKeys(a.fields, k);
      SortedKeys(b.fields, k);
    }
    if ks == Sort(Keys(b.fields)) {
      forall k ensures HasKey(a.fields, k) == HasKey(b.fields, k) {
      }
      if DeepEquals(a, b) {
        forall k ensures !FieldDiffers(a, b, k) {
          if HasKey(a.fields, k) {
            var i :| 0 <= i < |ks| && ks[i] == k;
          }
        }
      } else if forall k :: !FieldDiffers(a, b, k) {
        forall i | 0 <= i < |ks|
          ensures HasKey(a.fields, ks[i]) && HasKey(b.fields, ks[i])
          ensures DeepEquals(a.fields[Position(a.fields, ks[i])].value, b.fields[Position(b.fields, ks[i])].value)
        {
          assert ks[i] in ks;
          assert !FieldDiffers(a, b, ks[i]);
        }
        assert false;
      }
    } else {
      var k :| HasKey(a.fields, k) != HasKey(b.fields, k);
      assert FieldDiffers(a, b, k);
    }
  }

  /** So it is an equivalence relation. */
  lemma {:induction false} DeepEqualsIsEquivalence(a: Json, b: Json, c: Json)
    requires WellFormed(a) && WellFormed(b) && WellFormed(c)
    ensures DeepEquals(a, a)
    ensures DeepEquals(a, b) ==> DeepEquals(b, a)
    ensures DeepEquals(a, b) && DeepEquals(b, c) ==> DeepEquals(a, c)
  {
    DeepEqualsIsStructural(a, a);
    DeepEqualsIsStructural(a, b);
    DeepEqualsIsStructural(b, a);
    DeepEqualsIsStructural(b, c);
    DeepEqualsIsStructural(a, c);
  }

  // ----- the report ------------------------------------------------------

  function Digits(n: nat): string {
    if n < 10 then ["0123456789"[n]] else Digits(n / 10) + ["0123456789"[n % 10]]
  }

  function IndexKeys(n: nat): (ks: seq<string>)
    ensures |ks| == n && forall i :: 0 <= i < n ==> ks[i] == Digits(i)
  {
    if n == 0 then [] else IndexKeys(n - 1) + [Digits(n - 1)]
  }

  /** `Object.keys` of an object or array; the report takes no keys from anything else. */
  function KeysOf(v: Json): seq<string> {
    match v
    case Obj(fields) => Keys(fields)
    case Arr(items) => IndexKeys(|items|)
    case _ => []
  }

  function ItemAt(items: seq<Json>, field: string, n: nat): Json
    requires n <= |items|
  {
    if n == 0 then Undefined else if Digits(n - 1) == field then items[n - 1] else ItemAt(items, field, n - 1)
  }

  function Chars(s: string): (items: seq<Json>)
    ensures |items| == |s|
  {
    seq(|s|, i requires 0 <= i < |s| => Str([s[i]]))
  }

  /** `v?.[field]`. Arrays and strings have a length, which is no key of theirs. */
  function FieldOf(v: Json, field: string): Json {
    match v
    case Obj(fields) => if HasKey(fields, field) then fields[Position(fields, field)].value else Undefined
    case Arr(items) => if field == "length" then Num(|items| as real) else ItemAt(items, field, |items|)
    case Str(s) => if field == "length" then Num(|s| as real) else ItemAt(Chars(s), field, |s|)
    case _ => Undefined
  }

  datatype FieldDrift = FieldDrift(field: string, changed: bool, oldValue: Json, newValue: Json)

  function DetectFieldDrift(field: string, before: Json, after: Json): FieldDrift {
    var x, y := FieldOf(before, field), FieldOf(after, field);
    FieldDrift(field, !DeepEquals(x, y), x, y)
  }

  /** The keys of both, each once, in order of first appearance. */
  function Unique(ks: seq<string>): (r: seq<string>)
    ensures forall k :: k in r <==> k in ks
    ensures forall i, j :: 0 <= i < j < |r| ==> r[i] != r[j]
  {
    if ks == [] then []
    else
      var rest, last := Unique(ks[..|ks| - 1]), ks[|ks| - 1];
      assert ks == ks[..|ks| - 1] + [last];
      if last in rest then rest else rest + [last]
  }

  function FieldDrifts(before: Json, after: Json): seq<FieldDrift> {
    var ks := Unique(KeysOf(before) + KeysOf(after));
    seq(|ks|, i requires 0 <= i < |ks| => DetectFieldDrift(ks[i], before, after))
  }

  /** The report covers each key of either value. */
  lemma ReportedFields(before: Json, after: Json, d: FieldDrift)
    ensures d in FieldDrifts(before, after) <==>
      d == DetectFieldDrift(d.field, before, after) && (d.field in KeysOf(before) || d.field in KeysOf(after))
  {
    var ks, ds := Unique(KeysOf(before) + KeysOf(after)), FieldDrifts(before, after);
    hide Unique, KeysOf, FieldOf, DeepEquals;
    if d in ds {
      var i :| 0 <= i < |ds| && ds[i] == d;
      assert ks[i] in ks;
    } else if d.field in ks {
      var i :| 0 <= i < |ks| && ks[i] == d.field;
      assert ds[i] in ds;
    }
  }

  predicate HasDrift(before: Json, after: Json) {
    !DeepEquals(before, after)
  }

  ghost predicate SomeChanged(before: Json, after: Json) {
    exists d <- FieldDrifts(before, after) :: d.changed
  }

  /** A field that is there and `undefined` in one object and absent in the other. */
  ghost predicate OnlyUndefined(a: Json, b: Json, k: string)
    requires a.Obj? && b.Obj?
  {
    HasKey(a.fields, k) != HasKey(b.fields, k) && FieldOf(a, k) == Undefined && FieldOf(b, k) == Undefined
  }

  /** A key of either value that reads differently in the two. */
  ghost predicate ChangedAt(a: Json, b: Json, k: string) {
    (k in KeysOf(a) || k in KeysOf(b)) && !DeepEquals(FieldOf(a, k), FieldOf(b, k))
  }

  /** A difference that is in no field: an explicit `undefined` that the other object lacks, the length of an array,
      the value of a primitive, or the kind of value. */
  ghost predicate Unlisted(a: Json, b: Json) {
    if a.Obj? && b.Obj? then exists k :: OnlyUndefined(a, b, k)
    else if a.Arr? && b.Arr? then |a.items| != |b.items|
    else Primitive(a) && Primitive(b) ==> a != b
  }

  lemma ChangedSomewhere(a: Json, b: Json)
    ensures SomeChanged(a, b) <==> exists k :: ChangedAt(a, b, k)
  {
    hide DeepEquals, KeysOf, FieldOf, FieldDrifts;
    if SomeChanged(a, b) {
      var d :| d in FieldDrifts(a, b) && d.changed;
      ReportedFields(a, b, d);
      assert ChangedAt(a, b, d.field);
    }
    if k :| ChangedAt(a, b, k) {
      ReportedFields(a, b, DetectFieldDrift(k, a, b));
    }
  }

  lemma UndefinedIsAlone(v: Json)
    ensures DeepEquals(Undefined, v) <==> v == Undefined
    ensures DeepEquals(v, Undefined) <==> v == Undefined
  {
  }

  lemma DifferenceShows(a: Json, b: Json, k: string)
    requires a.Obj? && b.Obj?
    ensures FieldDiffers(a, b, k) <==> ChangedAt(a, b, k) || OnlyUndefined(a, b, k)
  {
    KeysAre(a.fields, k);
    KeysAre(b.fields, k);
    UndefinedIsAlone(FieldOf(a, k));
    UndefinedIsAlone(FieldOf(b, k));
    hide DeepEquals;
  }

  lemma {:induction false} ObjectDrift(a: Json, b: Json)
    requires WellFormed(a) && WellFormed(b) && a.Obj? && b.Obj?
    ensures HasDrift(a, b) <==> (exists k :: ChangedAt(a, b, k)) || exists k :: OnlyUndefined(a, b, k)
  {
    ObjectsEqual(a, b);
    hide DeepEquals, WellFormed, OnlyUndefined, ChangedAt, FieldDiffers;
    forall k ensures FieldDiffers(a, b, k) <==> ChangedAt(a, b, k) || OnlyUndefined(a, b, k) {
      DifferenceShows(a, b, k);
    }
  }

  // ----- arrays ----------------------------------------------------------

  lemma {:induction false} DigitsDistinct(m: nat, n: nat)
    ensures Digits(m) == Digits(n) ==> m == n
    ensures |Digits(n)| >= 1 && Digits(n)[|Digits(n)| - 1] == "0123456789"[n % 10]
  {
    if m >= 10 && n >= 10 {
      DigitsDistinct(m / 10, n / 10);
      assert Digits(m)[..|Digits(m)| - 1] == Digits(m / 10) && Digits(n)[..|Digits(n)| - 1] == Digits(n / 10);
    }
    LastDigit(m);
    LastDigit(n);
  }

  lemma LastDigit(n: nat)
    ensures |Digits(n)| >= (if n < 10 then 1 else 2) && (n < 10 ==> |Digits(n)| == 1)
    ensures Digits(n)[|Digits(n)| - 1] == "0123456789"[n % 10]
  {
  }

  lemma {:induction false} ItemAtIndex(items: seq<Json>, i: nat, n: nat)
    requires n <= |items|
    ensures ItemAt(items, Digits(i), n) == if i < n then items[i] else Undefined
  {
    if n > 0 {
      ItemAtIndex(items, i, n - 1);
      DigitsDistinct(n - 1, i);
    }
    hide Digits;
  }

  function ItemOf(v: Json, i: nat): Json
    requires v.Arr?
  {
    if i < |v.items| then v.items[i] else Undefined
  }

  lemma FieldOfArray(v: Json, i: nat)
    requires v.Arr?
    ensures FieldOf(v, Digits(i)) == ItemOf(v, i)
  {
    LastDigit(i);
    ItemAtIndex(v.items, i, |v.items|);
    hide Digits;
  }

  lemma {:induction false} ArrayChangedAt(a: Json, b: Json, i: nat)
    requires a.Arr? && b.Arr?
    ensures ChangedAt(a, b, Digits(i)) <==> (i < |a.items| || i < |b.items|) && !DeepEquals(ItemOf(a, i), ItemOf(b, i))
  {
    FieldOfArray(a, i);
    FieldOfArray(b, i);
    ArrayKeys(a, i);
    ArrayKeys(b, i);
    hide Digits, IndexKeys, DeepEquals, FieldOf, KeysOf;
  }

  lemma {:induction false} ArrayKeys(v: Json, i: nat)
    requires v.Arr?
    ensures Digits(i) in KeysOf(v) <==> i < |v.items|
  {
    var ks := IndexKeys(|v.items|);
    if Digits(i) in ks {
      var j: nat :| j < |ks| && ks[j] == Digits(i);
      DigitsDistinct(i, j);
    }
    assert i < |ks| ==> ks[i] in ks;
    hide Digits, IndexKeys;
  }

  lemma {:induction false} ArrayDrift(a: Json, b: Json)
    requires a.Arr? && b.Arr?
    ensures HasDrift(a, b) <==> (exists k :: ChangedAt(a, b, k)) || |a.items| != |b.items|
    ensures (exists k :: ChangedAt(a, b, k)) <==>
      exists i: nat :: (i < |a.items| || i < |b.items|) && !DeepEquals(ItemOf(a, i), ItemOf(b, i))
  {
    if k :| ChangedAt(a, b, k) {
      var ks := IndexKeys(if k in KeysOf(a) then |a.items| else |b.items|);
      var i: nat :| i < |ks| && ks[i] == k;
      ArrayChangedAt(a, b, i);
    }
    if i: nat :| (i < |a.items| || i < |b.items|) && !DeepEquals(ItemOf(a, i), ItemOf(b, i)) {
      ArrayChangedAt(a, b, i);
    }
    ArraysEqual(a, b);
    hide ChangedAt, Digits, IndexKeys, DeepEquals;
  }

  lemma ArraysEqual(a: Json, b: Json)
    requires a.Arr? && b.Arr?
    ensures DeepEquals(a, b) <==>
      && |a.items| == |b.items|
      && forall i: nat :: i < |a.items| || i < |b.items| ==> DeepEquals(ItemOf(a, i), ItemOf(b, i))
  {
    if |a.items| == |b.items| {
      forall i: nat | i < |a.items| ensures ItemOf(a, i) == a.items[i] && ItemOf(b, i) == b.items[i] {
      }
    }
  }

  // ----- what the entries say --------------------------------------------

  function DecimalValue(digits: string): int {
    if digits == "" then 0 else 10 * DecimalValue(digits[..|digits| - 1]) + (digits[|digits| - 1] as int - '0' as int)
  }

  /** The digits of an index spell it, without a leading zero. */
  lemma {:induction false} DigitsSpell(n: nat)
    ensures DecimalValue(Digits(n)) == n && Digits(n) != "" && (Digits(n)[0] == '0' ==> n == 0)
  {
    var last := "0123456789"[n % 10];
    if n < 10 {
      assert Digits(n) == [last] && [last][..0] == "";
    } else {
      DigitsSpell(n / 10);
      assert Digits(n) == Digits(n / 10) + [last];
      assert (Digits(n / 10) + [last])[..|Digits(n / 10)|] == Digits(n / 10);
    }
    hide Digits;
  }

  /** `x` is what a value holds under a key: a field's value, an item or a character by its index, the length of an
      array or a string, and `undefined` otherwise. */
  ghost predicate Holds(v: Json, k: string, x: Json) {
    match v
    case Obj(fields) =>
      || (exists i :: 0 <= i < |fields| && fields[i] == Field(k, x))
      || (x == Undefined && forall i :: 0 <= i < |fields| ==> fields[i].key != k)
    case Arr(items) =>
      || (k == "length" && x == Num(|items| as real))
      || (exists i: nat :: i < |items| && k == Digits(i) && x == items[i])
      || (x == Undefined && k != "length" && forall i: nat :: i < |items| ==> k != Digits(i))
    case Str(s) =>
      || (k == "length" && x == Num(|s| as real))
      || (exists i: nat :: i < |s| && k == Digits(i) && x == Str([s[i]]))
      || (x == Undefined && k != "length" && forall i: nat :: i < |s| ==> k != Digits(i))
    case _ => x == Undefined
  }

  lemma {:induction false} ItemAtFinds(items: seq<Json>, k: string, n: nat)
    requires n <= |items|
    ensures || (exists i: nat :: i < n && k == Digits(i) && ItemAt(items, k, n) == items[i])
            || (ItemAt(items, k, n) == Undefined && forall i: nat :: i < n ==> k != Digits(i))
  {
    hide Digits;
    if n > 0 && Digits(n - 1) != k {
      ItemAtFinds(items, k, n - 1);
    }
  }

  lemma FieldIsHeld(v: Json, k: string)
    ensures Holds(v, k, FieldOf(v, k))
  {
    match v
    case Arr(items) => ItemAtFinds(items, k, |items|);
    case Str(s) =>
      ItemAtFinds(Chars(s), k, |s|);
      if i: nat :| i < |s| && k == Digits(i) && ItemAt(Chars(s), k, |s|) == Chars(s)[i] {
        assert Chars(s)[i] == Str([s[i]]);
      }
    case _ =>
  }

  /** A value holds one thing under a key. */
  lemma HeldOnce(v: Json, k: string, x: Json, y: Json)
    requires WellFormed(v) && Holds(v, k, x) && Holds(v, k, y)
    ensures x == y
  {
    if v.Obj? {
      forall i, j | 0 <= i < |v.fields| && 0 <= j < |v.fields| && v.fields[i].key == v.fields[j].key ensures i == j {}
    } else {
      forall i: nat, j: nat | Digits(i) == Digits(j) ensures i == j {
        DigitsDistinct(i, j);
      }
      forall i: nat ensures Digits(i) != "length" {
        LastDigit(i);
      }
      hide Digits;
    }
  }

  /** Where a key appears first. */
  function First(ks: seq<string>, k: string): (i: nat)
    requires k in ks
    ensures i < |ks| && ks[i] == k && forall j :: 0 <= j < i ==> ks[j] != k
  {
    if ks[0] == k then 0 else 1 + First(ks[1..], k)
  }

  lemma FirstIs(ks: seq<string>, k: string, i: nat)
    requires i < |ks| && ks[i] == k && forall j :: 0 <= j < i ==> ks[j] != k
    ensures First(ks, k) == i
  {
  }

  /** The entries are in the order in which their keys first appear, those of the earlier value before those of the
      later one. */
  lemma {:induction false} UniqueKeepsOrder(ks: seq<string>, i: nat, j: nat)
    requires i < j < |Unique(ks)|
    ensures First(ks, Unique(ks)[i]) < First(ks, Unique(ks)[j])
  {
    var n, r := |ks| - 1, Unique(ks);
    var rest := Unique(ks[..n]);
    SameFirst(ks, r[i]);
    if j < |rest| {
      UniqueKeepsOrder(ks[..n], i, j);
      SameFirst(ks, r[j]);
    } else {
      FirstIs(ks, r[j], n);
    }
  }

  lemma SameFirst(ks: seq<string>, k: string)
    requires ks != [] && k in ks[..|ks| - 1]
    ensures First(ks, k) == First(ks[..|ks| - 1], k)
  {
    FirstIs(ks, k, First(ks[..|ks| - 1], k));
  }

  /** An entry of the report shows what the earlier and what the later value hold under a key of either, and says
      changed exactly when the two differ in structure; no key is reported twice. */
  lemma {:induction false} ReportReads(before: Json, after: Json, i: nat)
    requires i < |FieldDrifts(before, after)|
    ensures var d := FieldDrifts(before, after)[i];
      && (d.field in KeysOf(before) || d.field in KeysOf(after))
      && Holds(before, d.field, d.oldValue) && Holds(after, d.field, d.newValue)
      && (d.changed <==> !DeepEquals(d.oldValue, d.newValue))
      && forall j :: 0 <= j < |FieldDrifts(before, after)| && j != i ==> FieldDrifts(before, after)[j].field != d.field
  {
    var ks := Unique(KeysOf(before) + KeysOf(after));
    assert ks[i] in ks;
    FieldIsHeld(before, ks[i]);
    FieldIsHeld(after, ks[i]);
    hide Unique, KeysOf, FieldOf, Holds, DeepEquals;
  }

  // ----- what the report shows -------------------------------------------

  /** For any two values: a field is reported as changed exactly when a key of either reads differently in the two, and
      there is drift exactly when some field is reported as changed or the difference is in no field. */
  lemma {:induction false} DriftIsReported(a: Json, b: Json)
    requires WellFormed(a) && WellFormed(b)
    ensures SomeChanged(a, b) <==> exists k :: ChangedAt(a, b, k)
    ensures HasDrift(a, b) <==> SomeChanged(a, b) || Unlisted(a, b)
  {
    ChangedSomewhere(a, b);
    if a.Obj? && b.Obj? {
      ObjectDrift(a, b);
    } else if a.Arr? && b.Arr? {
      ArrayDrift(a, b);
    } else {
      KindsDiffer(a, b);
    }
    hide WellFormed, SomeChanged, ChangedAt, OnlyUndefined, DeepEquals, HasDrift;
  }

  lemma KindsDiffer(a: Json, b: Json)
    requires !(a.Obj? && b.Obj?) && !(a.Arr? && b.Arr?)
    ensures HasDrift(a, b) <==> Unlisted(a, b)
    ensures Primitive(a) && Primitive(b) ==> forall k :: !ChangedAt(a, b, k)
  {
  }

  /** No field or item is `undefined`, as in whatever JSON text parses to. */
  predicate Parsed(v: Json) {
    match v
    case Obj(fields) => forall f <- fields :: f.value != Undefined
    case Arr(items) => forall x <- items :: x != Undefined
    case _ => v != Undefined
  }

  /** So between two parsed objects or two parsed arrays drift is always reported, and between two primitives never. */
  lemma {:induction false} ParsedDriftIsReported(a: Json, b: Json)
    requires WellFormed(a) && WellFormed(b) && Parsed(a) && Parsed(b)
    ensures (a.Obj? && b.Obj?) || (a.Arr? && b.Arr?) ==> (HasDrift(a, b) <==> SomeChanged(a, b))
    ensures Primitive(a) && Primitive(b) ==> !SomeChanged(a, b)
  {
    DriftIsReported(a, b);
    if a.Obj? && b.Obj? {
      forall k ensures !OnlyUndefined(a, b, k) {
        PresentIsDefined(a, k);
        PresentIsDefined(b, k);
      }
    } else if a.Arr? && b.Arr? {
      ArrayDrift(a, b);
      var n := if |a.items| < |b.items| then |a.items| else |b.items|;
      assert n < |a.items| ==> a.items[n] in a.items;
      assert n < |b.items| ==> b.items[n] in b.items;
      UndefinedIsAlone(ItemOf(a, n));
      UndefinedIsAlone(ItemOf(b, n));
    }
    hide WellFormed, SomeChanged, DeepEquals, HasDrift, FieldOf;
  }

  lemma PresentIsDefined(v: Json, k: string)
    requires Parsed(v) && v.Obj?
    ensures HasKey(v.fields, k) ==> FieldOf(v, k) != Undefined
  {
    if HasKey(v.fields, k) {
      assert v.fields[Position(v.fields, k)] in v.fields;
    }
  }

  /** Between different kinds the report can miss the drift: an empty object and an empty array have no field to report,
      and an object with the field "0" and an array of one item may read the same in it. */
  lemma {:induction false} DriftWithoutFields(x: Json)
    requires WellFormed(x)
    ensures HasDrift(Obj([]), Arr([])) && !SomeChanged(Obj([]), Arr([]))
    ensures HasDrift(Obj([Field("0", x)]), Arr([x])) && !SomeChanged(Obj([Field("0", x)]), Arr([x]))
  {
    KindsDiffer(Obj([]), Arr([]));
    KindsDiffer(Obj([Field("0", x)]), Arr([x]));
    ChangedSomewhere(Obj([]), Arr([]));
    ChangedSomewhere(Obj([Field("0", x)]), Arr([x]));
    SameInZero(x);
    hide *;
    assert Unlisted(Obj([]), Arr([])) && Unlisted(Obj([Field("0", x)]), Arr([x])) by {
      MixedIsUnlisted(Obj([]), Arr([]));
      MixedIsUnlisted(Obj([Field("0", x)]), Arr([x]));
    }
  }

  lemma MixedIsUnlisted(a: Json, b: Json)
    requires a.Obj? && b.Arr?
    ensures Unlisted(a, b)
  {
  }

  lemma SameInZero(x: Json)
    requires WellFormed(x)
    ensures forall k :: !ChangedAt(Obj([]), Arr([]), k)
    ensures forall k :: !ChangedAt(Obj([Field("0", x)]), Arr([x]), k)
  {
    var a, b := Obj([Field("0", x)]), Arr([x]);
    assert Digits(0) == "0";
    FieldOfArray(b, 0);
    DeepEqualsIsEquivalence(x, x, x);
    OneField(x);
    hide DeepEquals, WellFormed, FieldOf, Digits;
    assert KeysOf(b) == [Digits(0)];
  }

  lemma OneField(x: Json)
    ensures var a := Obj([Field("0", x)]); KeysOf(a) == ["0"] && FieldOf(a, "0") == x
  {
  }
}
