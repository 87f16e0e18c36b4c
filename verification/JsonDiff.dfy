/** The structural JSON comparison of the migration tool (internal/apicompare/compare.go:312-383). */
module JsonDiff {
  import opened Numbers
  import opened Wrappers

  /** A decoded JSON value; a number keeps its literal. */
  datatype Json =
    | Null
    | Bool(value: bool)
    | Num(text: string)
    | Str(text: string)
    | Arr(items: seq<Json>)
    | Obj(fields: map<string, Json>)

  /** big.Rat.SetString on a number literal; None where it refuses one, as for a huge exponent. */
  type Rational = string -> Option<real>

  datatype Reason = MissingField | DifferentLength | DifferentValue

  /** A reported side. A missing field is reported as null, a length as a number. */
  datatype Side = Value(value: Json) | Length(n: nat)

  datatype Difference = Difference(path: string, python: Side, go: Side, reason: Reason)

  // ---------------------------------------------------------------- text helpers

  /** strings.ReplaceAll for a single character. */
  function ReplaceChar(text: string, c: char, replacement: string): string {
    if text == "" then "" else (if text[0] == c then replacement else [text[0]]) + ReplaceChar(text[1..], c, replacement)
  }

  function EscapePointer(token: string): string {
    ReplaceChar(ReplaceChar(token, '~', "~0"), '/', "~1")
  }

  function PointerRoot(path: string): string {
    if path == "" then "/" else path
  }

  // ---------------------------------------------------------------- key order

  predicate AtMost(a: string, b: string) {
    a == "" || (b != "" && (a[0] < b[0] || (a[0] == b[0] && AtMost(a[1..], b[1..]))))
  }

  lemma {:induction false} AtMostTotal(a: string, b: string)
    ensures AtMost(a, b) || AtMost(b, a)
    ensures AtMost(a, b) && AtMost(b, a) ==> a == b
  {
    if a != "" && b != "" && a[0] == b[0] {
      AtMostTotal(a[1..], b[1..]);
      assert a == [a[0]] + a[1..] && b == [b[0]] + b[1..];
    }
  }

  lemma {:induction false} AtMostTransitive(a: string, b: string, c: string)
    requires AtMost(a, b) && AtMost(b, c)
    ensures AtMost(a, c)
  {
    if a != "" && a[0] == b[0] == c[0] { AtMostTransitive(a[1..], b[1..], c[1..]); }
  }

  /** The first place where two texts differ. */
  predicate SmallerAt(a: string, b: string, i: nat) {
    i < |a| && i < |b| && a[..i] == b[..i] && a[i] < b[i]
  }

  lemma SmallerLater(a: string, b: string, i: nat)
    requires a != "" && b != ""
    ensures SmallerAt(a, b, i + 1) <==> a[0] == b[0] && SmallerAt(a[1..], b[1..], i)
  {
    if i + 1 < |a| && i + 1 < |b| {
      assert a[..i + 1] == [a[0]] + a[1..][..i] && b[..i + 1] == [b[0]] + b[1..][..i];
      if a[..i + 1] == b[..i + 1] { assert a[..i + 1][0] == a[0] && a[..i + 1][1..] == a[1..][..i]; }
    }
  }

  /** The order of sort.Strings: a beginning comes first, and else the first character that differs decides. */
  lemma {:induction false} AtMostMeaning(a: string, b: string)
    ensures AtMost(a, b) <==> a <= b || exists i: nat :: SmallerAt(a, b, i)
  {
    if a != "" && b != "" {
      AtMostMeaning(a[1..], b[1..]);
      forall i: nat ensures SmallerAt(a, b, i + 1) <==> a[0] == b[0] && SmallerAt(a[1..], b[1..], i) {
        SmallerLater(a, b, i);
      }
      assert a == [a[0]] + a[1..] && b == [b[0]] + b[1..];
      assert SmallerAt(a, b, 0) <==> a[0] < b[0];
      hide SmallerAt;
      if i: nat :| SmallerAt(a, b, i) && i > 0 { assert SmallerAt(a[1..], b[1..], i - 1); }
    }
  }

  predicate Least(k: string, keys: set<string>) {
    k in keys && forall other :: other in keys ==> AtMost(k, other)
  }

  lemma {:induction false} LeastExists(keys: set<string>) returns (k: string)
    requires keys != {}
    ensures Least(k, keys)
    decreases |keys|
  {
    k :| k in keys;
    AtMostTotal(k, k);
    if keys != {k} {
      var rest := LeastExists(keys - {k});
      AtMostTotal(k, rest);
      if AtMost(rest, k) {
        k := rest;
      } else {
        forall other | other in keys && other != k ensures AtMost(k, other) { AtMostTransitive(k, rest, other); }
      }
    }
  }

  /** sort.Strings of a set of keys. */
  function SortedKeys(keys: set<string>): (sorted: seq<string>)
    ensures forall k :: k in sorted <==> k in keys
    ensures forall i, j :: 0 <= i < j < |sorted| ==> sorted[i] != sorted[j] && AtMost(sorted[i], sorted[j])
    decreases |keys|
  {
    if keys == {} then []
    else
      assert exists k :: Least(k, keys) by { var k := LeastExists(keys); }
      assert forall a, b :: Least(a, keys) && Least(b, keys) ==> a == b by {
        forall a, b | Least(a, keys) && Least(b, keys) ensures a == b { AtMostTotal(a, b); }
      }
      var k :| Least(k, keys);
      [k] + SortedKeys(keys - {k})
  }

  // ---------------------------------------------------------------- the comparison as a function

  predicate NumbersEqual(rational: Rational, left: Json, right: Json) {
    && left.Num? && right.Num?
    && rational(left.text).Some? && rational(right.text).Some?
    && rational(left.text) == rational(right.text)
  }

  /** Values that share neither container type are compared by Go type and printed form. */
  predicate PrintsSame(left: Json, right: Json) {
    match left
    case Null => right.Null?
    case Bool(b) => right.Bool? && right.value == b
    case Num(t) => right.Num? && right.text == t
    case Str(t) => right.Str? && right.text == t
    case Arr(_) => right.Arr?
    case Obj(_) => right.Obj?
  }

  function Compare(rational: Rational, path: string, python: Json, go: Json): seq<Difference>
    decreases python, 1, 0
  {
    if NumbersEqual(rational, python, go) then []
    else if python.Obj? && go.Obj? then
      CompareFields(rational, path, python, go, SortedKeys(python.fields.Keys + go.fields.Keys))
    else if python.Arr? && go.Arr? then
      (if |python.items| != |go.items| then
         [Difference(path, Length(|python.items|), Length(|go.items|), DifferentLength)]
       else [])
      + CompareItems(rational, path, python, go, 0)
    else if PrintsSame(python, go) then []
    else [Difference(PointerRoot(path), Value(python), Value(go), DifferentValue)]
  }

  function Field(value: Json, key: string): Json
    requires value.Obj?
  {
    if key in value.fields then value.fields[key] else Null
  }

  /** What the object loop reports for one key. */
  function CompareField(rational: Rational, path: string, python: Json, go: Json, key: string): seq<Difference>
    requires python.Obj? && go.Obj?
    decreases python, 0, 0
  {
    if key !in python.fields || key !in go.fields then
      [Difference(path + "/" + EscapePointer(key), Value(Field(python, key)), Value(Field(go, key)), MissingField)]
    else Compare(rational, path + "/" + EscapePointer(key), python.fields[key], go.fields[key])
  }

  function CompareFields(rational: Rational, path: string, python: Json, go: Json, keys: seq<string>): seq<Difference>
    requires python.Obj? && go.Obj?
    decreases python, 0, |keys| + 1
  {
    if keys == [] then []
    else
      CompareField(rational, path, python, go, keys[0]) + CompareFields(rational, path, python, go, keys[1..])
  }

  function CompareItems(rational: Rational, path: string, python: Json, go: Json, i: nat): seq<Difference>
    requires python.Arr? && go.Arr?
    decreases python, 0, |python.items| - i
  {
    if i >= |python.items| || i >= |go.items| then []
    else
      Compare(rational, path + "/" + Decimal(i), python.items[i], go.items[i])
      + CompareItems(rational, path, python, go, i + 1)
  }

  lemma CompareCases(rational: Rational, path: string, python: Json, go: Json)
    ensures NumbersEqual(rational, python, go) ==> Compare(rational, path, python, go) == []
    ensures !NumbersEqual(rational, python, go) && python.Obj? && go.Obj? ==>
      Compare(rational, path, python, go)
      == CompareFields(rational, path, python, go, SortedKeys(python.fields.Keys + go.fields.Keys))
    ensures !NumbersEqual(rational, python, go) && python.Arr? && go.Arr? ==>
      Compare(rational, path, python, go)
      == (if |python.items| != |go.items| then
            [Difference(path, Length(|python.items|), Length(|go.items|), DifferentLength)]
          else []) + CompareItems(rational, path, python, go, 0)
    ensures !NumbersEqual(rational, python, go) && !(python.Obj? && go.Obj?) && !(python.Arr? && go.Arr?) ==>
      Compare(rational, path, python, go)
      == if PrintsSame(python, go) then [] else [Difference(PointerRoot(path), Value(python), Value(go), DifferentValue)]
    ensures python.Null? && go.Null? ==> PrintsSame(python, go)
  {
    hide NumbersEqual, SortedKeys, CompareFields, CompareItems, PointerRoot;
  }

  lemma FieldStep(rational: Rational, path: string, python: Json, go: Json, keys: seq<string>, i: nat,
                  reported: seq<Difference>)
    requires python.Obj? && go.Obj? && i <= |keys|
    ensures i == |keys| ==> reported + CompareFields(rational, path, python, go, keys[i..]) == reported
    ensures i < |keys| ==>
      reported + CompareFields(rational, path, python, go, keys[i..])
      == reported + CompareField(rational, path, python, go, keys[i])
         + CompareFields(rational, path, python, go, keys[i + 1..])
  {
    hide CompareField, Compare;
    if i < |keys| { assert keys[i..][1..] == keys[i + 1..]; }
  }

  lemma ItemStep(rational: Rational, path: string, python: Json, go: Json, i: nat, reported: seq<Difference>)
    requires python.Arr? && go.Arr?
    ensures i >= |python.items| || i >= |go.items| ==> CompareItems(rational, path, python, go, i) == []
    ensures i < |python.items| && i < |go.items| ==>
      reported + CompareItems(rational, path, python, go, i)
      == reported + Compare(rational, path + "/" + Decimal(i), python.items[i], go.items[i])
         + CompareItems(rational, path, python, go, i + 1)
  {
    hide Compare;
  }

  // ---------------------------------------------------------------- the comparison as the source runs it

  /** The slice the recursion appends to. */
  class Report {
    var differences: seq<Difference>

    constructor ()
      ensures differences == []
    {
      differences := [];
    }

    method CompareValues(rational: Rational, path: string, python: Json, go: Json)
      modifies this
      ensures differences == old(differences) + Compare(rational, path, python, go)
      decreases python
    {
      hide Compare, CompareFields, CompareItems, SortedKeys, EscapePointer, Decimal, NumbersEqual, PrintsSame;
      CompareCases(rational, path, python, go);
      if NumbersEqual(rational, python, go) { return; }
      if python.Obj? && go.Obj? {
        var keys := SortedKeys(python.fields.Keys + go.fields.Keys);
        assert keys[0..] == keys;
        for i := 0 to |keys|
          invariant differences + CompareFields(rational, path, python, go, keys[i..])
                 == old(differences) + CompareFields(rational, path, python, go, keys)
        {
          var key := keys[i];
          FieldStep(rational, path, python, go, keys, i, differences);
          var itemPath := path + "/" + EscapePointer(key);
          if key !in python.fields || key !in go.fields {
            differences := differences
              + [Difference(itemPath, Value(Field(python, key)), Value(Field(go, key)), MissingField)];
            continue;
          }
          CompareValues(rational, itemPath, python.fields[key], go.fields[key]);
        }
        FieldStep(rational, path, python, go, keys, |keys|, differences);
        return;
      }
      if python.Arr? && go.Arr? {
        if |python.items| != |go.items| {
          differences := differences + [Difference(path, Length(|python.items|), Length(|go.items|), DifferentLength)];
        }
        ghost var counted := differences;
        assert old(differences) + Compare(rational, path, python, go)
            == counted + CompareItems(rational, path, python, go, 0);
        var limit := if |python.items| < |go.items| then |python.items| else |go.items|;
        for i := 0 to limit
          invariant differences + CompareItems(rational, path, python, go, i)
                 == counted + CompareItems(rational, path, python, go, 0)
        {
          ItemStep(rational, path, python, go, i, differences);
          CompareValues(rational, path + "/" + Decimal(i), python.items[i], go.items[i]);
        }
        ItemStep(rational, path, python, go, limit, differences);
        assert differences + [] == differences;
        return;
      }
      if python.Null? && go.Null? { return; }
      if !PrintsSame(python, go) {
        differences := differences + [Difference(PointerRoot(path), Value(python), Value(go), DifferentValue)];
      }
    }
  }
}
