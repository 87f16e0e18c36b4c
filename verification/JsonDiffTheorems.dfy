/** What the differ reports, stated through pointer resolution instead of through its recursion. */
module JsonDiffTheorems {
  import opened Numbers
  import opened Wrappers
  import opened JsonDiff
  import opened JsonPointer

  // ---------------------------------------------------------------- the reference definition

  /** What is wrong at one place of two documents. */
  datatype Clash = Clash(python: Side, go: Side, reason: Reason)

  predicate BothObjects(python: Option<Json>, go: Option<Json>) {
    python.Some? && go.Some? && python.value.Obj? && go.value.Obj?
  }

  predicate BothArrays(python: Option<Json>, go: Option<Json>) {
    python.Some? && go.Some? && python.value.Arr? && go.value.Arr?
  }

  predicate SameContainer(python: Json, go: Json, tokens: seq<string>) {
    || BothObjects(Resolve(python, tokens), Resolve(go, tokens))
    || BothArrays(Resolve(python, tokens), Resolve(go, tokens))
  }

  /** Everything on the way down to a place is the same kind of container on both sides. */
  predicate Aligned(python: Json, go: Json, tokens: seq<string>) {
    forall n :: 0 <= n < |tokens| ==> SameContainer(python, go, tokens[..n])
  }

  predicate LeafEqual(rational: Rational, python: Json, go: Json) {
    NumbersEqual(rational, python, go) || PrintsSame(python, go)
  }

  /** The clash two documents have at one place, by looking at that place only. */
  function ClashAt(rational: Rational, python: Json, go: Json, tokens: seq<string>): Option<Clash> {
    if Aligned(python, go, tokens) then
      ClashHere(rational, Resolve(python, tokens), Resolve(go, tokens),
                tokens != [] && MemberOfObjects(python, go, tokens))
    else None
  }

  function ClashHere(rational: Rational, python: Option<Json>, go: Option<Json>, member: bool): Option<Clash> {
    match (python, go)
    case (Some(p), Some(g)) =>
      if p.Obj? && g.Obj? then None
      else if p.Arr? && g.Arr? then
        if |p.items| == |g.items| then None else Some(Clash(Length(|p.items|), Length(|g.items|), DifferentLength))
      else if LeafEqual(rational, p, g) then None
      else Some(Clash(Value(p), Value(g), DifferentValue))
    case (Some(p), None) => if member then Some(Clash(Value(p), Value(Null), MissingField)) else None
    case (None, Some(g)) => if member then Some(Clash(Value(Null), Value(g), MissingField)) else None
    case (None, None) => None
  }

  /** The place is a member of an object on both sides. */
  predicate MemberOfObjects(python: Json, go: Json, tokens: seq<string>)
    requires tokens != []
  {
    BothObjects(Resolve(python, tokens[..|tokens| - 1]), Resolve(go, tokens[..|tokens| - 1]))
  }

  function Describe(tokens: seq<string>, clash: Clash): Difference {
    Difference(if clash.reason.DifferentValue? && tokens == [] then "/" else Render(tokens),
               clash.python, clash.go, clash.reason)
  }

  /** Structural equality, with numbers compared as rationals. */
  predicate Same(rational: Rational, a: Json, b: Json) {
    match (a, b)
    case (Null, Null) => true
    case (Bool(x), Bool(y)) => x == y
    case (Str(x), Str(y)) => x == y
    case (Num(x), Num(y)) => x == y || (rational(x).Some? && rational(x) == rational(y))
    case (Arr(xs), Arr(ys)) => |xs| == |ys| && forall i :: 0 <= i < |xs| ==> Same(rational, xs[i], ys[i])
    case (Obj(xs), Obj(ys)) => xs.Keys == ys.Keys && forall k :: k in xs.Keys ==> Same(rational, xs[k], ys[k])
    case _ => false
  }

  // ---------------------------------------------------------------- no difference

  lemma {:induction false} NoDifference(rational: Rational, path: string, a: Json, b: Json)
    ensures Compare(rational, path, a, b) == [] <==> Same(rational, a, b)
    decreases a, 1, 0
  {
    hide SortedKeys, EscapePointer, Decimal, CompareFields, CompareItems;
    if a.Obj? && b.Obj? {
      var keys := SortedKeys(a.fields.Keys + b.fields.Keys);
      NoFieldDifference(rational, path, a, b, keys);
      assert Same(rational, a, b) <==> forall k :: k in keys ==> FieldsSame(rational, a, b, k) by {
        assert forall k :: k in keys ==> (FieldsSame(rational, a, b, k) ==> k in a.fields.Keys && k in b.fields.Keys);
      }
    } else if a.Arr? && b.Arr? {
      NoItemDifference(rational, path, a, b, 0);
    }
  }

  predicate FieldsSame(rational: Rational, a: Json, b: Json, key: string)
    requires a.Obj? && b.Obj?
  {
    key in a.fields && key in b.fields && Same(rational, a.fields[key], b.fields[key])
  }

  lemma {:induction false} NoFieldDifference(rational: Rational, path: string, a: Json, b: Json, keys: seq<string>)
    requires a.Obj? && b.Obj?
    ensures CompareFields(rational, path, a, b, keys) == [] <==> forall k :: k in keys ==> FieldsSame(rational, a, b, k)
    decreases a, 0, |keys|
  {
    hide Compare, EscapePointer;
    if keys != [] {
      var key := keys[0];
      if key in a.fields && key in b.fields {
        NoDifference(rational, path + "/" + EscapePointer(key), a.fields[key], b.fields[key]);
      }
      NoFieldDifference(rational, path, a, b, keys[1..]);
      assert keys == [key] + keys[1..];
      assert CompareField(rational, path, a, b, key) == [] <==> FieldsSame(rational, a, b, key);
    }
  }

  lemma {:induction false} NoItemDifference(rational: Rational, path: string, a: Json, b: Json, i: nat)
    requires a.Arr? && b.Arr?
    ensures CompareItems(rational, path, a, b, i) == []
       <==> forall j :: i <= j < |a.items| && j < |b.items| ==> Same(rational, a.items[j], b.items[j])
    decreases a, 0, |a.items| - i
  {
    hide Compare, Decimal;
    if i < |a.items| && i < |b.items| {
      NoDifference(rational, path + "/" + Decimal(i), a.items[i], b.items[i]);
      NoItemDifference(rational, path, a, b, i + 1);
    }
  }

  // ---------------------------------------------------------------- places below a member or an element

  /** Both documents continue, past `token`, as these two. */
  predicate StepsTo(a: Json, b: Json, token: string, c: Json, d: Json) {
    && ((a.Obj? && b.Obj?) || (a.Arr? && b.Arr?))
    && Resolve(a, [token]) == Some(c) && Resolve(b, [token]) == Some(d)
  }

  lemma ResolveBelow(a: Json, token: string, c: Json, rest: seq<string>)
    requires Resolve(a, [token]) == Some(c)
    ensures Resolve(a, [token] + rest) == Resolve(c, rest)
  {
    hide ParseIndex;
    assert ([token] + rest)[1..] == rest;
  }

  lemma SameContainerBelow(a: Json, b: Json, token: string, c: Json, d: Json, rest: seq<string>)
    requires StepsTo(a, b, token, c, d)
    ensures SameContainer(a, b, [token] + rest) == SameContainer(c, d, rest)
  {
    hide Resolve;
    ResolveBelow(a, token, c, rest);
    ResolveBelow(b, token, d, rest);
  }

  lemma AlignedBelow(a: Json, b: Json, token: string, c: Json, d: Json, rest: seq<string>)
    requires StepsTo(a, b, token, c, d)
    ensures Aligned(a, b, [token] + rest) == Aligned(c, d, rest)
  {
    var tokens := [token] + rest;
    assert SameContainer(a, b, tokens[..0]);
    hide SameContainer, Resolve;
    forall n | 0 <= n < |rest| ensures SameContainer(a, b, tokens[..n + 1]) == SameContainer(c, d, rest[..n]) {
      assert tokens[..n + 1] == [token] + rest[..n];
      SameContainerBelow(a, b, token, c, d, rest[..n]);
    }
    if Aligned(a, b, tokens) {
      forall n | 0 <= n < |rest| ensures SameContainer(c, d, rest[..n]) { assert SameContainer(a, b, tokens[..n + 1]); }
    }
    if Aligned(c, d, rest) {
      forall n | 0 <= n < |tokens| ensures SameContainer(a, b, tokens[..n]) {
        if n > 0 { assert SameContainer(c, d, rest[..n - 1]); }
      }
    }
  }

  lemma ClashBelow(rational: Rational, a: Json, b: Json, token: string, c: Json, d: Json, rest: seq<string>)
    requires StepsTo(a, b, token, c, d)
    ensures ClashAt(rational, a, b, [token] + rest) == ClashAt(rational, c, d, rest)
  {
    var tokens := [token] + rest;
    assert rest == [] ==> Resolve(c, rest) == Some(c) && Resolve(d, rest) == Some(d);
    hide LeafEqual, Aligned, Resolve;
    AlignedBelow(a, b, token, c, d, rest);
    ResolveBelow(a, token, c, rest);
    ResolveBelow(b, token, d, rest);
    if rest != [] {
      assert tokens[..|tokens| - 1] == [token] + rest[..|rest| - 1];
      ResolveBelow(a, token, c, rest[..|rest| - 1]);
      ResolveBelow(b, token, d, rest[..|rest| - 1]);
    }
  }

  lemma ResolveOne(a: Json, token: string)
    ensures Resolve(a, [token])
         == match a
            case Obj(fields) => if token in fields then Some(fields[token]) else None
            case Arr(items) =>
              if ParseIndex(token).Some? && ParseIndex(token).value < |items| then Some(items[ParseIndex(token).value])
              else None
            case _ => None
  {
    hide ParseIndex;
    assert forall v :: Resolve(v, []) == Some(v);
    assert [token][0] == token && [token][1..] == [];
  }

  lemma ClashAtMember(rational: Rational, a: Json, b: Json, key: string, rest: seq<string>)
    requires a.Obj? && b.Obj?
    ensures key in a.fields && key in b.fields ==> StepsTo(a, b, key, a.fields[key], b.fields[key])
    ensures !(key in a.fields && key in b.fields) ==>
      ClashAt(rational, a, b, [key] + rest)
      == if rest == [] && (key in a.fields || key in b.fields)
         then Some(Clash(Value(Field(a, key)), Value(Field(b, key)), MissingField)) else None
  {
    hide LeafEqual;
    var tokens := [key] + rest;
    ResolveOne(a, key);
    ResolveOne(b, key);
    if key !in a.fields || key !in b.fields {
      if rest == [] {
        assert tokens == [key] && tokens[..0] == [];
        assert SameContainer(a, b, []);
        assert Aligned(a, b, tokens);
      } else {
        assert tokens[..1] == [key];
        assert !SameContainer(a, b, tokens[..1]);
      }
    }
  }

  lemma ClashAtElement(rational: Rational, a: Json, b: Json, token: string, rest: seq<string>)
    requires a.Arr? && b.Arr?
    ensures forall i: nat :: token == Decimal(i) && i < |a.items| && i < |b.items| ==>
      StepsTo(a, b, token, a.items[i], b.items[i])
    ensures (forall i: nat :: i < |a.items| && i < |b.items| ==> token != Decimal(i)) ==>
      ClashAt(rational, a, b, [token] + rest) == None
  {
    hide LeafEqual, Decimal, ParseIndex;
    var tokens := [token] + rest;
    ResolveOne(a, token);
    ResolveOne(b, token);
    forall i: nat ensures ParseIndex(token) == Some(i) <==> token == Decimal(i) { IndexTokens(token, i); }
    if forall i: nat :: i < |a.items| && i < |b.items| ==> token != Decimal(i) {
      assert Resolve(a, [token]).None? || Resolve(b, [token]).None?;
      if rest == [] {
        assert tokens == [token] && tokens[..0] == [];
        assert !MemberOfObjects(a, b, tokens);
      } else {
        assert tokens[..1] == [token];
        assert !SameContainer(a, b, tokens[..1]);
      }
    }
  }

  // ---------------------------------------------------------------- every reported difference is a clash

  /** `difference` describes the clash at `rest` below `prefix`. */
  predicate Describes(rational: Rational, prefix: seq<string>, a: Json, b: Json, rest: seq<string>, d: Difference) {
    ClashAt(rational, a, b, rest).Some? && d == Describe(prefix + rest, ClashAt(rational, a, b, rest).value)
  }

  lemma RootPath(tokens: seq<string>)
    ensures PointerRoot(Render(tokens)) == if tokens == [] then "/" else Render(tokens)
  {
    hide EscapePointer;
  }

  lemma {:induction false} Locate(rational: Rational, prefix: seq<string>, a: Json, b: Json, d: Difference)
    returns (rest: seq<string>)
    requires d in Compare(rational, Render(prefix), a, b)
    ensures Describes(rational, prefix, a, b, rest, d)
    ensures !(a.Obj? && b.Obj?) && !(a.Arr? && b.Arr?) ==> rest == []
    decreases a, 1, 0
  {
    hide SortedKeys, Render, CompareFields, CompareItems, Decimal, ParseIndex;
    rest := [];
    assert prefix + [] == prefix;
    RootPath(prefix);
    if a.Obj? && b.Obj? {
      var keys := SortedKeys(a.fields.Keys + b.fields.Keys);
      rest := LocateField(rational, prefix, a, b, keys, d);
    } else if a.Arr? && b.Arr? && d in CompareItems(rational, Render(prefix), a, b, 0) {
      var i;
      i, rest := LocateItem(rational, prefix, a, b, 0, d);
    }
  }

  lemma {:induction false} LocateField(
      rational: Rational, prefix: seq<string>, a: Json, b: Json, keys: seq<string>, d: Difference)
    returns (rest: seq<string>)
    requires a.Obj? && b.Obj?
    requires forall k :: k in keys ==> k in a.fields.Keys + b.fields.Keys
    requires d in CompareFields(rational, Render(prefix), a, b, keys)
    ensures Describes(rational, prefix, a, b, rest, d) && rest != [] && rest[0] in keys
    decreases a, 0, |keys|
  {
    hide Render, Compare, ClashAt, CompareField;
    if d in CompareField(rational, Render(prefix), a, b, keys[0]) {
      var deeper := LocateInField(rational, prefix, a, b, keys[0], d);
      rest := [keys[0]] + deeper;
    } else {
      rest := LocateField(rational, prefix, a, b, keys[1..], d);
    }
  }

  lemma {:induction false} LocateInField(
      rational: Rational, prefix: seq<string>, a: Json, b: Json, key: string, d: Difference)
    returns (rest: seq<string>)
    requires a.Obj? && b.Obj? && key in a.fields.Keys + b.fields.Keys
    requires d in CompareField(rational, Render(prefix), a, b, key)
    ensures Describes(rational, prefix, a, b, [key] + rest, d)
    decreases a, 0, 0
  {
    hide Render, Compare, ClashAt, EscapePointer;
    rest := [];
    RenderMore(prefix, key);
    ClashAtMember(rational, a, b, key, rest);
    if key in a.fields && key in b.fields {
      rest := Locate(rational, prefix + [key], a.fields[key], b.fields[key], d);
      ClashBelow(rational, a, b, key, a.fields[key], b.fields[key], rest);
    }
    assert prefix + ([key] + rest) == prefix + [key] + rest;
    if rest == [] { assert prefix + [key] + rest == prefix + [key]; }
  }

  lemma {:induction false} LocateItem(
      rational: Rational, prefix: seq<string>, a: Json, b: Json, from: nat, d: Difference)
    returns (i: nat, rest: seq<string>)
    requires a.Arr? && b.Arr?
    requires d in CompareItems(rational, Render(prefix), a, b, from)
    ensures Describes(rational, prefix, a, b, rest, d)
    ensures from <= i < |a.items| && i < |b.items| && rest != [] && rest[0] == Decimal(i)
    decreases a, 0, |a.items| - from
  {
    hide Render, Compare, ClashAt, Decimal;
    i := from;
    if d in Compare(rational, Render(prefix) + "/" + Decimal(i), a.items[i], b.items[i]) {
      var deeper := LocateInItem(rational, prefix, a, b, i, d);
      rest := [Decimal(i)] + deeper;
    } else {
      i, rest := LocateItem(rational, prefix, a, b, from + 1, d);
    }
  }

  lemma {:induction false} LocateInItem(
      rational: Rational, prefix: seq<string>, a: Json, b: Json, i: nat, d: Difference)
    returns (rest: seq<string>)
    requires a.Arr? && b.Arr? && i < |a.items| && i < |b.items|
    requires d in Compare(rational, Render(prefix) + "/" + Decimal(i), a.items[i], b.items[i])
    ensures Describes(rational, prefix, a, b, [Decimal(i)] + rest, d)
    decreases a, 0, 0
  {
    hide Render, Compare, ClashAt, EscapePointer, Decimal;
    RenderMore(prefix, Decimal(i));
    DecimalDigits(i);
    IndexStays(i);
    rest := Locate(rational, prefix + [Decimal(i)], a.items[i], b.items[i], d);
    ClashAtElement(rational, a, b, Decimal(i), rest);
    ClashBelow(rational, a, b, Decimal(i), a.items[i], b.items[i], rest);
    assert prefix + ([Decimal(i)] + rest) == prefix + [Decimal(i)] + rest;
  }

  // ---------------------------------------------------------------- every clash is reported

  lemma {:induction false} Reports(rational: Rational, prefix: seq<string>, a: Json, b: Json, rest: seq<string>, d: Difference)
    requires Describes(rational, prefix, a, b, rest, d)
    ensures d in Compare(rational, Render(prefix), a, b)
    decreases rest
  {
    hide SortedKeys, Render, CompareFields, CompareItems, Decimal, ParseIndex, EscapePointer;
    if rest == [] {
      assert prefix + [] == prefix;
      RootPath(prefix);
    } else if a.Obj? && b.Obj? {
      ReportsInField(rational, prefix, a, b, rest, d);
      FieldReported(rational, Render(prefix), a, b, SortedKeys(a.fields.Keys + b.fields.Keys), rest[0]);
    } else if a.Arr? && b.Arr? {
      var i := ReportsInItem(rational, prefix, a, b, rest, d);
      ItemReported(rational, Render(prefix), a, b, 0, i);
    } else {
      NothingBelowLeaves(rational, a, b, rest);
    }
  }

  lemma NothingBelowLeaves(rational: Rational, a: Json, b: Json, rest: seq<string>)
    requires rest != [] && !(a.Obj? && b.Obj?) && !(a.Arr? && b.Arr?)
    ensures ClashAt(rational, a, b, rest) == None
  {
    assert !SameContainer(a, b, rest[..0]);
  }

  lemma {:induction false} ReportsInField(
      rational: Rational, prefix: seq<string>, a: Json, b: Json, rest: seq<string>, d: Difference)
    requires a.Obj? && b.Obj? && rest != []
    requires Describes(rational, prefix, a, b, rest, d)
    ensures rest[0] in a.fields.Keys + b.fields.Keys
    ensures d in CompareField(rational, Render(prefix), a, b, rest[0])
    decreases rest, 0
  {
    hide Render, Compare, ClashAt, EscapePointer;
    var key, deeper := rest[0], rest[1..];
    assert rest == [key] + deeper;
    assert prefix + rest == prefix + [key] + deeper;
    RenderMore(prefix, key);
    ClashAtMember(rational, a, b, key, deeper);
    if key in a.fields && key in b.fields {
      ClashBelow(rational, a, b, key, a.fields[key], b.fields[key], deeper);
      Reports(rational, prefix + [key], a.fields[key], b.fields[key], deeper, d);
    } else {
      assert prefix + [key] + [] == prefix + [key];
    }
  }

  lemma {:induction false} ReportsInItem(
      rational: Rational, prefix: seq<string>, a: Json, b: Json, rest: seq<string>, d: Difference)
    returns (i: nat)
    requires a.Arr? && b.Arr? && rest != []
    requires Describes(rational, prefix, a, b, rest, d)
    ensures i < |a.items| && i < |b.items|
    ensures d in Compare(rational, Render(prefix) + "/" + Decimal(i), a.items[i], b.items[i])
    decreases rest, 0
  {
    hide Render, Compare, ClashAt, EscapePointer, Decimal;
    var token, deeper := rest[0], rest[1..];
    assert rest == [token] + deeper;
    assert prefix + rest == prefix + [token] + deeper;
    RenderMore(prefix, token);
    ClashAtElement(rational, a, b, token, deeper);
    i :| i < |a.items| && i < |b.items| && token == Decimal(i);
    DecimalDigits(i);
    IndexStays(i);
    ClashBelow(rational, a, b, token, a.items[i], b.items[i], deeper);
    Reports(rational, prefix + [token], a.items[i], b.items[i], deeper, d);
  }

  lemma {:induction false} FieldReported(
      rational: Rational, path: string, a: Json, b: Json, keys: seq<string>, key: string)
    requires a.Obj? && b.Obj? && key in keys
    ensures forall d :: d in CompareField(rational, path, a, b, key) ==> d in CompareFields(rational, path, a, b, keys)
  {
    hide CompareField;
    if key != keys[0] { FieldReported(rational, path, a, b, keys[1..], key); }
  }

  lemma {:induction false} ItemReported(rational: Rational, path: string, a: Json, b: Json, from: nat, i: nat)
    requires a.Arr? && b.Arr? && from <= i < |a.items| && i < |b.items|
    ensures forall d :: d in Compare(rational, path + "/" + Decimal(i), a.items[i], b.items[i]) ==>
      d in CompareItems(rational, path, a, b, from)
    decreases i - from
  {
    hide Compare, Decimal;
    if from < i { ItemReported(rational, path, a, b, from + 1, i); }
  }

  /**
   * The report is exact: it holds a difference if and only if the two documents clash at the place it names, in the
   * way it says.
   */
  lemma ReportIsExact(rational: Rational, python: Json, go: Json, d: Difference)
    ensures d in Compare(rational, "", python, go)
       <==> exists tokens :: Describes(rational, [], python, go, tokens, d)
  {
    hide Compare, Describes;
    assert Render([]) == "";
    if d in Compare(rational, "", python, go) {
      var tokens := Locate(rational, [], python, go, d);
    }
    if tokens :| Describes(rational, [], python, go, tokens, d) {
      Reports(rational, [], python, go, tokens, d);
    }
  }

  // ---------------------------------------------------------------- no place is reported twice

  predicate DistinctPaths(report: seq<Difference>) {
    forall i, j :: 0 <= i < j < |report| ==> report[i].path != report[j].path
  }

  predicate PathsApart(first: seq<Difference>, second: seq<Difference>) {
    forall d, e :: d in first && e in second ==> d.path != e.path
  }

  lemma DistinctConcat(first: seq<Difference>, second: seq<Difference>)
    requires DistinctPaths(first) && DistinctPaths(second) && PathsApart(first, second)
    ensures DistinctPaths(first + second)
  {
    var all := first + second;
    forall i, j | 0 <= i < j < |all| ensures all[i].path != all[j].path {
      if i < |first| <= j { assert all[i] in first && all[j] in second; }
    }
  }

  lemma DescribedPath(prefix: seq<string>, token: string, rest: seq<string>, clash: Clash)
    ensures Describe(prefix + ([token] + rest), clash).path == Render(prefix + ([token] + rest))
  {
    hide Render;
    ParseRenderParts(prefix + ([token] + rest));
  }

  /** Two differences located below different tokens have different paths. */
  lemma PathsDiffer(rational: Rational, prefix: seq<string>, a: Json, b: Json,
                    first: seq<string>, d: Difference, second: seq<string>, e: Difference)
    requires Describes(rational, prefix, a, b, first, d) && Describes(rational, prefix, a, b, second, e)
    requires first != [] && (second == [] || second[0] != first[0])
    requires second == [] ==> e.reason.DifferentLength?
    ensures d.path != e.path
  {
    hide Render, ClashAt;
    DescribedPath(prefix, first[0], first[1..], ClashAt(rational, a, b, first).value);
    assert first == [first[0]] + first[1..];
    RenderInjective(prefix + first, prefix + second);
    ParseRenderParts(prefix + second);
    if second != [] {
      DescribedPath(prefix, second[0], second[1..], ClashAt(rational, a, b, second).value);
      assert second == [second[0]] + second[1..];
      assert (prefix + first)[|prefix|] != (prefix + second)[|prefix|];
    } else {
      assert |prefix + first| != |prefix + second|;
    }
  }

  lemma {:induction false} Distinct(rational: Rational, prefix: seq<string>, a: Json, b: Json)
    ensures DistinctPaths(Compare(rational, Render(prefix), a, b))
    decreases a, 1, 0
  {
    hide SortedKeys, Render, CompareFields, CompareItems, Decimal, ParseIndex;
    if a.Obj? && b.Obj? {
      DistinctFields(rational, prefix, a, b, SortedKeys(a.fields.Keys + b.fields.Keys));
    } else if a.Arr? && b.Arr? {
      DistinctItems(rational, prefix, a, b, 0);
      var lengths, items := Lengths(Render(prefix), a, b), CompareItems(rational, Render(prefix), a, b, 0);
      assert Compare(rational, Render(prefix), a, b) == lengths + items;
      LengthsApart(rational, prefix, a, b);
      DistinctConcat(lengths, items);
    }
  }

  function Lengths(path: string, a: Json, b: Json): seq<Difference>
    requires a.Arr? && b.Arr?
  {
    if |a.items| != |b.items| then [Difference(path, Length(|a.items|), Length(|b.items|), DifferentLength)] else []
  }

  lemma LengthDescribed(rational: Rational, prefix: seq<string>, a: Json, b: Json, d: Difference)
    requires a.Arr? && b.Arr? && d in Lengths(Render(prefix), a, b)
    ensures d.reason == DifferentLength && Describes(rational, prefix, a, b, [], d)
  {
    hide Render, LeafEqual;
    assert prefix + [] == prefix;
  }

  lemma LengthsApart(rational: Rational, prefix: seq<string>, a: Json, b: Json)
    requires a.Arr? && b.Arr?
    ensures PathsApart(Lengths(Render(prefix), a, b), CompareItems(rational, Render(prefix), a, b, 0))
  {
    var lengths, items := Lengths(Render(prefix), a, b), CompareItems(rational, Render(prefix), a, b, 0);
    hide Render, CompareItems, Decimal, Describes, Lengths;
    forall d, e | d in lengths && e in items ensures d.path != e.path {
      var i, rest := LocateItem(rational, prefix, a, b, 0, e);
      LengthDescribed(rational, prefix, a, b, d);
      PathsDiffer(rational, prefix, a, b, rest, e, [], d);
    }
  }

  lemma {:induction false} DistinctFields(
      rational: Rational, prefix: seq<string>, a: Json, b: Json, keys: seq<string>)
    requires a.Obj? && b.Obj?
    requires forall k :: k in keys ==> k in a.fields.Keys + b.fields.Keys
    requires forall i, j :: 0 <= i < j < |keys| ==> keys[i] != keys[j]
    ensures DistinctPaths(CompareFields(rational, Render(prefix), a, b, keys))
    decreases a, 0, |keys|
  {
    hide Render, Compare, ClashAt, EscapePointer;
    if keys != [] {
      var key := keys[0];
      var first, others := CompareField(rational, Render(prefix), a, b, key),
                           CompareFields(rational, Render(prefix), a, b, keys[1..]);
      RenderMore(prefix, key);
      if key in a.fields && key in b.fields { Distinct(rational, prefix + [key], a.fields[key], b.fields[key]); }
      DistinctFields(rational, prefix, a, b, keys[1..]);
      forall d, e | d in first && e in others ensures d.path != e.path {
        var deeper := LocateInField(rational, prefix, a, b, key, d);
        var rest := LocateField(rational, prefix, a, b, keys[1..], e);
        PathsDiffer(rational, prefix, a, b, [key] + deeper, d, rest, e);
      }
      DistinctConcat(first, others);
    }
  }

  lemma {:induction false} DistinctItems(rational: Rational, prefix: seq<string>, a: Json, b: Json, from: nat)
    requires a.Arr? && b.Arr?
    ensures DistinctPaths(CompareItems(rational, Render(prefix), a, b, from))
    decreases a, 0, |a.items| - from
  {
    hide Render, Compare, ClashAt, EscapePointer, Decimal, Describes;
    if from < |a.items| && from < |b.items| {
      var token := Decimal(from);
      DecimalDigits(from);
      IndexStays(from);
      RenderMore(prefix, token);
      var first, others := Compare(rational, Render(prefix) + "/" + token, a.items[from], b.items[from]),
                           CompareItems(rational, Render(prefix), a, b, from + 1);
      Distinct(rational, prefix + [token], a.items[from], b.items[from]);
      DistinctItems(rational, prefix, a, b, from + 1);
      forall d, e | d in first && e in others ensures d.path != e.path {
        var deeper := LocateInItem(rational, prefix, a, b, from, d);
        var i, rest := LocateItem(rational, prefix, a, b, from + 1, e);
        DecimalDigits(i);
        IndexStays(i);
        PathsDiffer(rational, prefix, a, b, [token] + deeper, d, rest, e);
      }
      DistinctConcat(first, others);
    }
  }

  /** No place of a document is reported twice. */
  lemma PathsAreDistinct(rational: Rational, python: Json, go: Json)
    ensures DistinctPaths(Compare(rational, "", python, go))
  {
    hide Compare;
    assert Render([]) == "";
    Distinct(rational, [], python, go);
  }

  // ---------------------------------------------------------------- the paths resolve to what was reported

  /** Following `pointer` in `document` by RFC 6901 finds the reported side. */
  predicate Finds(document: Json, pointer: string, side: Side, reason: Reason) {
    var found := ResolvePointer(document, pointer);
    match reason
    case DifferentValue => side.Value? && found == Some(side.value)
    case DifferentLength => side.Length? && found.Some? && found.value.Arr? && |found.value.items| == side.n
    case MissingField => side.Value? && (found == Some(side.value) || (found == None && side.value == Null))
  }

  /** A document is never one of its own members. */
  lemma {:induction false} NotItsOwnMember(document: Json, key: string)
    requires document.Obj? && key in document.fields
    ensures document.fields[key] != document
    decreases document
  {
    if document.fields[key] == document { NotItsOwnMember(document.fields[key], key); }
  }

  /**
   * Every reported path leads, in both documents, to the reported sides, provided the two documents are containers of
   * the same kind. When they are not, the only difference is the root's, printed as "/", which names the member with
   * the empty name instead.
   */
  lemma PathsResolve(rational: Rational, python: Json, go: Json, d: Difference)
    requires d in Compare(rational, "", python, go)
    ensures Finds(python, d.path, d.python, d.reason) && Finds(go, d.path, d.go, d.reason)
       <==> (python.Obj? && go.Obj?) || (python.Arr? && go.Arr?)
    ensures d.reason.MissingField? ==> ResolvePointer(python, d.path).Some? != ResolvePointer(go, d.path).Some?
  {
    assert Render([]) == "";
    hide Compare, Render, Describes, Finds, ResolvePointer;
    var tokens := Locate(rational, [], python, go, d);
    if (python.Obj? && go.Obj?) || (python.Arr? && go.Arr?) {
      ClashIsFound(rational, python, go, tokens, d);
    } else {
      RootClash(rational, python, go, d);
    }
  }

  lemma RootClash(rational: Rational, python: Json, go: Json, d: Difference)
    requires !(python.Obj? && go.Obj?) && !(python.Arr? && go.Arr?)
    requires Describes(rational, [], python, go, [], d)
    ensures d.reason == DifferentValue && !Finds(python, d.path, d.python, d.reason)
  {
    hide ResolvePointer, LeafEqual;
    assert d.path == "/" && d.python == Value(python);
    RootIsNotFound(python);
  }

  lemma PointerOf(document: Json, tokens: seq<string>)
    ensures ResolvePointer(document, Render(tokens)) == Resolve(document, tokens)
  {
    hide Render, ParsePointer, Resolve;
    ParseRender(tokens);
  }

  lemma ClashIsFound(rational: Rational, python: Json, go: Json, tokens: seq<string>, d: Difference)
    requires (python.Obj? && go.Obj?) || (python.Arr? && go.Arr?)
    requires Describes(rational, [], python, go, tokens, d)
    ensures Finds(python, d.path, d.python, d.reason) && Finds(go, d.path, d.go, d.reason)
    ensures d.reason.MissingField? ==> ResolvePointer(python, d.path).Some? != ResolvePointer(go, d.path).Some?
  {
    hide Render, ResolvePointer, LeafEqual, Aligned, MemberOfObjects;
    assert [] + tokens == tokens;
    PointerOf(python, tokens);
    PointerOf(go, tokens);
    assert d.path == Render(tokens) by {
      ParseRenderParts(tokens);
      if tokens == [] { assert d.reason == DifferentLength; }
    }
  }

  lemma RootIsNotFound(document: Json)
    ensures ResolvePointer(document, "/") != Some(document)
  {
    assert ParseIndex("") == None;
    hide ParsePointer, ParseIndex;
    RenderInjective([""], [""]);
    ParseRender([""]);
    ResolveOne(document, "");
    if document.Obj? && "" in document.fields { NotItsOwnMember(document, ""); }
  }
}
