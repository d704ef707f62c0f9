/** Paged traversal of one materialised object: every page restarts the recursion
    from the flattened index tuple of the last value delivered. */
module Cursor {
  import opened Numbers

  const I32_MAX: int := 0x7FFF_FFFF

  // ----- Array coordinates -----

  function Product(dims: seq<nat>): nat {
    if dims == [] then 1 else Product(dims[..|dims| - 1]) * dims[|dims| - 1]
  }

  predicate NonZero(dims: seq<nat>) {
    forall k :: 0 <= k < |dims| ==> dims[k] > 0
  }

  /** The mixed-radix digits of a flat index, most significant first. */
  function Digits(flat: nat, dims: seq<nat>): seq<int>
    requires NonZero(dims)
    decreases |dims|
  {
    if dims == [] then []
    else
      var d := dims[|dims| - 1];
      Digits(flat / d, dims[..|dims| - 1]) + [flat % d]
  }

  /** The index columns of an array element: its digits, or the flat index when no dimensions are known. */
  function Coordinates(flat: nat, dims: seq<nat>): seq<int>
    requires NonZero(dims)
  {
    if dims == [] then [flat] else Digits(flat, dims)
  }

  /** The flat index that digits stand for. */
  function Flat(digits: seq<int>, dims: seq<nat>): int
    requires |digits| == |dims|
  {
    if dims == [] then 0
    else Flat(digits[..|dims| - 1], dims[..|dims| - 1]) * dims[|dims| - 1] + digits[|dims| - 1]
  }

  predicate InRange(digits: seq<int>, dims: seq<nat>) {
    |digits| == |dims| && forall k :: 0 <= k < |dims| ==> 0 <= digits[k] < dims[k]
  }

  lemma {:induction false} Monotone(a: nat, b: nat, d: nat)
    requires a <= b
    ensures a * d <= b * d
  {
  }

  lemma {:induction false} DivMod(n: nat, d: nat) returns (q: nat, r: nat)
    requires d > 0
    ensures q == n / d && r == n % d && r < d && q * d + r == n
  {
    q, r := n / d, n % d;
  }

  /** One more digit at the end of a tuple that already stands for q. */
  lemma {:induction false} AppendDigit(init: seq<int>, q: nat, r: nat, dims: seq<nat>)
    requires |init| + 1 == |dims| && InRange(init, dims[..|init|]) && r < dims[|init|]
    requires q < Product(dims[..|init|]) ==> Flat(init, dims[..|init|]) == q
    ensures InRange(init + [r], dims)
    ensures q * dims[|init|] + r < Product(dims) ==> Flat(init + [r], dims) == q * dims[|init|] + r
  {
    var n := |init|;
    assert (init + [r])[..n] == init;
    if Product(dims[..n]) <= q {
      Monotone(Product(dims[..n]), q, dims[n]);
    }
  }

  /** Pushing coordinates and recomputing the flat index are inverse, from the index... */
  lemma {:induction false} FlatOfDigits(flat: nat, dims: seq<nat>)
    requires NonZero(dims)
    ensures InRange(Digits(flat, dims), dims)
    ensures flat < Product(dims) ==> Flat(Digits(flat, dims), dims) == flat
    decreases |dims|
  {
    if dims != [] {
      var n := |dims| - 1;
      var q, r := DivMod(flat, dims[n]);
      FlatOfDigits(q, dims[..n]);
      DigitsLength(q, dims[..n]);
      AppendDigit(Digits(q, dims[..n]), q, r, dims);
    }
  }

  lemma {:induction false} DivideBack(q: nat, d: nat, r: nat)
    requires r < d
    ensures (q * d + r) / d == q && (q * d + r) % d == r
  {
    var n := q * d + r;
    var p := n / d;
    assert p * d <= n < p * d + d;
    if p < q {
      Monotone(p + 1, q, d);
      assert false;
    } else if q < p {
      Monotone(q + 1, p, d);
      assert false;
    }
  }

  lemma {:induction false} Embed(q: nat, p: nat, d: nat, r: nat)
    requires q < p && r < d
    ensures 0 <= q * d + r < p * d && (q * d + r) / d == q && (q * d + r) % d == r
  {
    assert (q + 1) * d == q * d + d;
    Monotone(q + 1, p, d);
    DivideBack(q, d, r);
  }

  lemma {:induction false} DigitsAppend(q: nat, r: nat, dims: seq<nat>, n: nat)
    requires NonZero(dims) && |dims| == n + 1 && q < Product(dims[..n]) && r < dims[n]
    ensures 0 <= q * dims[n] + r < Product(dims)
    ensures Digits(q * dims[n] + r, dims) == Digits(q, dims[..n]) + [r]
  {
    Embed(q, Product(dims[..n]), dims[n], r);
  }

  /** ...and from the coordinates. */
  lemma {:induction false} DigitsOfFlat(digits: seq<int>, dims: seq<nat>)
    requires NonZero(dims) && InRange(digits, dims)
    ensures 0 <= Flat(digits, dims) < Product(dims) && Digits(Flat(digits, dims), dims) == digits
    decreases |dims|
  {
    if dims != [] {
      var n := |dims| - 1;
      var q := Flat(digits[..n], dims[..n]);
      DigitsOfFlat(digits[..n], dims[..n]);
      DigitsAppend(q, digits[n], dims, n);
      assert Flat(digits, dims) == q * dims[n] + digits[n];
      assert digits == digits[..n] + [digits[n]];
    }
  }

  // ----- Levels, objects and the unpaged traversal -----

  /** One resolved level of a path. */
  datatype Level = Level(
    isPointer: bool, isFixedArray: bool, arrayLength: nat, dims: seq<nat>,
    isContainer: bool, hasProxy: bool, hasDictionary: bool, innerEmits: bool,
    isPrimitive: bool, isString: bool, hasClass: bool)

  datatype Value = Signed(i: int) | Unsigned(u: nat) | Floating(x: Num) | Text(s: string)

  /** The part of an object that a path can reach. An `Object` shows the field that the next level selects. */
  datatype Node = Null | Leaf(v: Value) | Object(field: Node) | Items(items: seq<Node>)

  datatype Item = Item(indices: seq<int>, value: Value)

  function Rank(level: Level): nat {
    if level.isFixedArray then Max(1, |level.dims|) else if level.isContainer then 1 else 0
  }

  /** The index tuple of element i of an array or container. */
  function ElementIndices(level: Level, prefix: seq<int>, i: nat): seq<int>
    requires level.isFixedArray ==> NonZero(level.dims)
  {
    prefix + if level.isFixedArray then Coordinates(i, level.dims) else [i]
  }

  predicate Loops(level: Level, last: bool) {
    level.isFixedArray || (level.isContainer && level.hasProxy && (last || level.hasDictionary))
  }

  predicate Emits(level: Level) {
    if level.isFixedArray then level.isPrimitive
    else if level.isContainer then level.innerEmits
    else level.isPrimitive || level.isString
  }

  predicate LevelsOk(levels: seq<Level>) {
    forall k :: 0 <= k < |levels| && levels[k].isFixedArray ==> NonZero(levels[k].dims)
  }

  /** Every value below `current`, in traversal order, with its index tuple. */
  function Rows(current: Node, levels: seq<Level>, li: nat, prefix: seq<int>): seq<Item>
    requires LevelsOk(levels)
    decreases |levels| - li, 2, 0
  {
    if !current.Object? || li >= |levels| then []
    else
      var level, field := levels[li], current.field;
      if level.isPointer && field.Null? then []
      else if level.isFixedArray || level.isContainer then
        if Loops(level, li + 1 == |levels|) && field.Items?
        then LoopRows(field.items, levels, li, prefix, 0, |field.items|) else []
      else if li + 1 == |levels| then
        if Emits(level) && field.Leaf? then [Item(prefix, field.v)] else []
      else if level.hasClass then Rows(field, levels, li + 1, prefix)
      else []
  }

  function LoopRows(items: seq<Node>, levels: seq<Level>, li: nat, prefix: seq<int>, from: nat, upTo: nat): seq<Item>
    requires LevelsOk(levels) && li < |levels| && upTo <= |items|
    decreases |levels| - li, 1, upTo
  {
    if from >= upTo then []
    else
      LoopRows(items, levels, li, prefix, from, upTo - 1) +
      ElementRows(items[upTo - 1], levels, li, prefix, upTo - 1)
  }

  function ElementRows(item: Node, levels: seq<Level>, li: nat, prefix: seq<int>, i: nat): seq<Item>
    requires LevelsOk(levels) && li < |levels|
    decreases |levels| - li, 0, 0
  {
    var level := levels[li];
    var indices := ElementIndices(level, prefix, i);
    if item.Null? then []
    else if li + 1 == |levels| then if Emits(level) && item.Leaf? then [Item(indices, item.v)] else []
    else Rows(item, levels, li + 1, indices)
  }

  /** What the data must satisfy for the 32-bit indices: an array has as many elements as its
      dimensions say, and no container is longer than an index can count. */
  predicate Fits(level: Level, items: seq<Node>) {
    if level.isFixedArray then
      |items| == level.arrayLength && level.arrayLength <= U64_MAX &&
      if level.dims == [] then level.arrayLength <= I32_MAX + 1
      else
        level.arrayLength == Product(level.dims) &&
        forall k :: 0 <= k < |level.dims| ==> level.dims[k] <= I32_MAX + 1
    else |items| <= I32_MAX + 1
  }

  predicate WellFormed(current: Node, levels: seq<Level>, li: nat)
    decreases current
  {
    current.Object? && li < |levels| ==>
      var field := current.field;
      match field
      case Items(items) => ItemsFit(items, levels, li)
      case Object(_) => WellFormed(field, levels, li + 1)
      case Null => true
      case Leaf(_) => true
  }

  predicate ItemsFit(items: seq<Node>, levels: seq<Level>, li: nat)
    requires li < |levels|
    decreases items
  {
    Fits(levels[li], items) && forall k :: 0 <= k < |items| ==> WellFormed(items[k], levels, li + 1)
  }

  // ----- Index tuples identify values -----

  /** All tuples extend the prefix by the ranks of the levels that remain. */
  function Depth(levels: seq<Level>, li: nat): nat
    decreases |levels| - li
  {
    if li >= |levels| then 0 else Rank(levels[li]) + Depth(levels, li + 1)
  }

  predicate Extends(rows: seq<Item>, prefix: seq<int>, depth: nat) {
    forall k :: 0 <= k < |rows| ==> prefix <= rows[k].indices && |rows[k].indices| == |prefix| + depth
  }

  lemma {:induction false} DigitsLength(flat: nat, dims: seq<nat>)
    requires NonZero(dims)
    ensures |Digits(flat, dims)| == |dims|
    decreases |dims|
  {
    if dims != [] {
      DigitsLength(flat / dims[|dims| - 1], dims[..|dims| - 1]);
    }
  }

  lemma {:induction false} ElementIndicesLength(level: Level, prefix: seq<int>, i: nat)
    requires (level.isFixedArray ==> NonZero(level.dims)) && (level.isFixedArray || level.isContainer)
    ensures |ElementIndices(level, prefix, i)| == |prefix| + Rank(level)
  {
    if level.isFixedArray {
      DigitsLength(i, level.dims);
    }
  }

  lemma {:induction false} RowsExtend(current: Node, levels: seq<Level>, li: nat, prefix: seq<int>)
    requires LevelsOk(levels)
    ensures Extends(Rows(current, levels, li, prefix), prefix, Depth(levels, li))
    decreases |levels| - li, 2, 0
  {
    if current.Object? && li < |levels| {
      var level, field := levels[li], current.field;
      if level.isFixedArray || level.isContainer {
        if field.Items? {
          LoopExtends(field.items, levels, li, prefix, 0, |field.items|);
        }
      } else if li + 1 < |levels| {
        RowsExtend(field, levels, li + 1, prefix);
      }
    }
  }

  lemma {:induction false} LoopExtends(items: seq<Node>, levels: seq<Level>, li: nat, prefix: seq<int>, from: nat,
                                       upTo: nat)
    requires LevelsOk(levels) && li < |levels| && upTo <= |items| && (levels[li].isFixedArray || levels[li].isContainer)
    ensures Extends(LoopRows(items, levels, li, prefix, from, upTo), prefix, Depth(levels, li))
    decreases |levels| - li, 1, upTo
  {
    if from < upTo {
      LoopExtends(items, levels, li, prefix, from, upTo - 1);
      ElementExtends(items[upTo - 1], levels, li, prefix, upTo - 1);
    }
  }

  lemma {:induction false} ElementExtends(item: Node, levels: seq<Level>, li: nat, prefix: seq<int>, i: nat)
    requires LevelsOk(levels) && li < |levels| && (levels[li].isFixedArray || levels[li].isContainer)
    ensures Extends(ElementRows(item, levels, li, prefix, i), ElementIndices(levels[li], prefix, i),
                    Depth(levels, li + 1))
    ensures Extends(ElementRows(item, levels, li, prefix, i), prefix, Depth(levels, li))
    decreases |levels| - li, 0, 0
  {
    ElementIndicesLength(levels[li], prefix, i);
    if li + 1 < |levels| {
      RowsExtend(item, levels, li + 1, ElementIndices(levels[li], prefix, i));
    }
  }

  predicate Has(rows: seq<Item>, indices: seq<int>) {
    exists k :: 0 <= k < |rows| && rows[k].indices == indices
  }

  lemma {:induction false} HasConcat(a: seq<Item>, b: seq<Item>, indices: seq<int>)
    ensures Has(a + b, indices) <==> Has(a, indices) || Has(b, indices)
  {
    if Has(a, indices) {
      var k :| 0 <= k < |a| && a[k].indices == indices;
      assert (a + b)[k] == a[k];
    }
    if Has(b, indices) {
      var k :| 0 <= k < |b| && b[k].indices == indices;
      assert (a + b)[|a| + k] == b[k];
    }
  }

  /** Different elements have different tuples, so only one element of a loop can hold a given one. */
  lemma {:induction false} ElementOwns(level: Level, items: seq<Node>, prefix: seq<int>, i: nat, j: nat,
                                       indices: seq<int>)
    requires (level.isFixedArray ==> NonZero(level.dims)) && (level.isFixedArray || level.isContainer)
    requires Fits(level, items) && i < |items| && j < |items|
    requires ElementIndices(level, prefix, i) <= indices && ElementIndices(level, prefix, j) <= indices
    ensures i == j
  {
    ElementIndicesLength(level, prefix, i);
    ElementIndicesLength(level, prefix, j);
    var a, b := ElementIndices(level, prefix, i), ElementIndices(level, prefix, j);
    assert a == indices[..|a|] == b;
    assert a[|prefix|..] == b[|prefix|..];
    if level.isFixedArray {
      assert Coordinates(i, level.dims) == a[|prefix|..] && Coordinates(j, level.dims) == b[|prefix|..];
      if level.dims != [] {
        FlatOfDigits(i, level.dims);
        FlatOfDigits(j, level.dims);
      }
    } else {
      assert a[|prefix|] == i && b[|prefix|] == j;
    }
  }

  lemma {:induction false} ElementHas(items: seq<Node>, levels: seq<Level>, li: nat, prefix: seq<int>, i: nat,
                                      indices: seq<int>)
    requires LevelsOk(levels) && li < |levels| && (levels[li].isFixedArray || levels[li].isContainer) && i < |items|
    requires Has(ElementRows(items[i], levels, li, prefix, i), indices)
    ensures ElementIndices(levels[li], prefix, i) <= indices
  {
    ElementExtends(items[i], levels, li, prefix, i);
  }

  /** A tuple of a loop belongs to one of its elements. */
  lemma {:induction false} LoopHas(items: seq<Node>, levels: seq<Level>, li: nat, prefix: seq<int>, from: nat,
                                   upTo: nat,
                                   indices: seq<int>) returns (i: nat)
    requires LevelsOk(levels) && li < |levels| && upTo <= |items|
    requires Has(LoopRows(items, levels, li, prefix, from, upTo), indices)
    ensures from <= i < upTo && Has(ElementRows(items[i], levels, li, prefix, i), indices)
  {
    HasConcat(LoopRows(items, levels, li, prefix, from, upTo - 1),
              ElementRows(items[upTo - 1], levels, li, prefix, upTo - 1), indices);
    if Has(ElementRows(items[upTo - 1], levels, li, prefix, upTo - 1), indices) {
      i := upTo - 1;
    } else {
      i := LoopHas(items, levels, li, prefix, from, upTo - 1, indices);
    }
  }

  predicate Unique(rows: seq<Item>) {
    forall j, k :: 0 <= j < k < |rows| ==> rows[j].indices != rows[k].indices
  }

  lemma {:induction false} UniqueConcat(a: seq<Item>, b: seq<Item>)
    requires Unique(a) && Unique(b) && forall k :: 0 <= k < |b| ==> !Has(a, b[k].indices)
    ensures Unique(a + b)
  {
    forall j, k | 0 <= j < k < |a + b| ensures (a + b)[j].indices != (a + b)[k].indices {
      if j < |a| <= k {
        assert !Has(a, b[k - |a|].indices);
      }
    }
  }

  /** No two values of an entry share an index tuple. */
  lemma {:induction false} RowsUnique(current: Node, levels: seq<Level>, li: nat, prefix: seq<int>)
    requires LevelsOk(levels) && WellFormed(current, levels, li)
    ensures Unique(Rows(current, levels, li, prefix))
    decreases |levels| - li, 2, 0
  {
    if current.Object? && li < |levels| {
      var level, field := levels[li], current.field;
      if level.isFixedArray || level.isContainer {
        if field.Items? {
          LoopUnique(field.items, levels, li, prefix, |field.items|);
        }
      } else if li + 1 < |levels| {
        if field.Object? {
          RowsUnique(field, levels, li + 1, prefix);
        }
      }
    }
  }

  lemma {:induction false} LoopUnique(items: seq<Node>, levels: seq<Level>, li: nat, prefix: seq<int>, upTo: nat)
    requires LevelsOk(levels) && li < |levels| && upTo <= |items| && (levels[li].isFixedArray || levels[li].isContainer)
    requires ItemsFit(items, levels, li)
    ensures Unique(LoopRows(items, levels, li, prefix, 0, upTo))
    decreases |levels| - li, 1, upTo
  {
    if upTo > 0 {
      var i := upTo - 1;
      var before, own := LoopRows(items, levels, li, prefix, 0, i), ElementRows(items[i], levels, li, prefix, i);
      LoopUnique(items, levels, li, prefix, i);
      if li + 1 < |levels| {
        RowsUnique(items[i], levels, li + 1, ElementIndices(levels[li], prefix, i));
      }
      forall k | 0 <= k < |own| ensures !Has(before, own[k].indices) {
        ElementExtends(items[i], levels, li, prefix, i);
        if Has(before, own[k].indices) {
          var j := LoopHas(items, levels, li, prefix, 0, i, own[k].indices);
          ElementHas(items, levels, li, prefix, j, own[k].indices);
          ElementOwns(levels[li], items, prefix, i, j, own[k].indices);
        }
      }
      UniqueConcat(before, own);
    }
  }

  // ----- What a page holds -----

  /** The rows behind the first one with a given tuple. */
  function After(rows: seq<Item>, indices: seq<int>): seq<Item> {
    if rows == [] then []
    else if rows[0].indices == indices then rows[1..]
    else After(rows[1..], indices)
  }

  predicate AtLimit(limit: Option<nat>, n: nat) {
    limit.Some? && n >= limit.value
  }

  /** What a page holds once `rows` went by: a resumed page passes over everything up to the previous tuple. */
  function Page(limit: Option<nat>, resumed: bool, previous: seq<int>, rows: seq<Item>): seq<Item> {
    var todo := if resumed then After(rows, previous) else rows;
    if AtLimit(limit, |todo|) then todo[..limit.value] else todo
  }

  lemma {:induction false} AfterConcat(a: seq<Item>, b: seq<Item>, indices: seq<int>)
    ensures Has(a, indices) ==> After(a + b, indices) == After(a, indices) + b
    ensures !Has(a, indices) ==> After(a + b, indices) == After(b, indices)
  {
    if a == [] {
      assert a + b == b;
    } else {
      assert (a + b)[1..] == a[1..] + b;
      assert a == [a[0]] + a[1..];
      HasConcat([a[0]], a[1..], indices);
      if a[0].indices != indices {
        assert !Has([a[0]], indices);
        AfterConcat(a[1..], b, indices);
      } else {
        assert Has(a, indices);
      }
    }
  }

  /** Before the previous tuple turns up the page stays empty; it is empty right after it, too. */
  lemma {:induction false} PagePassesOver(limit: Option<nat>, previous: seq<int>, rows: seq<Item>, more: seq<Item>)
    requires !Has(rows, previous)
    ensures !Has(more, previous) ==> Page(limit, true, previous, rows + more) == []
    ensures |more| == 1 ==> Page(limit, true, previous, rows + more) == []
  {
    AfterConcat(rows, more, previous);
    AfterNone(more, previous);
  }

  lemma {:induction false} AfterNone(rows: seq<Item>, indices: seq<int>)
    ensures !Has(rows, indices) || |rows| == 1 ==> After(rows, indices) == []
  {
    if rows != [] {
      assert rows == [rows[0]] + rows[1..];
      HasConcat([rows[0]], rows[1..], indices);
      if rows[0].indices == indices {
        assert Has([rows[0]], indices) by { assert [rows[0]][0] == rows[0]; }
      } else {
        AfterNone(rows[1..], indices);
        assert |rows| == 1 ==> After(rows[1..], indices) == [];
      }
    }
  }

  /** From then on rows are appended until the page is full, and a full page ignores the rest. */
  lemma {:induction false} PageAppends(limit: Option<nat>, resumed: bool, previous: seq<int>, rows: seq<Item>,
                                       more: seq<Item>)
    requires resumed ==> Has(rows, previous)
    ensures var page := Page(limit, resumed, previous, rows);
      (AtLimit(limit, |page|) ==> Page(limit, resumed, previous, rows + more) == page) &&
      (!AtLimit(limit, |page|) && |more| == 1 ==> Page(limit, resumed, previous, rows + more) == page + more)
  {
    if resumed {
      AfterConcat(rows, more, previous);
    }
  }

  lemma {:induction false} LoopSplit(items: seq<Node>, levels: seq<Level>, li: nat, prefix: seq<int>, from: nat,
                                     mid: nat, upTo: nat)
    requires LevelsOk(levels) && li < |levels| && from <= mid <= upTo <= |items|
    ensures LoopRows(items, levels, li, prefix, from, upTo) ==
      LoopRows(items, levels, li, prefix, from, mid) + LoopRows(items, levels, li, prefix, mid, upTo)
    decreases upTo
  {
    if mid < upTo {
      LoopSplit(items, levels, li, prefix, from, mid, upTo - 1);
    }
  }

  /** Recomputes a flat index from stored coordinates, with the overflow check of each step. */
  method FlatIndex(coordinates: seq<int>, dims: seq<nat>) returns (ok: bool, index: nat)
    requires |coordinates| == |dims|
    ensures ok ==> InRange(coordinates, dims) && index == Flat(coordinates, dims)
    ensures InRange(coordinates, dims) && Flat(coordinates, dims) <= U64_MAX ==> ok
  {
    index := 0;
    for dim := 0 to |dims|
      invariant index == Flat(coordinates[..dim], dims[..dim])
      invariant forall k :: 0 <= k < dim ==> 0 <= coordinates[k] < dims[k]
    {
      var coordinate, dimension := coordinates[dim], dims[dim];
      FlatStep(coordinates, dims, dim);
      if InRange(coordinates, dims) && Flat(coordinates, dims) <= U64_MAX {
        FlatPrefix(coordinates, dims, dim + 1);
        QuotientRoom(index, dimension, coordinate, U64_MAX);
      }
      if coordinate < 0 || dimension == 0 || coordinate >= dimension || index > (U64_MAX - coordinate) / dimension {
        return false, 0;
      }
      index := index * dimension + coordinate;
    }
    assert coordinates[..|dims|] == coordinates && dims[..|dims|] == dims;
    ok := true;
  }

  lemma {:induction false} FlatStep(digits: seq<int>, dims: seq<nat>, k: nat)
    requires |digits| == |dims| && k < |dims|
    ensures Flat(digits[..k + 1], dims[..k + 1]) == Flat(digits[..k], dims[..k]) * dims[k] + digits[k]
  {
    assert digits[..k + 1][..k] == digits[..k] && dims[..k + 1][..k] == dims[..k];
  }

  lemma {:induction false} SingleDigit(flat: nat, dims: seq<nat>)
    requires NonZero(dims) && |dims| == 1 && flat < Product(dims)
    ensures Digits(flat, dims) == [flat]
  {
    FlatOfDigits(flat, dims);
    var digits := Digits(flat, dims);
    assert Flat(digits[..0], dims[..0]) == 0;
    assert digits == [digits[0]];
  }

  predicate DigitsFit(dims: seq<nat>, i: nat) {
    NonZero(dims) && if dims == [] then i <= I32_MAX else forall k :: 0 <= k < |dims| ==> dims[k] <= I32_MAX + 1
  }

  predicate CoordinatesFit(level: Level, i: nat) {
    if level.isFixedArray then DigitsFit(level.dims, i) else i <= I32_MAX
  }

  lemma {:induction false} ElementFits(level: Level, items: seq<Node>, i: nat)
    requires Fits(level, items) && i < |items| && (level.isFixedArray ==> NonZero(level.dims))
    ensures CoordinatesFit(level, i)
  {
  }

  lemma {:induction false} Reassociate(x: seq<Item>, a: seq<Item>, b: seq<Item>, ab: seq<Item>)
    requires ab == a + b
    ensures x + a + b == x + ab
  {
  }

  /** Only the element that holds a tuple has it among its rows. */
  lemma {:induction false} EarlierLack(items: seq<Node>, levels: seq<Level>, li: nat, prefix: seq<int>, holder: nat,
                                       previous: seq<int>)
    requires LevelsOk(levels) && li < |levels| && (levels[li].isFixedArray || levels[li].isContainer)
    requires Fits(levels[li], items) && holder < |items|
    requires ElementIndices(levels[li], prefix, holder) <= previous
    ensures !Has(LoopRows(items, levels, li, prefix, 0, holder), previous)
  {
    if Has(LoopRows(items, levels, li, prefix, 0, holder), previous) {
      var j := LoopHas(items, levels, li, prefix, 0, holder, previous);
      ElementHas(items, levels, li, prefix, j, previous);
      ElementOwns(levels[li], items, prefix, j, holder, previous);
      assert false;
    }
  }

  /** Leading digits never stand for more than all digits together. */
  lemma {:induction false} FlatPrefix(digits: seq<int>, dims: seq<nat>, k: nat)
    requires NonZero(dims) && InRange(digits, dims) && k <= |dims|
    ensures 0 <= Flat(digits[..k], dims[..k]) <= Flat(digits, dims)
    decreases |dims|
  {
    var n := |dims|;
    if n == 0 {
    } else if k == n {
      DigitsOfFlat(digits, dims);
      assert digits[..k] == digits && dims[..k] == dims;
    } else {
      FlatPrefix(digits[..n - 1], dims[..n - 1], k);
      assert digits[..n - 1][..k] == digits[..k] && dims[..n - 1][..k] == dims[..k];
      Monotone(1, dims[n - 1], Flat(digits[..n - 1], dims[..n - 1]));
    }
  }

  lemma {:induction false} QuotientRoom(q: nat, d: nat, c: nat, bound: nat)
    requires d > 0 && q * d + c <= bound
    ensures q <= (bound - c) / d
  {
    var p := (bound - c) / d;
    assert bound - c < p * d + d;
    if p < q {
      Monotone(p + 1, q, d);
      assert false;
    }
  }

  /** What `StartIndex` finds behind the prefix of a tuple. */
  predicate LeadsTo(level: Level, own: seq<int>, i: nat) {
    if !level.isFixedArray || |level.dims| <= 1 then own == [i]
    else InRange(own, level.dims) && Flat(own, level.dims) == i <= U64_MAX
  }

  lemma {:induction false} CoordinatesLead(level: Level, items: seq<Node>, i: nat)
    requires level.isFixedArray && NonZero(level.dims) && Fits(level, items) && i < |items|
    ensures LeadsTo(level, Coordinates(i, level.dims), i)
  {
    if level.dims != [] {
      FlatOfDigits(i, level.dims);
      if |level.dims| == 1 {
        SingleDigit(i, level.dims);
      }
    }
  }

  /** The coordinates stored behind a prefix lead back to the element they came from. */
  lemma {:induction false} OwnCoordinates(level: Level, items: seq<Node>, prefix: seq<int>, i: nat, previous: seq<int>)
    requires (level.isFixedArray ==> NonZero(level.dims)) && (level.isFixedArray || level.isContainer)
    requires Fits(level, items) && i < |items| && ElementIndices(level, prefix, i) <= previous
    ensures |prefix| + Rank(level) <= |previous|
    ensures LeadsTo(level, previous[|prefix|..|prefix| + Rank(level)], i)
  {
    ElementIndicesLength(level, prefix, i);
    OwnPart(level, prefix, i, previous);
    if level.isFixedArray {
      CoordinatesLead(level, items, i);
    }
  }

  /** What an element adds behind the prefix. */
  lemma {:induction false} OwnPart(level: Level, prefix: seq<int>, i: nat, previous: seq<int>)
    requires (level.isFixedArray ==> NonZero(level.dims)) && ElementIndices(level, prefix, i) <= previous
    requires |ElementIndices(level, prefix, i)| == |prefix| + Rank(level)
    ensures previous[|prefix|..|prefix| + Rank(level)] ==
      if level.isFixedArray then Coordinates(i, level.dims) else [i]
  {
    var all := ElementIndices(level, prefix, i);
    assert previous[|prefix|..|all|] == all[|prefix|..];
  }

  /** The digits of `flatIndex` are those of `flat` in the leading dimensions, and then the given tail. */
  predicate DigitsLeft(flatIndex: nat, dims: seq<nat>, flat: nat, upTo: nat, tail: seq<int>)
    requires upTo <= |dims|
  {
    NonZero(dims) ==> Digits(flatIndex, dims) == Digits(flat, dims[..upTo]) + tail
  }

  /** Splits off the last of the remaining digits. */
  method NextDigit(ghost flatIndex: nat, dims: seq<nat>, flat: nat, upTo: nat, ghost tail: seq<int>)
    returns (digit: nat, rest: nat)
    requires 0 < upTo <= |dims| && dims[upTo - 1] > 0 && DigitsLeft(flatIndex, dims, flat, upTo, tail)
    ensures digit < dims[upTo - 1] && DigitsLeft(flatIndex, dims, rest, upTo - 1, [digit] + tail)
  {
    digit, rest := flat % dims[upTo - 1], flat / dims[upTo - 1];
    if NonZero(dims) {
      assert dims[..upTo][..upTo - 1] == dims[..upTo - 1];
      assert Digits(flat, dims[..upTo]) == Digits(rest, dims[..upTo - 1]) + [digit];
    }
  }

  lemma {:induction false} WrittenAt(xs: seq<int>, at: nat, x: int)
    requires at < |xs|
    ensures xs[at := x][..at] == xs[..at] && xs[at := x][at..] == [x] + xs[at + 1..]
  {
  }

  lemma {:induction false} KeptBelow(xs: seq<int>, at: nat, x: int, base: nat)
    requires base <= at < |xs|
    ensures xs[at := x][..base] == xs[..base]
  {
  }

  // ----- The traversal with a page sink -----

  class Traversal {
    const levels: seq<Level>
    const limit: Option<nat>
    const resumed: bool
    const previous: seq<int>
    var skipPrevious: bool
    var output: seq<Item>
    var lastIndices: seq<int>
    var indices: seq<int>
    var failed: bool
    /** All values that have gone by, delivered or not. */
    ghost var fed: seq<Item>

    constructor (levels: seq<Level>, limit: Option<nat>, resumed: bool, previous: seq<int>)
      requires LevelsOk(levels) && (resumed ==> limit != Some(0))
      ensures this.levels == levels && this.limit == limit && this.resumed == resumed && this.previous == previous
      ensures Valid() && indices == [] && fed == []
    {
      this.levels, this.limit, this.resumed, this.previous := levels, limit, resumed, previous;
      skipPrevious, output, lastIndices, indices, failed, fed := resumed, [], [], [], false, [];
    }

    predicate Full()
      reads this
    {
      AtLimit(limit, |output|)
    }

    ghost predicate Valid()
      reads this
    {
      && LevelsOk(levels) && !failed && (resumed ==> limit != Some(0))
      && output == Page(limit, resumed, previous, fed)
      && (skipPrevious <==> resumed && !Has(fed, previous))
      && (skipPrevious ==> output == [])
      && (output != [] ==> lastIndices == output[|output| - 1].indices)
    }

    /** Passing over rows before the previous tuple, or behind a full page, keeps the invariant. */
    ghost method PassOver(rows: seq<Item>)
      requires Valid() && (if skipPrevious then !Has(rows, previous) else Full())
      modifies this`fed
      ensures Valid() && fed == old(fed) + rows
    {
      HasConcat(fed, rows, previous);
      if skipPrevious {
        PagePassesOver(limit, previous, fed, rows);
      } else {
        PageAppends(limit, resumed, previous, fed, rows);
      }
      fed := fed + rows;
    }

    /** Delivers one value, or recognises the one delivered last; anything else in between is an error. */
    method Emit(v: Value)
      requires Valid() && !Full()
      modifies this`skipPrevious, this`output, this`lastIndices, this`failed, this`fed
      ensures failed <==> old(skipPrevious) && indices != previous
      ensures !failed ==> Valid() && fed == old(fed) + [Item(indices, v)]
    {
      ghost var row := [Item(indices, v)];
      HasConcat(fed, row, previous);
      assert row[0].indices == indices;
      if skipPrevious {
        if indices != previous {
          failed := true;
          return;
        }
        PagePassesOver(limit, previous, fed, row);
        skipPrevious := false;
      } else {
        PageAppends(limit, resumed, previous, fed, row);
        output := output + [Item(indices, v)];
        lastIndices := indices;
      }
      fed := fed + row;
    }

    /** Appends the coordinates of an array element, the last one first. */
    method PushArrayCoordinates(flatIndex: nat, dims: seq<nat>)
      requires !failed
      modifies this`indices, this`failed
      ensures !failed ==> NonZero(dims) && indices == old(indices) + Coordinates(flatIndex, dims)
      ensures DigitsFit(dims, flatIndex) ==> !failed
    {
      if dims == [] {
        if flatIndex > I32_MAX {
          failed := true;
          return;
        }
        indices := indices + [flatIndex];
        return;
      }
      var flat, base := flatIndex, |indices|;
      indices := indices + seq(|dims|, _ => 0);
      var reverse := |dims|;
      assert dims[..|dims|] == dims;
      while reverse > 0
        invariant 0 <= reverse <= |dims| && !failed && |indices| == base + |dims|
        invariant indices[..base] == old(indices)
        invariant forall k :: reverse <= k < |dims| ==> dims[k] > 0
        invariant DigitsLeft(flatIndex, dims, flat, reverse, indices[base + reverse..])
      {
        var dim := reverse - 1;
        if dims[dim] == 0 {
          failed := true;
          return;
        }
        var coordinate, rest := NextDigit(flatIndex, dims, flat, reverse, indices[base + reverse..]);
        if coordinate > I32_MAX {
          failed := true;
          return;
        }
        WrittenAt(indices, base + dim, coordinate);
        KeptBelow(indices, base + dim, coordinate, base);
        indices := indices[base + dim := coordinate];
        flat, reverse := rest, dim;
      }
      assert indices == indices[..base] + indices[base..];
    }

    /** Appends the index columns of one element. */
    method PushElement(level: Level, i: nat)
      requires !failed && CoordinatesFit(level, i)
      modifies this`indices, this`failed
      ensures !failed && indices == ElementIndices(level, old(indices), i)
    {
      if level.isFixedArray {
        PushArrayCoordinates(i, level.dims);
      } else {
        failed := i > I32_MAX;
        indices := indices + [i];
      }
    }

    /** Where a loop resumes: at the element that holds the previous tuple. */
    method StartIndex(level: Level, ghost items: seq<Node>, ghost holder: nat) returns (start: nat)
      requires !failed && (level.isFixedArray ==> NonZero(level.dims)) && (level.isFixedArray || level.isContainer)
      modifies this`failed
      ensures !skipPrevious ==> !failed && start == 0
      ensures
        skipPrevious && Fits(level, items) && holder < |items| && ElementIndices(level, indices, holder) <= previous ==>
          !failed && start == holder
    {
      start := 0;
      if !skipPrevious || |indices| > |previous| || previous[..|indices|] != indices {
        return;
      }
      if Fits(level, items) && holder < |items| && ElementIndices(level, indices, holder) <= previous {
        ElementIndicesLength(level, indices, holder);
        OwnCoordinates(level, items, indices, holder, previous);
      }
      var rank := if level.isFixedArray then Max(1, |level.dims|) else 1;
      if |previous| - |indices| < rank {
        return;
      }
      var coordinates := previous[|indices|..|indices| + rank];
      if !level.isFixedArray || |level.dims| <= 1 {
        if coordinates[0] < 0 {
          failed := true;
          return;
        }
        return coordinates[0];
      }
      var ok;
      ok, start := FlatIndex(coordinates, level.dims);
      failed := !ok;
    }

    /** The value or the object at an element whose coordinates have been pushed. */
    method VisitElement(item: Node, li: nat, ghost prefix: seq<int>, ghost i: nat)
      requires Valid() && !Full() && li < |levels| && WellFormed(item, levels, li + 1) && !item.Null?
      requires indices == ElementIndices(levels[li], prefix, i)
      requires skipPrevious ==> Has(ElementRows(item, levels, li, prefix, i), previous)
      modifies this
      ensures Valid() && indices == old(indices)
      ensures fed == old(fed) + ElementRows(item, levels, li, prefix, i)
      decreases |levels| - li, 0, 0
    {
      if li + 1 < |levels| {
        Collect(item, li + 1);
      } else if Emits(levels[li]) && item.Leaf? {
        Emit(item.v);
      }
    }

    /** One element of an array or container. */
    method CollectElement(item: Node, li: nat, i: nat)
      requires Valid() && !Full() && li < |levels| && WellFormed(item, levels, li + 1)
      requires CoordinatesFit(levels[li], i)
      requires skipPrevious ==> Has(ElementRows(item, levels, li, indices, i), previous)
      modifies this
      ensures Valid() && indices == old(indices)
      ensures fed == old(fed) + ElementRows(item, levels, li, indices, i)
      decreases |levels| - li, 0, 1
    {
      if !item.Null? {
        var depth := |indices|;
        PushElement(levels[li], i);
        VisitElement(item, li, old(indices), i);
        indices := indices[..depth];
      }
    }

    /** Positions a loop: on a resumed page, at the element that holds the previous tuple. */
    method ResumeLoop(items: seq<Node>, li: nat) returns (i: nat)
      requires Valid() && li < |levels| && Loops(levels[li], li + 1 == |levels|) && ItemsFit(items, levels, li)
      requires skipPrevious ==> Has(LoopRows(items, levels, li, indices, 0, |items|), previous)
      modifies this`failed, this`fed
      ensures Valid() && i <= |items| && fed == old(fed) + LoopRows(items, levels, li, indices, 0, i)
      ensures skipPrevious ==> i < |items| && Has(ElementRows(items[i], levels, li, indices, i), previous)
    {
      ghost var holder: nat := 0;
      if skipPrevious {
        holder := LoopHas(items, levels, li, indices, 0, |items|, previous);
        ElementHas(items, levels, li, indices, holder, previous);
        EarlierLack(items, levels, li, indices, holder, previous);
        PassOver(LoopRows(items, levels, li, indices, 0, holder));
      }
      i := StartIndex(levels[li], items, holder);
    }

    /** A full page leaves the rest of a loop undelivered. */
    ghost method LeaveLoop(items: seq<Node>, li: nat, i: nat, before: seq<Item>)
      requires Valid() && li < |levels| && i <= |items| && (i < |items| ==> Full())
      requires skipPrevious ==> i < |items|
      requires fed == before + LoopRows(items, levels, li, indices, 0, i)
      modifies this`fed
      ensures Valid() && fed == before + LoopRows(items, levels, li, indices, 0, |items|)
    {
      ghost var done := LoopRows(items, levels, li, indices, 0, i);
      ghost var rest := LoopRows(items, levels, li, indices, i, |items|);
      LoopSplit(items, levels, li, indices, 0, i, |items|);
      if i < |items| {
        PassOver(rest);
        Reassociate(before, done, rest, LoopRows(items, levels, li, indices, 0, |items|));
      }
    }

    /** One turn of the loop. */
    method CollectNext(items: seq<Node>, li: nat, i: nat, ghost before: seq<Item>)
      requires Valid() && !Full() && li < |levels| && i < |items| && ItemsFit(items, levels, li)
      requires fed == before + LoopRows(items, levels, li, indices, 0, i)
      requires skipPrevious ==> Has(ElementRows(items[i], levels, li, indices, i), previous)
      modifies this
      ensures Valid() && indices == old(indices) && !skipPrevious
      ensures fed == before + LoopRows(items, levels, li, indices, 0, i + 1)
      decreases |levels| - li, 0, 2
    {
      ghost var done, rows := LoopRows(items, levels, li, indices, 0, i), ElementRows(items[i], levels, li, indices, i);
      HasConcat(fed, rows, previous);
      ElementFits(levels[li], items, i);
      CollectElement(items[i], li, i);
      Reassociate(before, done, rows, LoopRows(items, levels, li, indices, 0, i + 1));
    }

    /** The loop over an array or a container. */
    method CollectItems(items: seq<Node>, li: nat)
      requires Valid() && li < |levels| && Loops(levels[li], li + 1 == |levels|) && ItemsFit(items, levels, li)
      requires skipPrevious ==> Has(LoopRows(items, levels, li, indices, 0, |items|), previous)
      modifies this
      ensures Valid() && indices == old(indices)
      ensures fed == old(fed) + LoopRows(items, levels, li, indices, 0, |items|)
      decreases |levels| - li, 1, |items|
    {
      var i := ResumeLoop(items, li);
      while i < |items| && !Full()
        invariant i <= |items| && Valid() && indices == old(indices)
        invariant fed == old(fed) + LoopRows(items, levels, li, indices, 0, i)
        invariant skipPrevious ==> i < |items| && Has(ElementRows(items[i], levels, li, indices, i), previous)
      {
        CollectNext(items, li, i, old(fed));
        i := i + 1;
      }
      LeaveLoop(items, li, i, old(fed));
    }

    /** The recursive traversal: feeds the values below `current`, in order, as far as the page needs them. */
    method Collect(current: Node, li: nat)
      requires Valid() && WellFormed(current, levels, li)
      requires skipPrevious ==> Has(Rows(current, levels, li, indices), previous)
      modifies this
      ensures Valid() && indices == old(indices)
      ensures fed == old(fed) + Rows(current, levels, li, indices)
      decreases |levels| - li, 2, 0
    {
      if !current.Object? || li >= |levels| || Full() {
        if Full() {
          PassOver(Rows(current, levels, li, indices));
        }
        return;
      }
      var level, field := levels[li], current.field;
      if level.isPointer && field.Null? {
        return;
      }
      if level.isFixedArray {
        if field.Items? {
          CollectItems(field.items, li);
        }
        return;
      }
      var last := li + 1 == |levels|;
      if last && level.isContainer {
        if level.hasProxy && field.Items? {
          CollectItems(field.items, li);
        }
        return;
      }
      if last {
        if (level.isPrimitive || level.isString) && field.Leaf? {
          assert Rows(current, levels, li, indices) == [Item(indices, field.v)];
          Emit(field.v);
        }
        return;
      }
      if level.isContainer {
        if level.hasDictionary && level.hasProxy && field.Items? {
          CollectItems(field.items, li);
        }
        return;
      }
      if level.hasClass {
        Collect(field, li + 1);
      }
    }
  }

  // ----- Unpaged reading and the cursor -----

  /** One traversal of an object into a fresh page; `failed` stands for the errors of restoring a position and
      of pushing coordinates. */
  method RunTraversal(root: Node, levels: seq<Level>, limit: Option<nat>, resumed: bool, previous: seq<int>)
    returns (failed: bool, page: seq<Item>, last: seq<int>)
    requires LevelsOk(levels) && WellFormed(root, levels, 0)
    requires resumed ==> limit != Some(0) && Has(Rows(root, levels, 0, []), previous)
    ensures !failed && page == Page(limit, resumed, previous, Rows(root, levels, 0, []))
    ensures page != [] ==> last == page[|page| - 1].indices
  {
    ghost var rows := Rows(root, levels, 0, []);
    var t := new Traversal(levels, limit, resumed, previous);
    t.Collect(root, 0);
    assert t.fed == rows;
    failed, page, last := t.failed, t.output, t.lastIndices;
  }

  /** Reads an object in one go; a negative maximum means no limit. */
  method CollectDirect(root: Node, levels: seq<Level>, maxValues: int) returns (rows: seq<Item>)
    requires LevelsOk(levels) && WellFormed(root, levels, 0)
    ensures var all := Rows(root, levels, 0, []);
      rows == if maxValues < 0 then all else all[..Min(maxValues, |all|)]
  {
    var failed, last;
    failed, rows, last := RunTraversal(root, levels, if maxValues < 0 then None else Some(maxValues), false, []);
  }

  datatype PageResult = Values(rows: seq<Item>) | Exhausted | InvalidPageSize | RestoreFailed

  /** Behind the last value delivered come exactly the values not delivered yet. */
  lemma {:induction false} AfterLast(rows: seq<Item>, n: nat)
    requires Unique(rows) && 0 < n <= |rows|
    ensures Has(rows, rows[n - 1].indices) && After(rows, rows[n - 1].indices) == rows[n..]
  {
    if n > 1 {
      assert rows[0].indices != rows[n - 1].indices;
      forall j, k | 0 <= j < k < |rows[1..]| ensures rows[1..][j].indices != rows[1..][k].indices {
        assert rows[j + 1].indices != rows[k + 1].indices;
      }
      AfterLast(rows[1..], n - 1);
    }
  }

  /** A resumed page holds the next values. */
  lemma {:induction false} NextPage(all: seq<Item>, n: nat, limit: nat)
    requires Unique(all) && 0 < n <= |all|
    ensures Has(all, all[n - 1].indices)
    ensures Page(Some(limit), true, all[n - 1].indices, all) == all[n..n + Min(limit, |all| - n)]
  {
    AfterLast(all, n);
  }

  /** The page of a cursor that has delivered n values. */
  lemma {:induction false} PageFrom(all: seq<Item>, n: nat, limit: nat, previous: seq<int>)
    requires Unique(all) && n <= |all| && (n > 0 ==> previous == all[n - 1].indices)
    ensures n > 0 ==> Has(all, previous)
    ensures Page(Some(limit), n > 0, previous, all) == all[n..n + Min(limit, |all| - n)]
  {
    if n > 0 {
      NextPage(all, n, limit);
    }
  }

  /** A resumable page reader over one object. */
  class OffsetValueCursor {
    var root: Node
    var levels: seq<Level>
    var resumeIndices: seq<int>
    var previousEmitted: bool
    var complete: bool
    ghost var all: seq<Item>
    ghost var delivered: nat

    ghost predicate Valid()
      reads this
    {
      && LevelsOk(levels) && WellFormed(root, levels, 0)
      && all == Rows(root, levels, 0, []) && delivered <= |all|
      && (previousEmitted <==> delivered > 0)
      && (previousEmitted ==> resumeIndices == all[delivered - 1].indices)
      && (complete ==> delivered == |all|)
    }

    constructor ()
      ensures Valid() && complete
    {
      root, levels, resumeIndices, previousEmitted, complete := Null, [], [], false, true;
      all, delivered := [], 0;
    }

    method Open(root: Node, levels: seq<Level>)
      requires LevelsOk(levels) && WellFormed(root, levels, 0)
      modifies this
      ensures Valid() && delivered == 0 && all == Rows(root, levels, 0, [])
    {
      Reset();
      this.root, this.levels := root, levels;
      all := Rows(root, levels, 0, []);
      complete := root.Null? || levels == [];
    }

    /** One resumed traversal. */
    method TraverseNext(maximumRows: nat) returns (failed: bool, page: seq<Item>, last: seq<int>)
      requires Valid() && maximumRows > 0
      ensures !failed && page == all[delivered..delivered + Min(maximumRows, |all| - delivered)]
      ensures page != [] ==> last == page[|page| - 1].indices
    {
      RowsUnique(root, levels, 0, []);
      PageFrom(all, delivered, maximumRows, resumeIndices);
      failed, page, last := RunTraversal(root, levels, Some(maximumRows), previousEmitted, resumeIndices);
    }

    /** Delivers the next values of the object, at most `maximumRows`; a restored cursor always finds its place. */
    method ReadPage(maximumRows: nat) returns (r: PageResult)
      requires Valid()
      modifies this
      ensures Valid() && all == old(all)
      ensures r.InvalidPageSize? <==> maximumRows == 0
      ensures r.InvalidPageSize? ==> delivered == old(delivered) && complete == old(complete)
      ensures r.Values? ==> 0 < |r.rows| <= maximumRows && delivered == old(delivered) + |r.rows|
      ensures r.Values? ==> r.rows == all[old(delivered)..delivered]
      ensures r.Exhausted? ==> complete && delivered == old(delivered) == |all|
      ensures !r.RestoreFailed?
    {
      if maximumRows == 0 {
        return InvalidPageSize;
      }
      if complete {
        return Exhausted;
      }
      var failed, page, last := TraverseNext(maximumRows);
      if failed {
        return RestoreFailed;
      }
      if page == [] {
        complete := true;
        return Exhausted;
      }
      resumeIndices := last;
      previousEmitted := true;
      delivered := delivered + |page|;
      if |page| < maximumRows {
        complete := true;
      }
      r := Values(page);
    }

    predicate HasMore()
      reads this
    {
      !complete
    }

    method Reset()
      modifies this
      ensures Valid() && complete && delivered == 0
    {
      root, levels, resumeIndices, previousEmitted, complete := Null, [], [], false, true;
      all, delivered := [], 0;
    }
  }

  function Concat(pages: seq<seq<Item>>): seq<Item> {
    if pages == [] then [] else Concat(pages[..|pages| - 1]) + pages[|pages| - 1]
  }

  lemma {:induction false} ConcatAppend(pages: seq<seq<Item>>, page: seq<Item>)
    ensures Concat(pages + [page]) == Concat(pages) + page
  {
    assert (pages + [page])[..|pages|] == pages;
  }

  /** Pages that hold the first n rows, none larger than asked for. */
  predicate Paged(pages: seq<seq<Item>>, size: nat -> nat, all: seq<Item>, n: nat) {
    n <= |all| && Concat(pages) == all[..n] &&
    forall k :: 0 <= k < |pages| ==> 0 < |pages[k]| <= size(k)
  }

  lemma {:induction false} NextPaged(pages: seq<seq<Item>>, size: nat -> nat, all: seq<Item>, n: nat, page: seq<Item>)
    requires Paged(pages, size, all, n) && 0 < |page| <= size(|pages|)
    requires n + |page| <= |all| && page == all[n..n + |page|]
    ensures Paged(pages + [page], size, all, n + |page|)
  {
    ConcatAppend(pages, page);
    assert all[..n + |page|] == all[..n] + page;
  }

  /** Whatever positive page sizes are asked for, the pages together are the unpaged traversal. */
  method ReadPages(root: Node, levels: seq<Level>, size: nat -> nat) returns (pages: seq<seq<Item>>)
    requires LevelsOk(levels) && WellFormed(root, levels, 0)
    requires forall k :: size(k) > 0
    ensures Concat(pages) == Rows(root, levels, 0, [])
    ensures forall k :: 0 <= k < |pages| ==> 0 < |pages[k]| <= size(k)
  {
    var cursor := new OffsetValueCursor();
    cursor.Open(root, levels);
    ghost var all := cursor.all;
    pages := [];
    while cursor.HasMore()
      invariant cursor.Valid() && cursor.all == all
      invariant Paged(pages, size, all, cursor.delivered)
      decreases |cursor.all| - cursor.delivered, cursor.HasMore()
    {
      ghost var before := cursor.delivered;
      var r := cursor.ReadPage(size(|pages|));
      if r.Values? {
        NextPaged(pages, size, all, before, r.rows);
        pages := pages + [r.rows];
      }
    }
  }
}
