/** What the traversal of an object must deliver, said without traversing: the value that an index tuple
    leads to, and the order of the tuples. */
module Lookup {
  import opened Numbers
  import opened Cursor

  /** The element that the index columns of one level stand for. */
  function ElementAt(level: Level, own: seq<int>): Option<int> {
    if level.isFixedArray && level.dims != [] then
      if InRange(own, level.dims) then Some(Flat(own, level.dims)) else None
    else if |own| == 1 && own[0] >= 0 then Some(own[0])
    else None
  }

  /** Values of the last level: numbers in arrays, numbers and text in containers and plain fields. */
  predicate Delivers(level: Level) {
    if level.isFixedArray then level.isPrimitive
    else if level.isContainer then level.hasProxy && level.innerEmits
    else level.isPrimitive || level.isString
  }

  /** Levels that can be passed on the way down. */
  predicate Passes(level: Level) {
    if level.isFixedArray then true
    else if level.isContainer then level.hasProxy && level.hasDictionary
    else level.hasClass
  }

  /** Follows one index tuple down the object: an array or container level takes the element that its
      columns name, any other level its field; pointers are followed where they lead. */
  function ValueAt(current: Node, levels: seq<Level>, li: nat, tuple: seq<int>): Option<Value>
    decreases |levels| - li
  {
    if !current.Object? || li >= |levels| then None
    else
      var level, field := levels[li], current.field;
      if level.isFixedArray || level.isContainer then
        if |tuple| < Rank(level) || !field.Items? then None
        else
          var i := ElementAt(level, tuple[..Rank(level)]);
          if i.None? || !(0 <= i.value < |field.items|) then None
          else Below(field.items[i.value], levels, li, tuple[Rank(level)..])
      else Below(field, levels, li, tuple)
  }

  function Below(node: Node, levels: seq<Level>, li: nat, rest: seq<int>): Option<Value>
    requires li < |levels|
    decreases |levels| - li, 0
  {
    if li + 1 == |levels| then
      if Delivers(levels[li]) && node.Leaf? && rest == [] then Some(node.v) else None
    else if Passes(levels[li]) then ValueAt(node, levels, li + 1, rest)
    else None
  }

  // ----- The traversal delivers exactly these values -----

  function OwnColumns(level: Level, i: nat): seq<int>
    requires level.isFixedArray ==> NonZero(level.dims)
  {
    if level.isFixedArray then Coordinates(i, level.dims) else [i]
  }

  lemma {:induction false} ElementAtExact(level: Level, items: seq<Node>, own: seq<int>, k: nat)
    requires (level.isFixedArray ==> NonZero(level.dims)) && (level.isFixedArray || level.isContainer)
    requires Fits(level, items) && k < |items| && |own| == Rank(level)
    ensures ElementAt(level, own) == Some(k) <==> own == OwnColumns(level, k)
  {
    if level.isFixedArray && level.dims != [] {
      FlatOfDigits(k, level.dims);
      if InRange(own, level.dims) {
        DigitsOfFlat(own, level.dims);
      }
    } else if |own| == 1 {
      assert own == [own[0]];
    }
  }

  lemma {:induction false} RowsFound(current: Node, levels: seq<Level>, li: nat, prefix: seq<int>, t: seq<int>,
                                     v: Value)
    requires LevelsOk(levels) && WellFormed(current, levels, li)
    ensures Item(prefix + t, v) in Rows(current, levels, li, prefix) <==> ValueAt(current, levels, li, t) == Some(v)
    decreases |levels| - li, 2, 0
  {
    if current.Object? && li < |levels| {
      var level, field := levels[li], current.field;
      if level.isFixedArray || level.isContainer {
        if field.Items? && Loops(level, li + 1 == |levels|) {
          LoopFound(field.items, levels, li, prefix, |field.items|, t, v);
        }
      } else if li + 1 < |levels| {
        RowsFound(field, levels, li + 1, prefix, t, v);
      } else {
        assert prefix + t == prefix <==> t == [];
      }
    }
  }

  /** Whether a tuple leads to a value through one of the first elements of a loop. */
  predicate LeadsThrough(items: seq<Node>, levels: seq<Level>, li: nat, upTo: nat, t: seq<int>, v: Value)
    requires li < |levels| && upTo <= |items|
  {
    |t| >= Rank(levels[li]) &&
    var i := ElementAt(levels[li], t[..Rank(levels[li])]);
    i.Some? && 0 <= i.value < upTo && Below(items[i.value], levels, li, t[Rank(levels[li])..]) == Some(v)
  }

  lemma {:induction false} LoopFound(items: seq<Node>, levels: seq<Level>, li: nat, prefix: seq<int>, upTo: nat,
                                     t: seq<int>, v: Value)
    requires LevelsOk(levels) && li < |levels| && upTo <= |items| && ItemsFit(items, levels, li)
    requires Loops(levels[li], li + 1 == |levels|)
    ensures Item(prefix + t, v) in LoopRows(items, levels, li, prefix, 0, upTo) <==>
            LeadsThrough(items, levels, li, upTo, t, v)
    decreases |levels| - li, 1, upTo
  {
    if upTo > 0 {
      var k := upTo - 1;
      LoopFound(items, levels, li, prefix, k, t, v);
      ElementFound(items, levels, li, prefix, k, t, v);
    }
  }

  lemma {:induction false} ElementFound(items: seq<Node>, levels: seq<Level>, li: nat, prefix: seq<int>, k: nat,
                                        t: seq<int>, v: Value)
    requires LevelsOk(levels) && li < |levels| && k < |items| && ItemsFit(items, levels, li)
    requires Loops(levels[li], li + 1 == |levels|)
    ensures Item(prefix + t, v) in ElementRows(items[k], levels, li, prefix, k) <==>
            |t| >= Rank(levels[li]) && ElementAt(levels[li], t[..Rank(levels[li])]) == Some(k) &&
            Below(items[k], levels, li, t[Rank(levels[li])..]) == Some(v)
    decreases |levels| - li, 0, 0
  {
    var level := levels[li];
    var r := Rank(level);
    var own := OwnColumns(level, k);
    ElementIndicesLength(level, prefix, k);
    ElementExtends(items[k], levels, li, prefix, k);
    if |t| >= r {
      ElementAtExact(level, items, t[..r], k);
    }
    if |t| >= r && t[..r] == own {
      assert prefix + t == (prefix + own) + t[r..];
      if li + 1 < |levels| {
        RowsFound(items[k], levels, li + 1, prefix + own, t[r..], v);
      } else {
        assert (prefix + own) + t[r..] == prefix + own <==> t[r..] == [];
      }
    } else {
      OwnMissing(prefix, own, t);
    }
  }

  lemma {:induction false} OwnMissing(prefix: seq<int>, own: seq<int>, t: seq<int>)
    requires |t| < |own| || t[..|own|] != own
    ensures !(prefix + own <= prefix + t)
  {
    if |own| <= |t| {
      assert (prefix + t)[|prefix|..|prefix| + |own|] == t[..|own|];
      assert (prefix + own)[|prefix|..] == own;
    }
  }

  // ----- In lexicographic order -----

  /** The tuples differ, and the first one is smaller where they first do. */
  predicate LexLess(a: seq<int>, b: seq<int>) {
    exists k :: 0 <= k < |a| && k < |b| && LessAt(a, b, k)
  }

  predicate LessAt(a: seq<int>, b: seq<int>, k: nat)
    requires k < |a| && k < |b|
  {
    a[..k] == b[..k] && a[k] < b[k]
  }

  predicate Ascending(rows: seq<Item>) {
    forall j, k :: 0 <= j < k < |rows| ==> LexLess(rows[j].indices, rows[k].indices)
  }

  lemma {:induction false} LexExtend(p: seq<int>, a: seq<int>, b: seq<int>, x: seq<int>, y: seq<int>)
    requires LexLess(a, b)
    ensures LexLess(p + a + x, p + b + y)
  {
    var k :| 0 <= k < |a| && k < |b| && LessAt(a, b, k);
    assert (p + a + x)[..|p| + k] == p + a[..k];
    assert (p + b + y)[..|p| + k] == p + b[..k];
    assert LessAt(p + a + x, p + b + y, |p| + k);
  }

  lemma {:induction false} LastDigit(init: seq<int>, q: int, r: int)
    requires q < r
    ensures LexLess(init + [q], init + [r])
  {
    assert (init + [q])[..|init|] == init && (init + [r])[..|init|] == init;
    assert LessAt(init + [q], init + [r], |init|);
  }

  lemma {:induction false} SameQuotient(i: nat, j: nat, d: nat)
    requires d > 0 && i < j
    ensures i / d <= j / d && (i / d == j / d ==> i % d < j % d)
  {
    var p, q := DivMod(i, d);
    var u, v := DivMod(j, d);
    if u < p {
      Monotone(u + 1, p, d);
      assert false;
    }
  }

  lemma {:induction false} QuotientBelow(n: nat, p: nat, d: nat)
    requires d > 0 && n < p * d
    ensures n / d < p
  {
    var q, r := DivMod(n, d);
    if p <= q {
      Monotone(p, q, d);
    }
  }

  lemma {:induction false} DigitsAscend(i: nat, j: nat, dims: seq<nat>)
    requires NonZero(dims) && i < j < Product(dims)
    ensures LexLess(Digits(i, dims), Digits(j, dims))
    decreases |dims|
  {
    if dims != [] {
      var n := |dims| - 1;
      var d, init := dims[n], dims[..n];
      SameQuotient(i, j, d);
      if i / d == j / d {
        LastDigit(Digits(i / d, init), i % d, j % d);
      } else {
        QuotientBelow(j, Product(init), d);
        DigitsAscend(i / d, j / d, init);
        LexExtend([], Digits(i / d, init), Digits(j / d, init), [i % d], [j % d]);
        assert [] + Digits(i / d, init) == Digits(i / d, init) && [] + Digits(j / d, init) == Digits(j / d, init);
      }
    }
  }

  lemma {:induction false} ColumnsAscend(level: Level, items: seq<Node>, i: nat, j: nat)
    requires (level.isFixedArray ==> NonZero(level.dims)) && Fits(level, items) && i < j < |items|
    ensures LexLess(OwnColumns(level, i), OwnColumns(level, j))
  {
    if level.isFixedArray && level.dims != [] {
      DigitsAscend(i, j, level.dims);
    } else {
      LastDigit([], i, j);
      assert [] + [i] == [i] && [] + [j] == [j];
    }
  }

  lemma {:induction false} SplitTuple(p: seq<int>, own: seq<int>, a: seq<int>)
    requires p + own <= a
    ensures a == p + own + a[|p| + |own|..]
  {
    assert a == a[..|p| + |own|] + a[|p| + |own|..];
  }

  lemma {:induction false} ElementsAscend(level: Level, items: seq<Node>, prefix: seq<int>, i: nat, j: nat,
                                          a: seq<int>, b: seq<int>)
    requires (level.isFixedArray ==> NonZero(level.dims)) && (level.isFixedArray || level.isContainer)
    requires Fits(level, items) && i < j < |items|
    requires ElementIndices(level, prefix, i) <= a && ElementIndices(level, prefix, j) <= b
    ensures LexLess(a, b)
  {
    var own, other := OwnColumns(level, i), OwnColumns(level, j);
    ColumnsAscend(level, items, i, j);
    SplitTuple(prefix, own, a);
    SplitTuple(prefix, other, b);
    LexExtend(prefix, own, other, a[|prefix| + |own|..], b[|prefix| + |other|..]);
  }

  lemma {:induction false} AscendingConcat(a: seq<Item>, b: seq<Item>)
    requires Ascending(a) && Ascending(b)
    requires forall j, k :: 0 <= j < |a| && 0 <= k < |b| ==> LexLess(a[j].indices, b[k].indices)
    ensures Ascending(a + b)
  {
  }

  lemma {:induction false} RowsAscend(current: Node, levels: seq<Level>, li: nat, prefix: seq<int>)
    requires LevelsOk(levels) && WellFormed(current, levels, li)
    ensures Ascending(Rows(current, levels, li, prefix))
    decreases |levels| - li, 2, 0
  {
    if current.Object? && li < |levels| {
      var level, field := levels[li], current.field;
      if level.isFixedArray || level.isContainer {
        if field.Items? {
          LoopAscends(field.items, levels, li, prefix, |field.items|);
        }
      } else if li + 1 < |levels| {
        RowsAscend(field, levels, li + 1, prefix);
      }
    }
  }

  lemma {:induction false} LoopAscends(items: seq<Node>, levels: seq<Level>, li: nat, prefix: seq<int>, upTo: nat)
    requires LevelsOk(levels) && li < |levels| && upTo <= |items| && ItemsFit(items, levels, li)
    requires levels[li].isFixedArray || levels[li].isContainer
    ensures Ascending(LoopRows(items, levels, li, prefix, 0, upTo))
    decreases |levels| - li, 1, upTo
  {
    if upTo > 0 {
      var k := upTo - 1;
      var before, rows := LoopRows(items, levels, li, prefix, 0, k), ElementRows(items[k], levels, li, prefix, k);
      LoopAscends(items, levels, li, prefix, k);
      if li + 1 < |levels| {
        RowsAscend(items[k], levels, li + 1, ElementIndices(levels[li], prefix, k));
      }
      forall m, n | 0 <= m < |before| && 0 <= n < |rows| ensures LexLess(before[m].indices, rows[n].indices) {
        assert Has(before, before[m].indices) && Has(rows, rows[n].indices);
        var i := LoopHas(items, levels, li, prefix, 0, k, before[m].indices);
        ElementHas(items, levels, li, prefix, i, before[m].indices);
        ElementHas(items, levels, li, prefix, k, rows[n].indices);
        ElementsAscend(levels[li], items, prefix, i, k, before[m].indices, rows[n].indices);
      }
      AscendingConcat(before, rows);
    }
  }

  // ----- The traversal is determined -----

  /** Exactly the values that index tuples lead to, in the order of the tuples. */
  ghost predicate IsTraversal(root: Node, levels: seq<Level>, rows: seq<Item>) {
    Ascending(rows) && forall t, v :: Item(t, v) in rows <==> ValueAt(root, levels, 0, t) == Some(v)
  }

  /** The unpaged traversal delivers, in lexicographic order, exactly the values that index tuples lead to. */
  lemma {:induction false} TraversalExact(root: Node, levels: seq<Level>)
    requires LevelsOk(levels) && WellFormed(root, levels, 0)
    ensures IsTraversal(root, levels, Rows(root, levels, 0, []))
  {
    RowsAscend(root, levels, 0, []);
    forall t, v ensures Item(t, v) in Rows(root, levels, 0, []) <==> ValueAt(root, levels, 0, t) == Some(v) {
      RowsFound(root, levels, 0, [], t, v);
      assert [] + t == t;
    }
  }

  /** What the pages of a cursor add up to, and what the unpaged reader delivers. */
  method ReadAllPages(root: Node, levels: seq<Level>, size: nat -> nat) returns (pages: seq<seq<Item>>)
    requires LevelsOk(levels) && WellFormed(root, levels, 0)
    requires forall k :: size(k) > 0
    ensures IsTraversal(root, levels, Concat(pages))
    ensures forall k :: 0 <= k < |pages| ==> 0 < |pages[k]| <= size(k)
  {
    pages := ReadPages(root, levels, size);
    TraversalExact(root, levels);
  }

  lemma {:induction false} NotLessBack(a: seq<int>, b: seq<int>, k: nat, m: nat)
    requires k < |a| && k < |b| && m < |a| && m < |b| && LessAt(a, b, k)
    ensures !LessAt(b, a, m)
  {
    if m < k {
      assert a[m] == a[..k][m] && b[m] == b[..k][m];
    } else if k < m {
      assert a[..m][k] == a[k] && b[..m][k] == b[k];
    }
  }

  lemma {:induction false} LexOrder(a: seq<int>, b: seq<int>)
    requires LexLess(a, b)
    ensures !LexLess(b, a) && a != b
  {
    var k :| 0 <= k < |a| && k < |b| && LessAt(a, b, k);
    forall m | 0 <= m < |b| && m < |a| ensures !LessAt(b, a, m) {
      NotLessBack(a, b, k, m);
    }
  }

  /** Only one sequence is the traversal of an object. */
  lemma {:induction false} TraversalUnique(root: Node, levels: seq<Level>, a: seq<Item>, b: seq<Item>)
    requires IsTraversal(root, levels, a) && IsTraversal(root, levels, b)
    ensures a == b
  {
    forall x: Item ensures x in a <==> x in b {
      assert x == Item(x.indices, x.value);
    }
    SameAscending(a, b);
  }

  lemma {:induction false} SameAscending(a: seq<Item>, b: seq<Item>)
    requires Ascending(a) && Ascending(b) && forall x: Item :: x in a <==> x in b
    ensures a == b
    decreases |a|
  {
    if a == [] {
      FirstIn(b);
    } else {
      assert a[0] in b;
      assert b != [];
      FirstIsFirst(a, b);
      forall x: Item ensures x in a[1..] <==> x in b[1..] {
        RestWithout(a, x);
        RestWithout(b, x);
      }
      SameAscending(a[1..], b[1..]);
      assert a == [a[0]] + a[1..] && b == [b[0]] + b[1..];
    }
  }

  lemma {:induction false} FirstIn(rows: seq<Item>)
    ensures rows == [] || rows[0] in rows
  {
  }

  lemma {:induction false} FirstIsFirst(a: seq<Item>, b: seq<Item>)
    requires a != [] && b != [] && Ascending(a) && Ascending(b) && forall x: Item :: x in a <==> x in b
    ensures a[0] == b[0]
  {
    assert a[0] in b && b[0] in a;
    var j :| 0 <= j < |b| && b[j] == a[0];
    var k :| 0 <= k < |a| && a[k] == b[0];
    if j > 0 && k > 0 {
      LexOrder(b[0].indices, b[j].indices);
    }
  }

  lemma {:induction false} RestWithout(rows: seq<Item>, x: Item)
    requires rows != [] && Ascending(rows)
    ensures x in rows[1..] <==> x in rows && x != rows[0]
    ensures Ascending(rows[1..])
  {
    assert rows == [rows[0]] + rows[1..];
    if x in rows[1..] {
      var k :| 0 <= k < |rows[1..]| && rows[1..][k] == x;
      LexOrder(rows[0].indices, rows[k + 1].indices);
    }
  }
}
