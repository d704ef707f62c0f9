/** Conservative unsigned ranges: the extractor shared by entry and event filters,
    and the separate hint extractor of the direct scan. */
module Ranges {
  import opened Numbers
  import opened Expressions

  /** Inclusive bounds; `known` false means that nothing was learnt. */
  datatype Range = Range(known: bool, impossible: bool, lower: u64, upper: u64)

  const UNKNOWN := Range(false, false, 0, U64_MAX)
  const EVERYTHING := Range(true, false, 0, U64_MAX)
  const IMPOSSIBLE := Range(true, true, 0, U64_MAX)

  predicate Admits(r: Range, v: u64) {
    r.known ==> !r.impossible && r.lower <= v <= r.upper
  }

  /** Only integral constants that fit 64 unsigned bits narrow a range. */
  function UnsignedConstant(c: Const): Option<u64> {
    if c.NullConst? || !Integral(c.ty) || !IsFinite(c.num) then None
    else
      var k := Real(c.num).Floor;
      if k as real == Real(c.num) && 0 <= k <= U64_MAX then Some(k) else None
  }

  function ComparisonRange(op: Op, c: Const): Range {
    var k := UnsignedConstant(c);
    if k.None? then UNKNOWN else
    match op
    case Eq => Range(true, false, k.value, k.value)
    case Lt => if k.value == 0 then IMPOSSIBLE else EVERYTHING.(upper := k.value - 1)
    case Le => EVERYTHING.(upper := k.value)
    case Gt => if k.value == U64_MAX then IMPOSSIBLE else EVERYTHING.(lower := k.value + 1)
    case Ge => EVERYTHING.(lower := k.value)
    case Ne => UNKNOWN
  }

  function Intersect(a: Range, b: Range): Range {
    if !a.known then b
    else if !b.known then a
    else if a.impossible || b.impossible then IMPOSSIBLE
    else
      var lower, upper := Max(a.lower, b.lower), Min(a.upper, b.upper);
      Range(true, lower > upper, lower, upper)
  }

  function Union(a: Range, b: Range): Range {
    if !a.known || !b.known then UNKNOWN
    else if a.impossible then b
    else if b.impossible then a
    else Range(true, false, Min(a.lower, b.lower), Max(a.upper, b.upper))
  }

  /** Ranges of the non-NULL items of an IN list are joined; a cast or an unusable constant gives up. */
  function InRange(items: seq<Operand>, acc: Range): Range
    decreases items
  {
    if items == [] then acc
    else if !items[0].Literal? then UNKNOWN
    else if items[0].c.NullConst? then InRange(items[1..], acc)
    else
      var candidate := ComparisonRange(Eq, items[0].c);
      if !candidate.known then UNKNOWN else InRange(items[1..], Union(acc, candidate))
  }

  function ExtractRange(e: Expr): Range
    decreases e, 0
  {
    match e
    case Compare(op, o, columnFirst) =>
      if o.Literal? then ComparisonRange(if columnFirst then op else Reverse(op), o.c) else UNKNOWN
    case Between(lo, hi, _, _) =>
      if lo.Literal? && hi.Literal? then Intersect(ComparisonRange(Ge, lo.c), ComparisonRange(Le, hi.c)) else UNKNOWN
    case In(items) => InRange(items, IMPOSSIBLE)
    case And(es) => if es == [] then UNKNOWN else FoldRanges(es[1..], ExtractRange(es[0]), true)
    case Or(es) => if es == [] then UNKNOWN else FoldRanges(es[1..], ExtractRange(es[0]), false)
    case Opaque(_) => UNKNOWN
  }

  function FoldRanges(es: seq<Expr>, acc: Range, conjunction: bool): Range
    decreases es, 1
  {
    if es == [] then acc
    else
      var r := ExtractRange(es[0]);
      FoldRanges(es[1..], if conjunction then Intersect(acc, r) else Union(acc, r), conjunction)
  }

  lemma {:induction false} ComparisonRangeSound(op: Op, c: Const, v: u64)
    requires CompareTruth(op, OfNat(v), c).True?
    ensures Admits(ComparisonRange(op, c), v)
  {
  }

  lemma {:induction false} InRangeSound(items: seq<Operand>, acc: Range, v: u64)
    requires acc.known
    requires (!acc.impossible && acc.lower <= v <= acc.upper) || EvalIn(items, OfNat(v)).True?
    ensures Admits(InRange(items, acc), v)
    decreases items
  {
    if items != [] && items[0].Literal? {
      var c := items[0].c;
      if c.NullConst? {
        InRangeSound(items[1..], acc, v);
      } else if ComparisonRange(Eq, c).known {
        if CompareTruth(Eq, OfNat(v), c).True? {
          ComparisonRangeSound(Eq, c, v);
        }
        InRangeSound(items[1..], Union(acc, ComparisonRange(Eq, c)), v);
      }
    }
  }

  /** A 64-bit value for which the filter is TRUE lies in whatever range was extracted. */
  lemma {:induction false} ExtractRangeSound(e: Expr, v: u64)
    requires Holds(e, OfNat(v))
    ensures Admits(ExtractRange(e), v)
    decreases e, 0
  {
    match e
    case Compare(op, o, columnFirst) =>
      if o.Literal? {
        ComparisonRangeSound(if columnFirst then op else Reverse(op), o.c, v);
      }
    case Between(lo, hi, _, _) =>
      if lo.Literal? && hi.Literal? {
        ComparisonRangeSound(Ge, lo.c, v);
        ComparisonRangeSound(Le, hi.c, v);
      }
    case In(items) => InRangeSound(items, IMPOSSIBLE, v);
    case And(es) =>
      assert EvalAnd(es, OfNat(v)).True?;
      if es != [] {
        ExtractRangeSound(es[0], v);
        FoldAndSound(es[1..], ExtractRange(es[0]), v);
      }
    case Or(es) =>
      assert EvalOr(es, OfNat(v)).True?;
      if Holds(es[0], OfNat(v)) {
        ExtractRangeSound(es[0], v);
      }
      FoldOrSound(es[1..], ExtractRange(es[0]), v);
    case Opaque(_) =>
  }

  lemma {:induction false} FoldAndSound(es: seq<Expr>, acc: Range, v: u64)
    requires Admits(acc, v) && EvalAnd(es, OfNat(v)).True?
    ensures Admits(FoldRanges(es, acc, true), v)
    decreases es, 1
  {
    if es != [] {
      ExtractRangeSound(es[0], v);
      FoldAndSound(es[1..], Intersect(acc, ExtractRange(es[0])), v);
    }
  }

  lemma {:induction false} FoldOrSound(es: seq<Expr>, acc: Range, v: u64)
    requires Admits(acc, v) || EvalOr(es, OfNat(v)).True?
    ensures Admits(FoldRanges(es, acc, false), v)
    decreases es, 1
  {
    if es != [] {
      if Holds(es[0], OfNat(v)) {
        ExtractRangeSound(es[0], v);
      }
      FoldOrSound(es[1..], Union(acc, ExtractRange(es[0])), v);
    }
  }

  /** A comparison other than <> with an unsigned integer constant, or a conjunction of such. */
  predicate Plain(e: Expr)
    decreases e
  {
    match e
    case Compare(op, o, _) => !op.Ne? && o.Literal? && UnsignedConstant(o.c).Some?
    case And(es) => es != [] && forall k :: 0 <= k < |es| ==> Plain(es[k])
    case _ => false
  }

  lemma {:induction false} ComparisonRangeExact(op: Op, c: Const, v: u64)
    requires !op.Ne? && UnsignedConstant(c).Some?
    ensures ComparisonRange(op, c).known
    ensures Admits(ComparisonRange(op, c), v) <==> CompareTruth(op, OfNat(v), c).True?
  {
  }

  /** For conjunctions of integer comparisons the extracted range admits nothing else. */
  lemma {:induction false} ExtractRangeExact(e: Expr, v: u64)
    requires Plain(e)
    ensures ExtractRange(e).known && (Admits(ExtractRange(e), v) <==> Holds(e, OfNat(v)))
    decreases e, 0
  {
    match e
    case Compare(op, o, columnFirst) => ComparisonRangeExact(if columnFirst then op else Reverse(op), o.c, v);
    case And(es) =>
      ExtractRangeExact(es[0], v);
      FoldAndExact(es[1..], ExtractRange(es[0]), v);
      assert EvalAnd(es, OfNat(v)) == AndTruth(Eval(es[0], OfNat(v)), EvalAnd(es[1..], OfNat(v)));
  }

  lemma {:induction false} FoldAndExact(es: seq<Expr>, acc: Range, v: u64)
    requires acc.known && forall k :: 0 <= k < |es| ==> Plain(es[k])
    ensures FoldRanges(es, acc, true).known
    ensures Admits(FoldRanges(es, acc, true), v) <==> Admits(acc, v) && EvalAnd(es, OfNat(v)).True?
    decreases es, 1
  {
    if es != [] {
      ExtractRangeExact(es[0], v);
      FoldAndExact(es[1..], Intersect(acc, ExtractRange(es[0])), v);
    }
  }

  // ----- The hint extractor of the direct scan -----

  datatype SignedMagnitude = SignedMagnitude(negative: bool, magnitude: u64)

  /** A constant is written without a fraction when its type is integral or a decimal without digits for one. */
  predicate WrittenAsInteger(ty: Ty) {
    Integral(ty) || ty == TDecimal(0)
  }

  /** Casts are stripped only when they keep the type; the constant's text must be an integer whose magnitude
      fits 64 bits. */
  function ParseInteger(o: Operand): Option<SignedMagnitude> {
    var c := if o.Literal? then o.c else if o.CastLiteral? && o.identity then o.folded else NullConst;
    if c.NullConst? || !WrittenAsInteger(c.ty) || !IsFinite(c.num) then None
    else
      var k := Real(c.num).Floor;
      if k as real != Real(c.num) || k < -U64_MAX || k > U64_MAX then None
      else Some(SignedMagnitude(k < 0, if k < 0 then -k else k))
  }

  function HintFromComparison(op: Op, k: SignedMagnitude): Range {
    if k.negative then
      (match op
       case Eq => IMPOSSIBLE
       case Lt => IMPOSSIBLE
       case Le => IMPOSSIBLE
       case Gt => EVERYTHING
       case Ge => EVERYTHING
       case Ne => UNKNOWN)
    else
      match op
      case Eq => Range(true, false, k.magnitude, k.magnitude)
      case Gt => if k.magnitude == U64_MAX then IMPOSSIBLE else EVERYTHING.(lower := k.magnitude + 1)
      case Ge => EVERYTHING.(lower := k.magnitude)
      case Lt => if k.magnitude == 0 then IMPOSSIBLE else EVERYTHING.(upper := k.magnitude - 1)
      case Le => EVERYTHING.(upper := k.magnitude)
      case Ne => UNKNOWN
  }

  /** Unlike `Intersect`, an empty intersection is normalised to the impossible range. */
  function HintIntersect(a: Range, b: Range): Range {
    if !a.known then b
    else if !b.known then a
    else if a.impossible || b.impossible || Max(a.lower, b.lower) > Min(a.upper, b.upper) then IMPOSSIBLE
    else Range(true, false, Max(a.lower, b.lower), Min(a.upper, b.upper))
  }

  /** IN lists are not understood here. */
  function ExtractHint(e: Expr): Range
    decreases e, 0
  {
    match e
    case Compare(op, o, columnFirst) =>
      var k := ParseInteger(o);
      if k.None? then UNKNOWN else HintFromComparison(if columnFirst then op else Reverse(op), k.value)
    case Between(lo, hi, _, _) =>
      var l, h := ParseInteger(lo), ParseInteger(hi);
      if l.None? || h.None? then UNKNOWN
      else HintIntersect(HintFromComparison(Ge, l.value), HintFromComparison(Le, h.value))
    case In(_) => UNKNOWN
    case And(es) => if es == [] then UNKNOWN else FoldHints(es[1..], ExtractHint(es[0]), true)
    case Or(es) => if es == [] then UNKNOWN else FoldHints(es[1..], ExtractHint(es[0]), false)
    case Opaque(_) => UNKNOWN
  }

  function FoldHints(es: seq<Expr>, acc: Range, conjunction: bool): Range
    decreases es, 1
  {
    if es == [] then acc
    else
      var r := ExtractHint(es[0]);
      FoldHints(es[1..], if conjunction then HintIntersect(acc, r) else Union(acc, r), conjunction)
  }

  lemma {:induction false} ComparisonHintSound(op: Op, o: Operand, v: u64)
    requires ParseInteger(o).Some?
    requires CompareTruth(op, OfNat(v), OperandValue(o, OfNat(v))).True?
    ensures Admits(HintFromComparison(op, ParseInteger(o).value), v)
  {
  }

  /** An entry id for which the filter is TRUE lies in the extracted hint. */
  lemma {:induction false} ExtractHintSound(e: Expr, v: u64)
    requires Holds(e, OfNat(v))
    ensures Admits(ExtractHint(e), v)
    decreases e, 0
  {
    match e
    case Compare(op, o, columnFirst) =>
      if ParseInteger(o).Some? {
        ComparisonHintSound(if columnFirst then op else Reverse(op), o, v);
      }
    case Between(lo, hi, _, _) =>
      if ParseInteger(lo).Some? && ParseInteger(hi).Some? {
        ComparisonHintSound(Ge, lo, v);
        ComparisonHintSound(Le, hi, v);
      }
    case In(_) =>
    case And(es) =>
      assert EvalAnd(es, OfNat(v)).True?;
      if es != [] {
        ExtractHintSound(es[0], v);
        FoldAndHintSound(es[1..], ExtractHint(es[0]), v);
      }
    case Or(es) =>
      assert EvalOr(es, OfNat(v)).True?;
      if Holds(es[0], OfNat(v)) {
        ExtractHintSound(es[0], v);
      }
      FoldOrHintSound(es[1..], ExtractHint(es[0]), v);
    case Opaque(_) =>
  }

  lemma {:induction false} FoldAndHintSound(es: seq<Expr>, acc: Range, v: u64)
    requires Admits(acc, v) && EvalAnd(es, OfNat(v)).True?
    ensures Admits(FoldHints(es, acc, true), v)
    decreases es, 1
  {
    if es != [] {
      ExtractHintSound(es[0], v);
      FoldAndHintSound(es[1..], HintIntersect(acc, ExtractHint(es[0])), v);
    }
  }

  lemma {:induction false} FoldOrHintSound(es: seq<Expr>, acc: Range, v: u64)
    requires Admits(acc, v) || EvalOr(es, OfNat(v)).True?
    ensures Admits(FoldHints(es, acc, false), v)
    decreases es, 1
  {
    if es != [] {
      if Holds(es[0], OfNat(v)) {
        ExtractHintSound(es[0], v);
      }
      FoldOrHintSound(es[1..], Union(acc, ExtractHint(es[0])), v);
    }
  }

  /** A comparison other than <> with a constant that is written as an integer, or a conjunction of such. */
  predicate PlainHint(e: Expr)
    decreases e
  {
    match e
    case Compare(op, o, _) => !op.Ne? && ParseInteger(o).Some?
    case And(es) => es != [] && forall k :: 0 <= k < |es| ==> PlainHint(es[k])
    case _ => false
  }

  lemma {:induction false} ComparisonHintExact(op: Op, o: Operand, v: u64)
    requires !op.Ne? && ParseInteger(o).Some?
    ensures HintFromComparison(op, ParseInteger(o).value).known
    ensures Admits(HintFromComparison(op, ParseInteger(o).value), v) <==>
            CompareTruth(op, OfNat(v), OperandValue(o, OfNat(v))).True?
  {
  }

  /** For conjunctions of integer comparisons the hint admits nothing else. */
  lemma {:induction false} ExtractHintExact(e: Expr, v: u64)
    requires PlainHint(e)
    ensures ExtractHint(e).known && (Admits(ExtractHint(e), v) <==> Holds(e, OfNat(v)))
    decreases e, 0
  {
    match e
    case Compare(op, o, columnFirst) => ComparisonHintExact(if columnFirst then op else Reverse(op), o, v);
    case And(es) =>
      ExtractHintExact(es[0], v);
      FoldAndHintExact(es[1..], ExtractHint(es[0]), v);
      assert EvalAnd(es, OfNat(v)) == AndTruth(Eval(es[0], OfNat(v)), EvalAnd(es[1..], OfNat(v)));
  }

  lemma {:induction false} FoldAndHintExact(es: seq<Expr>, acc: Range, v: u64)
    requires acc.known && forall k :: 0 <= k < |es| ==> PlainHint(es[k])
    ensures FoldHints(es, acc, true).known
    ensures Admits(FoldHints(es, acc, true), v) <==> Admits(acc, v) && EvalAnd(es, OfNat(v)).True?
    decreases es, 1
  {
    if es != [] {
      ExtractHintExact(es[0], v);
      FoldAndHintExact(es[1..], HintIntersect(acc, ExtractHint(es[0])), v);
    }
  }
}
