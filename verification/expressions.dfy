/** Bound filter expressions over one column, their SQL meaning, and the zonemap
    clause and the Bloom probe that metadata pruning derives from them. */
module Expressions {
  import opened Numbers

  // ----- Three-valued truth -----

  datatype Truth = True | False | Unknown

  function AndTruth(a: Truth, b: Truth): Truth {
    if a.False? || b.False? then False
    else if a.Unknown? || b.Unknown? then Unknown
    else True
  }

  function OrTruth(a: Truth, b: Truth): Truth {
    if a.True? || b.True? then True
    else if a.Unknown? || b.Unknown? then Unknown
    else False
  }

  function OfBool(b: bool): Truth {
    if b then True else False
  }

  // ----- Types, constants, expressions -----

  datatype Ty =
    | TBool | TInt8 | TUInt8 | TInt16 | TUInt16 | TInt32 | TUInt32
    | TInt64 | TUInt64 | THugeInt | TDecimal(scale: nat) | TFloat | TDouble | TOther

  /** The types a ROOT column can have. */
  predicate ColumnType(ty: Ty) {
    !ty.THugeInt? && !ty.TDecimal? && !ty.TOther?
  }

  /** Types whose index statistics are kept as doubles without loss. */
  predicate DoubleBacked(ty: Ty) {
    ColumnType(ty) && !ty.TInt64? && !ty.TUInt64?
  }

  predicate Integral(ty: Ty) {
    !ty.TBool? && !ty.TDecimal? && !ty.TFloat? && !ty.TDouble? && !ty.TOther?
  }

  datatype Const = NullConst | Const(ty: Ty, num: Num)

  /** The constant side of a comparison. A cast that folds to a constant is known
      by its folded value; `identity` says that the cast kept the type. A
      `Computed` operand is anything else the executor evaluates. */
  datatype Operand =
    | Literal(c: Const)
    | CastLiteral(folded: Const, identity: bool)
    | Computed(eval: Num -> Const)

  datatype Op = Eq | Ne | Lt | Le | Gt | Ge

  datatype Expr =
    | Compare(op: Op, operand: Operand, columnFirst: bool)
    | Between(lo: Operand, hi: Operand, loInclusive: bool, hiInclusive: bool)
    | In(items: seq<Operand>)
    | And(conjuncts: seq<Expr>)
    | Or(disjuncts: seq<Expr>)
    | Opaque(holds: Num -> Truth)

  function Reverse(op: Op): Op {
    match op
    case Lt => Gt
    case Le => Ge
    case Gt => Lt
    case Ge => Le
    case Eq => Eq
    case Ne => Ne
  }

  // ----- SQL meaning -----

  function OperandValue(o: Operand, v: Num): Const {
    match o
    case Literal(c) => c
    case CastLiteral(c, _) => c
    case Computed(f) => f(v)
  }

  predicate Compares(op: Op, a: Num, b: Num) {
    match op
    case Eq => SqlEqual(a, b)
    case Ne => !SqlEqual(a, b)
    case Lt => SqlLess(a, b)
    case Le => SqlLess(a, b) || SqlEqual(a, b)
    case Gt => SqlLess(b, a)
    case Ge => SqlLess(b, a) || SqlEqual(a, b)
  }

  function CompareTruth(op: Op, a: Num, c: Const): Truth {
    if c.NullConst? then Unknown else OfBool(Compares(op, a, c.num))
  }

  function EvalIn(items: seq<Operand>, v: Num): Truth {
    if items == [] then False
    else OrTruth(CompareTruth(Eq, v, OperandValue(items[0], v)), EvalIn(items[1..], v))
  }

  /** The value DuckDB's executor gives the expression for a non-NULL column value. */
  function Eval(e: Expr, v: Num): Truth
    decreases e, 0
  {
    match e
    case Compare(op, o, true) => CompareTruth(op, v, OperandValue(o, v))
    case Compare(op, o, false) => CompareTruth(Reverse(op), v, OperandValue(o, v))
    case Between(lo, hi, li, hi_i) =>
      AndTruth(CompareTruth(if li then Ge else Gt, v, OperandValue(lo, v)),
               CompareTruth(if hi_i then Le else Lt, v, OperandValue(hi, v)))
    case In(items) => EvalIn(items, v)
    case And(es) => EvalAnd(es, v)
    case Or(es) => EvalOr(es, v)
    case Opaque(f) => f(v)
  }

  function EvalAnd(es: seq<Expr>, v: Num): Truth
    decreases es, 1
  {
    if es == [] then True else AndTruth(Eval(es[0], v), EvalAnd(es[1..], v))
  }

  function EvalOr(es: seq<Expr>, v: Num): Truth
    decreases es, 1
  {
    if es == [] then False else OrTruth(Eval(es[0], v), EvalOr(es[1..], v))
  }

  predicate Holds(e: Expr, v: Num) {
    Eval(e, v).True?
  }

  // ----- Zonemap clauses -----

  /** Where a metadata row keeps its extremes; NULL when it holds no finite value. */
  datatype Zone = Zone(min: Option<real>, max: Option<real>)

  datatype Clause =
    | MinLt(x: real) | MinLe(x: real) | MaxGt(x: real) | MaxGe(x: real)
    | AllOf(parts: seq<Clause>) | AnyOf(parts: seq<Clause>) | Never

  function BoundTruth(bound: Option<real>, test: real -> bool): Truth {
    if bound.None? then Unknown else OfBool(test(bound.value))
  }

  function ClauseTruth(c: Clause, z: Zone): Truth
    decreases c, 0
  {
    match c
    case MinLt(x) => BoundTruth(z.min, m => m < x)
    case MinLe(x) => BoundTruth(z.min, m => m <= x)
    case MaxGt(x) => BoundTruth(z.max, m => m > x)
    case MaxGe(x) => BoundTruth(z.max, m => m >= x)
    case AllOf(ps) => AllTruth(ps, z)
    case AnyOf(ps) => AnyTruth(ps, z)
    case Never => False
  }

  function AllTruth(ps: seq<Clause>, z: Zone): Truth
    decreases ps, 1
  {
    if ps == [] then True else AndTruth(ClauseTruth(ps[0], z), AllTruth(ps[1..], z))
  }

  function AnyTruth(ps: seq<Clause>, z: Zone): Truth
    decreases ps, 1
  {
    if ps == [] then False else OrTruth(ClauseTruth(ps[0], z), AnyTruth(ps[1..], z))
  }

  /** A literal is usable only when its type is the column's physical type and it is finite. */
  function UsableLiteral(c: Const, ty: Ty): Option<real> {
    if c.NullConst? || c.ty != ty || !ColumnType(ty) || !IsFinite(c.num) then None else Some(Real(c.num))
  }

  function FoldedConstant(o: Operand): Option<Const> {
    match o
    case Literal(c) => Some(c)
    case CastLiteral(c, _) => Some(c)
    case Computed(_) => None
  }

  function ComparisonClause(op: Op, c: Const, ty: Ty): Option<Clause> {
    var lit := UsableLiteral(c, ty);
    if lit.None? then None else
    match op
    case Eq => Some(AllOf([MinLe(lit.value), MaxGe(lit.value)]))
    case Lt => Some(MinLt(lit.value))
    case Le => Some(MinLe(lit.value))
    case Gt => Some(MaxGt(lit.value))
    case Ge => Some(MaxGe(lit.value))
    case Ne => None
  }

  /** The non-NULL constants of an IN list, or None when some item is not a constant. */
  function InConstants(items: seq<Operand>): Option<seq<Const>> {
    if items == [] then Some([])
    else
      var first := FoldedConstant(items[0]);
      var rest := InConstants(items[1..]);
      if first.None? || rest.None? then None
      else if first.value.NullConst? then rest
      else Some([first.value] + rest.value)
  }

  function EqualityClauses(cs: seq<Const>, ty: Ty): Option<seq<Clause>> {
    if cs == [] then Some([])
    else
      var first := ComparisonClause(Eq, cs[0], ty);
      var rest := EqualityClauses(cs[1..], ty);
      if first.None? || rest.None? then None else Some([first.value] + rest.value)
  }

  function Joined(parts: seq<Clause>, conjunction: bool): Option<Clause> {
    if parts == [] then None else Some(if conjunction then AllOf(parts) else AnyOf(parts))
  }

  /** The SQL condition pushed to the catalog; None stands for the empty clause text. */
  function ZonemapClause(e: Expr, ty: Ty): Option<Clause>
    decreases e, 0
  {
    match e
    case Compare(op, o, columnFirst) =>
      var c := FoldedConstant(o);
      if c.None? || c.value.NullConst? then None
      else ComparisonClause(if columnFirst then op else Reverse(op), c.value, ty)
    case Between(lo, hi, _, _) =>
      var l, h := FoldedConstant(lo), FoldedConstant(hi);
      if l.None? || h.None? then None
      else
        var first, second := ComparisonClause(Ge, l.value, ty), ComparisonClause(Le, h.value, ty);
        if first.None? || second.None? then None else Some(AllOf([first.value, second.value]))
    case In(items) =>
      var cs := InConstants(items);
      if items == [] || cs.None? then None
      else
        var parts := EqualityClauses(cs.value, ty);
        if parts.None? then None
        else if parts.value == [] then Some(Never)
        else Some(AnyOf(parts.value))
    case And(es) => Joined(ConjunctClauses(es, ty), true)
    case Or(es) =>
      var parts := DisjunctClauses(es, ty);
      if parts.None? then None else Joined(parts.value, false)
    case Opaque(_) => None
  }

  /** An unrecognised conjunct is dropped. */
  function ConjunctClauses(es: seq<Expr>, ty: Ty): seq<Clause>
    decreases es, 1
  {
    if es == [] then []
    else
      var c := ZonemapClause(es[0], ty);
      (if c.None? then [] else [c.value]) + ConjunctClauses(es[1..], ty)
  }

  /** An unrecognised disjunct disables the whole OR. */
  function DisjunctClauses(es: seq<Expr>, ty: Ty): Option<seq<Clause>>
    decreases es, 1
  {
    if es == [] then Some([])
    else
      var c := ZonemapClause(es[0], ty);
      var rest := DisjunctClauses(es[1..], ty);
      if c.None? || rest.None? then None else Some([c.value] + rest.value)
  }

  // ----- Zonemap soundness -----

  predicate Inside(v: Num, z: Zone) {
    IsFinite(v) && z.min.Some? && z.max.Some? && z.min.value <= Real(v) <= z.max.value
  }

  predicate ClauseAdmits(c: Option<Clause>, z: Zone) {
    c.None? || ClauseTruth(c.value, z).True?
  }

  lemma {:induction false} AllTruthConcat(a: seq<Clause>, b: seq<Clause>, z: Zone)
    ensures AllTruth(a + b, z).True? <==> AllTruth(a, z).True? && AllTruth(b, z).True?
  {
    if a == [] {
      assert a + b == b;
    } else {
      AllTruthConcat(a[1..], b, z);
      assert (a + b)[1..] == a[1..] + b;
    }
  }

  lemma {:induction false} PairTruth(a: Clause, b: Clause, z: Zone)
    requires ClauseTruth(a, z).True? && ClauseTruth(b, z).True?
    ensures ClauseTruth(AllOf([a, b]), z).True?
  {
    assert [a, b][1..] == [b] && [b][1..] == [];
    assert AllTruth([b], z).True?;
  }

  lemma {:induction false} ComparisonClauseSound(op: Op, c: Const, ty: Ty, v: Num, z: Zone)
    requires Inside(v, z) && CompareTruth(op, v, c).True?
    ensures ClauseAdmits(ComparisonClause(op, c, ty), z)
  {
    if ComparisonClause(op, c, ty).Some? && op.Eq? {
      var x := UsableLiteral(c, ty).value;
      PairTruth(MinLe(x), MaxGe(x), z);
    }
  }

  lemma {:induction false} InClauseSound(items: seq<Operand>, ty: Ty, v: Num, z: Zone)
    requires Inside(v, z) && EvalIn(items, v).True?
    requires InConstants(items).Some?
    requires EqualityClauses(InConstants(items).value, ty).Some?
    ensures AnyTruth(EqualityClauses(InConstants(items).value, ty).value, z).True?
  {
    var c := FoldedConstant(items[0]).value;
    var cs := InConstants(items).value;
    if c.NullConst? {
      InClauseSound(items[1..], ty, v, z);
    } else {
      assert cs[0] == c && cs[1..] == InConstants(items[1..]).value;
      var parts := EqualityClauses(cs, ty).value;
      assert parts[1..] == EqualityClauses(cs[1..], ty).value;
      if CompareTruth(Eq, v, c).True? {
        ComparisonClauseSound(Eq, c, ty, v, z);
      } else {
        InClauseSound(items[1..], ty, v, z);
      }
    }
  }

  /** A zone that encloses a finite value for which the filter is TRUE passes the clause. */
  lemma {:induction false} ZonemapSound(e: Expr, ty: Ty, v: Num, z: Zone)
    requires Inside(v, z) && Holds(e, v)
    ensures ClauseAdmits(ZonemapClause(e, ty), z)
    decreases e, 0
  {
    match e
    case Compare(op, o, columnFirst) =>
      var c := FoldedConstant(o);
      if c.Some? {
        ComparisonClauseSound(if columnFirst then op else Reverse(op), c.value, ty, v, z);
      }
    case Between(lo, hi, li, ui) =>
      var l, h := FoldedConstant(lo), FoldedConstant(hi);
      if ZonemapClause(e, ty).Some? {
        ComparisonClauseSound(Ge, l.value, ty, v, z);
        ComparisonClauseSound(Le, h.value, ty, v, z);
        PairTruth(ComparisonClause(Ge, l.value, ty).value, ComparisonClause(Le, h.value, ty).value, z);
      }
    case In(items) =>
      if ZonemapClause(e, ty).Some? {
        InClauseSound(items, ty, v, z);
      }
    case And(es) =>
      ConjunctsSound(es, ty, v, z);
    case Or(es) =>
      if DisjunctClauses(es, ty).Some? {
        DisjunctsSound(es, ty, v, z);
      }
    case Opaque(_) =>
  }

  lemma {:induction false} ConjunctsSound(es: seq<Expr>, ty: Ty, v: Num, z: Zone)
    requires Inside(v, z) && EvalAnd(es, v).True?
    ensures AllTruth(ConjunctClauses(es, ty), z).True?
    decreases es, 1
  {
    if es != [] {
      ZonemapSound(es[0], ty, v, z);
      ConjunctsSound(es[1..], ty, v, z);
      var c := ZonemapClause(es[0], ty);
      if c.Some? {
        assert AllTruth([c.value], z).True? by { assert [c.value][1..] == []; }
        AllTruthConcat([c.value], ConjunctClauses(es[1..], ty), z);
      } else {
        assert [] + ConjunctClauses(es[1..], ty) == ConjunctClauses(es[1..], ty);
      }
    }
  }

  lemma {:induction false} DisjunctsSound(es: seq<Expr>, ty: Ty, v: Num, z: Zone)
    requires Inside(v, z) && EvalOr(es, v).True?
    requires DisjunctClauses(es, ty).Some?
    ensures AnyTruth(DisjunctClauses(es, ty).value, z).True?
    decreases es, 1
  {
    var parts := DisjunctClauses(es, ty).value;
    assert parts[1..] == DisjunctClauses(es[1..], ty).value;
    if Holds(es[0], v) {
      ZonemapSound(es[0], ty, v, z);
    } else {
      DisjunctsSound(es[1..], ty, v, z);
    }
  }

  // ----- Zonemap clauses prune as much as they can -----

  /** Some number between the extremes satisfies the filter. */
  ghost predicate SomeInside(e: Expr, z: Zone)
    requires z.min.Some? && z.max.Some?
  {
    exists r: real :: z.min.value <= r <= z.max.value && Holds(e, Fin(r))
  }

  /** A comparison other than <> with a finite constant of the column's own type. */
  predicate PlainComparison(e: Expr, ty: Ty) {
    e.Compare? && !e.op.Ne? && e.operand.Literal? && UsableLiteral(e.operand.c, ty).Some?
  }

  lemma {:induction false} SatisfiedAt(e: Expr, z: Zone, r: real)
    requires z.min.Some? && z.max.Some? && z.min.value <= r <= z.max.value && Holds(e, Fin(r))
    ensures SomeInside(e, z)
  {
  }

  /** The clause of a comparison passes a zone exactly if some number between its extremes satisfies it. */
  lemma {:induction false} ComparisonClauseExact(e: Expr, ty: Ty, z: Zone)
    requires PlainComparison(e, ty) && z.min.Some? && z.max.Some? && z.min.value <= z.max.value
    ensures ZonemapClause(e, ty).Some?
    ensures ClauseAdmits(ZonemapClause(e, ty), z) <==> SomeInside(e, z)
  {
    var op := if e.columnFirst then e.op else Reverse(e.op);
    var x := UsableLiteral(e.operand.c, ty).value;
    if SomeInside(e, z) {
      var r: real :| z.min.value <= r <= z.max.value && Holds(e, Fin(r));
      ZonemapSound(e, ty, Fin(r), z);
    }
    if ClauseAdmits(ZonemapClause(e, ty), z) {
      if op.Eq? {
        BothTrue(MinLe(x), MaxGe(x), z);
        SatisfiedAt(e, z, x);
      } else {
        SatisfiedAt(e, z, if op.Lt? || op.Le? then z.min.value else z.max.value);
      }
    }
  }

  lemma {:induction false} BothTrue(a: Clause, b: Clause, z: Zone)
    requires ClauseTruth(AllOf([a, b]), z).True?
    ensures ClauseTruth(a, z).True? && ClauseTruth(b, z).True?
  {
    assert [a, b][1..] == [b];
    assert AllTruth([a, b], z) == AndTruth(ClauseTruth(a, z), AllTruth([b], z));
  }

  /** The clause of a conjunction of comparisons passes exactly if each of them could be satisfied. */
  lemma {:induction false} ConjunctionClauseExact(es: seq<Expr>, ty: Ty, z: Zone)
    requires es != [] && forall k :: 0 <= k < |es| ==> PlainComparison(es[k], ty)
    requires z.min.Some? && z.max.Some? && z.min.value <= z.max.value
    ensures ClauseAdmits(ZonemapClause(And(es), ty), z) <==> forall k :: 0 <= k < |es| ==> SomeInside(es[k], z)
  {
    ConjunctsExact(es, ty, z);
    ComparisonClauseExact(es[0], ty, z);
    assert ConjunctClauses(es, ty) != [];
  }

  lemma {:induction false} ConjunctsExact(es: seq<Expr>, ty: Ty, z: Zone)
    requires forall k :: 0 <= k < |es| ==> PlainComparison(es[k], ty)
    requires z.min.Some? && z.max.Some? && z.min.value <= z.max.value
    ensures AllTruth(ConjunctClauses(es, ty), z).True? <==> forall k :: 0 <= k < |es| ==> SomeInside(es[k], z)
  {
    if es != [] {
      ComparisonClauseExact(es[0], ty, z);
      ConjunctsExact(es[1..], ty, z);
      var c := ZonemapClause(es[0], ty).value;
      assert [c][1..] == [];
      AllTruthConcat([c], ConjunctClauses(es[1..], ty), z);
      assert es == [es[0]] + es[1..];
      assert forall k :: 0 <= k < |es| - 1 ==> es[1..][k] == es[k + 1];
      assert forall k :: 1 <= k < |es| ==> es[k] == es[1..][k - 1];
    }
  }
}
