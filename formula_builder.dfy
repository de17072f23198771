/**
 * The formula builder (src/hooks/useFormulaBuilder.ts): the three list edits the hook applies
 * to its `operations` and the evaluator of the first operation.
 *
 * Each state update builds a new `Formula` from the previous one, so the edits are functions
 * from formula to formula. JavaScript numbers are reals, and NaN is `None`. The two conversions
 * the evaluator relies on, `Number(string)` and the string a numeric operand becomes when it is
 * used as a property key, are parameters bundled in `Conversions`.
 */
module FormulaBuilder {
  import opened Wrappers

  datatype FormulaOperator = Plus | Minus | Times | Divide | Greater | Less | Equal | GreaterEqual | LessEqual
  datatype OperandType = NumberOperand | PriceOperand | IndicatorOperand | ConstantOperand

  /** `string | number` */
  datatype OperandValue = Text(text: string) | Num(num: real)

  datatype FormulaOperand = FormulaOperand(kind: OperandType, value: OperandValue, labelText: Option<string>)
  datatype FormulaOperation = FormulaOperation(left: FormulaOperand, operator: FormulaOperator, right: FormulaOperand)

  /** `Partial<FormulaOperation>`: the fields to overwrite. */
  datatype OperationPatch = OperationPatch(left: Option<FormulaOperand>, operator: Option<FormulaOperator>,
                                           right: Option<FormulaOperand>)

  /** `number | boolean`; a number that is NaN is `Number(None)`. */
  datatype FormulaValue = Number(n: Option<real>) | Boolean(b: bool)

  datatype Formula = Formula(operations: seq<FormulaOperation>, result: Option<FormulaValue>)

  /** The market snapshot: optional price and indicator records. */
  datatype FormulaMarket = FormulaMarket(price: Option<map<string, real>>, indicators: Option<map<string, real>>)

  /** `Number(text)`, which is NaN (`None`) for text that is not a number, and `String(x)` for a key. */
  datatype Conversions = Conversions(toNumber: string -> Option<real>, toKey: real -> string)

  const EmptyFormula := Formula([], None)

  // ---------------------------------------------------------------- list edits

  /** `operations: [...prev.operations, operation]` */
  function AddOperation(f: Formula, op: FormulaOperation): (r: Formula)
    ensures |r.operations| == |f.operations| + 1
    ensures r.operations[..|f.operations|] == f.operations && r.operations[|f.operations|] == op
    ensures r.result == f.result
  {
    f.(operations := f.operations + [op])
  }

  /** `ops.filter((_, i) => i !== index)`, where `offset` is the position of `ops[0]` in the whole list. */
  function Without(ops: seq<FormulaOperation>, index: int, offset: int): (r: seq<FormulaOperation>)
    ensures offset <= index < offset + |ops| ==> r == ops[..index - offset] + ops[index - offset + 1..]
    ensures !(offset <= index < offset + |ops|) ==> r == ops
  {
    if ops == [] then []
    else
      var rest := Without(ops[1..], index, offset + 1);
      if offset == index then
        assert rest == ops[1..];
        rest
      else
        var k := index - offset;
        assert 0 < k < |ops| ==> [ops[0]] + (ops[1..][..k - 1] + ops[1..][k..]) == ops[..k] + ops[k + 1..];
        [ops[0]] + rest
  }

  /** `removeOperation(index)`: drops the operation at `index`; any other index changes nothing. */
  function RemoveOperation(f: Formula, index: int): (r: Formula)
    ensures 0 <= index < |f.operations| ==>
              && |r.operations| == |f.operations| - 1
              && (forall i :: 0 <= i < index ==> r.operations[i] == f.operations[i])
              && (forall i :: index <= i < |r.operations| ==> r.operations[i] == f.operations[i + 1])
    ensures !(0 <= index < |f.operations|) ==> r.operations == f.operations
    ensures r.result == f.result
  {
    f.(operations := Without(f.operations, index, 0))
  }

  /** `{ ...op, ...patch }` */
  function Merge(op: FormulaOperation, p: OperationPatch): FormulaOperation {
    FormulaOperation(p.left.GetOr(op.left), p.operator.GetOr(op.operator), p.right.GetOr(op.right))
  }

  /** `ops.map((op, i) => i === index ? { ...op, ...patch } : op)`, with `ops[0]` at position `offset`. */
  function Patched(ops: seq<FormulaOperation>, index: int, p: OperationPatch, offset: int): (r: seq<FormulaOperation>)
    ensures |r| == |ops|
    ensures forall i :: 0 <= i < |ops| ==> r[i] == if offset + i == index then Merge(ops[i], p) else ops[i]
  {
    if ops == [] then []
    else
      var rest := Patched(ops[1..], index, p, offset + 1);
      [if offset == index then Merge(ops[0], p) else ops[0]] + rest
  }

  /** `updateOperation(index, patch)`: merges the patch into the operation at `index` and nowhere else. */
  function UpdateOperation(f: Formula, index: int, p: OperationPatch): (r: Formula)
    ensures |r.operations| == |f.operations| && r.result == f.result
    ensures 0 <= index < |f.operations| ==> r.operations[index] == Merge(f.operations[index], p)
    ensures forall i :: 0 <= i < |f.operations| && i != index ==> r.operations[i] == f.operations[i]
  {
    f.(operations := Patched(f.operations, index, p, 0))
  }

  /** Removing the operation just added gives back the formula. */
  lemma RemoveUndoesAdd(f: Formula, op: FormulaOperation)
    ensures RemoveOperation(AddOperation(f, op), |f.operations|) == f
  {
    var r := RemoveOperation(AddOperation(f, op), |f.operations|);
    assert r.operations == f.operations;
  }

  /** Applying the same patch twice is applying it once. */
  lemma UpdateIdempotent(f: Formula, index: int, p: OperationPatch)
    ensures UpdateOperation(UpdateOperation(f, index, p), index, p) == UpdateOperation(f, index, p)
  {
    var once := UpdateOperation(f, index, p);
    var twice := UpdateOperation(once, index, p);
    assert twice.operations == once.operations;
  }

  /** An empty patch changes nothing. */
  lemma EmptyPatchIdentity(f: Formula, index: int)
    ensures UpdateOperation(f, index, OperationPatch(None, None, None)) == f
  {
    var r := UpdateOperation(f, index, OperationPatch(None, None, None));
    assert r.operations == f.operations;
  }

  // ---------------------------------------------------------------- evaluation

  /** `Number(value)`: a number is itself, text goes through the conversion. */
  function NumberOf(v: OperandValue, conv: Conversions): Option<real> {
    match v
    case Num(x) => Some(x)
    case Text(s) => conv.toNumber(s)
  }

  /** `value as string`: text is its own key, a number goes through the conversion. */
  function KeyOf(v: OperandValue, conv: Conversions): string {
    match v
    case Text(s) => s
    case Num(x) => conv.toKey(x)
  }

  /** `record?.[value as string] || 0`: a missing record, a missing key and a 0 all give 0. */
  function Lookup(record: Option<map<string, real>>, v: OperandValue, conv: Conversions): (r: real)
    ensures record.Some? && KeyOf(v, conv) in record.value ==> r == record.value[KeyOf(v, conv)]
    ensures record.None? || KeyOf(v, conv) !in record.value ==> r == 0.0
  {
    var key := KeyOf(v, conv);
    if record.Some? && key in record.value then record.value[key] else 0.0
  }

  /** The operand's value: a lookup for `price` and `indicator`, `Number(value)` for every other type. */
  function ResolveOperand(o: FormulaOperand, m: FormulaMarket, conv: Conversions): (r: Option<real>)
    ensures o.kind == PriceOperand ==> r == Some(Lookup(m.price, o.value, conv))
    ensures o.kind == IndicatorOperand ==> r == Some(Lookup(m.indicators, o.value, conv))
    ensures o.kind in {NumberOperand, ConstantOperand} ==> r == NumberOf(o.value, conv)
    ensures r.None? ==> o.value.Text?
  {
    match o.kind
    case NumberOperand => NumberOf(o.value, conv)
    case PriceOperand => Some(Lookup(m.price, o.value, conv))
    case IndicatorOperand => Some(Lookup(m.indicators, o.value, conv))
    case ConstantOperand => NumberOf(o.value, conv)
  }

  predicate IsComparison(op: FormulaOperator) {
    op in {Greater, Less, Equal, GreaterEqual, LessEqual}
  }

  /**
   * One operator on two numbers under IEEE rules for NaN: arithmetic on NaN is NaN, a division
   * by 0 is NaN, and every comparison with NaN is false (`===` included).
   */
  function Apply(op: FormulaOperator, l: Option<real>, r: Option<real>): (v: FormulaValue)
    ensures IsComparison(op) <==> v.Boolean?
    ensures v.Number? ==> (v.n.None? <==> l.None? || r.None? || (op == Divide && r == Some(0.0)))
    ensures v.Boolean? && v.b ==> l.Some? && r.Some?
    ensures op == Divide && v.n.Some? ==> v.n.value * r.value == l.value
  {
    if l.None? || r.None? then
      if IsComparison(op) then Boolean(false)
      else Number(None)
    else
      var x, y := l.value, r.value;
      match op
      case Plus => Number(Some(x + y))
      case Minus => Number(Some(x - y))
      case Times => Number(Some(x * y))
      case Divide => Number(if y != 0.0 then Some(x / y) else None)
      case Greater => Boolean(x > y)
      case Less => Boolean(x < y)
      case Equal => Boolean(x == y)
      case GreaterEqual => Boolean(x >= y)
      case LessEqual => Boolean(x <= y)
  }

  /** The value of one operation on a snapshot. */
  function EvaluateOperation(op: FormulaOperation, m: FormulaMarket, conv: Conversions): FormulaValue {
    Apply(op.operator, ResolveOperand(op.left, m, conv), ResolveOperand(op.right, m, conv))
  }

  /** `evaluateFormula(marketData)`: 0 for an empty formula, otherwise the first operation's value. */
  function EvaluateFormula(f: Formula, m: FormulaMarket, conv: Conversions): (r: FormulaValue)
    ensures f.operations == [] ==> r == Number(Some(0.0))
    ensures f.operations != [] ==> r == EvaluateOperation(f.operations[0], m, conv)
  {
    if |f.operations| == 0 then Number(Some(0.0)) else EvaluateOperation(f.operations[0], m, conv)
  }

  /** Only the first operation is ever evaluated: formulas that share it evaluate alike. */
  lemma OnlyFirstOperation(f: Formula, g: Formula, m: FormulaMarket, conv: Conversions)
    requires f.operations != [] && g.operations != [] && f.operations[0] == g.operations[0]
    ensures EvaluateFormula(f, m, conv) == EvaluateFormula(g, m, conv)
  {
  }

  /** Appending an operation to a non-empty formula does not change its value. */
  lemma AddKeepsValue(f: Formula, op: FormulaOperation, m: FormulaMarket, conv: Conversions)
    requires f.operations != []
    ensures EvaluateFormula(AddOperation(f, op), m, conv) == EvaluateFormula(f, m, conv)
  {
    assert AddOperation(f, op).operations[0] == f.operations[0];
  }

  /** `>` and `<` are mirror images, and on numbers `>=` is the negation of `<`. */
  lemma ComparisonDuality(l: Option<real>, r: Option<real>)
    ensures Apply(Greater, l, r) == Apply(Less, r, l)
    ensures Apply(GreaterEqual, l, r) == Apply(LessEqual, r, l)
    ensures l.Some? && r.Some? ==> Apply(GreaterEqual, l, r).b == !Apply(Less, l, r).b
    ensures l.None? || r.None? ==> !Apply(GreaterEqual, l, r).b && !Apply(Less, l, r).b
  {
  }
}
