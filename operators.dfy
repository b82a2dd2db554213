// The value-level rules of src/interpreter.cpp: what each operator does
// with the values its operands evaluated to, the checks on an index and on
// a call, and the results of `&&`, `||`, `++` and `--`. The tree walk that
// produces those values is the Interpreter class.
module Operators {
  import opened Wrappers
  import opened Tokens
  import opened Ast
  import opened Values
  import Text

  /**
   * What evaluating an expression ends in: a value, a runtime error with
   * its message, or a call into code this model does not contain.
   */
  datatype Eval = Done(v: Value) | Raised(msg: string) | Beyond

  /** A number, string or boolean: the values an operator can produce. */
  predicate IsScalar(v: Value)
  {
    v.Num? || v.Str? || v.Bool?
  }

  /** evaluateLiteral(): the value a literal node carries. */
  function LiteralValue(l: Lit): (v: Value)
    ensures IsScalar(v) || v == Value.Nil
  {
    match l
    case LNum(x) => Num(x)
    case LStr(s) => Str(s)
    case LBool(b) => Bool(b)
    case LNil => Value.Nil
  }

  // ----- numbers -----

  /** static_cast<int> of a double: the integer part, rounded toward zero. */
  function Trunc(x: real): int
  {
    if x >= 0.0 then x.Floor else -((-x).Floor)
  }

  /** Truncation drops the fraction and keeps the sign: it moves toward zero by less than one. */
  lemma TruncTowardZero(x: real)
    ensures 0.0 <= x ==> 0 <= Trunc(x) && Trunc(x) as real <= x < Trunc(x) as real + 1.0
    ensures x < 0.0 ==> Trunc(x) <= 0 && Trunc(x) as real - 1.0 < x <= Trunc(x) as real
  {
  }

  /** std::fmod: x less y times the quotient truncated toward zero. */
  function Remainder(x: real, y: real): real
    requires y != 0.0
  {
    x - y * Trunc(x / y) as real
  }

  /** A fraction r of y, strictly between -y and y, has its sign fixed by y's and the fraction's. */
  lemma ScaledFraction(y: real, d: real, r: real)
    requires -1.0 < d < 1.0 && y != 0.0 && r == y * d
    ensures y > 0.0 ==> -y < r < y
    ensures y < 0.0 ==> y < r < -y
    ensures (y > 0.0 && d >= 0.0) || (y < 0.0 && d <= 0.0) ==> r >= 0.0
    ensures (y > 0.0 && d <= 0.0) || (y < 0.0 && d >= 0.0) ==> r <= 0.0
  {
    if y > 0.0 {
      assert y * d < y * 1.0;
      assert y * (-1.0) < y * d;
    } else {
      assert y * 1.0 < y * d;
      assert y * d < y * (-1.0);
    }
  }

  /** The quotient is non-negative exactly when dividend and divisor do not differ in sign. */
  lemma QuotientSign(x: real, y: real)
    requires y != 0.0
    ensures x / y * y == x
    ensures (0.0 <= x && 0.0 < y) || (x <= 0.0 && y < 0.0) ==> 0.0 <= x / y
    ensures (0.0 <= x && y < 0.0) || (x <= 0.0 && 0.0 < y) ==> x / y <= 0.0
  {
    var q := x / y;
    if 0.0 < y && q < 0.0 { assert q * y < 0.0 * y; }
    if y < 0.0 && q > 0.0 { assert q * y < 0.0; }
  }

  /**
   * The remainder is smaller in size than the divisor and takes the sign
   * of the dividend, unlike Euclidean remainder.
   */
  lemma RemainderBounds(x: real, y: real)
    requires y != 0.0
    ensures 0.0 <= x ==> 0.0 <= Remainder(x, y)
    ensures x < 0.0 ==> Remainder(x, y) <= 0.0
    ensures y > 0.0 ==> -y < Remainder(x, y) < y
    ensures y < 0.0 ==> y < Remainder(x, y) < -y
  {
    var q := x / y;
    var d := q - Trunc(q) as real;
    TruncTowardZero(q);
    QuotientSign(x, y);
    assert Remainder(x, y) == y * d by {
      assert x == q * y;
    }
    assert 0.0 <= q ==> 0.0 <= d < 1.0;
    assert q < 0.0 ==> -1.0 < d <= 0.0;
    ScaledFraction(y, d, Remainder(x, y));
  }

  /** -7 % 2 is -1 and 7 % -2 is 1, where Euclidean remainder gives 1 and 1. */
  lemma RemainderExamples()
    ensures Remainder(-7.0, 2.0) == -1.0 && Remainder(7.0, -2.0) == 1.0
  {
    assert -7.0 / 2.0 == -3.5 && Trunc(-3.5) == -3;
    assert 7.0 / -2.0 == -3.5;
  }

  // ----- binary operators -----

  /** The operators that need two number operands. */
  predicate IsNumeric(op: TokenType)
  {
    op == Minus || op == Star || op == Slash || op == Percent ||
    op == Greater || op == GreaterEqual || op == Less || op == LessEqual
  }

  /** The four ordering comparisons. */
  predicate IsComparison(op: TokenType)
  {
    op == Greater || op == GreaterEqual || op == Less || op == LessEqual
  }

  /** The arithmetic and comparisons on two numbers, once checkNumberOperands has passed. */
  function NumericOp(op: TokenType, x: real, y: real): Eval
    requires IsNumeric(op)
  {
    if op == Minus then Done(Num(x - y))
    else if op == Star then Done(Num(x * y))
    else if op == Slash then (if y == 0.0 then Raised("Division by zero") else Done(Num(x / y)))
    else if op == Percent then (if y == 0.0 then Beyond else Done(Num(Remainder(x, y))))
    else if op == Greater then Done(Bool(x > y))
    else if op == GreaterEqual then Done(Bool(x >= y))
    else if op == Less then Done(Bool(x < y))
    else Done(Bool(x <= y))
  }

  /**
   * evaluateBinary() once both operands are values. `+` adds numbers,
   * joins strings, and turns a number into text when the other operand is
   * a string; `==`/`!=` never fail; the rest need two numbers. A zero
   * divisor of `%` makes NaN, which is outside this model.
   */
  function BinaryOp(op: TokenType, a: Value, b: Value): (res: Eval)
    ensures res.Done? ==> IsScalar(res.v)
    ensures res.Beyond? <==> op == Percent && a.Num? && b.Num? && b.x == 0.0
  {
    if op == Plus then
      if a.Num? && b.Num? then Done(Num(a.x + b.x))
      else if a.Str? && b.Str? then Done(Str(a.s + b.s))
      else if a.Str? && b.Num? then Done(Str(a.s + Text.NumberToString(b.x)))
      else if a.Num? && b.Str? then Done(Str(Text.NumberToString(a.x) + b.s))
      else Raised("Operands must be two numbers or two strings")
    else if op == EqualEqual then Done(Bool(IsEqual(a, b)))
    else if op == BangEqual then Done(Bool(!IsEqual(a, b)))
    else if !IsNumeric(op) then Raised("Unknown binary operator")
    else if !(a.Num? && b.Num?) then Raised("Operands must be numbers")
    else NumericOp(op, a.x, b.x)
  }

  /**
   * `+` succeeds exactly when each operand is a number or a string; a
   * mixed pair, in either order, joins the string with the number's text.
   */
  lemma PlusCoerces(a: Value, b: Value)
    ensures BinaryOp(Plus, a, b).Done? <==> (a.Num? || a.Str?) && (b.Num? || b.Str?)
    ensures a.Num? && b.Num? ==> BinaryOp(Plus, a, b) == Done(Num(a.x + b.x))
    ensures a.Str? && b.Str? ==> BinaryOp(Plus, a, b) == Done(Str(a.s + b.s))
    ensures a.Str? && b.Num? ==> BinaryOp(Plus, a, b) == Done(Str(a.s + Text.NumberToString(b.x)))
    ensures a.Num? && b.Str? ==> BinaryOp(Plus, a, b) == Done(Str(Text.NumberToString(a.x) + b.s))
    ensures !BinaryOp(Plus, a, b).Done? ==> BinaryOp(Plus, a, b) == Raised("Operands must be two numbers or two strings")
  {
  }

  /** `"n = " + 5` is `"n = 5"`: a whole number joins without a decimal point. */
  lemma PlusJoinsWholeNumbers(s: string, n: int)
    ensures BinaryOp(Plus, Str(s), Num(n as real)) == Done(Str(s + Text.IntToString(n)))
    ensures BinaryOp(Plus, Num(n as real), Str(s)) == Done(Str(Text.IntToString(n) + s))
  {
    Text.IntegerNumberText(n);
  }

  /** `/` by zero is an error, whatever the dividend; any other divisor divides. */
  lemma DivisionByZero(x: real, y: real)
    ensures BinaryOp(Slash, Num(x), Num(y)) == if y == 0.0 then Raised("Division by zero") else Done(Num(x / y))
    ensures CompoundOp(SlashEqual, Num(x), Num(y)) == BinaryOp(Slash, Num(x), Num(y))
  {
  }

  /**
   * `<`, `<=`, `>`, `>=` (and `-`, `*`, `/`, `%`) succeed only on two
   * numbers; anything else fails with "Operands must be numbers".
   */
  lemma NumericNeedsNumbers(op: TokenType, a: Value, b: Value)
    requires IsNumeric(op)
    ensures !(a.Num? && b.Num?) ==> BinaryOp(op, a, b) == Raised("Operands must be numbers")
    ensures IsComparison(op) ==> (BinaryOp(op, a, b).Done? <==> a.Num? && b.Num?)
    ensures IsComparison(op) && a.Num? && b.Num? ==> BinaryOp(op, a, b).v.Bool?
  {
    if a.Num? && b.Num? {
      NumbersReachNumericOp(op, a, b);
      if IsComparison(op) {
        ComparisonGivesBool(op, a.x, b.x);
      }
    } else {
      NonNumbersRefused(op, a, b);
    }
  }

  lemma NumbersReachNumericOp(op: TokenType, a: Value, b: Value)
    requires IsNumeric(op) && a.Num? && b.Num?
    ensures BinaryOp(op, a, b) == NumericOp(op, a.x, b.x)
  {
    assert op != Plus && op != EqualEqual && op != BangEqual;
  }

  lemma NonNumbersRefused(op: TokenType, a: Value, b: Value)
    requires IsNumeric(op) && !(a.Num? && b.Num?)
    ensures BinaryOp(op, a, b) == Raised("Operands must be numbers")
  {
    assert op != Plus && op != EqualEqual && op != BangEqual;
  }

  lemma ComparisonGivesBool(op: TokenType, x: real, y: real)
    requires IsComparison(op)
    ensures IsNumeric(op) && NumericOp(op, x, y).Done? && NumericOp(op, x, y).v.Bool?
  {
  }

  /** `==` is the identity of values and never fails; `!=` is its negation. */
  lemma EqualityNeverFails(a: Value, b: Value)
    ensures BinaryOp(EqualEqual, a, b) == Done(Bool(a == b))
    ensures BinaryOp(BangEqual, a, b) == Done(Bool(a != b))
  {
    IsEqualIsIdentity(a, b);
  }

  /** `%` on numbers is the truncating remainder, and NaN (outside the model) by zero. */
  lemma PercentIsRemainder(x: real, y: real)
    ensures y != 0.0 ==> BinaryOp(Percent, Num(x), Num(y)) == Done(Num(Remainder(x, y)))
    ensures y == 0.0 ==> BinaryOp(Percent, Num(x), Num(y)).Beyond?
  {
  }

  // ----- unary operators -----

  /** evaluateUnary() once the operand is a value: `-` negates a number, `!` negates truthiness. */
  function UnaryOp(op: TokenType, v: Value): (res: Eval)
    reads if v.Arr? then {v.a} else {}
    ensures res.Done? ==> res.v.Num? || res.v.Bool?
  {
    if op == Minus then
      if v.Num? then Done(Num(-v.x)) else Raised("Operand must be a number")
    else if op == Bang then Done(Bool(!IsTruthy(v)))
    else Raised("Unknown unary operator")
  }

  /** `-` undoes itself on numbers and rejects everything else; `!!v` is v's truthiness. */
  lemma UnaryLaws(v: Value)
    ensures UnaryOp(Minus, v).Done? <==> v.Num?
    ensures v.Num? ==> UnaryOp(Minus, UnaryOp(Minus, v).v) == Done(v)
    ensures !v.Num? ==> UnaryOp(Minus, v) == Raised("Operand must be a number")
    ensures UnaryOp(Bang, UnaryOp(Bang, v).v) == Done(Bool(IsTruthy(v)))
  {
  }

  // ----- compound assignment and update -----

  /** The binary operator a compound assignment applies. */
  function BaseOf(op: TokenType): TokenType
  {
    if op == PlusEqual then Plus
    else if op == MinusEqual then Minus
    else if op == StarEqual then Star
    else Slash
  }

  /**
   * evaluateCompoundAssign() once the variable's current value and the
   * operand are known. Unlike `+`, `+=` accepts string += number but not
   * number += string.
   */
  function CompoundOp(op: TokenType, current: Value, operand: Value): (res: Eval)
    ensures res.Done? ==> res.v.Num? || res.v.Str?
  {
    if op == PlusEqual then
      if current.Num? && operand.Num? then Done(Num(current.x + operand.x))
      else if current.Str? && operand.Str? then Done(Str(current.s + operand.s))
      else if current.Str? && operand.Num? then Done(Str(current.s + Text.NumberToString(operand.x)))
      else Raised("Operands must be compatible for +=")
    else if op == MinusEqual || op == StarEqual || op == SlashEqual then
      if !(current.Num? && operand.Num?) then Raised("Operands must be numbers")
      else if op == MinusEqual then Done(Num(current.x - operand.x))
      else if op == StarEqual then Done(Num(current.x * operand.x))
      else if operand.x == 0.0 then Raised("Division by zero")
      else Done(Num(current.x / operand.x))
    else Raised("Unknown compound assignment operator")
  }

  /** `-=`, `*=` and `/=` compute exactly what `-`, `*` and `/` do, errors included. */
  lemma CompoundAgreesWithBinary(op: TokenType, a: Value, b: Value)
    requires op == MinusEqual || op == StarEqual || op == SlashEqual
    ensures CompoundOp(op, a, b) == BinaryOp(BaseOf(op), a, b)
  {
    var base := BaseOf(op);
    assert base == Minus || base == Star || base == Slash;
    NumericNeedsNumbers(base, a, b);
    if a.Num? && b.Num? {
      assert BinaryOp(base, a, b) == NumericOp(base, a.x, b.x);
      CompoundOnNumbers(op, a.x, b.x);
    }
  }

  lemma CompoundOnNumbers(op: TokenType, x: real, y: real)
    requires op == MinusEqual || op == StarEqual || op == SlashEqual
    ensures IsNumeric(BaseOf(op)) && CompoundOp(op, Num(x), Num(y)) == NumericOp(BaseOf(op), x, y)
  {
    if op == MinusEqual {
      assert BaseOf(op) == Minus;
    } else if op == StarEqual {
      assert BaseOf(op) == Star;
    } else {
      assert BaseOf(op) == Slash;
    }
  }

  /**
   * `+=` computes what `+` does where it succeeds, but refuses a number on
   * the left with a string on the right, which `+` accepts.
   */
  lemma PlusEqualIsOneSided(a: Value, b: Value)
    ensures CompoundOp(PlusEqual, a, b).Done? ==> CompoundOp(PlusEqual, a, b) == BinaryOp(Plus, a, b)
    ensures CompoundOp(PlusEqual, a, b).Done? <==> BinaryOp(Plus, a, b).Done? && !(a.Num? && b.Str?)
    ensures a.Num? && b.Str? ==> CompoundOp(PlusEqual, a, b) == Raised("Operands must be compatible for +=")
  {
    if a.Num? && b.Str? {
      assert BinaryOp(Plus, a, b) == Done(Str(Text.NumberToString(a.x) + b.s));
    } else if !((a.Num? || a.Str?) && (b.Num? || b.Str?)) {
      assert BinaryOp(Plus, a, b) == Raised("Operands must be two numbers or two strings");
    }
  }

  /** The new value of `++` and `--`: anything but PlusPlus counts down. */
  function Stepped(op: TokenType, x: real): real
  {
    if op == PlusPlus then x + 1.0 else x - 1.0
  }

  /** evaluateUpdate() on a number: the value the expression has, the new one for prefix, the old for postfix. */
  function UpdateValue(op: TokenType, prefix: bool, x: real): real
  {
    if prefix then Stepped(op, x) else x
  }

  /**
   * evaluateUpdate() from the variable's lookup: the lookup's error, the
   * type error for a non-number, or the value of the update expression.
   */
  function UpdateOutcome(op: TokenType, prefix: bool, current: Result<Value>): (r: Eval)
    ensures r.Done? <==> current.Ok? && current.value.Num?
    ensures r.Done? ==> r.v.Num?
  {
    if current.Fail? then Raised(current.error)
    else if !current.value.Num? then Raised("Operand must be a number for increment/decrement")
    else Done(Num(UpdateValue(op, prefix, current.value.x)))
  }

  /** `++x` and `x++` store the same new value; prefix yields it, postfix the value before; `--` undoes `++`. */
  lemma UpdateLaws(x: real)
    ensures UpdateValue(PlusPlus, true, x) == Stepped(PlusPlus, x) == x + 1.0
    ensures UpdateValue(PlusPlus, false, x) == x && UpdateValue(MinusMinus, false, x) == x
    ensures UpdateValue(MinusMinus, true, x) == x - 1.0
    ensures Stepped(MinusMinus, Stepped(PlusPlus, x)) == x
  {
  }

  // ----- logical operators -----

  /** The left operand decides `||` when truthy and `&&` (any other operator) when falsy. */
  predicate Decides(op: TokenType, left: Value)
    reads if left.Arr? then {left.a} else {}
  {
    if op == Or then IsTruthy(left) else !IsTruthy(left)
  }

  /** The value of a logical expression: the deciding left operand, else the right one. */
  function LogicalValue(op: TokenType, left: Value, right: Value): (v: Value)
    reads if left.Arr? then {left.a} else {}
    ensures v == left || v == right
  {
    if Decides(op, left) then left else right
  }

  /**
   * The value short-circuiting yields, although it is an operand and not a
   * boolean, has the truthiness of the boolean operator: `a || b` is truthy
   * when either is, `a && b` when both are.
   */
  lemma LogicalTruth(left: Value, right: Value)
    ensures IsTruthy(LogicalValue(Or, left, right)) <==> IsTruthy(left) || IsTruthy(right)
    ensures IsTruthy(LogicalValue(And, left, right)) <==> IsTruthy(left) && IsTruthy(right)
    ensures LogicalValue(Or, Num(0.0), right) == right && LogicalValue(And, Num(0.0), right) == Num(0.0)
  {
  }

  // ----- indexing -----

  /**
   * The checks of evaluateIndex() and evaluateIndexAssign(): the object
   * must be an array, the index a number, and its truncation a position
   * of the array.
   */
  function Slot(obj: Value, index: Value): (r: Result<nat>)
    reads if obj.Arr? then {obj.a} else {}
    ensures r.Ok? ==> obj.Arr? && r.value < |obj.a.elements|
  {
    if !obj.Arr? then Fail("Can only index arrays")
    else if !index.Num? then Fail("Array index must be a number")
    else
      var i := Trunc(index.x);
      if i < 0 || i >= |obj.a.elements| then Fail("Array index out of bounds: " + Text.IntToString(i))
      else Ok(i)
  }

  /**
   * An index is accepted exactly when it truncates into `0 <= i < length`;
   * a whole number is its own position, and a negative fraction above -1
   * truncates to the first element.
   */
  lemma SlotLaws(a: VoltArray, index: Value, n: int)
    ensures Slot(Arr(a), index).Ok? <==> index.Num? && 0 <= Trunc(index.x) < |a.elements|
    ensures Slot(Arr(a), index).Ok? ==> Slot(Arr(a), index).value == Trunc(index.x)
    ensures Slot(Arr(a), Num(n as real)).Ok? <==> 0 <= n < |a.elements|
    ensures !(0 <= n < |a.elements|) ==> Slot(Arr(a), Num(n as real)) == Fail("Array index out of bounds: " + Text.IntToString(n))
    ensures a.elements != [] ==> Slot(Arr(a), Num(-0.5)) == Ok(0)
  {
    assert Trunc(n as real) == n;
    assert Trunc(-0.5) == 0;
  }

  // ----- calls -----

  /** The message of the arity check of evaluateCall(). */
  function ArityMessage(arity: nat, count: nat): string
  {
    "Expected " + Text.NatToString(arity) + " arguments but got " + Text.NatToString(count)
  }

  /** The checks of evaluateCall() once callee and arguments are values. */
  function CallCheck(callee: Value, count: nat): (r: Result<Callable>)
    ensures r.Ok? ==> callee.Fn? && r.value == callee.f && r.value.arity == count
  {
    if !callee.Fn? then Fail("Can only call functions and classes")
    else if callee.f.arity != count then Fail(ArityMessage(callee.f.arity, count))
    else Ok(callee.f)
  }

  /**
   * A call goes through exactly when the callee is callable with as many
   * parameters as there are arguments; a wrong count is reported with both
   * numbers.
   */
  lemma CallCheckLaws(callee: Value, count: nat)
    ensures CallCheck(callee, count).Ok? <==> callee.Fn? && callee.f.arity == count
    ensures !callee.Fn? ==> CallCheck(callee, count) == Fail("Can only call functions and classes")
    ensures callee.Fn? && callee.f.arity != count ==> CallCheck(callee, count) == Fail(ArityMessage(callee.f.arity, count))
  {
  }

  /** Calling a two-parameter function with one argument reports "Expected 2 arguments but got 1". */
  lemma ArityMessageExample()
    ensures ArityMessage(2, 1) == "Expected 2 arguments but got 1"
  {
    assert Text.NatToString(2) == [Text.DigitChar(2)] == "2";
    assert Text.NatToString(1) == [Text.DigitChar(1)] == "1";
  }
}
