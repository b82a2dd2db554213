// printAST (src/ast.cpp): the prefix S-expression rendering of an
// expression tree that the parser's tests compare against.
module Printer {
  import opened Tokens
  import opened Ast
  import Text
  import Lexing

  /** The nodes printAST() writes as one parenthesised form. */
  predicate Parenthesised(e: Expr)
  {
    e.Unary? || e.Binary? || e.Logical? || e.Grouping? || e.Call? || e.Assign? ||
    e.CompoundAssign? || e.Update? || e.Ternary? || e.IndexAssign?
  }

  /**
   * printAST(): one case per node kind; a null node prints as `?`. Every
   * operation prints as one `( … )` form and an array literal as `[ … ]`.
   */
  function PrintAST(e: Expr): (s: string)
    ensures Parenthesised(e) ==> |s| >= 2 && s[0] == '(' && s[|s| - 1] == ')'
    ensures e.ArrayLit? ==> |s| >= 2 && s[0] == '[' && s[|s| - 1] == ']'
    decreases e
  {
    match e
    case Literal(lit) => PrintLiteral(lit)
    case Variable(name) => name
    case Unary(op, r) => "(" + OpText(op) + " " + PrintAST(r) + ")"
    case Binary(l, op, r) => "(" + OpText(op) + " " + PrintAST(l) + " " + PrintAST(r) + ")"
    case Logical(l, op, r) => "(" + OpText(op) + " " + PrintAST(l) + " " + PrintAST(r) + ")"
    case Grouping(x) => "(group " + PrintAST(x) + ")"
    case Call(c, args) => "(call " + PrintAST(c) + PrintArgs(args) + ")"
    case Assign(name, v) => "(= " + name + " " + PrintAST(v) + ")"
    case CompoundAssign(name, op, v) => "(" + OpText(op) + " " + name + " " + PrintAST(v) + ")"
    case Update(name, op, prefix) =>
      if prefix then "(" + OpText(op) + " " + name + ")" else "(" + name + " " + OpText(op) + ")"
    case Ternary(c, t, f) => "(?: " + PrintAST(c) + " " + PrintAST(t) + " " + PrintAST(f) + ")"
    case ArrayLit(es) => "[" + PrintElements(es) + "]"
    case Index(o, i) => PrintAST(o) + "[" + PrintAST(i) + "]"
    case IndexAssign(o, i, v) => "([]= " + PrintAST(o) + " " + PrintAST(i) + " " + PrintAST(v) + ")"
    case Member(o, name) => PrintAST(o) + "." + name
    case Missing => "?"
  }

  /** Literals: std::to_string's six places for numbers, strings quoted. */
  function PrintLiteral(lit: Lit): string
  {
    match lit
    case LNum(x) => Text.FixedSix(x)
    case LStr(s) => "\"" + s + "\""
    case LBool(b) => if b then "true" else "false"
    case LNil => "nil"
  }

  /** A whole-number literal prints as its digits and six zero decimals, as std::to_string writes it. */
  lemma WholeNumberLiteral(n: nat)
    ensures PrintAST(Literal(LNum(n as real))) == Text.NatToString(n) + ".000000"
  {
    Text.FixedSixOfNat(n);
  }

  /** Call arguments, each preceded by one space. */
  function PrintArgs(args: seq<Expr>): string
    decreases args
  {
    if args == [] then "" else " " + PrintAST(args[0]) + PrintArgs(args[1..])
  }

  /** Array elements, separated by `, `. */
  function PrintElements(es: seq<Expr>): string
    decreases es
  {
    if es == [] then ""
    else if |es| == 1 then PrintAST(es[0])
    else PrintAST(es[0]) + ", " + PrintElements(es[1..])
  }

  /** No operator's text contains a space. */
  lemma OpTextUnspaced(k: TokenType)
    ensures ' ' !in OpText(k)
  {
  }

  /** `(word rest`: a word that holds no space is recovered from the text, up to the first space. */
  lemma {:induction false} OperatorEnds(w1: string, w2: string, r1: string, r2: string)
    requires ' ' !in w1 && ' ' !in w2 && w1 != w2
    ensures "(" + w1 + " " + r1 != "(" + w2 + " " + r2
  {
    var s1, s2 := "(" + w1 + " " + r1, "(" + w2 + " " + r2;
    if |w1| == |w2| {
      assert s1[1..|w1| + 1] == w1 && s2[1..|w2| + 1] == w2;
    } else if |w1| < |w2| {
      assert s1[|w1| + 1] == ' ' && s2[|w1| + 1] == w2[|w1|];
    } else {
      assert s2[|w2| + 1] == ' ' && s1[|w2| + 1] == w1[|w2|];
    }
  }

  /** The text of `(op left right)`, with the operator's word split from the rest. */
  lemma PrefixForm(w: string, left: string, right: string)
    ensures "(" + w + " " + left + " " + right + ")" == "(" + w + " " + (left + " " + right + ")")
  {
  }

  /**
   * Binary and logical nodes print in prefix form `(op left right)`, so
   * nodes with operators of different text never print alike, whatever
   * their operands.
   */
  lemma PrintedOperator(l1: Expr, op1: TokenType, r1: Expr, l2: Expr, op2: TokenType, r2: Expr)
    requires OpText(op1) != OpText(op2)
    ensures PrintAST(Binary(l1, op1, r1)) != PrintAST(Binary(l2, op2, r2))
    ensures PrintAST(Logical(l1, op1, r1)) != PrintAST(Logical(l2, op2, r2))
  {
    OpTextUnspaced(op1);
    OpTextUnspaced(op2);
    PrefixForm(OpText(op1), PrintAST(l1), PrintAST(r1));
    PrefixForm(OpText(op2), PrintAST(l2), PrintAST(r2));
    OperatorEnds(OpText(op1), OpText(op2), PrintAST(l1) + " " + PrintAST(r1) + ")", PrintAST(l2) + " " + PrintAST(r2) + ")");
  }

  /** A call without arguments prints as `(call f)`, with no space before the parenthesis. */
  lemma CallWithoutArguments(callee: Expr)
    ensures PrintAST(Call(callee, [])) == "(call " + PrintAST(callee) + ")"
  {
  }

  /** Each argument adds one space and its own text, in order. */
  lemma {:induction false} PrintArgsAppend(xs: seq<Expr>, ys: seq<Expr>)
    ensures PrintArgs(xs + ys) == PrintArgs(xs) + PrintArgs(ys)
  {
    if xs == [] {
      assert xs + ys == ys;
    } else {
      assert (xs + ys)[1..] == xs[1..] + ys;
      PrintArgsAppend(xs[1..], ys);
    }
  }

  /** Adding an argument to a call adds ` <arg>` before the closing parenthesis. */
  lemma CallArgumentsInOrder(callee: Expr, args: seq<Expr>, a: Expr)
    ensures PrintAST(Call(callee, args + [a])) ==
      "(call " + PrintAST(callee) + PrintArgs(args) + " " + PrintAST(a) + ")"
  {
    CallText(callee, args + [a]);
    PrintArgsAppend(args, [a]);
    assert PrintArgs([a]) == " " + PrintAST(a);
    Regrouped("(call " + PrintAST(callee), PrintArgs(args), " ", PrintAST(a), ")");
  }

  /** Regrouping a concatenation of five strings. */
  lemma Regrouped(a: string, b: string, c: string, d: string, e: string)
    ensures a + (b + (c + d)) + e == a + b + c + d + e
    ensures a + (b + c + d) + e == a + b + c + d + e
  {
  }

  lemma CallText(callee: Expr, args: seq<Expr>)
    ensures PrintAST(Call(callee, args)) == "(call " + PrintAST(callee) + PrintArgs(args) + ")"
  {
  }

  /**
   * Prefix and postfix updates of an identifier never print alike: the
   * prefix form starts with the operator, the postfix form with the name.
   */
  lemma UpdateFormsDiffer(name: string, op1: TokenType, op2: TokenType)
    requires |name| > 0 && Lexing.IsAlpha(name[0])
    requires op1 in {PlusPlus, MinusMinus} && op2 in {PlusPlus, MinusMinus}
    ensures PrintAST(Update(name, op1, true)) != PrintAST(Update(name, op2, false))
  {
    assert PrintAST(Update(name, op1, true))[1] == OpText(op1)[0];
    assert PrintAST(Update(name, op2, false))[1] == name[0];
  }

  /**
   * The loop of the array case: an element added at the end prints after
   * the earlier ones, preceded by `, ` unless it is the first.
   */
  lemma {:induction false} ElementsAppend(es: seq<Expr>, a: Expr)
    ensures PrintElements(es + [a]) == if es == [] then PrintAST(a) else PrintElements(es) + ", " + PrintAST(a)
    decreases es
  {
    if es == [] {
      assert es + [a] == [a];
    } else if |es| == 1 {
      assert (es + [a])[1..] == [a];
      assert PrintElements([a]) == PrintAST(a);
    } else {
      assert (es + [a])[1..] == es[1..] + [a];
      ElementsAppend(es[1..], a);
    }
  }

  /** An array literal with one more element prints it last, after `, ` unless it is the only one. */
  lemma ArrayElementsInOrder(es: seq<Expr>, a: Expr)
    ensures PrintAST(ArrayLit(es + [a])) ==
      "[" + PrintElements(es) + (if es == [] then "" else ", ") + PrintAST(a) + "]"
  {
    ArrayText(es + [a]);
    ElementsAppend(es, a);
    var xs, sep, y := PrintElements(es), if es == [] then "" else ", ", PrintAST(a);
    if es == [] {
      assert xs == "" && xs + sep + y == y;
    }
    assert PrintElements(es + [a]) == xs + sep + y;
    Regrouped("[", xs, sep, y, "]");
  }

  lemma ArrayText(es: seq<Expr>)
    ensures PrintAST(ArrayLit(es)) == "[" + PrintElements(es) + "]"
  {
  }
}
