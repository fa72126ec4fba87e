/**
 * The stack machine of src/evaluator.rs. `evaluate` walks a node list with
 * one operand stack; a Block runs on a stack of its own whose result is
 * dropped.
 *
 * `Exec` is the specification: the outcome of running a node list from a
 * given stack. Besides the two outcomes `evaluate` returns, it has a third,
 * `Aborted`, for the cases where the source panics: `pop().unwrap()` on a
 * stack with fewer than two entries, and i32 arithmetic that overflows or
 * divides by zero. `Evaluate` requires that this outcome is not reached.
 */
module Evaluator {
  import opened Wrappers
  import opened Int32
  import opened Parser

  datatype Outcome = Done(stack: seq<ValueType>) | Failed(message: string) | Aborted

  predicate IsArithmetic(k: InstructionKind) { !k.Push? && !k.Pop? }

  /** The word naming an arithmetic operation in its type error. */
  function OpName(k: InstructionKind): string
    requires IsArithmetic(k)
  {
    match k
    case Add => "add"
    case Sub => "sub"
    case Mul => "mul"
    case Div => "div"
    case Mod => "mod"
  }

  /**
   * The mathematical value of `b OP a`, where `b` is the entry below the
   * top and `a` the top: Rust's operators, with `/` and `%` truncating.
   */
  function Exact(k: InstructionKind, b: int, a: int): int
    requires IsArithmetic(k)
    requires (k.Div? || k.Mod?) ==> a != 0
  {
    match k
    case Add => a + b
    case Sub => b - a
    case Mul => a * b
    case Div => TruncDiv(b, a)
    case Mod => TruncRem(b, a)
  }

  /**
   * An i32 operation: the exact value when Rust computes it, `None` when
   * Rust panics. Addition, subtraction and multiplication panic exactly when
   * the value leaves the i32 range; division and remainder exactly on a zero
   * divisor or on `i32::MIN` by -1 (for the remainder even though 0 fits).
   */
  function Arith(k: InstructionKind, b: Int32, a: Int32): (r: Option<Int32>)
    requires IsArithmetic(k)
    ensures (k.Add? || k.Sub? || k.Mul?) ==> (r.None? <==> !InRange(Exact(k, b, a)))
    ensures (k.Div? || k.Mod?) ==> (r.None? <==> a == 0 || (b == MIN && a == -1))
    ensures r.Some? ==> r.value == Exact(k, b, a)
  {
    if (k.Div? || k.Mod?) && a == 0 then None
    else if k.Mod? && b == MIN && a == -1 then None
    else
      var x := Exact(k, b, a);
      if k.Div? then
        TruncDivOverflowsOnlyAtMinByMinusOne(b, a);
        if InRange(x) then Some(x) else None
      else if k.Mod? then
        TruncRemInRange(b, a);
        Some(x)
      else if InRange(x) then Some(x) else None
  }

  /** One instruction applied to a stack. */
  function Apply(ins: Instruction, stack: seq<ValueType>): Outcome {
    match ins.kind
    case Push => Done(stack + ins.params)
    case Pop => Done(if stack == [] then [] else stack[..|stack| - 1])
    case _ =>
      if |stack| < 2 then Aborted
      else
        var a, b := stack[|stack| - 1], stack[|stack| - 2];
        if a.Integer? && b.Integer? then
          match Arith(ins.kind, b.n, a.n)
          case Some(v) => Done(stack[..|stack| - 2] + [Integer(v)])
          case None => Aborted
        else Failed("Invalid types for " + OpName(ins.kind))
  }

  /** A Block's effect on the enclosing stack, given the outcome of its own run. */
  function Enclose(inner: Outcome, stack: seq<ValueType>): Outcome {
    if inner.Done? then Done(stack) else inner
  }

  /** Running one node on `stack`. */
  function Run(node: Node, stack: seq<ValueType>): Outcome
    decreases node
  {
    match node.kind
    case Instr(ins) => Apply(ins, stack)
    case Block(inner) => Enclose(Exec(inner, []), stack)
  }

  /** Running `nodes` from `stack`: each node on the stack the previous one left, up to the first error or panic. */
  function Exec(nodes: seq<Node>, stack: seq<ValueType>): Outcome
    decreases nodes
  {
    if nodes == [] then Done(stack)
    else
      var o := Run(nodes[0], stack);
      if o.Done? then Exec(nodes[1..], o.stack) else o
  }

  /** What running `rest` after an outcome gives: an error or panic stops the run. */
  function Continue(o: Outcome, rest: seq<Node>): Outcome {
    if o.Done? then Exec(rest, o.stack) else o
  }

  // ---------------------------------------------------------------------------
  // The imperative evaluator

  /**
   * One arithmetic instruction on the stack, the way each of the five
   * arithmetic arms of `evaluate` does it: pop the top, pop the next, and
   * push the result or report the type error.
   */
  method Operate(ins: Instruction, stack: seq<ValueType>) returns (r: Result<seq<ValueType>, string>)
    requires IsArithmetic(ins.kind)
    requires !Apply(ins, stack).Aborted?
    ensures Apply(ins, stack) == if r.Success? then Done(r.value) else Failed(r.error)
  {
    var s := stack;
    var a := s[|s| - 1];
    s := s[..|s| - 1];
    var b := s[|s| - 1];
    s := s[..|s| - 1];
    if a.Integer? && b.Integer? {
      var x: int;
      match ins.kind {
        case Add => x := a.n + b.n;
        case Sub => x := b.n - a.n;
        case Mul => x := a.n * b.n;
        case Div => x := TruncDiv(b.n, a.n);
        case Mod => x := TruncRem(b.n, a.n);
      }
      r := Success(s + [Integer(x)]);
    } else {
      r := Failure("Invalid types for " + OpName(ins.kind));
    }
  }

  /**
   * One pass of the loop of `evaluate`: the node's effect on the stack, with
   * the recursive `evaluate` of a Block and the `?` that passes its error on.
   */
  method Perform(node: Node, stack: seq<ValueType>) returns (r: Result<seq<ValueType>, string>)
    requires !Run(node, stack).Aborted?
    ensures Run(node, stack) == if r.Success? then Done(r.value) else Failed(r.error)
    decreases node
  {
    match node.kind {
      case Instr(ins) =>
        match ins.kind {
          case Push =>
            var pushed := stack;
            for j := 0 to |ins.params|
              invariant pushed == stack + ins.params[..j]
            {
              pushed := pushed + [ins.params[j]];
            }
            assert ins.params[..|ins.params|] == ins.params;
            r := Success(pushed);
          case Pop =>
            if stack == [] {
              r := Success(stack);
            } else {
              r := Success(stack[..|stack| - 1]);
            }
          case _ =>
            r := Operate(ins, stack);
        }
      case Block(inner) =>
        var res := Evaluate(inner);
        if res.Failure? {
          return Failure(res.error);
        }
        r := Success(stack);
    }
  }

  /**
   * `evaluate`: runs the nodes from an empty stack and returns the final
   * stack or the first type error, as `Exec` says, provided the run does not
   * panic.
   */
  method Evaluate(nodes: seq<Node>) returns (r: Result<seq<ValueType>, string>)
    requires !Exec(nodes, []).Aborted?
    ensures Exec(nodes, []) == if r.Success? then Done(r.value) else Failed(r.error)
    ensures nodes == [] ==> r == Success([])
    decreases nodes
  {
    var stack: seq<ValueType> := [];
    for k := 0 to |nodes|
      invariant Exec(nodes[k..], stack) == Exec(nodes, [])
    {
      assert nodes[k..][1..] == nodes[k + 1..];
      var res := Perform(nodes[k], stack);
      if res.Failure? {
        return Failure(res.error);
      }
      stack := res.value;
    }
    r := Success(stack);
  }

  // ---------------------------------------------------------------------------
  // Properties of the machine

  /** Running two node lists one after the other is running their concatenation. */
  lemma {:induction false} ExecConcat(xs: seq<Node>, ys: seq<Node>, s: seq<ValueType>)
    ensures Exec(xs + ys, s) == Continue(Exec(xs, s), ys)
    decreases xs
  {
    if xs == [] {
      assert xs + ys == ys;
    } else {
      assert (xs + ys)[0] == xs[0];
      assert (xs + ys)[1..] == xs[1..] + ys;
      var o := Run(xs[0], s);
      if o.Done? {
        ExecConcat(xs[1..], ys, o.stack);
      }
    }
  }

  /** Appending a node to a program that finishes runs the node on the stack the program leaves. */
  lemma ExecSnoc(prog: seq<Node>, node: Node, s: seq<ValueType>)
    requires Exec(prog, s).Done?
    ensures Exec(prog + [node], s) == Run(node, Exec(prog, s).stack)
  {
    ExecConcat(prog, [node], s);
    var t := Exec(prog, s).stack;
    assert [node][0] == node && [node][1..] == [];
    var o := Run(node, t);
    assert Exec([node], t) == if o.Done? then Exec([], o.stack) else o;
  }

  /** Push places its parameters on top of the stack in order and leaves the entries below alone. */
  lemma PushAppendsInOrder(prog: seq<Node>, ins: Instruction, s: seq<ValueType>)
    requires ins.kind.Push? && Exec(prog, s).Done?
    ensures var t := Exec(prog, s).stack;
      var o := Exec(prog + [Node(Instr(ins))], s);
      o.Done? && |o.stack| == |t| + |ins.params|
      && o.stack[..|t|] == t && o.stack[|t|..] == ins.params
  {
    ExecSnoc(prog, Node(Instr(ins)), s);
    var t := Exec(prog, s).stack;
    assert (t + ins.params)[..|t|] == t;
  }

  /**
   * An arithmetic instruction on two integers replaces the top two entries
   * by `second OP top` (the value `Arith` gives, `Exact` of the two): the
   * stack shrinks by one and the entries below are untouched. Where `Arith`
   * has no value (i32 overflow, a zero divisor, `i32::MIN` by -1 for
   * division and remainder) the run panics.
   */
  lemma ArithmeticReplacesTopTwo(prog: seq<Node>, ins: Instruction, s: seq<ValueType>)
    requires IsArithmetic(ins.kind) && Exec(prog, s).Done?
    requires var t := Exec(prog, s).stack;
      |t| >= 2 && t[|t| - 1].Integer? && t[|t| - 2].Integer?
    ensures var t := Exec(prog, s).stack;
      var o := Exec(prog + [Node(Instr(ins))], s);
      match Arith(ins.kind, t[|t| - 2].n, t[|t| - 1].n)
      case None => o == Aborted
      case Some(v) =>
        o.Done? && |o.stack| == |t| - 1 && o.stack[..|t| - 2] == t[..|t| - 2]
        && o.stack[|t| - 2] == Integer(v)
  {
    ExecSnoc(prog, Node(Instr(ins)), s);
  }

  /** Div and Mod on the same two operands give Rust's truncating quotient and remainder. */
  lemma DivModTruncate(prog: seq<Node>, div: Instruction, rem: Instruction, s: seq<ValueType>)
    requires div.kind.Div? && rem.kind.Mod? && Exec(prog, s).Done?
    requires var t := Exec(prog, s).stack;
      |t| >= 2 && t[|t| - 1].Integer? && t[|t| - 2].Integer?
      && t[|t| - 1].n != 0 && !(t[|t| - 2].n == MIN && t[|t| - 1].n == -1)
    ensures var t := Exec(prog, s).stack;
      var a, b := t[|t| - 1].n, t[|t| - 2].n;
      var od, om := Exec(prog + [Node(Instr(div))], s), Exec(prog + [Node(Instr(rem))], s);
      od.Done? && om.Done? && |od.stack| == |om.stack| == |t| - 1
      && od.stack[|t| - 2].Integer? && om.stack[|t| - 2].Integer?
      && var q, r := od.stack[|t| - 2].n, om.stack[|t| - 2].n;
      b == q * a + r && Abs(r) < Abs(a) && (r == 0 || (r < 0 <==> b < 0))
      && Abs(q) * Abs(a) <= Abs(b)
  {
    var t := Exec(prog, s).stack;
    var a, b := t[|t| - 1].n, t[|t| - 2].n;
    ArithmeticReplacesTopTwo(prog, div, s);
    ArithmeticReplacesTopTwo(prog, rem, s);
    TruncDivision(b, a);
    TruncDivRoundsTowardZero(b, a);
  }

  /** A non-integer among the top two entries makes an arithmetic instruction fail with "Invalid types for <op>". */
  lemma ArithmeticTypeError(prog: seq<Node>, ins: Instruction, s: seq<ValueType>)
    requires IsArithmetic(ins.kind) && Exec(prog, s).Done?
    requires var t := Exec(prog, s).stack;
      |t| >= 2 && !(t[|t| - 1].Integer? && t[|t| - 2].Integer?)
    ensures Exec(prog + [Node(Instr(ins))], s) == Failed("Invalid types for " + OpName(ins.kind))
    ensures ins.kind.Add? ==> Exec(prog + [Node(Instr(ins))], s) == Failed("Invalid types for add")
  {
    ExecSnoc(prog, Node(Instr(ins)), s);
  }

  /** An arithmetic instruction on a stack with fewer than two entries panics. */
  lemma ArithmeticUnderflowPanics(prog: seq<Node>, ins: Instruction, s: seq<ValueType>)
    requires IsArithmetic(ins.kind) && Exec(prog, s).Done? && |Exec(prog, s).stack| < 2
    ensures Exec(prog + [Node(Instr(ins))], s) == Aborted
  {
    ExecSnoc(prog, Node(Instr(ins)), s);
  }

  /** Pop removes the top entry, and on an empty stack does nothing and reports nothing. */
  lemma PopDropsTop(prog: seq<Node>, ins: Instruction, s: seq<ValueType>)
    requires ins.kind.Pop? && Exec(prog, s).Done?
    ensures var t := Exec(prog, s).stack;
      var o := Exec(prog + [Node(Instr(ins))], s);
      o.Done? && (t == [] ==> o.stack == []) && (t != [] ==> t == o.stack + [t[|t| - 1]])
  {
    ExecSnoc(prog, Node(Instr(ins)), s);
  }

  /**
   * A Block runs on a fresh stack: whatever the enclosing stack holds, a
   * block that finishes leaves it as it was, and a block that fails or
   * panics ends the whole run the same way.
   */
  lemma BlockIsIsolated(prog: seq<Node>, inner: seq<Node>, s: seq<ValueType>)
    requires Exec(prog, s).Done?
    ensures Exec(inner, []).Done? ==> Exec(prog + [Node(Block(inner))], s) == Exec(prog, s)
    ensures !Exec(inner, []).Done? ==> Exec(prog + [Node(Block(inner))], s) == Exec(inner, [])
  {
    ExecSnoc(prog, Node(Block(inner)), s);
  }

  function PushInt(n: Int32): Node { Node(Instr(Instruction(Push, [Integer(n)]))) }

  function OpNode(k: InstructionKind): Node { Node(Instr(Instruction(k, []))) }

  /**
   * The operand order: pushing `b`, then `a`, then an arithmetic instruction
   * leaves `b OP a` on top of the stack the pushes started from, or panics
   * where Rust's i32 operator does.
   */
  lemma OperandOrder(s: seq<ValueType>, b: Int32, a: Int32, k: InstructionKind)
    requires IsArithmetic(k)
    ensures Exec([PushInt(b), PushInt(a), OpNode(k)], s) ==
      match Arith(k, b, a)
      case Some(v) => Done(s + [Integer(v)])
      case None => Aborted
  {
    var p := [PushInt(b), PushInt(a), OpNode(k)];
    assert p[1..] == [PushInt(a), OpNode(k)] && p[1..][1..] == [OpNode(k)];
    var t := s + [Integer(b)] + [Integer(a)];
    assert t[..|t| - 2] == s;
    assert Exec(p, s) == Exec(p[1..], s + [Integer(b)]);
    assert Exec(p[1..], s + [Integer(b)]) == Exec([OpNode(k)], t);
    assert Exec([OpNode(k)], t) == Run(OpNode(k), t) by {
      assert [OpNode(k)][1..] == [];
    }
  }

  /** 5 then 3 then Sub leaves 2: the top is subtracted from the entry below it. */
  lemma SubtractionExample(s: seq<ValueType>)
    ensures Exec([PushInt(5), PushInt(3), OpNode(Sub)], s) == Done(s + [Integer(2)])
  {
    assert Arith(Sub, 5, 3) == Some(2);
    OperandOrder(s, 5, 3, Sub);
  }

  /**
   * -7 by 2 is -3 with remainder -1, where Euclidean division would give -4
   * and 1; `i32::MIN` by -1 panics.
   */
  lemma TruncationExamples(s: seq<ValueType>)
    ensures Exec([PushInt(-7), PushInt(2), OpNode(Div)], s) == Done(s + [Integer(-3)])
    ensures Exec([PushInt(-7), PushInt(2), OpNode(Mod)], s) == Done(s + [Integer(-1)])
    ensures Exec([PushInt(MIN), PushInt(-1), OpNode(Div)], s) == Aborted
  {
    assert TruncDiv(-7, 2) == -3 && TruncRem(-7, 2) == -1;
    assert Arith(Div, -7, 2) == Some(-3) && Arith(Mod, -7, 2) == Some(-1);
    assert Arith(Div, MIN, -1) == None;
    OperandOrder(s, -7, 2, Div);
    OperandOrder(s, -7, 2, Mod);
    OperandOrder(s, MIN, -1, Div);
  }
}
