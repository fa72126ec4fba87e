/**
 * The token parser of src/parser.rs: a cursor over the token vector with
 * the primitives `current` and `next`, `parse_identifier`, which knows only
 * `push <literal>`, and the driver loop `parse`.
 *
 * `next` and `parse_identifier` panic on some inputs (an index past the end,
 * an `unwrap` of `None`); those are their preconditions here. The driver
 * `parse` is modelled with its panics as outcomes and with a fuel bound on
 * its loop, because on every non-empty input it either panics or never
 * finishes, and saying so is the point of its model.
 */
module Parser {
  import opened Wrappers
  import opened Int32
  import L = Lexer

  datatype ValueType = Integer(n: Int32) | Float(lexeme: string) | String(text: string)

  datatype InstructionKind = Push | Add | Sub | Mul | Div | Mod | Pop

  datatype Instruction = Instruction(kind: InstructionKind, params: seq<ValueType>)

  datatype NodeKind = Instr(instruction: Instruction) | Block(nodes: seq<Node>)

  datatype Node = Node(kind: NodeKind)

  /** The errors `parse_identifier` returns; the source renders the first and the last with Rust's `Debug` format. */
  datatype ParseError =
    | UnexpectedValueType(value: L.TokenValue)
    | UnexpectedIdentifier(name: string)
    | ExpectedIdentifier(token: L.Token)

  // ---------------------------------------------------------------------------
  // The cursor primitives

  /** `current`: the token under the cursor, if the cursor is inside the vector. */
  function Current(tokens: seq<L.Token>, i: nat): (r: Option<L.Token>)
    ensures r.Some? <==> i < |tokens|
    ensures r.Some? ==> r.value == tokens[i]
  {
    if i < |tokens| then Some(tokens[i]) else None
  }

  /**
   * `next`: moves the cursor one step and returns the token it lands on,
   * with its position. Inside the vector it indexes the new position without
   * a check, so a cursor on the last token panics; that is its precondition.
   */
  method Next(tokens: seq<L.Token>, i: nat) returns (r: Option<(L.Token, nat)>, i': nat)
    requires i + 1 != |tokens|
    ensures i < |tokens| ==> i' == i + 1 && r == Some((tokens[i + 1], i + 1))
    ensures |tokens| <= i ==> i' == i && r == None
  {
    i' := i;
    if i' < |tokens| {
      i' := i' + 1;
      var tok := tokens[i'];
      r := Some((tok, i'));
    } else {
      r := None;
    }
  }

  // ---------------------------------------------------------------------------
  // `parse_identifier`

  /** The value a literal token pushes; other tokens push nothing. */
  function Literal(v: L.TokenValue): (r: Option<ValueType>)
    ensures r.Some? <==> (v.Integer? || v.Float? || v.String?)
  {
    match v
    case Integer(n) => Some(Integer(n))
    case Float(s) => Some(Float(s))
    case String(s) => Some(String(s))
    case _ => None
  }

  predicate IsPush(t: L.Token) { t.value == L.Identifier("push") }

  /** A node that pushes exactly one value. */
  predicate IsSinglePush(n: Node) {
    n.kind.Instr? && n.kind.instruction.kind == Push && |n.kind.instruction.params| == 1
  }

  /**
   * What `parse_identifier` returns at `i`: for `push` followed by a literal,
   * a Push node whose one parameter mirrors the literal, paired with the
   * literal's own position `i + 1`; otherwise the error for the first thing
   * that does not fit.
   */
  function IdentifierResult(tokens: seq<L.Token>, i: nat): (r: Result<(Node, nat), ParseError>)
    requires i < |tokens| && (IsPush(tokens[i]) ==> i + 1 < |tokens|)
    ensures r.Success? <==> IsPush(tokens[i]) && Literal(tokens[i + 1].value).Some?
    ensures r.Success? ==>
      (IsSinglePush(r.value.0) && r.value.1 == i + 1
       && Some(r.value.0.kind.instruction.params[0]) == Literal(tokens[i + 1].value))
    ensures r.Failure? && IsPush(tokens[i]) ==> r.error == UnexpectedValueType(tokens[i + 1].value)
    ensures r.Failure? && tokens[i].value.Identifier? && !IsPush(tokens[i]) ==>
      r.error == UnexpectedIdentifier(tokens[i].value.name)
    ensures !tokens[i].value.Identifier? ==> r == Failure(ExpectedIdentifier(tokens[i]))
  {
    var token := tokens[i];
    match token.value
    case Identifier(s) =>
      if s == "push" then
        match Literal(tokens[i + 1].value)
        case Some(v) => Success((Node(Instr(Instruction(Push, [v]))), i + 1))
        case None => Failure(UnexpectedValueType(tokens[i + 1].value))
      else Failure(UnexpectedIdentifier(s))
    case _ => Failure(ExpectedIdentifier(token))
  }

  /**
   * `parse_identifier`: parses the instruction at the cursor and moves the
   * cursor onto the operand of `push`. It unwraps `current` and, after
   * `push`, `next`, so it needs a token at `i` and, after `push`, one more.
   */
  method ParseIdentifier(tokens: seq<L.Token>, i: nat) returns (r: Result<(Node, nat), ParseError>, i': nat)
    requires i < |tokens|
    requires IsPush(tokens[i]) ==> i + 1 < |tokens|
    ensures r == IdentifierResult(tokens, i)
    ensures i' == if IsPush(tokens[i]) then i + 1 else i
  {
    i' := i;
    var token := Current(tokens, i').value;
    match token.value {
      case Identifier(s) =>
        if s == "push" {
          var next, moved := Next(tokens, i');
          i' := moved;
          var (tok, at) := next.value;
          i' := at;
          match tok.value {
            case Integer(n) =>
              r := Success((Node(Instr(Instruction(Push, [Integer(n)]))), i'));
            case Float(f) =>
              r := Success((Node(Instr(Instruction(Push, [Float(f)]))), i'));
            case String(s) =>
              r := Success((Node(Instr(Instruction(Push, [String(s)]))), i'));
            case _ =>
              r := Failure(UnexpectedValueType(tok.value));
          }
        } else {
          r := Failure(UnexpectedIdentifier(s));
        }
      case _ =>
        r := Failure(ExpectedIdentifier(token));
    }
  }

  // ---------------------------------------------------------------------------
  // `parse`

  /** Why `parse` panics: `next` indexing past the end, or `expect` on an error. */
  datatype Panic = IndexOutOfBounds(index: nat) | ExpectFailed(error: ParseError)

  /**
   * How a run of `parse` with a budget of loop passes ends: it returns its
   * nodes, it panics, or the budget runs out with the nodes and the cursor
   * it has reached.
   */
  datatype ParseOutcome =
    | Parsed(nodes: seq<Node>)
    | Panicked(panic: Panic)
    | OutOfFuel(nodes: seq<Node>, at: nat)

  /** The loop of `parse` from cursor `i` with `nodes` already emitted and `fuel` passes left. */
  function ParseLoop(tokens: seq<L.Token>, i: nat, nodes: seq<Node>, fuel: nat): ParseOutcome
    decreases fuel
  {
    if i >= |tokens| then Parsed(nodes)
    else if fuel == 0 then OutOfFuel(nodes, i)
    else if tokens[i].kind != "identifier" then ParseLoop(tokens, i, nodes, fuel - 1)
    else if IsPush(tokens[i]) && i + 1 == |tokens| then Panicked(IndexOutOfBounds(i + 1))
    else
      match IdentifierResult(tokens, i)
      case Success((node, next)) => ParseLoop(tokens, next, nodes + [node], fuel - 1)
      case Failure(e) => Panicked(ExpectFailed(e))
  }

  /**
   * `parse`, run for at most `fuel` passes of its loop. It finishes exactly
   * on the empty token vector, whatever the budget, and every node it emits
   * is a Push of one value.
   */
  method Parse(tokens: seq<L.Token>, fuel: nat) returns (outcome: ParseOutcome)
    ensures outcome == ParseLoop(tokens, 0, [], fuel)
    ensures outcome.Parsed? <==> tokens == []
    ensures outcome.Parsed? ==> outcome.nodes == []
    ensures !outcome.Panicked? ==> forall n :: n in outcome.nodes ==> IsSinglePush(n)
  {
    var nodes: seq<Node> := [];
    var i: nat := 0;
    var passes := fuel;
    while true
      invariant ParseLoop(tokens, i, nodes, passes) == ParseLoop(tokens, 0, [], fuel)
      decreases passes
    {
      if i >= |tokens| {
        outcome := Parsed(nodes);
        break;
      }
      if passes == 0 {
        outcome := OutOfFuel(nodes, i);
        break;
      }
      passes := passes - 1;
      var t := Current(tokens, i).value;
      if t.kind == "identifier" {
        if IsPush(t) && i + 1 == |tokens| {
          outcome := Panicked(IndexOutOfBounds(i + 1));
          break;
        }
        var parsed, _ := ParseIdentifier(tokens, i);
        if parsed.Failure? {
          outcome := Panicked(ExpectFailed(parsed.error));
          break;
        }
        nodes := nodes + [parsed.value.0];
        i := parsed.value.1;
      }
    }
    if tokens != [] {
      ParseNeverFinishes(tokens, 0, [], fuel);
    }
    ParseEmitsSinglePushes(tokens, 0, [], fuel);
  }

  // ---------------------------------------------------------------------------
  // What the driver does on non-empty input

  /** On a token whose kind is not "identifier" the loop neither moves nor emits: it spins until the budget is gone. */
  lemma {:induction false} ParseSpinsOnNonIdentifier(tokens: seq<L.Token>, i: nat, nodes: seq<Node>, fuel: nat)
    requires i < |tokens| && tokens[i].kind != "identifier"
    ensures ParseLoop(tokens, i, nodes, fuel) == OutOfFuel(nodes, i)
    decreases fuel
  {
    if fuel > 0 {
      ParseSpinsOnNonIdentifier(tokens, i, nodes, fuel - 1);
    }
  }

  /**
   * From any cursor inside the vector the loop never returns: a successful
   * `parse_identifier` leaves the cursor on the operand, which is still
   * inside the vector.
   */
  lemma {:induction false} ParseNeverFinishes(tokens: seq<L.Token>, i: nat, nodes: seq<Node>, fuel: nat)
    requires i < |tokens|
    ensures !ParseLoop(tokens, i, nodes, fuel).Parsed?
    decreases fuel
  {
    if fuel > 0 && tokens[i].kind == "identifier" && !(IsPush(tokens[i]) && i + 1 == |tokens|) {
      match IdentifierResult(tokens, i)
      case Success((node, next)) => ParseNeverFinishes(tokens, next, nodes + [node], fuel - 1);
      case Failure(_) =>
    } else if fuel > 0 {
      ParseNeverFinishes(tokens, i, nodes, fuel - 1);
    }
  }

  lemma {:induction false} ParseEmitsSinglePushes(tokens: seq<L.Token>, i: nat, nodes: seq<Node>, fuel: nat)
    requires forall n :: n in nodes ==> IsSinglePush(n)
    ensures var o := ParseLoop(tokens, i, nodes, fuel);
      !o.Panicked? ==> forall n :: n in o.nodes ==> IsSinglePush(n)
    decreases fuel
  {
    if i < |tokens| && fuel > 0 {
      if tokens[i].kind != "identifier" {
        ParseEmitsSinglePushes(tokens, i, nodes, fuel - 1);
      } else if !(IsPush(tokens[i]) && i + 1 == |tokens|) {
        match IdentifierResult(tokens, i)
        case Success((node, next)) => ParseEmitsSinglePushes(tokens, next, nodes + [node], fuel - 1);
        case Failure(_) =>
      }
    }
  }

  /**
   * The driver never gets past the first operand: on a non-empty vector it
   * panics, or its budget runs out with the cursor at 0 and no node, or at 1
   * with the one Push node for `push <literal>`. Every other first
   * identifier panics on the first pass, and a first token that is not of
   * kind "identifier" stalls at 0 whatever the budget. With any budget of two passes or
   * more, the second of these happens exactly when the first token is not of
   * kind "identifier", and the third exactly when the first token is `push`
   * and the second a literal whose kind is not "identifier".
   */
  lemma ParseStopsAtFirstOperand(tokens: seq<L.Token>, fuel: nat)
    requires tokens != []
    ensures var o := ParseLoop(tokens, 0, [], fuel);
      o.Panicked? || (o.OutOfFuel? && o.at == |o.nodes| <= 1)
    ensures tokens[0].kind != "identifier" ==> ParseLoop(tokens, 0, [], fuel) == OutOfFuel([], 0)
    ensures (fuel >= 2 && tokens[0].kind == "identifier" && IsPush(tokens[0]) && |tokens| >= 2
             && Literal(tokens[1].value).Some?) ==>
      ParseLoop(tokens, 0, [], fuel) ==
        if tokens[1].kind == "identifier" then Panicked(ExpectFailed(ExpectedIdentifier(tokens[1])))
        else OutOfFuel([Node(Instr(Instruction(Push, [Literal(tokens[1].value).value])))], 1)
    ensures (fuel >= 1 && tokens[0].kind == "identifier"
             && !(IsPush(tokens[0]) && |tokens| >= 2 && Literal(tokens[1].value).Some?)) ==>
      ParseLoop(tokens, 0, [], fuel).Panicked?
  {
    var t := tokens[0];
    if t.kind != "identifier" {
      ParseSpinsOnNonIdentifier(tokens, 0, [], fuel);
    } else if fuel > 0 && !(IsPush(t) && 1 == |tokens|) && IdentifierResult(tokens, 0).Success? {
      var (node, next) := IdentifierResult(tokens, 0).value;
      assert [] + [node] == [node];
      assert ParseLoop(tokens, 0, [], fuel) == ParseLoop(tokens, 1, [node], fuel - 1);
      if tokens[1].kind != "identifier" {
        ParseSpinsOnNonIdentifier(tokens, 1, [node], fuel - 1);
      } else if fuel > 1 {
        assert !IsPush(tokens[1]);
      }
    }
  }
}
