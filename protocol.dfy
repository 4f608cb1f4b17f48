/**
 * One request line of the compute protocol, as `CCS.handleClient` decides
 * it: split the line, require three tokens, parse both operands, then match
 * the operation and evaluate it with Java's exact or truncating arithmetic.
 */
module Protocol {
  import opened JavaInt
  import opened Decimal
  import opened Tokens
  import opened Wrappers
  import opened Operations

  /** Why a line is answered `ERROR`. */
  datatype Failure = MalformedLine | NonIntegerOperand | UnknownOperation | Overflow | DivideByZero

  datatype Outcome = Computed(op: Op, value: Int32) | Failed(reason: Failure)

  /** The mathematical result of the three overflow-checked operations. */
  function Exact(op: Op, a: int, b: int): int
    requires op != DIV
  {
    match op
    case ADD => a + b
    case SUB => a - b
    case MUL => a * b
  }

  /**
   * `Math.addExact`, `Math.subtractExact`, `Math.multiplyExact` and the DIV
   * branch: the exact result or `Overflow`, never a wrapped value; DIV rejects
   * a zero divisor and otherwise truncates toward zero, with `MinInt / -1`
   * giving `MinInt` as Java's `int` division does.
   */
  function Evaluate(op: Op, a: Int32, b: Int32): (r: Outcome)
    ensures r.Computed? ==> r.op == op
    ensures op != DIV ==>
              (r.Computed? <==> InRange(Exact(op, a, b))) &&
              (r.Computed? ==> r.value == Exact(op, a, b)) &&
              (r.Failed? ==> r.reason == Overflow)
    ensures op == DIV ==> (r.Computed? <==> b != 0) && (r.Failed? ==> r.reason == DivideByZero)
    ensures op == DIV && b != 0 && !(a == MinInt && b == -1) ==> IsTruncatedQuotient(a, b, r.value)
    ensures op == DIV && a == MinInt && b == -1 ==> r == Computed(DIV, MinInt)
  {
    match op
    case DIV =>
      if b == 0 then Failed(DivideByZero)
      else Computed(DIV, JavaDiv(a, b))
    case _ =>
      var x := Exact(op, a, b);
      if InRange(x) then Computed(op, x) else Failed(Overflow)
  }

  /**
   * The outcome of one request line. The token count is checked first, then
   * both operands are parsed, and only then is the operation name matched.
   */
  function Respond(line: string): Outcome {
    var tokens := Split(line);
    if |tokens| != 3 then Failed(MalformedLine)
    else
      match (ParseInt(tokens[1]), ParseInt(tokens[2]))
      case (Some(a), Some(b)) =>
        (match ParseOp(tokens[0])
         case None => Failed(UnknownOperation)
         case Some(op) => Evaluate(op, a, b))
      case _ => Failed(NonIntegerOperand)
  }

  /**
   * The line written back: the decimal result, or `ERROR` for every failure.
   * A client can read the result back with `Integer.parseInt`.
   */
  function Response(o: Outcome): (r: string)
    ensures o.Failed? <==> r == "ERROR"
  {
    match o
    case Failed(_) => "ERROR"
    case Computed(_, v) => ToDecimal(v)
  }

  /** A client reading a computed response with `Integer.parseInt` gets the result back. */
  lemma ResponseReadsBack(o: Outcome)
    requires o.Computed?
    ensures ParseInt(Response(o)) == Some(o.value)
  {
    ParseToDecimal(o.value);
  }

  /** The line a well-behaved client sends: operation and operands separated by single spaces. */
  function RequestLine(op: Op, a: Int32, b: Int32): string {
    OpName(op) + " " + ToDecimal(a) + " " + ToDecimal(b)
  }

  // ---------------------------------------------------------------------------
  // Classification of every line

  /** Exactly the lines that do not split into three tokens are malformed. */
  lemma RespondMalformed(line: string)
    ensures Respond(line) == Failed(MalformedLine) <==> |Split(line)| != 3
  {
  }

  /**
   * With three tokens, a bad operand is reported before the operation name is
   * looked at: the line is a `NonIntegerOperand` failure exactly when one of
   * the operands does not parse, whatever the first token is.
   */
  lemma RespondNonInteger(line: string)
    requires |Split(line)| == 3
    ensures Respond(line) == Failed(NonIntegerOperand) <==>
              ParseInt(Split(line)[1]).None? || ParseInt(Split(line)[2]).None?
  {
  }

  /** With three tokens and two good operands, any first token other than the four names fails. */
  lemma RespondUnknownOp(line: string)
    requires |Split(line)| == 3
    requires ParseInt(Split(line)[1]).Some? && ParseInt(Split(line)[2]).Some?
    ensures Respond(line) == Failed(UnknownOperation) <==> forall op: Op :: OpName(op) != Split(line)[0]
  {
  }

  /** A computed line names its operation exactly and carries two valid operands. */
  lemma RespondComputed(line: string)
    requires Respond(line).Computed?
    ensures var tokens, o := Split(line), Respond(line);
            |tokens| == 3 && tokens[0] == OpName(o.op) &&
            ParseInt(tokens[1]).Some? && ParseInt(tokens[2]).Some? &&
            o == Evaluate(o.op, ParseInt(tokens[1]).value, ParseInt(tokens[2]).value)
  {
  }

  /**
   * Conversely, any line of three tokens whose operands parse and whose first
   * token names an operation is answered with that operation's evaluation,
   * whatever form the operands take (a `+` sign, leading zeros, `-0`).
   */
  lemma RespondParsed(line: string, op: Op)
    requires |Split(line)| == 3
    requires ParseInt(Split(line)[1]).Some? && ParseInt(Split(line)[2]).Some?
    requires ParseOp(Split(line)[0]) == Some(op)
    ensures Respond(line) == Evaluate(op, ParseInt(Split(line)[1]).value, ParseInt(Split(line)[2]).value)
  {
  }

  lemma RequestTokens(op: Op, a: Int32, b: Int32)
    ensures Split(RequestLine(op, a, b)) == [OpName(op), ToDecimal(a), ToDecimal(b)]
    ensures Split(RequestLine(op, a, b) + " ") == [OpName(op), ToDecimal(a), ToDecimal(b)]
  {
    var x, y := ToDecimal(a), ToDecimal(b);
    var ts := [OpName(op), x, y];
    NoSpaceInDecimal(a);
    NoSpaceInDecimal(b);
    assert AllNoSpace(ts);
    JoinThreeTokens(OpName(op), x, y);
    SplitJoin(ts);
    SplitTrailingSpace(ts);
  }

  lemma JoinThreeTokens(n: string, x: string, y: string)
    ensures Join([n, x, y]) == n + " " + x + " " + y
  {
    assert [n, x, y][1..] == [x, y];
    assert [x, y][1..] == [y];
    assert Join([x, y]) == x + " " + y;
    assert Join([n, x, y]) == n + " " + (x + " " + y);
  }

  lemma NoSpaceInDecimal(n: Int32)
    ensures NoSpace(ToDecimal(n))
  {
  }

  /** A well-formed request is answered with exactly what its operation evaluates to. */
  lemma {:induction false} RespondRequest(op: Op, a: Int32, b: Int32)
    ensures Respond(RequestLine(op, a, b)) == Evaluate(op, a, b)
  {
    RequestTokens(op, a, b);
    ParseToDecimal(a);
    ParseToDecimal(b);
  }

  /** A trailing space is dropped by the split, so the request is still answered. */
  lemma {:induction false} RespondTrailingSpace(op: Op, a: Int32, b: Int32)
    ensures Respond(RequestLine(op, a, b) + " ") == Evaluate(op, a, b)
  {
    RequestTokens(op, a, b);
    ParseToDecimal(a);
    ParseToDecimal(b);
  }

  /** A doubled separator produces an empty fourth token, so the line is malformed. */
  lemma {:induction false} RespondDoubleSpace(op: Op, a: Int32, b: Int32)
    ensures Respond(OpName(op) + "  " + ToDecimal(a) + " " + ToDecimal(b)) == Failed(MalformedLine)
  {
    var x, y := ToDecimal(a), ToDecimal(b);
    var line := OpName(op) + "  " + x + " " + y;
    var ts := [OpName(op), "", x, y];
    assert AllNoSpace(ts) by {
      NoSpaceInDecimal(a);
      NoSpaceInDecimal(b);
    }
    JoinFour(OpName(op), x, y);
    assert Join(ts) == line;
    SplitJoin(ts);
    assert |Split(line)| == 4;
  }

  lemma JoinFour(n: string, x: string, y: string)
    ensures Join([n, "", x, y]) == n + "  " + x + " " + y
  {
    assert [n, "", x, y][1..] == ["", x, y];
    JoinThreeTokens("", x, y);
  }
}
