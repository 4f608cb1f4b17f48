/**
 * Concrete request lines and what the server makes of each: the exact
 * results, truncating division, and one line for each kind of rejection.
 */
module Scenarios {
  import opened JavaInt
  import opened Decimal
  import opened Tokens
  import opened Operations
  import opened Protocol
  import opened Wrappers

  lemma AddExample()
    ensures Response(Respond("ADD 10 0")) == "10"
  {
    assert ToDecimal(10) == "10" by { assert NatToDecimal(10) == NatToDecimal(1) + [DigitChar(0)]; }
    assert RequestLine(ADD, 10, 0) == "ADD 10 0";
    RespondRequest(ADD, 10, 0);
  }

  lemma SubExample()
    ensures Response(Respond("SUB 5 7")) == "-2"
  {
    assert RequestLine(SUB, 5, 7) == "SUB 5 7";
    RespondRequest(SUB, 5, 7);
  }

  lemma MulExample()
    ensures Response(Respond("MUL 6 7")) == "42"
  {
    assert RequestLine(MUL, 6, 7) == "MUL 6 7";
    RespondRequest(MUL, 6, 7);
    assert ToDecimal(42) == "42" by { assert NatToDecimal(42) == NatToDecimal(4) + [DigitChar(2)]; }
  }

  /** Division truncates toward zero, for either sign of the dividend. */
  lemma DivExample()
    ensures Response(Respond("DIV 7 2")) == "3"
  {
    assert RequestLine(DIV, 7, 2) == "DIV 7 2";
    RespondRequest(DIV, 7, 2);
    assert JavaDiv(7, 2) == 3;
  }

  lemma NegativeDivExample()
    ensures Response(Respond("DIV -7 2")) == "-3"
  {
    assert ToDecimal(-7) == "-7";
    assert RequestLine(DIV, -7, 2) == "DIV -7 2";
    RespondRequest(DIV, -7, 2);
    assert JavaDiv(-7, 2) == -3;
    assert ToDecimal(-3) == "-3";
  }

  lemma DivByZeroExample()
    ensures Respond("DIV 9 0") == Failed(DivideByZero)
  {
    assert RequestLine(DIV, 9, 0) == "DIV 9 0";
    RespondRequest(DIV, 9, 0);
  }

  /** The largest `int` plus one overflows `Math.addExact`: `ERROR`, not a wrapped value. */
  lemma OverflowExample()
    ensures Respond("ADD 2147483647 1") == Failed(Overflow)
  {
    MaxIntText();
    assert RequestLine(ADD, MaxInt, 1) == "ADD 2147483647 1";
    RespondRequest(ADD, MaxInt, 1);
  }

  lemma MaxIntText()
    ensures ToDecimal(MaxInt) == "2147483647"
  {
    assert NatToDecimal(2) == "2";
    assert NatToDecimal(21) == "21";
    assert NatToDecimal(214) == "214";
    assert NatToDecimal(2147) == "2147";
    assert NatToDecimal(21474) == "21474";
    assert NatToDecimal(214748) == "214748";
    assert NatToDecimal(2147483) == "2147483";
    assert NatToDecimal(21474836) == "21474836";
    assert NatToDecimal(214748364) == "214748364";
    assert NatToDecimal(2147483647) == "2147483647";
  }

  lemma MalformedExample()
    ensures Respond("ADD 5") == Failed(MalformedLine)
  {
    var ts := ["ADD", "5"];
    assert AllNoSpace(ts);
    assert Join(ts) == "ADD 5" by { assert ts[1..] == ["5"]; }
    SplitJoin(ts);
  }

  lemma NonIntegerExample()
    ensures Respond("ADD five 3") == Failed(NonIntegerOperand)
  {
    var ts := ["ADD", "five", "3"];
    assert AllNoSpace(ts);
    JoinThreeTokens("ADD", "five", "3");
    assert Join(ts) == "ADD five 3";
    SplitJoin(ts);
    assert ParseInt("five") == None;
  }

  lemma UnknownOperationExample()
    ensures Respond("MOD 4 2") == Failed(UnknownOperation)
  {
    ModTokens();
    SmallOperands();
    NotAnOperation();
  }

  lemma ModTokens()
    ensures Split("MOD 4 2") == ["MOD", "4", "2"]
  {
    var ts := ["MOD", "4", "2"];
    assert AllNoSpace(ts);
    JoinThreeTokens("MOD", "4", "2");
    assert Join(ts) == "MOD 4 2";
    SplitJoin(ts);
  }

  lemma SmallOperands()
    ensures ParseInt("4") == Some(4) && ParseInt("2") == Some(2)
  {
    assert ToDecimal(4) == "4" && ToDecimal(2) == "2";
    ParseToDecimal(4);
    ParseToDecimal(2);
  }

  lemma NotAnOperation()
    ensures ParseOp("MOD") == None
  {
  }

  /** Operands need not be written canonically: a `+` sign, leading zeros and `-0` are read as Java reads them. */
  lemma SignedOperandsExample()
    ensures Respond("ADD +5 007") == Computed(ADD, 12)
    ensures Respond("SUB -0 3") == Computed(SUB, -3)
  {
    PlusSevenTokens();
    MinusZeroTokens();
    SignedOperandValues();
    SignedOperandOperations();
    RespondParsed("ADD +5 007", ADD);
    RespondParsed("SUB -0 3", SUB);
  }

  lemma PlusSevenTokens()
    ensures Split("ADD +5 007") == ["ADD", "+5", "007"]
  {
    var ts := ["ADD", "+5", "007"];
    assert AllNoSpace(ts);
    JoinThreeTokens("ADD", "+5", "007");
    assert Join(ts) == "ADD +5 007";
    SplitJoin(ts);
  }

  lemma MinusZeroTokens()
    ensures Split("SUB -0 3") == ["SUB", "-0", "3"]
  {
    var ts := ["SUB", "-0", "3"];
    assert AllNoSpace(ts);
    JoinThreeTokens("SUB", "-0", "3");
    assert Join(ts) == "SUB -0 3";
    SplitJoin(ts);
  }

  lemma SignedOperandValues()
    ensures ParseInt("+5") == Some(5) && ParseInt("007") == Some(7)
    ensures ParseInt("-0") == Some(0) && ParseInt("3") == Some(3)
  {
    assert DigitsValue("00") == 0 by { assert "00"[..1] == "0"; }
    assert DigitsValue("007") == 7 by { assert "007"[..2] == "00"; }
    assert "+5"[1..] == "5" && "-0"[1..] == "0";
  }

  lemma SignedOperandOperations()
    ensures ParseOp("ADD") == Some(ADD) && ParseOp("SUB") == Some(SUB)
  {
    ParseOpName(ADD);
    ParseOpName(SUB);
  }
}
