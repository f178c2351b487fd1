/** Whole click sequences, from the state the window starts in. */
module Scenarios {
  import opened Reducer
  import opened Calculator

  /** "5 + 3 =" leaves 8 in the accumulator and on the display. */
  lemma FivePlusThree()
    ensures Run(Initial, [Digit(5), Op(Add), Digit(3), Equals]) == State(8, 0, None, 8, None)
  {
    var s1 := Step(Initial, Digit(5));
    var s2 := Step(s1, Op(Add));
    assert s2 == State(5, 0, Some(Add), 5, None);
    var s3 := Step(s2, Digit(3));
    var s4 := Step(s3, Equals);
    assert s4 == State(8, 0, None, 8, None);
    assert Run(Initial, [Digit(5), Op(Add), Digit(3), Equals]) == Run(s4, []);
  }

  /** "9 / 0 =" shows "divide by zero". The "/" click has already seeded the
      accumulator with 9, which the failed "=" keeps. */
  lemma NineDividedByZero()
    ensures Run(Initial, [Digit(9), Op(Divide), Zero, Equals]) == State(9, 0, None, 0, Some(DivideByZero))
  {
    var s2 := Step(Step(Initial, Digit(9)), Op(Divide));
    assert s2 == State(9, 0, Some(Divide), 9, None);
    var s4 := Step(Step(s2, Zero), Equals);
    assert s4 == State(9, 0, None, 0, Some(DivideByZero));
    assert Run(Initial, [Digit(9), Op(Divide), Zero, Equals]) == Run(s4, []);
  }

  /** "1 2 <" leaves 1 in the input and on the display. */
  lemma OneTwoBackspace()
    ensures Run(Initial, [Digit(1), Digit(2), Back]) == State(0, 1, None, 1, None)
  {
    var s2 := Step(Step(Initial, Digit(1)), Digit(2));
    assert s2.input == 12;
    TruncDivDropsDigit(1, 2);
    assert Run(Initial, [Digit(1), Digit(2), Back]) == Run(Step(s2, Back), []);
  }

  /** "7 * 6 =" gives 42, and chaining "* 2 =" on it gives 84: the "*" after
      "=" finds no pending operator and a non-zero accumulator, so it keeps
      the 42 as left operand. */
  lemma Chaining()
    ensures Run(Initial, [Digit(7), Op(Multiply), Digit(6), Equals]) == State(42, 0, None, 42, None)
    ensures Run(Initial, [Digit(7), Op(Multiply), Digit(6), Equals, Op(Multiply), Digit(2), Equals])
            == State(84, 0, None, 84, None)
  {
    var first := [Digit(7), Op(Multiply), Digit(6), Equals];
    var second := [Op(Multiply), Digit(2), Equals];
    var s2 := Step(Step(Initial, Digit(7)), Op(Multiply));
    assert s2 == State(7, 0, Some(Multiply), 7, None);
    var s4 := Step(Step(s2, Digit(6)), Equals);
    assert s4 == State(42, 0, None, 42, None);
    assert Run(Initial, first) == Run(s4, []);
    var s5 := Step(s4, Op(Multiply));
    assert s5 == State(42, 0, Some(Multiply), 42, None);
    var s7 := Step(Step(s5, Digit(2)), Equals);
    assert s7 == State(84, 0, None, 84, None);
    assert Run(s4, second) == Run(s7, []);
    assert first + second == [Digit(7), Op(Multiply), Digit(6), Equals, Op(Multiply), Digit(2), Equals];
    RunAppend(Initial, first, second);
  }

  /** "7 - 1 4 = / 2 =" leaves -3: the quotient of -7 by 2 is rounded toward
      zero, as Rust's i64 division does, not down to -4. */
  lemma NegativeQuotientTruncates()
    ensures Run(Initial, [Digit(7), Op(Subtract), Digit(1), Digit(4), Equals, Op(Divide), Digit(2), Equals]).accumulator
            == -3
  {
    var bs := [Digit(7), Op(Subtract), Digit(1), Digit(4), Equals, Op(Divide), Digit(2), Equals];
    var s2 := Step(Step(Initial, Digit(7)), Op(Subtract));
    assert s2 == State(7, 0, Some(Subtract), 7, None);
    var s5 := Step(Step(Step(s2, Digit(1)), Digit(4)), Equals);
    assert s5 == State(-7, 0, None, -7, None);
    var s6 := Step(s5, Op(Divide));
    assert s6 == State(-7, 0, Some(Divide), -7, None);
    var s7 := Step(s6, Digit(2));
    DivisionsDiffer();
    var s8 := Step(s7, Equals);
    assert s8.accumulator == -3;
    assert Run(Initial, bs) == Run(s8, []);
  }

  /** After "3 =", typing "4 =" shows 4 although neither the accumulator (3)
      nor the input (0) holds it: the reducer ignored the 4 because no
      operator was pending and the accumulator was not 0. So the display is
      not always the input or the accumulator. */
  lemma DisplayShowsDiscardedInput()
    ensures var t := Run(Initial, [Digit(3), Equals, Digit(4), Equals]);
      t == State(3, 0, None, 4, None) && t.display != t.input && t.display != t.accumulator
  {
    var s2 := Step(Step(Initial, Digit(3)), Equals);
    assert s2 == State(3, 0, None, 3, None);
    var s4 := Step(Step(s2, Digit(4)), Equals);
    assert s4 == State(3, 0, None, 4, None);
    assert Run(Initial, [Digit(3), Equals, Digit(4), Equals]) == Run(s4, []);
  }

  /** After "9 / 0 =", clicking "+" reduces without failure (to `Ok(None)`),
      yet the "divide by zero" reason stays on screen. */
  lemma ReasonOutlivesNoOpReduction()
    ensures var s := Run(Initial, [Digit(9), Op(Divide), Zero, Equals]);
      Reduce(s) == Ok(None) && Step(s, Op(Add)).reason == Some(DivideByZero)
  {
    NineDividedByZero();
  }
}
