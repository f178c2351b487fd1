/** The calculator fields of `TemplateApp` and the click handlers of its
    `update` method (src/app.rs), updating the fields in place. Each handler
    is proved to perform exactly the transition Calculator.Step describes. */
module CalcApp {
  import opened Reducer
  import opened Calculator

  class Calc {
    var accumulator: int
    var input: int
    var accOp: Option<Operation>
    var display: int
    var reason: Option<string>

    /** The fields as a value of the state machine. */
    function Snapshot(): State
      reads this
    {
      State(accumulator, input, accOp, display, reason)
    }

    /** `Default::default`. */
    constructor ()
      ensures Snapshot() == Initial
    {
      accumulator := 0;
      input := 0;
      accOp := None;
      display := 0;
      reason := None;
    }

    /** "<": drop the last digit of the input (Rust's truncating `/ 10`). */
    method Backspace()
      modifies this
      ensures input == TruncDiv(old(input), 10) && display == input && reason == None
      ensures accumulator == old(accumulator) && accOp == old(accOp)
      ensures Snapshot() == Step(old(Snapshot()), Back)
    {
      input := TruncDiv(input, 10);
      display := input;
      reason := None;
    }

    /** "AC": back to the initial state. */
    method AllClear()
      modifies this
      ensures Snapshot() == Initial
      ensures Snapshot() == Step(old(Snapshot()), Button.AllClear)
    {
      input := 0;
      accumulator := 0;
      accOp := None;
      display := 0;
      reason := None;
    }

    /** One of the grid's digit buttons 1 to 9. */
    method PressDigit(d: NonZeroDigit)
      modifies this
      ensures input == old(input) * 10 + d && display == input && reason == None
      ensures accumulator == old(accumulator) && accOp == old(accOp)
      ensures Snapshot() == Step(old(Snapshot()), Digit(d))
    {
      input := input * 10 + d;
      reason := None;
      display := input;
    }

    /** "0". */
    method PressZero()
      modifies this
      ensures input == old(input) * 10 && display == input && reason == None
      ensures accumulator == old(accumulator) && accOp == old(accOp)
      ensures Snapshot() == Step(old(Snapshot()), Zero)
    {
      input := input * 10;
      display := input;
      reason := None;
    }

    /** The `match handle_operation(...)` block shared by the operator
        buttons and "=". */
    method ApplyPending()
      modifies this
      ensures var r := HandleOperation(old(accOp), old(accumulator), old(input));
        accOp == old(accOp) &&
        (r.Err? ==> accumulator == old(accumulator) && input == old(input) &&
                    display == old(display) && reason == Some(r.reason)) &&
        (r == Ok(None) ==> Snapshot() == old(Snapshot())) &&
        (r.Ok? && r.value.Some? ==>
           accumulator == r.value.value && input == 0 && display == accumulator && reason == None)
      ensures Snapshot() == Commit(old(Snapshot()), Reduce(old(Snapshot())))
    {
      match HandleOperation(accOp, accumulator, input) {
        case Ok(Some(value)) =>
          accumulator := value;
          input := 0;
          display := accumulator;
          reason := None;
        case Err(why) =>
          reason := Some(why);
        case Ok(None) =>
      }
    }

    /** An operator button: reduce, then make `op` the pending operator,
        whether or not the reduction failed. */
    method PressOperator(op: Operation)
      modifies this
      ensures var r := HandleOperation(old(accOp), old(accumulator), old(input));
        accOp == Some(op) &&
        (r.Err? ==> accumulator == old(accumulator) && input == old(input) &&
                    display == old(display) && reason == Some(DivideByZero)) &&
        (r == Ok(None) ==> accumulator == old(accumulator) && input == old(input) &&
                           display == old(display) && reason == old(reason)) &&
        (r.Ok? && r.value.Some? ==>
           accumulator == r.value.value && input == 0 && display == accumulator && reason == None)
      ensures Snapshot() == Step(old(Snapshot()), Op(op))
    {
      ApplyPending();
      accOp := Some(op);
    }

    /** "+". */
    method PressAdd()
      modifies this
      ensures accOp == Some(Add)
      ensures Snapshot() == Step(old(Snapshot()), Op(Add))
    {
      PressOperator(Add);
    }

    /** "-". */
    method PressSubtract()
      modifies this
      ensures accOp == Some(Subtract)
      ensures Snapshot() == Step(old(Snapshot()), Op(Subtract))
    {
      PressOperator(Subtract);
    }

    /** "*". */
    method PressMultiply()
      modifies this
      ensures accOp == Some(Multiply)
      ensures Snapshot() == Step(old(Snapshot()), Op(Multiply))
    {
      PressOperator(Multiply);
    }

    /** "/". */
    method PressDivide()
      modifies this
      ensures accOp == Some(Divide)
      ensures Snapshot() == Step(old(Snapshot()), Op(Divide))
    {
      PressOperator(Divide);
    }

    /** "=": reduce, then clear the pending operator and the input, whether
        or not the reduction failed. */
    method PressEquals()
      modifies this
      ensures var r := HandleOperation(old(accOp), old(accumulator), old(input));
        accOp == None && input == 0 &&
        (r.Err? ==> accumulator == old(accumulator) && display == old(display) &&
                    reason == Some(DivideByZero)) &&
        (r == Ok(None) ==> accumulator == old(accumulator) && display == old(display) &&
                           reason == old(reason)) &&
        (r.Ok? && r.value.Some? ==> accumulator == r.value.value && display == accumulator && reason == None)
      ensures Snapshot() == Step(old(Snapshot()), Equals)
    {
      ApplyPending();
      accOp := None;
      input := 0;
    }

    /** ".": drawn but never acted on. */
    method PressPoint()
      ensures Snapshot() == Step(Snapshot(), Point)
    {
    }

    /** One click, dispatched to its handler as `update` does. */
    method Press(b: Button)
      modifies this
      ensures Snapshot() == Step(old(Snapshot()), b)
    {
      match b {
        case Digit(d) => PressDigit(d);
        case Zero => PressZero();
        case Back => Backspace();
        case AllClear => AllClear();
        case Op(op) => PressOperator(op);
        case Equals => PressEquals();
        case Point => PressPoint();
      }
    }
  }

  /** "5 + 3 =" on a fresh window, through the click handlers alone. */
  method ClickFivePlusThree() returns (shown: int, held: int)
    ensures shown == 8 && held == 8
  {
    var c := new Calc();
    c.PressDigit(5);
    c.PressAdd();
    c.PressDigit(3);
    c.PressEquals();
    shown, held := c.display, c.accumulator;
  }
}
