/** The button-press state machine of the calculator window, as a pure
    transition function over the five calculator fields of `TemplateApp`
    (src/app.rs). The class in module CalcApp performs the same transitions
    in place and is proved equal to Step. */
module Calculator {
  import opened Reducer

  /** The calculator fields of `TemplateApp`. `display` is the number whose
      decimal rendering the last click wrote into the display field. */
  datatype State = State(
    accumulator: int,
    input: int,
    accOp: Option<Operation>,
    display: int,
    reason: Option<string>)

  /** `Default::default`, and also what AC restores. */
  const Initial: State := State(0, 0, None, 0, None)

  /** The labels the 3-by-3 digit grid computes, 1 through 9. */
  type NonZeroDigit = d: int | 1 <= d <= 9 witness 1

  /** The buttons of the window. `Point` is the inert "." button. */
  datatype Button =
    | Digit(d: NonZeroDigit)
    | Zero
    | Back
    | AllClear
    | Op(op: Operation)
    | Equals
    | Point

  /** The button that types decimal digit `d`. */
  function DigitButton(d: int): Button
    requires 0 <= d <= 9
  {
    if d == 0 then Zero else Digit(d)
  }

  /** What the five copies of the `match handle_operation(...)` block do with
      the reducer's result. */
  function Commit(s: State, r: Result<Option<int>>): (t: State)
    // the pending operator is left to the caller
    ensures t.accOp == s.accOp
    // only a result with a value moves the accumulator, and then the input is consumed
    ensures r.Ok? && r.value.Some? ==>
      t.accumulator == r.value.value && t.display == t.accumulator && t.input == 0 && t.reason == None
    ensures !(r.Ok? && r.value.Some?) ==>
      t.accumulator == s.accumulator && t.input == s.input && t.display == s.display
    // a failure is reported, a no-op keeps whatever reason was there
    ensures r.Err? ==> t.reason == Some(r.reason)
    ensures r == Ok(None) ==> t == s
  {
    match r
    case Ok(Some(value)) => s.(accumulator := value, input := 0, display := value, reason := None)
    case Err(why) => s.(reason := Some(why))
    case Ok(None) => s
  }

  function Reduce(s: State): Result<Option<int>> {
    HandleOperation(s.accOp, s.accumulator, s.input)
  }

  /** One button click. Every click keeps the input non-negative. */
  function Step(s: State, b: Button): (t: State)
    ensures s.input >= 0 ==> t.input >= 0
  {
    match b
    case Digit(d) =>
      var i := s.input * 10 + d;
      s.(input := i, reason := None, display := i)
    case Zero =>
      var i := s.input * 10;
      s.(input := i, display := i, reason := None)
    case Back =>
      var i := TruncDiv(s.input, 10);
      s.(input := i, display := i, reason := None)
    case AllClear => Initial
    case Op(op) => Commit(s, Reduce(s)).(accOp := Some(op))
    case Equals => Commit(s, Reduce(s)).(accOp := None, input := 0)
    case Point => s
  }

  /** A sequence of clicks, first to last. No sequence makes a non-negative
      input negative. */
  function Run(s: State, bs: seq<Button>): (t: State)
    ensures s.input >= 0 ==> t.input >= 0
    decreases |bs|
  {
    if bs == [] then s else Run(Step(s, bs[0]), bs[1..])
  }

  lemma {:induction false} RunAppend(s: State, xs: seq<Button>, ys: seq<Button>)
    ensures Run(s, xs + ys) == Run(Run(s, xs), ys)
    decreases |xs|
  {
    if xs == [] {
      assert xs + ys == ys;
    } else {
      assert (xs + ys)[1..] == xs[1..] + ys;
      RunAppend(Step(s, xs[0]), xs[1..], ys);
    }
  }

  /** The initial state is all zeros with no operator and no reason, it is
      reachable, and AC leaves it as it is. */
  lemma InitialState()
    ensures Initial.accumulator == 0 && Initial.input == 0 && Initial.accOp == None
    ensures Initial.display == 0 && Initial.reason == None
    ensures Reachable(Initial) && Step(Initial, AllClear) == Initial
  {
  }

  /** What holds of every state the window can reach: the input is never
      negative, and the only failure ever shown is the division by zero. */
  predicate Reachable(s: State) {
    s.input >= 0 && (s.reason.Some? ==> s.reason.value == DivideByZero)
  }

  lemma StepKeepsReachable(s: State, b: Button)
    requires Reachable(s)
    ensures Reachable(Step(s, b))
  {
  }

  lemma {:induction false} RunKeepsReachable(s: State, bs: seq<Button>)
    requires Reachable(s)
    ensures Reachable(Run(s, bs))
    decreases |bs|
  {
    if bs != [] {
      StepKeepsReachable(s, bs[0]);
      RunKeepsReachable(Step(s, bs[0]), bs[1..]);
    }
  }

  /** From the initial state, whatever is clicked, the input stays
      non-negative and the reason is either empty or "divide by zero". */
  lemma {:induction false} InputNeverNegative(bs: seq<Button>)
    ensures Run(Initial, bs).input >= 0
    ensures Run(Initial, bs).reason in {None, Some(DivideByZero)}
  {
    RunKeepsReachable(Initial, bs);
  }

  /** A digit click (0 through 9) appends the digit to the input, shows the
      input and clears the failure; accumulator and operator stay. */
  lemma DigitPress(s: State, d: int)
    requires 0 <= d <= 9
    ensures var t := Step(s, DigitButton(d));
      t.input == s.input * 10 + d && t.display == t.input && t.reason == None &&
      t.accumulator == s.accumulator && t.accOp == s.accOp
  {
  }

  /** Backspace right after a digit click gives back the previous input. */
  lemma {:induction false} BackspaceUndoesDigit(s: State, d: int)
    requires s.input >= 0 && 0 <= d <= 9
    ensures Step(Step(s, DigitButton(d)), Back) == s.(display := s.input, reason := None)
  {
    TruncDivDropsDigit(s.input, d);
  }

  /** Backspace drops the last decimal digit of the input. */
  lemma BackspaceDropsDigit(s: State)
    requires s.input >= 0
    ensures var t := Step(s, Back);
      t.input * 10 <= s.input < t.input * 10 + 10 && t.display == t.input && t.reason == None &&
      t.accumulator == s.accumulator && t.accOp == s.accOp
  {
  }

  /** AC from any state gives exactly the initial state, after any history. */
  lemma {:induction false} AllClearResets(s: State, bs: seq<Button>)
    ensures Step(s, AllClear) == Initial
    ensures Run(s, bs + [AllClear]) == Initial
  {
    RunAppend(s, bs, [AllClear]);
  }

  /** Clicking an operator: on failure only the reason changes, on `Ok(None)`
      nothing changes, on `Ok(Some(v))` v becomes the accumulator and the
      input is cleared; the clicked operator is pending in every case, even
      after a failure. */
  lemma OperatorPress(s: State, op: Operation)
    ensures var t, r := Step(s, Op(op)), Reduce(s);
      t.accOp == Some(op) &&
      (r.Err? ==> t == s.(reason := Some(DivideByZero), accOp := Some(op))) &&
      (r == Ok(None) ==> t == s.(accOp := Some(op))) &&
      (r.Ok? && r.value.Some? ==>
         t == State(r.value.value, 0, Some(op), r.value.value, None))
  {
  }

  /** Clicking "=": no operator is pending afterwards and the input is 0,
      whatever the reducer answered; the accumulator changes only on
      `Ok(Some(v))`. */
  lemma EqualsPress(s: State)
    ensures var t, r := Step(s, Equals), Reduce(s);
      t.accOp == None && t.input == 0 &&
      (r.Err? ==> t.accumulator == s.accumulator && t.display == s.display &&
                  t.reason == Some(DivideByZero)) &&
      (r == Ok(None) ==> t == s.(accOp := None, input := 0)) &&
      (r.Ok? && r.value.Some? ==> t == State(r.value.value, 0, None, r.value.value, None))
  {
  }

  /** The "." button does nothing. */
  lemma PointInert(s: State)
    ensures Step(s, Point) == s
  {
  }
}
