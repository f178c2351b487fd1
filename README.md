# Integer calculator (calculator-rs): reducer and button state machine

This project models the domain logic of a GUI integer calculator. It has two layers:

- **The reducer** `handle_operation` (module `Reducer`). It applies the pending operator, if any, to the
  accumulator and the typed-in input. It returns a new accumulator (`Ok(Some(v))`), "no change"
  (`Ok(None)`), or the failure `"divide by zero"`. Rust's `/` on `i64` rounds toward zero;
  `Reducer.TruncDiv` models it, because Dafny's `/` is Euclidean.
- **The button-press state machine** in `update`. It works on the five calculator fields of the
  window: `accumulator`, `input`, `acc_op`, `display` and `reason`.
  - `Calculator.Step` is the transition for one click, as a pure function over a `State` value.
  - `Calculator.Run` folds `Step` over a click sequence.
  - `CalcApp.Calc` is a class with those five fields and one method per button. The methods update
    the fields in place, as `update` does. Each method is proved to perform exactly
    `Step(old state, button)`.
  - `display` is modelled as an integer: the number whose decimal rendering a click writes into the
    display field. `Initial` (`Default::default`) sets it to 0, the rendering "0". The field is an
    editable text box, but text typed into it is not modelled (see "## Left out").

The digit grid labels its buttons `row * (num_cols - 1) + col + 1` with `num_cols = 4`, for rows and
columns 0 to 2. That gives exactly the digits 1 to 9, so `Button.Digit` carries a `NonZeroDigit`.
`Zero` is a separate button.

Behaviour of the code that a reader might not expect. The lemma that proves each point is named
after it:

- "9 / 0 =" leaves the accumulator at 9, not 0. The "/" click finds no pending operator and a zero
  accumulator, so it seeds the accumulator with 9. The failing "=" keeps that 9.
  (`Scenarios.NineDividedByZero`)
- The display is not always the input or the accumulator. After "3 =", typing "4 =" shows 4. The
  reducer returned `Ok(None)` and dropped the 4, and "=" cleared the input. The accumulator is 3
  and the input is 0. (`Scenarios.DisplayShowsDiscardedInput`)
- A failure reason can outlive a successful reduction. An `Ok(None)` result leaves `reason` as it
  was. (`Scenarios.ReasonOutlivesNoOpReduction`)
- An operator click records the new operator even when its reduction failed.
  (`Calculator.OperatorPress`)

## Model

| member | source | states |
|---|---|---|
| Reducer.TruncDiv | src/app.rs:268 | The quotient rounds toward zero. The remainder `a - q*b` is smaller than `b` in magnitude, and it is zero or has the sign of `a`. |
| Reducer.TruncDivUnique | src/app.rs:268 | Any `q` meeting TruncDiv's two remainder conditions equals `TruncDiv(a, b)`, so those conditions define Rust's division. |
| Reducer.TruncDivNegate | src/app.rs:268 | Negating the dividend negates the quotient. Euclidean division does not do this. |
| Reducer.TruncDivVersusEuclidean | src/app.rs:268 | For a positive divisor, the truncating quotient equals Dafny's Euclidean `a / b`, plus 1 when `a` is negative and not a multiple of `b`. |
| Reducer.DivisionsDiffer | src/app.rs:268 | `TruncDiv(-7, 2) == -3`, while Dafny's `-7 / 2 == -4`. |
| Reducer.TruncDivDropsDigit | src/app.rs:116 | For `i >= 0` and a digit `d`, dividing `10*i + d` by 10 gives back `i`. |
| Reducer.TruncDivCancels | src/app.rs:268 | Dividing `a*b` by a non-zero `b` gives back `a`. |
| Reducer.HandleOperation | src/app.rs:259-277 | It fails exactly on Divide with input 0, with the message "divide by zero". Add, Subtract and Multiply give `Some` of the sum, difference and product. A non-zero Divide gives `Some` of the quotient rounded toward zero. With no operator pending it seeds a zero accumulator with the input. The result is `Ok(None)` exactly when no operator is pending and the accumulator is non-zero. |
| Reducer.ReducerInverses | src/app.rs:261-268 | Subtract undoes Add. Divide by a non-zero input undoes Multiply by it. |
| Calculator.Commit | src/app.rs:146-155 | The `match handle_operation(...)` block, which is repeated at 160-169, 174-183, 195-204 and 209-218. It never touches the pending operator. Only `Ok(Some(v))` changes the accumulator, to `v`; it also shows `v` and clears the input and the reason. An `Err` changes only the reason, to that error's message. `Ok(None)` changes nothing. |
| Calculator.Step | src/app.rs:114-221 | No click makes a non-negative input negative. |
| Calculator.Run | src/app.rs:114-221 | Clicks applied one per frame, in order. No click sequence makes a non-negative input negative. |
| Calculator.InitialState | src/app.rs:48-52 | The initial state has accumulator 0, input 0, no operator, display 0 and no reason. It satisfies the reachability invariant, and AC leaves it unchanged. |
| Calculator.StepKeepsReachable | src/app.rs:114-221 | Each click keeps this invariant: the input is non-negative, and any reason shown is "divide by zero". |
| Calculator.RunKeepsReachable | src/app.rs:114-221 | Any click sequence keeps the same invariant. |
| Calculator.InputNeverNegative | src/app.rs:48-52 | From the initial state, any clicks leave the input non-negative and the reason None or "divide by zero". |
| Calculator.DigitPress | src/app.rs:139-143 | A digit 0-9 sets the input to `input*10 + d`, shows that input and clears the reason. The accumulator and the operator stay. The 0 button is the case `d = 0` (src/app.rs:187-191). |
| Calculator.BackspaceUndoesDigit | src/app.rs:115-119 | "<" right after a digit click gives back the previous input. The state differs only in the display, which shows that input, and the cleared reason. |
| Calculator.BackspaceDropsDigit | src/app.rs:115-119 | "<" leaves `input / 10` rounded down, for a non-negative input. It shows that value, clears the reason, and keeps the accumulator and the operator. |
| Calculator.AllClearResets | src/app.rs:120-126 | "AC" from any state, after any click history, gives exactly the initial state of src/app.rs:48-52. |
| Calculator.OperatorPress | src/app.rs:145-157 | After an operator click, the pending operator is the clicked one in every case. On failure only the reason changes. On `Ok(None)` nothing else changes. On `Ok(Some(v))` the accumulator and display become `v`, and the input and reason are cleared. |
| Calculator.EqualsPress | src/app.rs:194-207 | After "=", no operator is pending and the input is 0 whatever the reducer returned. The accumulator changes only on `Ok(Some(v))`. A failure keeps the display and sets the reason. |
| Calculator.PointInert | src/app.rs:192 | The "." button changes nothing. |
| Scenarios.FivePlusThree | src/app.rs:194-207 | "5 + 3 =" leaves accumulator 8 and display 8, with no operator pending. |
| Scenarios.NineDividedByZero | src/app.rs:208-220 | "9 / 0 =" sets the reason "divide by zero" and keeps accumulator 9, the value the "/" click seeded. |
| Scenarios.OneTwoBackspace | src/app.rs:115-119 | "1 2 <" leaves input 1 and display 1. |
| Scenarios.Chaining | src/app.rs:173-207 | "7 * 6 =" gives 42. Chaining "* 2 =" onto it gives 84. |
| Scenarios.NegativeQuotientTruncates | src/app.rs:264-269 | "7 - 1 4 = / 2 =" leaves -3. The -7 is divided rounding toward zero. |
| Scenarios.DisplayShowsDiscardedInput | src/app.rs:194-207 | After "3 = 4 =", the display shows 4 while the accumulator is 3 and the input is 0. |
| Scenarios.ReasonOutlivesNoOpReduction | src/app.rs:146-156 | After "9 / 0 =", a "+" click reduces to `Ok(None)` and "divide by zero" stays on screen. |
| CalcApp.Calc.constructor | src/app.rs:37-55 | A new window's calculator fields are the initial state: 0, 0, no operator, display 0, no reason. |
| CalcApp.Calc.Backspace | src/app.rs:115-119 | The input becomes its truncating division by 10 and is shown. The reason is cleared. Nothing else changes. The result equals `Step(old, Back)`. |
| CalcApp.Calc.AllClear | src/app.rs:120-126 | All five fields are reset to the initial state. |
| CalcApp.Calc.PressDigit | src/app.rs:139-143 | The input becomes `input*10 + d` and is shown. The reason is cleared. The accumulator and operator are unchanged. The result equals `Step(old, Digit(d))`. |
| CalcApp.Calc.PressZero | src/app.rs:187-191 | The input becomes `input*10` and is shown. The reason is cleared. The accumulator and operator are unchanged. |
| CalcApp.Calc.ApplyPending | src/app.rs:146-155 | The shared reduction block, covering its three outcomes: on failure only the reason changes; on `Ok(None)` nothing changes; on `Ok(Some(v))` the accumulator and display become `v` and the input and reason are cleared. |
| CalcApp.Calc.PressOperator | src/app.rs:145-157 | The reduction as in ApplyPending, then the clicked operator becomes pending, even after a failure. The result equals `Step(old, Op(op))`. |
| CalcApp.Calc.PressAdd | src/app.rs:145-157 | The "+" button: `Step(old, Op(Add))`. Add is pending afterwards. |
| CalcApp.Calc.PressSubtract | src/app.rs:159-171 | The "-" button: `Step(old, Op(Subtract))`. Subtract is pending afterwards. |
| CalcApp.Calc.PressMultiply | src/app.rs:173-185 | The "*" button: `Step(old, Op(Multiply))`. Multiply is pending afterwards. |
| CalcApp.Calc.PressDivide | src/app.rs:208-220 | The "/" button: `Step(old, Op(Divide))`. Divide is pending afterwards. |
| CalcApp.Calc.PressEquals | src/app.rs:194-207 | The reduction, then no pending operator and input 0 whatever the outcome. The result equals `Step(old, Equals)`. |
| CalcApp.Calc.PressPoint | src/app.rs:192 | The "." button changes no field. |
| CalcApp.Calc.Press | src/app.rs:114-221 | Any one click, dispatched to its handler, performs `Step(old, b)`. |
| CalcApp.ClickFivePlusThree | src/app.rs:139-207 | On a fresh window, clicking "5 + 3 =" through the handlers leaves display 8 and accumulator 8. |

## Left out

- Rendering and window chrome are not modelled. This covers panels, the menu bar and Quit, the theme buttons, the text fields, the red reason label, pixel scaling and the "powered by" footer (src/app.rs:84-112, 229-249). They are calls into the egui/eframe UI library.
- The `label` field is not modelled.
- The layout fields `num_cols`, `num_rows`, `min_col_width` and `max_col_width`, and the nested grid loops, are not modelled. They only decide which button is drawn where. Their effect is the button-to-digit mapping described above.
- Persistence (`new`, `save`, eframe storage) is not modelled. It is foreign storage, and every calculator field is excluded from serialization anyway.
- Decimal formatting with `format!` is not modelled. `display` holds the number shown, not its text.
- Text the user types into the display field is not modelled. src/app.rs:111 hands `display` to an editable `TextEdit`, so between clicks it can hold any text, even text that is not a number. No logic reads `display`, so no other field depends on it. The display values in `Scenarios` and in `ClickFivePlusThree` assume nothing is typed between clicks. The input and accumulator boxes (src/app.rs:109-110) edit only temporary copies, so those fields cannot be typed into.
- Reducer.HandleOperation: uses unbounded integers, so it does not model `i64` overflow in `+`, `-` and `*` (a panic in debug builds, wrap-around in release builds). It also does not model the panic of `i64::MIN / -1`.
- Calculator.Step: does not model `i64` overflow of `input * 10 + d` when many digits are typed. It uses unbounded integers, like the reducer.
- CalcApp.Calc.PressDigit: does not model `i64` overflow. CalcApp.Calc.PressZero, the operator methods and `Press` use unbounded integers in the same way.
- The click events come from the UI library. Each call of a `Calc` method, or each element of a `Run` sequence, stands for one click in one `update` frame.
