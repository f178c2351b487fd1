/** The arithmetic reducer of the calculator: the pending operator applied to
    the accumulator and the typed-in input (`handle_operation` in src/app.rs).
    Integers are unbounded here; the source uses i64. */
module Reducer {

  datatype Operation = Add | Subtract | Multiply | Divide

  datatype Option<+T> = None | Some(value: T)

  /** Rust's `Result<T, &'static str>`. */
  datatype Result<+T> = Ok(value: T) | Err(reason: string)

  /** The only failure message the reducer produces. */
  const DivideByZero: string := "divide by zero"

  function Abs(x: int): nat {
    if x < 0 then -x else x
  }

  /** Integer division rounding toward zero, as Rust's `/` on i64 does
      (Dafny's own `/` is Euclidean). The remainder left over is smaller
      than the divisor in magnitude and never has the opposite sign of the
      dividend. */
  function TruncDiv(a: int, b: int): (q: int)
    requires b != 0
    ensures Abs(a - q * b) < Abs(b)
    ensures a - q * b == 0 || (a - q * b < 0 <==> a < 0)
  {
    var n, d := Abs(a), Abs(b);
    var m, k := n / d, n % d;
    assert n == m * d + k && 0 <= k < d;
    if (a < 0) == (b < 0) then
      assert m * b == (if a < 0 then -(m * d) else m * d);
      m
    else
      assert -m * b == (if a < 0 then -(m * d) else m * d);
      -m
  }

  /** The two conditions in TruncDiv's contract determine the quotient. */
  lemma {:induction false} TruncDivUnique(a: int, b: int, q: int)
    requires b != 0
    requires Abs(a - q * b) < Abs(b)
    requires a - q * b == 0 || (a - q * b < 0 <==> a < 0)
    ensures q == TruncDiv(a, b)
  {
    var p := TruncDiv(a, b);
    var r, s := a - q * b, a - p * b;
    // r - s == (p - q) * b and both r and s lie on a's side of zero,
    // strictly within |b| of it, so p - q must be 0
    assert r - s == (p - q) * b;
    if p != q {
      assert Abs((p - q) * b) >= Abs(b) by {
        AbsMulAtLeast(p - q, b);
      }
      assert false;
    }
  }

  lemma AbsMulAtLeast(k: int, b: int)
    requires k != 0
    ensures Abs(k * b) >= Abs(b)
  {
    if k > 0 {
      if b >= 0 { assert k * b >= b; } else { assert k * b <= b; }
    } else {
      if b >= 0 { assert k * b <= -b; } else { assert k * b >= -b; }
    }
  }

  /** Truncating division commutes with negating the dividend, which
      Euclidean division does not: TruncDiv(-7, 2) == -3, while -7 / 2 == -4
      in Dafny. */
  lemma {:induction false} TruncDivNegate(a: int, b: int)
    requires b != 0
    ensures TruncDiv(-a, b) == -TruncDiv(a, b)
  {
    var q := TruncDiv(a, b);
    var r := a - q * b;
    assert (-q) * b == -(q * b);
    assert -a - (-q) * b == -r;
    assert Abs(-r) == Abs(r);
    TruncDivUnique(-a, b, -q);
  }

  /** For a positive divisor, truncating division agrees with Dafny's
      Euclidean `/` except on a negative dividend that the divisor does not
      divide, where it is one larger (rounded up toward zero, not down). */
  lemma {:induction false} TruncDivVersusEuclidean(a: int, b: int)
    requires b > 0
    ensures TruncDiv(a, b) == a / b + (if a < 0 && a % b != 0 then 1 else 0)
  {
    var q := a / b + (if a < 0 && a % b != 0 then 1 else 0);
    assert a == (a / b) * b + a % b && 0 <= a % b < b;
    if a < 0 && a % b != 0 {
      assert q * b == (a / b) * b + b;
      assert a - q * b == a % b - b;
    } else {
      assert a - q * b == a % b;
    }
    TruncDivUnique(a, b, q);
  }

  /** An instance where the two divisions differ. */
  lemma DivisionsDiffer()
    ensures TruncDiv(-7, 2) == -3 && -7 / 2 == -4
  {
    TruncDivVersusEuclidean(-7, 2);
  }

  /** Removing the last decimal digit of a non-negative number undoes
      appending it. */
  lemma {:induction false} TruncDivDropsDigit(i: int, d: int)
    requires i >= 0 && 0 <= d <= 9
    ensures TruncDiv(i * 10 + d, 10) == i
  {
    TruncDivUnique(i * 10 + d, 10, i);
  }

  /** Dividing a product by one of its non-zero factors gives back the other. */
  lemma {:induction false} TruncDivCancels(a: int, b: int)
    requires b != 0
    ensures TruncDiv(a * b, b) == a
  {
    TruncDivUnique(a * b, b, a);
  }

  /** The reducer: apply the pending operator, if any, to the accumulator and
      the input. `Ok(Some(v))` is a new accumulator, `Ok(None)` means "leave
      the accumulator alone", `Err` is a division by zero. */
  function HandleOperation(accOp: Option<Operation>, accumulator: int, input: int): (r: Result<Option<int>>)
    // the only failure is dividing by zero, with its fixed message
    ensures r.Err? <==> accOp == Some(Divide) && input == 0
    ensures r.Err? ==> r.reason == DivideByZero
    // a pending operator that succeeds always yields a new accumulator
    ensures accOp.Some? && r.Ok? ==> r.value.Some?
    ensures accOp == Some(Add) ==> r == Ok(Some(accumulator + input))
    ensures accOp == Some(Subtract) ==> r == Ok(Some(accumulator - input))
    ensures accOp == Some(Multiply) ==> r == Ok(Some(accumulator * input))
    // a successful division rounds toward zero
    ensures accOp == Some(Divide) && input != 0 ==>
      r.Ok? && r.value.Some? &&
      Abs(accumulator - r.value.value * input) < Abs(input) &&
      (accumulator - r.value.value * input == 0 || (accumulator - r.value.value * input < 0 <==> accumulator < 0))
    // with no operator pending: seed a zero accumulator, otherwise do nothing
    ensures accOp.None? && accumulator == 0 ==> r == Ok(Some(input))
    ensures r == Ok(None) <==> accOp.None? && accumulator != 0
  {
    match accOp
    case Some(Add) => Ok(Some(accumulator + input))
    case Some(Subtract) => Ok(Some(accumulator - input))
    case Some(Multiply) => Ok(Some(accumulator * input))
    case Some(Divide) =>
      if input == 0 then Err(DivideByZero) else Ok(Some(TruncDiv(accumulator, input)))
    case None =>
      if accumulator == 0 then Ok(Some(input)) else Ok(None)
  }

  /** Subtracting the input undoes adding it, and dividing by a non-zero
      input undoes multiplying by it. */
  lemma {:induction false} ReducerInverses(accumulator: int, input: int)
    ensures HandleOperation(Some(Subtract), HandleOperation(Some(Add), accumulator, input).value.value, input)
            == Ok(Some(accumulator))
    ensures input != 0 ==>
      HandleOperation(Some(Divide), HandleOperation(Some(Multiply), accumulator, input).value.value, input)
      == Ok(Some(accumulator))
  {
    if input != 0 {
      TruncDivCancels(accumulator, input);
    }
  }
}
