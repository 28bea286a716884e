/** The integer calculator of src/bn.ts. Every amount is a natural number, every
    division and square root is rounded down as soon as it is computed, and a
    subtraction below zero or a division by zero aborts the whole expression. */
module BigNum {
  import opened Wrappers
  import opened Arithmetic

  datatype Error =
    | InvalidAmount
    | InvalidSlippage
    | InsufficientAmount
    | ExceedingSlippage
    | DuplicateTick
    | InsufficientLiquidity
    | PoolExisted
    | PoolNotFound
    | ServerError   // `need` without a message
    | Undefined     // a property read on a ledger that does not exist

  /** Floor of the square root. */
  function Sqrt(n: nat): (r: nat)
    ensures r * r <= n < (r + 1) * (r + 1)
  {
    if n == 0 then 0
    else
      var r := Sqrt(n - 1);
      if (r + 1) * (r + 1) <= n then r + 1 else r
  }

  lemma SqrtIsGreatest(n: nat, r: nat)
    requires r * r <= n
    ensures r <= Sqrt(n)
  {
    var s := Sqrt(n);
    if s < r {
      SquareMonotone(s + 1, r);
    }
  }

  lemma SqrtMonotone(m: nat, n: nat)
    requires m <= n
    ensures Sqrt(m) <= Sqrt(n)
  {
    SqrtIsGreatest(n, Sqrt(m));
  }

  function Pow(b: nat, e: nat): nat {
    if e == 0 then 1 else b * Pow(b, e - 1)
  }

  datatype Symbol = AddOp | SubOp | MulOp | DivOp | PowOp | SqrtOp
  datatype Item = Num(n: nat) | Sym(s: Symbol)

  predicate IsNum(items: seq<Item>, i: nat) {
    i < |items| && items[i].Num?
  }

  /** One operator of the loop, applied to the accumulator and its operand. */
  function Apply(ret: nat, s: Symbol, next: nat): (r: Result<nat, Error>)
    requires s != SqrtOp
  {
    match s
    case AddOp => Ok(ret + next)
    case SubOp => if ret >= next then Ok(ret - next) else Err(InvalidAmount)
    case MulOp => Ok(ret * next)
    case DivOp => if next > 0 then Ok(Quotient(ret, next)) else Err(InvalidAmount)
    case PowOp => Ok(Pow(ret, next))
  }

  /** What the loop of `_bnCal` computes from index `i` on with accumulator `ret`. */
  function CalFrom(items: seq<Item>, i: nat, ret: nat): Result<nat, Error>
    decreases |items| - i
  {
    if i >= |items| then Ok(ret)
    else
      var cur := items[i];
      if cur.Num? then
        if IsNum(items, i + 1) then Err(ServerError) else CalFrom(items, i + 1, ret)
      else if cur.s == SqrtOp then CalFrom(items, i + 1, Sqrt(ret))
      else if !IsNum(items, i + 1) then Err(InvalidAmount)
      else
        var r :- Apply(ret, cur.s, items[i + 1].n);
        CalFrom(items, i + 2, r)
  }

  /** The value of `uintCal(items)`. */
  function Cal(items: seq<Item>): Result<nat, Error> {
    if !IsNum(items, 0) || IsNum(items, 1) then Err(ServerError) else CalFrom(items, 1, items[0].n)
  }

  /** The interpreter itself: a left-to-right loop over the items. */
  method UintCal(items: seq<Item>) returns (r: Result<nat, Error>)
    ensures r == Cal(items)
  {
    var _ :- Need(IsNum(items, 0), ServerError);
    var _ :- Need(!IsNum(items, 1), ServerError);
    var ret := items[0].n;
    var i := 1;
    while i < |items|
      invariant 1 <= i
      invariant Cal(items) == CalFrom(items, i, ret)
    {
      var cur := items[i];
      if cur.Num? {
        var _ :- Need(!IsNum(items, i + 1), ServerError);
      } else if cur.s == SqrtOp {
        ret := Sqrt(ret);
      } else {
        var _ :- Need(IsNum(items, i + 1), InvalidAmount);
        ret :- Apply(ret, cur.s, items[i + 1].n);
        i := i + 1;
      }
      i := i + 1;
    }
    return Ok(ret);
  }

  // The arithmetic that the contract's expressions denote.

  function SubCal(a: nat, b: nat): Result<nat, Error> {
    if a >= b then Ok(a - b) else Err(InvalidAmount)
  }

  function DivCal(a: nat, b: nat): Result<nat, Error> {
    if b > 0 then Ok(Quotient(a, b)) else Err(InvalidAmount)
  }

  /** `[a, mul, b, div, c]` */
  function MulDivCal(a: nat, b: nat, c: nat): Result<nat, Error> {
    DivCal(a * b, c)
  }

  lemma TwoItems(a: nat, s: Symbol, b: nat)
    requires s != SqrtOp
    ensures Cal([Num(a), Sym(s), Num(b)]) == Apply(a, s, b)
  {
    var items := [Num(a), Sym(s), Num(b)];
    assert Cal(items) == CalFrom(items, 1, a);
    if Apply(a, s, b).Ok? {
      assert CalFrom(items, 3, Apply(a, s, b).value) == Apply(a, s, b);
    }
  }

  lemma ThreeItems(a: nat, s: Symbol, b: nat, t: Symbol, c: nat)
    requires s != SqrtOp && t != SqrtOp
    ensures Cal([Num(a), Sym(s), Num(b), Sym(t), Num(c)]) ==
            var r := Apply(a, s, b); if r.Err? then r else Apply(r.value, t, c)
  {
    var items := [Num(a), Sym(s), Num(b), Sym(t), Num(c)];
    assert Cal(items) == CalFrom(items, 1, a);
    var r := Apply(a, s, b);
    if r.Ok? {
      assert CalFrom(items, 3, r.value) ==
             var q := Apply(r.value, t, c); if q.Err? then q else CalFrom(items, 5, q.value);
    }
  }

  /** Expressions are evaluated strictly left to right, with no precedence: the
      shapes written in the contract denote exactly these values. */
  lemma {:induction false} ContractExpressions(a: nat, b: nat, c: nat)
    ensures Cal([Num(a), Sym(SubOp), Num(b)]) == SubCal(a, b)
    ensures Cal([Num(a), Sym(DivOp), Num(b)]) == DivCal(a, b)
    ensures Cal([Num(a), Sym(MulOp), Num(b), Sym(DivOp), Num(c)]) == MulDivCal(a, b, c)
    ensures Cal([Num(a), Sym(MulOp), Num(b), Sym(MulOp), Num(c)]) == Ok(a * b * c)
    ensures Cal([Num(a), Sym(MulOp), Num(b), Sym(AddOp), Num(c)]) == Ok(a * b + c)
    ensures Cal([Num(a), Sym(SubOp), Num(b), Sym(MulOp), Num(c)]) ==
            if a >= b then Ok((a - b) * c) else Err(InvalidAmount)
    ensures Cal([Num(a), Sym(DivOp), Num(b), Sym(AddOp), Num(c)]) ==
            if b > 0 then Ok(Quotient(a, b) + c) else Err(InvalidAmount)
    ensures Cal([Num(a), Sym(MulOp), Num(b), Sym(SqrtOp)]) == Ok(Sqrt(a * b))
    ensures Cal([Num(a), Sym(SqrtOp)]) == Ok(Sqrt(a))
  {
    TwoItems(a, SubOp, b);
    TwoItems(a, DivOp, b);
    ThreeItems(a, MulOp, b, DivOp, c);
    ThreeItems(a, MulOp, b, MulOp, c);
    ThreeItems(a, MulOp, b, AddOp, c);
    ThreeItems(a, SubOp, b, MulOp, c);
    ThreeItems(a, DivOp, b, AddOp, c);
    var root := [Num(a), Sym(SqrtOp)];
    assert Cal(root) == CalFrom(root, 1, a);
    assert CalFrom(root, 2, Sqrt(a)) == Ok(Sqrt(a));
    var mulRoot := [Num(a), Sym(MulOp), Num(b), Sym(SqrtOp)];
    assert Cal(mulRoot) == CalFrom(mulRoot, 1, a);
    assert CalFrom(mulRoot, 3, a * b) == CalFrom(mulRoot, 4, Sqrt(a * b));
  }

  // The same expressions run by the interpreter, as the contract's methods call them.

  method Subtract(a: nat, b: nat) returns (r: Result<nat, Error>)
    ensures r == SubCal(a, b)
  {
    ContractExpressions(a, b, 0);
    r := UintCal([Num(a), Sym(SubOp), Num(b)]);
  }

  method Divide(a: nat, b: nat) returns (r: Result<nat, Error>)
    ensures r == DivCal(a, b)
  {
    ContractExpressions(a, b, 0);
    r := UintCal([Num(a), Sym(DivOp), Num(b)]);
  }

  method MultiplyDivide(a: nat, b: nat, c: nat) returns (r: Result<nat, Error>)
    ensures r == MulDivCal(a, b, c)
  {
    ContractExpressions(a, b, c);
    r := UintCal([Num(a), Sym(MulOp), Num(b), Sym(DivOp), Num(c)]);
  }

  method MultiplySqrt(a: nat, b: nat) returns (r: nat)
    ensures r == Sqrt(a * b)
  {
    ContractExpressions(a, b, 0);
    var v := UintCal([Num(a), Sym(MulOp), Num(b), Sym(SqrtOp)]);
    return v.value;
  }

  method SquareRoot(a: nat) returns (r: nat)
    ensures r == Sqrt(a)
  {
    ContractExpressions(a, 0, 0);
    var v := UintCal([Num(a), Sym(SqrtOp)]);
    return v.value;
  }

  method MultiplyAdd(a: nat, b: nat, c: nat) returns (r: nat)
    ensures r == a * b + c
  {
    ContractExpressions(a, b, c);
    var v := UintCal([Num(a), Sym(MulOp), Num(b), Sym(AddOp), Num(c)]);
    return v.value;
  }

  method SubtractMultiply(a: nat, b: nat, c: nat) returns (r: Result<nat, Error>)
    ensures r == if a >= b then Ok((a - b) * c) else Err(InvalidAmount)
  {
    ContractExpressions(a, b, c);
    r := UintCal([Num(a), Sym(SubOp), Num(b), Sym(MulOp), Num(c)]);
  }

  method DivideAdd(a: nat, b: nat, c: nat) returns (r: Result<nat, Error>)
    ensures r == if b > 0 then Ok(Quotient(a, b) + c) else Err(InvalidAmount)
  {
    ContractExpressions(a, b, c);
    r := UintCal([Num(a), Sym(DivOp), Num(b), Sym(AddOp), Num(c)]);
  }
}
