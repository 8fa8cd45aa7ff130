/** The 2D vector of src/vector2.js: a mutable pair of components with
    in-place arithmetic that accepts a vector-like object, a number or an
    absent value as its operand, and static factories and combinators.

    The pure functions first say what each operation computes, on values;
    the class `Vector2` then performs the operations in place, step by step
    as the source does, and its methods are proved to agree with them. */
module Vectors2D {
  import opened JsValues
  import opened Types
  import opened Failures
  import opened Extrema

  /** The fields `x` and `y` of a Vector2. */
  datatype Vec2 = Vec2(x: Num, y: Num)

  const Origin2 := Vec2(Finite(0.0), Finite(0.0))

  /** `ok(x, y)` on the fields: both hold finite numbers. */
  predicate AllFinite(v: Vec2) {
    v.x.Finite? && v.y.Finite?
  }

  /** The plain object `{x, y}` of `toJSON`, which is also what a vector is
      when it is passed to another vector's operation. */
  function AsRecord(v: Vec2): JsValue {
    Record(map["x" := Number(v.x), "y" := Number(v.y)])
  }

  /** The array `[x, y]` of `toArray`. */
  function AsArray(v: Vec2): JsValue {
    Array([Number(v.x), Number(v.y)])
  }

  // ------------------------------------------------------------ constructor

  /** `new Vector2(x, y)`: both finite numbers, or both absent (then 0). */
  function Constructed(x: JsValue, y: JsValue): (r: Result<Vec2>)
    ensures r.Ok? <==> (IsNumber(x) && IsNumber(y)) || (IsEmpty(x) && IsEmpty(y))
    ensures r.Ok? ==> AllFinite(r.value)
    ensures r.Ok? && IsNumber(x) ==> r.value == Vec2(x.n, y.n)
    ensures r.Ok? && IsEmpty(x) ==> r.value == Origin2
    ensures r.Err? ==> r.error == ComponentsNotNumbers2
  {
    if (IsNumber(x) && IsNumber(y)) || (IsEmpty(x) && IsEmpty(y)) then
      Ok(Vec2(AsNum(Or(x, 0.0)), AsNum(Or(y, 0.0))))
    else
      Err(ComponentsNotNumbers2)
  }

  // -------------------------------------------------------------- mutators

  /** A binary mutator: the component-wise step when `value` is 2D
      vector-like, and then, with no return in between, the scalar step with
      `value || fallback` applied to both components. The scalar step alone
      decides the result: an object operand leaves no number behind. */
  function Update(v: Vec2, op: Op, value: JsValue, fallback: real): (r: Vec2)
    ensures value.Record? ==> r == Vec2(NaN, NaN)
    ensures !value.Record? ==>
      r == Vec2(ApplyValue(op, v.x, Or(value, fallback)), ApplyValue(op, v.y, Or(value, fallback)))
  {
    var w :=
      if Is2DVectorLike(value) then Vec2(Apply(op, v.x, Field(value, "x")), Apply(op, v.y, Field(value, "y")))
      else v;
    var s := Or(value, fallback);
    Vec2(ApplyValue(op, w.x, s), ApplyValue(op, w.y, s))
  }

  /** `set(value)`: after the component-wise copy, `x = y = value || 0`. */
  function Assigned(v: Vec2, value: JsValue): (r: Vec2)
    ensures r.x == r.y
    ensures IsNumber(value) ==> r == Vec2(value.n, value.n)
    ensures !Truthy(value) ==> r == Origin2
    ensures Truthy(value) && !value.Number? ==> r == Vec2(NaN, NaN)
  {
    var s := AsNum(Or(value, 0.0));
    Vec2(s, s)
  }

  /** `add(value)`: a falsy operand adds 0; a boolean or a number is added
      to both components; a string, an array or an object is concatenated,
      which leaves no number. */
  function Added(v: Vec2, value: JsValue): (r: Vec2)
    ensures !Truthy(value) ==> r == v
    ensures Truthy(value) && (value.Bool? || value.Number?) ==>
      r == Vec2(Plus(v.x, ToNumber(value)), Plus(v.y, ToNumber(value)))
    ensures Truthy(value) && !(value.Bool? || value.Number?) ==> r == Vec2(NaN, NaN)
  {
    var u := Update(v, PlusAssign, value, 0.0);
    assert !Truthy(value) ==> u == v by {
      if !Truthy(value) {
        NeutralOperand(v.x);
        NeutralOperand(v.y);
      }
    }
    u
  }

  /** `subtract(value)`: a falsy operand subtracts 0; any other operand but
      an object is converted to a number and subtracted from both
      components. */
  function Subtracted(v: Vec2, value: JsValue): (r: Vec2)
    ensures !Truthy(value) ==> r == v
    ensures Truthy(value) && !value.Record? ==>
      r == Vec2(Minus(v.x, ToNumber(value)), Minus(v.y, ToNumber(value)))
    ensures value.Record? ==> r == Vec2(NaN, NaN)
  {
    var u := Update(v, MinusAssign, value, 0.0);
    assert !Truthy(value) ==> u == v by {
      if !Truthy(value) {
        NeutralOperand(v.x);
        NeutralOperand(v.y);
      }
    }
    u
  }

  /** `multiply(value)`: a falsy operand multiplies by 0; any other operand
      but an object is converted to a number that multiplies both
      components. */
  function Multiplied(v: Vec2, value: JsValue): (r: Vec2)
    ensures !Truthy(value) ==> r == Vec2(Times(v.x, Finite(0.0)), Times(v.y, Finite(0.0)))
    ensures !Truthy(value) && AllFinite(v) ==> r == Origin2
    ensures Truthy(value) && !value.Record? ==>
      r == Vec2(Times(v.x, ToNumber(value)), Times(v.y, ToNumber(value)))
    ensures value.Record? ==> r == Vec2(NaN, NaN)
  {
    Update(v, TimesAssign, value, 0.0)
  }

  /** `divide(value)`: fails on the number 0; the scalar step divides by
      `value || 1`, so other falsy operands change nothing, and any other
      operand but an object is converted to the divisor. */
  function Divided(v: Vec2, value: JsValue): (r: Result<Vec2>)
    ensures r.Err? <==> value == Number(Finite(0.0))
    ensures r.Err? ==> r.error == DivideByZero
    ensures !Truthy(value) && r.Ok? ==> r.value == v
    ensures Truthy(value) && !value.Record? ==>
      r == Ok(Vec2(Quotient(v.x, ToNumber(value)), Quotient(v.y, ToNumber(value))))
    ensures value.Record? ==> r == Ok(Vec2(NaN, NaN))
  {
    if value == Number(Finite(0.0)) then Err(DivideByZero)
    else
      var u := Update(v, DivideAssign, value, 1.0);
      assert !Truthy(value) ==> u == v by {
        if !Truthy(value) {
          assert Or(value, 1.0) == Number(Finite(1.0));
          NeutralOperand(v.x);
          NeutralOperand(v.y);
        }
      }
      Ok(u)
  }

  /** `negative()`: every component negated; `NegativeIsTimesMinusOne`
      shows this is what `multiply(-1)` does. */
  function Negated(v: Vec2): Vec2 {
    Vec2(Negate(v.x), Negate(v.y))
  }

  /** `abs()`: a component below zero is multiplied by -1. */
  function Absolute(v: Vec2): (r: Vec2)
    ensures !Less(r.x, Finite(0.0)) && !Less(r.y, Finite(0.0))
    ensures !Less(v.x, Finite(0.0)) ==> r.x == v.x
    ensures !Less(v.y, Finite(0.0)) ==> r.y == v.y
    ensures Less(v.x, Finite(0.0)) ==> r.x == Negate(v.x)
    ensures Less(v.y, Finite(0.0)) ==> r.y == Negate(v.y)
    ensures AllFinite(v) ==> AllFinite(r) && r.x.r >= 0.0 && r.y.r >= 0.0
  {
    TimesMinusOne(v.x);
    TimesMinusOne(v.y);
    Vec2(
      if Less(v.x, Finite(0.0)) then Times(v.x, Finite(-1.0)) else v.x,
      if Less(v.y, Finite(0.0)) then Times(v.y, Finite(-1.0)) else v.y)
  }

  /** `magSq()`: `x ** 2 + y ** 2`, the real sum of squares when both
      components are finite, and never -Infinity. */
  function SquaredMagnitude(v: Vec2): (r: Num)
    ensures AllFinite(v) ==> r == Finite(v.x.r * v.x.r + v.y.r * v.y.r)
    ensures !r.NegInf?
  {
    SquareKind(v.x);
    SquareKind(v.y);
    SumKind(Times(v.x, v.x), Times(v.y, v.y));
    assert AllFinite(v) ==> Plus(Times(v.x, v.x), Times(v.y, v.y)) == Finite(v.x.r * v.x.r + v.y.r * v.y.r) by {
      if AllFinite(v) {
        SquaresOfFinite(v.x, v.y);
      }
    }
    Plus(Times(v.x, v.x), Times(v.y, v.y))
  }

  // ----------------------------------------------------- static functions

  /** `Vector2.from(target)`: the `x, y` of a vector-like value, elements 0
      and 1 of an array (checked by the constructor), or a number on both
      components; any other value fails. */
  function FromValue(target: JsValue): (r: Result<Vec2>)
    ensures r.Ok? ==> AllFinite(r.value)
    ensures Is2DVectorLike(target) ==> r == Ok(Vec2(Field(target, "x"), Field(target, "y")))
    ensures IsArray(target) ==> r == Constructed(At(target, 0), At(target, 1))
    ensures IsNumber(target) ==> r == Ok(Vec2(target.n, target.n))
    ensures !Is2DVectorLike(target) && !IsArray(target) && !IsNumber(target) ==> r == Err(UnexpectedTarget)
  {
    if Is2DVectorLike(target) then Constructed(Get(target, "x"), Get(target, "y"))
    else if IsArray(target) then Constructed(At(target, 0), At(target, 1))
    else if IsNumber(target) then Constructed(target, target)
    else Err(UnexpectedTarget)
  }

  /** `Vector2.of(x, y)`: `x` must be a number; `y` falls back to `x`. */
  function OfValues(x: JsValue, y: JsValue): (r: Result<Vec2>)
    ensures r.Ok? <==> IsNumber(x)
    ensures r.Ok? ==> r.value == Vec2(x.n, if IsNumber(y) then y.n else x.n)
    ensures r.Err? ==> r.error == OfNotNumber2
  {
    if !IsNumber(x) then Err(OfNotNumber2)
    else Constructed(x, if IsNumber(y) then y else x)
  }

  /** Static `Vector2.dot(A, B)`. */
  function DotProduct(a: JsValue, b: JsValue): (r: Result<real>)
    ensures r.Ok? <==> Is2DVectorLike(a) && Is2DVectorLike(b)
    ensures r.Err? ==> r.error == NotVector2
  {
    if !Is2DVectorLike(a) || !Is2DVectorLike(b) then Err(NotVector2)
    else Ok(FieldReal(a, "x") * FieldReal(b, "x") + FieldReal(a, "y") * FieldReal(b, "y"))
  }

  /** Static `Vector2.equals(A, B)`: `===` on both components. */
  function SameComponents(a: JsValue, b: JsValue): (r: Result<bool>)
    ensures r.Ok? <==> Is2DVectorLike(a) && Is2DVectorLike(b)
    ensures r == Ok(true) <==> Is2DVectorLike(a) && Is2DVectorLike(b) && Field(a, "x") == Field(b, "x") && Field(a, "y") == Field(b, "y")
    ensures r.Err? ==> r.error == NotVector2
  {
    if !Is2DVectorLike(a) || !Is2DVectorLike(b) then Err(NotVector2)
    else Ok(StrictEquals(Field(a, "x"), Field(b, "x")) && StrictEquals(Field(a, "y"), Field(b, "y")))
  }

  /** Static `Vector2.distance(A, B)` up to its final square root: the
      argument checks and the sum of squared differences. */
  function SquaredDistance(a: JsValue, b: JsValue): (r: Result<real>)
    ensures r.Ok? <==> Is2DVectorLike(a) && Is2DVectorLike(b)
    ensures r.Ok? ==> r.value >= 0.0
    ensures r.Err? ==> r.error == NotVector2
  {
    if !Is2DVectorLike(a) || !Is2DVectorLike(b) then Err(NotVector2)
    else
      var dx := FieldReal(b, "x") - FieldReal(a, "x");
      var dy := FieldReal(b, "y") - FieldReal(a, "y");
      Ok(dx * dx + dy * dy)
  }

  /** Static `Vector2.lerp(A, B, fraction)`:
      `from(B).subtract(A).multiply(fraction).add(A)`. */
  function Interpolated(a: JsValue, b: JsValue, fraction: JsValue): (r: Result<Vec2>)
    ensures r.Ok? <==> FromValue(b).Ok?
    ensures r.Err? ==> r.error == FromValue(b).error
  {
    match FromValue(b)
    case Err(e) => Err(e)
    case Ok(v) => Ok(Added(Multiplied(Subtracted(v, a), fraction), a))
  }

  /** Static `Vector2.min(A, ...vectors)`. */
  function Minimum(a: JsValue, rest: seq<JsValue>): (r: Result<Vec2>)
    ensures r.Ok? <==> Is2DVectorLike(a) && All2DVectorLike(rest)
    ensures r.Err? ==> r.error == if Is2DVectorLike(a) then NotVector2 else FirstNotVector
  {
    if !Is2DVectorLike(a) then Err(FirstNotVector)
    else if !All2DVectorLike(rest) then Err(NotVector2)
    else Ok(Vec2(Finite(FoldLower(FieldReal(a, "x"), Column(rest, "x"))),
                 Finite(FoldLower(FieldReal(a, "y"), Column(rest, "y")))))
  }

  /** Static `Vector2.max(A, ...vectors)`. */
  function Maximum(a: JsValue, rest: seq<JsValue>): (r: Result<Vec2>)
    ensures r.Ok? <==> Is2DVectorLike(a) && All2DVectorLike(rest)
    ensures r.Err? ==> r.error == if Is2DVectorLike(a) then NotVector2 else FirstNotVector
  {
    if !Is2DVectorLike(a) then Err(FirstNotVector)
    else if !All2DVectorLike(rest) then Err(NotVector2)
    else Ok(Vec2(Finite(FoldHigher(FieldReal(a, "x"), Column(rest, "x"))),
                 Finite(FoldHigher(FieldReal(a, "y"), Column(rest, "y")))))
  }

  // ------------------------------------------------------------ the class

  class Vector2 {
    var x: Num
    var y: Num

    function State(): Vec2
      reads this
    {
      Vec2(x, y)
    }

    /** Stores components that have already been checked. */
    constructor Init(s: Vec2)
      ensures State() == s
    {
      x, y := s.x, s.y;
    }

    /** `new Vector2(x, y)`. */
    static method New(x: JsValue, y: JsValue) returns (r: Result<Vector2>)
      ensures Realizes(r, Constructed(x, y)) && (r.Ok? ==> fresh(r.value))
    {
      if !((IsNumber(x) && IsNumber(y)) || (IsEmpty(x) && IsEmpty(y))) {
        return Err(ComponentsNotNumbers2);
      }
      var v := new Vector2.Init(Vec2(AsNum(Or(x, 0.0)), AsNum(Or(y, 0.0))));
      r := Ok(v);
    }

    /** The sequence the iterator yields. */
    function Elements(): (r: seq<Num>)
      reads this
      ensures |r| == 2 && r[0] == x && r[1] == y
    {
      [x, y]
    }

    method Set(value: JsValue) returns (self: Vector2)
      modifies this
      ensures self == this && State() == Assigned(old(State()), value)
    {
      if Is2DVectorLike(value) {
        x := Field(value, "x");
        y := Field(value, "y");
      }
      var s := AsNum(Or(value, 0.0));
      y := s;
      x := y;
      self := this;
    }

    method Add(value: JsValue) returns (self: Vector2)
      modifies this
      ensures self == this && State() == Added(old(State()), value)
    {
      if Is2DVectorLike(value) {
        x := Plus(x, Field(value, "x"));
        y := Plus(y, Field(value, "y"));
      }
      x := ApplyValue(PlusAssign, x, Or(value, 0.0));
      y := ApplyValue(PlusAssign, y, Or(value, 0.0));
      self := this;
    }

    method Subtract(value: JsValue) returns (self: Vector2)
      modifies this
      ensures self == this && State() == Subtracted(old(State()), value)
    {
      if Is2DVectorLike(value) {
        x := Minus(x, Field(value, "x"));
        y := Minus(y, Field(value, "y"));
      }
      x := ApplyValue(MinusAssign, x, Or(value, 0.0));
      y := ApplyValue(MinusAssign, y, Or(value, 0.0));
      self := this;
    }

    method Multiply(value: JsValue) returns (self: Vector2)
      modifies this
      ensures self == this && State() == Multiplied(old(State()), value)
    {
      if Is2DVectorLike(value) {
        x := Times(x, Field(value, "x"));
        y := Times(y, Field(value, "y"));
      }
      x := ApplyValue(TimesAssign, x, Or(value, 0.0));
      y := ApplyValue(TimesAssign, y, Or(value, 0.0));
      self := this;
    }

    /** The component-wise division runs before the zero check; it cannot
        have run when the check fails, since 0 is not vector-like. */
    method Divide(value: JsValue) returns (r: Result<Vector2>)
      modifies this
      ensures r.Ok? ==> r.value == this && Divided(old(State()), value) == Ok(State())
      ensures r.Err? ==> Divided(old(State()), value) == Err(r.error) && State() == old(State())
    {
      if Is2DVectorLike(value) {
        x := Quotient(x, Field(value, "x"));
        y := Quotient(y, Field(value, "y"));
      }
      if value == Number(Finite(0.0)) {
        return Err(DivideByZero);
      }
      x := ApplyValue(DivideAssign, x, Or(value, 1.0));
      y := ApplyValue(DivideAssign, y, Or(value, 1.0));
      r := Ok(this);
    }

    method Abs() returns (self: Vector2)
      modifies this
      ensures self == this && State() == Absolute(old(State()))
    {
      if Less(x, Finite(0.0)) {
        x := Times(x, Finite(-1.0));
      }
      if Less(y, Finite(0.0)) {
        y := Times(y, Finite(-1.0));
      }
      self := this;
    }

    method Negative() returns (self: Vector2)
      modifies this
      ensures self == this && State() == Negated(old(State()))
    {
      NegativeIsTimesMinusOne(State());
      self := Multiply(Number(Finite(-1.0)));
    }

    /** Instance `dot(vector)`. */
    method Dot(vector: JsValue) returns (r: Result<Num>)
      ensures r.Ok? <==> Is2DVectorLike(vector)
      ensures r.Err? ==> r.error == NotVector2
      ensures r.Ok? ==> r.value == Plus(Times(x, Field(vector, "x")), Times(y, Field(vector, "y")))
      ensures r.Ok? && AllFinite(State()) ==> r.value == Finite(DotProduct(AsRecord(State()), vector).value)
    {
      if !Is2DVectorLike(vector) {
        return Err(NotVector2);
      }
      r := Ok(Plus(Times(x, Field(vector, "x")), Times(y, Field(vector, "y"))));
    }

    /** Instance `equals(vector)`. */
    method Equals(vector: JsValue) returns (r: Result<bool>)
      ensures r.Ok? <==> Is2DVectorLike(vector)
      ensures r.Err? ==> r.error == NotVector2
      ensures r == Ok(true) <==> Is2DVectorLike(vector) && State() == Vec2(Field(vector, "x"), Field(vector, "y"))
      ensures AllFinite(State()) ==> r == SameComponents(AsRecord(State()), vector)
    {
      if !Is2DVectorLike(vector) {
        return Err(NotVector2);
      }
      r := Ok(StrictEquals(x, Field(vector, "x")) && StrictEquals(y, Field(vector, "y")));
    }

    /** `clone()`: `new Vector2(this.x, this.y)`, which the constructor's
        check rejects once a component is no longer a finite number. */
    method Clone() returns (r: Result<Vector2>)
      ensures r.Ok? <==> AllFinite(State())
      ensures r.Ok? ==> fresh(r.value) && r.value.State() == State()
      ensures r.Err? ==> r.error == ComponentsNotNumbers2
    {
      r := New(Number(x), Number(y));
    }

    method MagSq() returns (r: Num)
      ensures r == SquaredMagnitude(State())
      ensures AllFinite(State()) <==> r.Finite?
      ensures AllFinite(State()) ==> r.r >= 0.0
      ensures r == Finite(0.0) ==> State() == Origin2
    {
      r := Plus(Times(x, x), Times(y, y));
      MagSqMeaning(State());
    }

    method IsOK() returns (r: bool)
      ensures r <==> Is2DVectorLike(AsRecord(State()))
      ensures r <==> Constructed(Number(x), Number(y)).Ok?
    {
      r := IsNumber(Number(x)) && IsNumber(Number(y));
    }

    method ToJSON() returns (r: JsValue)
      ensures r == AsRecord(State())
      ensures FromValue(r) == if AllFinite(State()) then Ok(State()) else Err(UnexpectedTarget)
    {
      r := Record(map["x" := Number(x), "y" := Number(y)]);
      assert Get(r, "x") == Number(x) && Get(r, "y") == Number(y);
    }

    method ToArray() returns (r: JsValue)
      ensures r == AsArray(State())
      ensures |r.elems| == |Elements()| && forall i :: 0 <= i < |r.elems| ==> r.elems[i] == Number(Elements()[i])
      ensures FromValue(r) == if AllFinite(State()) then Ok(State()) else Err(ComponentsNotNumbers2)
    {
      r := Array([Number(x), Number(y)]);
    }

    /** `Vector2.from(target)`. */
    static method From(target: JsValue) returns (r: Result<Vector2>)
      ensures Realizes(r, FromValue(target)) && (r.Ok? ==> fresh(r.value))
    {
      if Is2DVectorLike(target) {
        r := New(Get(target, "x"), Get(target, "y"));
        return;
      }
      if IsArray(target) {
        r := New(At(target, 0), At(target, 1));
        return;
      }
      if IsNumber(target) {
        r := New(target, target);
        return;
      }
      r := Err(UnexpectedTarget);
    }

    /** `Vector2.of(x, y)`. */
    static method Of(x: JsValue, y: JsValue) returns (r: Result<Vector2>)
      ensures Realizes(r, OfValues(x, y)) && (r.Ok? ==> fresh(r.value))
    {
      if !IsNumber(x) {
        return Err(OfNotNumber2);
      }
      var y' := if IsNumber(y) then y else x;
      r := New(x, y');
    }

    /** `Vector2.lerp(A, B, fraction)`: the fluent chain on a fresh vector. */
    static method Lerp(a: JsValue, b: JsValue, fraction: JsValue) returns (r: Result<Vector2>)
      ensures Realizes(r, Interpolated(a, b, fraction)) && (r.Ok? ==> fresh(r.value))
    {
      var from := From(b);
      if from.Err? {
        return Err(from.error);
      }
      var v := from.value.Subtract(a);
      v := v.Multiply(fraction);
      v := v.Add(a);
      r := Ok(v);
    }

    /** `Vector2.min(A, ...vectors)`: starts from a copy of `A`. */
    static method Min(a: JsValue, rest: seq<JsValue>) returns (r: Result<Vector2>)
      ensures Realizes(r, Minimum(a, rest)) && (r.Ok? ==> fresh(r.value))
    {
      if !Is2DVectorLike(a) {
        return Err(FirstNotVector);
      }
      var from := From(a);
      var vec := from.value;
      var i := 0;
      while i < |rest|
        invariant 0 <= i <= |rest|
        invariant fresh(vec)
        invariant forall j :: 0 <= j < i ==> Is2DVectorLike(rest[j])
        invariant vec.State() == Vec2(Lowest(Field(a, "x"), rest[..i], "x"), Lowest(Field(a, "y"), rest[..i], "y"))
      {
        var vector := rest[i];
        if !Is2DVectorLike(vector) {
          return Err(NotVector2);
        }
        assert rest[..i + 1][..i] == rest[..i];
        if Less(Field(vector, "x"), vec.x) {
          vec.x := Field(vector, "x");
        }
        if Less(Field(vector, "y"), vec.y) {
          vec.y := Field(vector, "y");
        }
        i := i + 1;
      }
      assert rest[..i] == rest;
      MinimumIsRunning(a, rest);
      r := Ok(vec);
    }

    /** `Vector2.max(A, ...vectors)`: starts from a copy of `A`. */
    static method Max(a: JsValue, rest: seq<JsValue>) returns (r: Result<Vector2>)
      ensures Realizes(r, Maximum(a, rest)) && (r.Ok? ==> fresh(r.value))
    {
      if !Is2DVectorLike(a) {
        return Err(FirstNotVector);
      }
      var from := From(a);
      var vec := from.value;
      var i := 0;
      while i < |rest|
        invariant 0 <= i <= |rest|
        invariant fresh(vec)
        invariant forall j :: 0 <= j < i ==> Is2DVectorLike(rest[j])
        invariant vec.State() == Vec2(Highest(Field(a, "x"), rest[..i], "x"), Highest(Field(a, "y"), rest[..i], "y"))
      {
        var vector := rest[i];
        if !Is2DVectorLike(vector) {
          return Err(NotVector2);
        }
        assert rest[..i + 1][..i] == rest[..i];
        if Less(vec.x, Field(vector, "x")) {
          vec.x := Field(vector, "x");
        }
        if Less(vec.y, Field(vector, "y")) {
          vec.y := Field(vector, "y");
        }
        i := i + 1;
      }
      assert rest[..i] == rest;
      MaximumIsRunning(a, rest);
      r := Ok(vec);
    }

    static method Zero() returns (v: Vector2)
      ensures fresh(v) && v.State() == Vec2(Finite(0.0), Finite(0.0))
    {
      var r := New(Number(Finite(0.0)), Number(Finite(0.0)));
      v := r.value;
    }

    static method One() returns (v: Vector2)
      ensures fresh(v) && v.State() == Vec2(Finite(1.0), Finite(1.0))
    {
      var r := New(Number(Finite(1.0)), Number(Finite(1.0)));
      v := r.value;
    }

    static method Neg() returns (v: Vector2)
      ensures fresh(v) && v.State() == Vec2(Finite(-1.0), Finite(-1.0))
    {
      var r := New(Number(Finite(-1.0)), Number(Finite(-1.0)));
      v := r.value;
    }

    static method Left() returns (v: Vector2)
      ensures fresh(v) && v.State() == Vec2(Finite(-1.0), Finite(0.0))
    {
      var r := New(Number(Finite(-1.0)), Number(Finite(0.0)));
      v := r.value;
    }

    static method Forward() returns (v: Vector2)
      ensures fresh(v) && v.State() == Vec2(Finite(0.0), Finite(-1.0))
    {
      var r := New(Number(Finite(0.0)), Number(Finite(-1.0)));
      v := r.value;
    }

    static method Right() returns (v: Vector2)
      ensures fresh(v) && v.State() == Vec2(Finite(1.0), Finite(0.0))
    {
      var r := New(Number(Finite(1.0)), Number(Finite(0.0)));
      v := r.value;
    }

    static method Back() returns (v: Vector2)
      ensures fresh(v) && v.State() == Vec2(Finite(0.0), Finite(1.0))
    {
      var r := New(Number(Finite(0.0)), Number(Finite(1.0)));
      v := r.value;
    }
  }

  /** `r` is the outcome `s` describes: the same failure, or a vector
      holding the described components. */
  predicate Realizes(r: Result<Vector2>, s: Result<Vec2>)
    reads if r.Ok? then {r.value} else {}
  {
    match r
    case Ok(v) => s == Ok(v.State())
    case Err(e) => s == Err(e)
  }

  // --------------------------------------------------------------- lemmas

  /** `magSq` is finite exactly when both components are; it is never
      negative then, and zero only for the zero vector. */
  lemma MagSqMeaning(v: Vec2)
    ensures AllFinite(v) <==> SquaredMagnitude(v).Finite?
    ensures AllFinite(v) ==> SquaredMagnitude(v).r >= 0.0
    ensures SquaredMagnitude(v) == Finite(0.0) ==> v == Origin2
  {
    if AllFinite(v) {
      MagSqFinite(v);
    } else {
      MagSqNotFinite(v);
    }
  }

  lemma MagSqNotFinite(v: Vec2)
    requires !AllFinite(v)
    ensures !SquaredMagnitude(v).Finite?
  {
    SquareKind(v.x);
    SquareKind(v.y);
    SumKind(Times(v.x, v.x), Times(v.y, v.y));
  }

  lemma MagSqFinite(v: Vec2)
    requires AllFinite(v)
    ensures SquaredMagnitude(v).Finite? && SquaredMagnitude(v).r >= 0.0
    ensures SquaredMagnitude(v) == Finite(0.0) ==> v == Origin2
  {
    SquaresOfFinite(v.x, v.y);
    if v.x.r != 0.0 {
      SquarePositive(v.x.r);
    }
    if v.y.r != 0.0 {
      SquarePositive(v.y.r);
    }
  }

  /** The constructor accepts both finite numbers or both absent, and rejects
      every mix of a number and an absent value. */
  lemma ConstructorMixFails(k: real, absent: JsValue)
    requires IsEmpty(absent)
    ensures Constructed(Number(Finite(k)), absent) == Err(ComponentsNotNumbers2)
    ensures Constructed(absent, Number(Finite(k))) == Err(ComponentsNotNumbers2)
    ensures Constructed(Undefined, Undefined) == Ok(Origin2)
    ensures Constructed(Number(Finite(k)), Number(Finite(k))) == Ok(Vec2(Finite(k), Finite(k)))
  {
  }

  /** A binary mutator whose operand is not vector-like is its scalar step
      alone. */
  lemma UpdateByNonVector(v: Vec2, op: Op, value: JsValue, fallback: real)
    requires !Is2DVectorLike(value)
    ensures Update(v, op, value, fallback) ==
      Vec2(ApplyValue(op, v.x, Or(value, fallback)), ApplyValue(op, v.y, Or(value, fallback)))
  {
  }

  /** A finite scalar is applied to both components by `set`, `add`,
      `subtract` and `multiply`, and by `divide` when it is not zero. */
  lemma ScalarBroadcast(v: Vec2, k: real)
    ensures Assigned(v, Number(Finite(k))) == Vec2(Finite(k), Finite(k))
    ensures Added(v, Number(Finite(k))) == Vec2(Plus(v.x, Finite(k)), Plus(v.y, Finite(k)))
    ensures Subtracted(v, Number(Finite(k))) == Vec2(Minus(v.x, Finite(k)), Minus(v.y, Finite(k)))
    ensures Multiplied(v, Number(Finite(k))) == Vec2(Times(v.x, Finite(k)), Times(v.y, Finite(k)))
    ensures k != 0.0 ==> Divided(v, Number(Finite(k))) == Ok(Vec2(Quotient(v.x, Finite(k)), Quotient(v.y, Finite(k))))
  {
    OrZeroKeepsNumber(k);
    UpdateByNonVector(v, PlusAssign, Number(Finite(k)), 0.0);
    UpdateByNonVector(v, MinusAssign, Number(Finite(k)), 0.0);
    UpdateByNonVector(v, TimesAssign, Number(Finite(k)), 0.0);
    UpdateByNonVector(v, DivideAssign, Number(Finite(k)), 1.0);
  }

  /** On finite components the broadcast is plain real arithmetic. */
  lemma ScalarBroadcastFinite(a: real, b: real, k: real)
    ensures Added(Vec2(Finite(a), Finite(b)), Number(Finite(k))) == Vec2(Finite(a + k), Finite(b + k))
    ensures Subtracted(Vec2(Finite(a), Finite(b)), Number(Finite(k))) == Vec2(Finite(a - k), Finite(b - k))
    ensures Multiplied(Vec2(Finite(a), Finite(b)), Number(Finite(k))) == Vec2(Finite(a * k), Finite(b * k))
    ensures k != 0.0 ==> Divided(Vec2(Finite(a), Finite(b)), Number(Finite(k))) == Ok(Vec2(Finite(a / k), Finite(b / k)))
  {
    ScalarBroadcast(Vec2(Finite(a), Finite(b)), k);
    FiniteArithmetic(a, k);
    FiniteArithmetic(b, k);
  }

  /** With 0, null or undefined, `add` and `subtract` change nothing, while
      `multiply` and `set` zero a vector whose components are numbers; with
      null or undefined `divide` divides by 1, changing nothing; `divide(0)`
      fails. */
  lemma NeutralOperands(v: Vec2, value: JsValue)
    requires IsEmpty(value) || value == Number(Finite(0.0))
    ensures Added(v, value) == v && Subtracted(v, value) == v
    ensures Assigned(v, value) == Origin2
    ensures AllFinite(v) ==> Multiplied(v, value) == Origin2
    ensures Divided(v, value) == if IsEmpty(value) then Ok(v) else Err(DivideByZero)
  {
    assert Or(value, 0.0) == Number(Finite(0.0));
    assert IsEmpty(value) ==> Or(value, 1.0) == Number(Finite(1.0));
    UpdateByNonVector(v, PlusAssign, value, 0.0);
    UpdateByNonVector(v, MinusAssign, value, 0.0);
    UpdateByNonVector(v, TimesAssign, value, 0.0);
    UpdateByNonVector(v, DivideAssign, value, 1.0);
    NeutralOperand(v.x);
    NeutralOperand(v.y);
  }

  /** With an object operand, vector-like or not, the scalar step runs with
      the object itself (after the component-wise step, if any), so every
      binary mutator leaves two components that are not numbers, and
      `isOK()` is false. */
  lemma ObjectOperandSpoils(v: Vec2, value: JsValue)
    requires value.Record?
    ensures Assigned(v, value) == Vec2(NaN, NaN)
    ensures Added(v, value) == Vec2(NaN, NaN)
    ensures Subtracted(v, value) == Vec2(NaN, NaN)
    ensures Multiplied(v, value) == Vec2(NaN, NaN)
    ensures Divided(v, value) == Ok(Vec2(NaN, NaN))
    ensures !AllFinite(Added(v, value))
  {
  }

  /** Operands of other types act through their conversion to a number:
      `multiply([k])` multiplies by `k`, `add(true)` adds 1, and
      `subtract([])` changes nothing. */
  lemma ConvertedOperands(a: real, b: real, k: real, v: Vec2)
    ensures Multiplied(Vec2(Finite(a), Finite(b)), Array([Number(Finite(k))])) == Vec2(Finite(a * k), Finite(b * k))
    ensures Added(Vec2(Finite(a), Finite(b)), Bool(true)) == Vec2(Finite(a + 1.0), Finite(b + 1.0))
    ensures Subtracted(v, Array([])) == v
  {
    FiniteArithmetic(a, k);
    FiniteArithmetic(b, k);
    FiniteArithmetic(a, 1.0);
    FiniteArithmetic(b, 1.0);
  }

  /** The decimal text of an integer is converted too: `subtract("3")`
      subtracts 3 and `divide("2")` halves. */
  lemma ConvertedStrings(a: real, b: real, n: nat)
    ensures Subtracted(Vec2(Finite(a), Finite(b)), Str(DecimalText(n))) == Vec2(Finite(a - n as real), Finite(b - n as real))
    ensures n != 0 ==> Divided(Vec2(Finite(a), Finite(b)), Str(DecimalText(n))) == Ok(Vec2(Finite(a / n as real), Finite(b / n as real)))
  {
    IntegerTextRoundTrip(n);
    FiniteArithmetic(a, n as real);
    FiniteArithmetic(b, n as real);
  }

  /** `add` with any non-empty string concatenates, whatever the string
      holds, and so leaves no number in either component. */
  lemma StringsConcatenate(s: string, v: Vec2)
    requires s != ""
    ensures Added(v, Str(s)) == Vec2(NaN, NaN)
  {
  }

  /** `negative()` is `multiply(-1)`: it negates every component, the
      infinities and NaN included. */
  lemma NegativeIsTimesMinusOne(v: Vec2)
    ensures Multiplied(v, Number(Finite(-1.0))) == Negated(v)
  {
    UpdateByNonVector(v, TimesAssign, Number(Finite(-1.0)), 0.0);
    TimesMinusOne(v.x);
    TimesMinusOne(v.y);
  }

  /** `negative()` negates both components, and twice restores the vector. */
  lemma NegateTwice(v: Vec2)
    ensures Negated(Negated(v)) == v
    ensures AllFinite(v) ==> Negated(v) == Vec2(Finite(-v.x.r), Finite(-v.y.r))
  {
    NegateInvolution(v.x);
    NegateInvolution(v.y);
  }

  /** `abs()` is idempotent. */
  lemma AbsIdempotent(v: Vec2)
    ensures Absolute(Absolute(v)) == Absolute(v)
  {
  }

  /** `from` inverts `toJSON` and `toArray` on a vector whose components are
      finite numbers. */
  lemma FromInvertsConversions(v: Vec2)
    requires AllFinite(v)
    ensures FromValue(AsRecord(v)) == Ok(v)
    ensures FromValue(AsArray(v)) == Ok(v)
  {
    assert Get(AsRecord(v), "x") == Number(v.x);
    assert Get(AsRecord(v), "y") == Number(v.y);
  }

  /** Static `dot` and `equals` are symmetric, and `equals` is reflexive on
      vector-like values; `distance` is symmetric. */
  lemma StaticSymmetry(a: JsValue, b: JsValue)
    ensures DotProduct(a, b) == DotProduct(b, a)
    ensures SameComponents(a, b) == SameComponents(b, a)
    ensures SquaredDistance(a, b) == SquaredDistance(b, a)
    ensures Is2DVectorLike(a) ==> SameComponents(a, a) == Ok(true)
  {
    if Is2DVectorLike(a) && Is2DVectorLike(b) {
      var dx := FieldReal(b, "x") - FieldReal(a, "x");
      var dy := FieldReal(b, "y") - FieldReal(a, "y");
      assert (-dx) * (-dx) == dx * dx;
      assert (-dy) * (-dy) == dy * dy;
    }
  }

  /** `min` keeps, component by component, the running minimum of `A` and
      the operands after it; on operands that are all vector-like that is the
      fold of `Lower` over each column. */
  lemma MinimumIsRunning(a: JsValue, rest: seq<JsValue>)
    requires Is2DVectorLike(a) && All2DVectorLike(rest)
    ensures Minimum(a, rest) == Ok(Vec2(Lowest(Field(a, "x"), rest, "x"), Lowest(Field(a, "y"), rest, "y")))
  {
    LowestIsFold(FieldReal(a, "x"), rest, "x");
    LowestIsFold(FieldReal(a, "y"), rest, "y");
  }

  /** `max` mirrors `min` with the running maximum. */
  lemma MaximumIsRunning(a: JsValue, rest: seq<JsValue>)
    requires Is2DVectorLike(a) && All2DVectorLike(rest)
    ensures Maximum(a, rest) == Ok(Vec2(Highest(Field(a, "x"), rest, "x"), Highest(Field(a, "y"), rest, "y")))
  {
    HighestIsFold(FieldReal(a, "x"), rest, "x");
    HighestIsFold(FieldReal(a, "y"), rest, "y");
  }

  /** `min` starts from a copy of `A` and compares every further argument:
      each component of the result is at most the matching component of
      every argument, and equals one of them. */
  lemma MinimumBounds(a: JsValue, rest: seq<JsValue>)
    requires Minimum(a, rest).Ok?
    ensures AllFinite(Minimum(a, rest).value)
    ensures Minimum(a, rest).value.x.r <= FieldReal(a, "x") && Minimum(a, rest).value.y.r <= FieldReal(a, "y")
    ensures forall i :: 0 <= i < |rest| ==>
      Minimum(a, rest).value.x.r <= FieldReal(rest[i], "x") && Minimum(a, rest).value.y.r <= FieldReal(rest[i], "y")
    ensures Minimum(a, rest).value.x.r == FieldReal(a, "x") || exists i :: 0 <= i < |rest| && Minimum(a, rest).value.x.r == FieldReal(rest[i], "x")
    ensures Minimum(a, rest).value.y.r == FieldReal(a, "y") || exists i :: 0 <= i < |rest| && Minimum(a, rest).value.y.r == FieldReal(rest[i], "y")
  {
    FoldLowerBounds(FieldReal(a, "x"), Column(rest, "x"));
    FoldLowerBounds(FieldReal(a, "y"), Column(rest, "y"));
  }

  /** `max` mirrors `min`: each component of the result is at least the
      matching component of every argument, and equals one of them. */
  lemma MaximumBounds(a: JsValue, rest: seq<JsValue>)
    requires Maximum(a, rest).Ok?
    ensures AllFinite(Maximum(a, rest).value)
    ensures Maximum(a, rest).value.x.r >= FieldReal(a, "x") && Maximum(a, rest).value.y.r >= FieldReal(a, "y")
    ensures forall i :: 0 <= i < |rest| ==>
      Maximum(a, rest).value.x.r >= FieldReal(rest[i], "x") && Maximum(a, rest).value.y.r >= FieldReal(rest[i], "y")
    ensures Maximum(a, rest).value.x.r == FieldReal(a, "x") || exists i :: 0 <= i < |rest| && Maximum(a, rest).value.x.r == FieldReal(rest[i], "x")
    ensures Maximum(a, rest).value.y.r == FieldReal(a, "y") || exists i :: 0 <= i < |rest| && Maximum(a, rest).value.y.r == FieldReal(rest[i], "y")
  {
    FoldHigherBounds(FieldReal(a, "x"), Column(rest, "x"));
    FoldHigherBounds(FieldReal(a, "y"), Column(rest, "y"));
  }

  /** With a number `A`, a finite fraction `t` and a `B` that `from`
      accepts, `lerp` computes `d * t + A` on each component, where `d` is
      that component of `B - A`. */
  lemma LerpOfNumber(p: real, b: JsValue, qx: real, qy: real, t: real, dx: real, dy: real, rx: real, ry: real)
    requires FromValue(b) == Ok(Vec2(Finite(qx), Finite(qy)))
    requires dx == qx - p && dy == qy - p
    requires rx == dx * t + p && ry == dy * t + p
    ensures Interpolated(Number(Finite(p)), b, Number(Finite(t))) == Ok(Vec2(Finite(rx), Finite(ry)))
  {
    var d := Subtracted(Vec2(Finite(qx), Finite(qy)), Number(Finite(p)));
    assert d == Vec2(Finite(dx), Finite(dy)) by {
      ScalarBroadcastFinite(qx, qy, p);
    }
    LerpSteps(dx, dy, p, t);
  }

  /** `t = 0` gives `A` on both components. */
  lemma LerpAtZero(p: real, b: JsValue, qx: real, qy: real)
    requires FromValue(b) == Ok(Vec2(Finite(qx), Finite(qy)))
    ensures Interpolated(Number(Finite(p)), b, Number(Finite(0.0))) == Ok(Vec2(Finite(p), Finite(p)))
  {
    LerpOfNumber(p, b, qx, qy, 0.0, qx - p, qy - p, p, p);
  }

  /** `t = 1` gives `B`. */
  lemma LerpAtOne(p: real, b: JsValue, qx: real, qy: real)
    requires FromValue(b) == Ok(Vec2(Finite(qx), Finite(qy)))
    ensures Interpolated(Number(Finite(p)), b, Number(Finite(1.0))) == Ok(Vec2(Finite(qx), Finite(qy)))
  {
    LerpOfNumber(p, b, qx, qy, 1.0, qx - p, qy - p, qx, qy);
  }

  /** The `multiply(fraction).add(A)` tail of `lerp` with numbers. */
  lemma LerpSteps(dx: real, dy: real, p: real, t: real)
    ensures Added(Multiplied(Vec2(Finite(dx), Finite(dy)), Number(Finite(t))), Number(Finite(p))) ==
      Vec2(Finite(dx * t + p), Finite(dy * t + p))
  {
    var a, b := dx * t, dy * t;
    assert Multiplied(Vec2(Finite(dx), Finite(dy)), Number(Finite(t))) == Vec2(Finite(a), Finite(b)) by {
      ScalarBroadcastFinite(dx, dy, t);
    }
    assert Added(Vec2(Finite(a), Finite(b)), Number(Finite(p))) == Vec2(Finite(a + p), Finite(b + p)) by {
      ScalarBroadcastFinite(a, b, p);
    }
  }

  /** With an object `A` (in particular another vector), `lerp` never
      yields a usable vector: the `subtract(A)` and `add(A)` steps end with
      the object itself as a scalar. */
  lemma LerpOfObjectSpoils(a: JsValue, b: JsValue, fraction: JsValue)
    requires a.Record? && FromValue(b).Ok?
    ensures Interpolated(a, b, fraction) == Ok(Vec2(NaN, NaN))
  {
  }
}
