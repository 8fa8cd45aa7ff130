/** The 3D vector of src/vector3.js: a mutable triple of components with the
    same in-place arithmetic as the 2D vector, a cross product, and static
    factories and combinators.

    As for the 2D vector, the pure functions say what each operation
    computes, on values, and the class `Vector3` performs the operations in
    place, step by step as the source does. */
module Vectors3D {
  import opened JsValues
  import opened Types
  import opened Failures
  import opened Extrema

  /** The fields `x`, `y` and `z` of a Vector3. */
  datatype Vec3 = Vec3(x: Num, y: Num, z: Num)

  const Origin3 := Vec3(Finite(0.0), Finite(0.0), Finite(0.0))

  /** `ok(x, y, z)` on the fields: all three hold finite numbers. */
  predicate AllFinite(v: Vec3) {
    v.x.Finite? && v.y.Finite? && v.z.Finite?
  }

  /** The plain object `{x, y, z}` of `toJSON`, which is also what a vector
      is when it is passed to another vector's operation. */
  function AsRecord(v: Vec3): JsValue {
    Record(map["x" := Number(v.x), "y" := Number(v.y), "z" := Number(v.z)])
  }

  /** The array `[x, y, z]` of `toArray`. */
  function AsArray(v: Vec3): JsValue {
    Array([Number(v.x), Number(v.y), Number(v.z)])
  }

  /** `isUndefined(value)`. src/vector3.js imports it from
      src/utils/types.js, which does not export it, so the import does not
      resolve as written. The model assumes the meaning its name gives in
      that file's family of tests: `isEmpty` is `== null` (null or
      undefined) and `isDefined` is `!= null`, so `isUndefined` is taken to
      be `=== undefined`, the value `undefined` alone, which is narrower
      than `isEmpty`. */
  predicate IsUndefined(v: JsValue): (r: bool)
    ensures r ==> IsEmpty(v)
    ensures v == Null ==> !r
  {
    v.Undefined?
  }

  // ------------------------------------------------------------ constructor

  /** `new Vector3(x, y, z)`: three finite numbers, or all three undefined
      (then 0). */
  function Constructed(x: JsValue, y: JsValue, z: JsValue): (r: Result<Vec3>)
    ensures r.Ok? <==> (IsNumber(x) && IsNumber(y) && IsNumber(z)) || (IsUndefined(x) && IsUndefined(y) && IsUndefined(z))
    ensures r.Ok? ==> AllFinite(r.value)
    ensures r.Ok? && IsNumber(x) ==> r.value == Vec3(x.n, y.n, z.n)
    ensures r.Ok? && IsUndefined(x) ==> r.value == Origin3
    ensures r.Err? ==> r.error == ComponentsNotNumbers3
  {
    if (IsNumber(x) && IsNumber(y) && IsNumber(z)) || (IsUndefined(x) && IsUndefined(y) && IsUndefined(z)) then
      Ok(Vec3(AsNum(Or(x, 0.0)), AsNum(Or(y, 0.0)), AsNum(Or(z, 0.0))))
    else
      Err(ComponentsNotNumbers3)
  }

  // -------------------------------------------------------------- mutators

  /** A binary mutator: the component-wise step when `value` is 3D
      vector-like, and then, with no return in between, the scalar step with
      `value || fallback` applied to all three components. The scalar step
      alone decides the result: an object operand leaves no number behind. */
  function Update(v: Vec3, op: Op, value: JsValue, fallback: real): (r: Vec3)
    ensures value.Record? ==> r == Vec3(NaN, NaN, NaN)
    ensures !value.Record? ==>
      r == Vec3(ApplyValue(op, v.x, Or(value, fallback)), ApplyValue(op, v.y, Or(value, fallback)),
                ApplyValue(op, v.z, Or(value, fallback)))
  {
    var w :=
      if Is3DVectorLike(value) then
        Vec3(Apply(op, v.x, Field(value, "x")), Apply(op, v.y, Field(value, "y")), Apply(op, v.z, Field(value, "z")))
      else v;
    var s := Or(value, fallback);
    Vec3(ApplyValue(op, w.x, s), ApplyValue(op, w.y, s), ApplyValue(op, w.z, s))
  }

  /** `set(value)`: after the component-wise copy,
      `x = y = z = value || 0`. */
  function Assigned(v: Vec3, value: JsValue): (r: Vec3)
    ensures r.x == r.y == r.z
    ensures IsNumber(value) ==> r == Vec3(value.n, value.n, value.n)
    ensures !Truthy(value) ==> r == Origin3
    ensures Truthy(value) && !value.Number? ==> r == Vec3(NaN, NaN, NaN)
  {
    var s := AsNum(Or(value, 0.0));
    Vec3(s, s, s)
  }

  /** `add(value)`: a falsy operand adds 0; a boolean or a number is added
      to every component; a string, an array or an object is concatenated,
      which leaves no number. */
  function Added(v: Vec3, value: JsValue): (r: Vec3)
    ensures !Truthy(value) ==> r == v
    ensures Truthy(value) && (value.Bool? || value.Number?) ==>
      r == Vec3(Plus(v.x, ToNumber(value)), Plus(v.y, ToNumber(value)), Plus(v.z, ToNumber(value)))
    ensures Truthy(value) && !(value.Bool? || value.Number?) ==> r == Vec3(NaN, NaN, NaN)
  {
    var u := Update(v, PlusAssign, value, 0.0);
    assert !Truthy(value) ==> u == v by {
      if !Truthy(value) {
        NeutralOperand(v.x);
        NeutralOperand(v.y);
        NeutralOperand(v.z);
      }
    }
    u
  }

  /** `subtract(value)`: a falsy operand subtracts 0; any other operand but
      an object is converted to a number and subtracted from every
      component. */
  function Subtracted(v: Vec3, value: JsValue): (r: Vec3)
    ensures !Truthy(value) ==> r == v
    ensures Truthy(value) && !value.Record? ==>
      r == Vec3(Minus(v.x, ToNumber(value)), Minus(v.y, ToNumber(value)), Minus(v.z, ToNumber(value)))
    ensures value.Record? ==> r == Vec3(NaN, NaN, NaN)
  {
    var u := Update(v, MinusAssign, value, 0.0);
    assert !Truthy(value) ==> u == v by {
      if !Truthy(value) {
        NeutralOperand(v.x);
        NeutralOperand(v.y);
        NeutralOperand(v.z);
      }
    }
    u
  }

  /** `multiply(value)`: a falsy operand multiplies by 0; any other operand
      but an object is converted to a number that multiplies every
      component. */
  function Multiplied(v: Vec3, value: JsValue): (r: Vec3)
    ensures !Truthy(value) ==> r == Vec3(Times(v.x, Finite(0.0)), Times(v.y, Finite(0.0)), Times(v.z, Finite(0.0)))
    ensures !Truthy(value) && AllFinite(v) ==> r == Origin3
    ensures Truthy(value) && !value.Record? ==>
      r == Vec3(Times(v.x, ToNumber(value)), Times(v.y, ToNumber(value)), Times(v.z, ToNumber(value)))
    ensures value.Record? ==> r == Vec3(NaN, NaN, NaN)
  {
    Update(v, TimesAssign, value, 0.0)
  }

  /** `divide(value)`: fails on the number 0; the scalar step divides by
      `value || 1`, so other falsy operands change nothing, and any other
      operand but an object is converted to the divisor. */
  function Divided(v: Vec3, value: JsValue): (r: Result<Vec3>)
    ensures r.Err? <==> value == Number(Finite(0.0))
    ensures r.Err? ==> r.error == DivideByZero
    ensures !Truthy(value) && r.Ok? ==> r.value == v
    ensures Truthy(value) && !value.Record? ==>
      r == Ok(Vec3(Quotient(v.x, ToNumber(value)), Quotient(v.y, ToNumber(value)), Quotient(v.z, ToNumber(value))))
    ensures value.Record? ==> r == Ok(Vec3(NaN, NaN, NaN))
  {
    if value == Number(Finite(0.0)) then Err(DivideByZero)
    else
      var u := Update(v, DivideAssign, value, 1.0);
      assert !Truthy(value) ==> u == v by {
        if !Truthy(value) {
          assert Or(value, 1.0) == Number(Finite(1.0));
          NeutralOperand(v.x);
          NeutralOperand(v.y);
          NeutralOperand(v.z);
        }
      }
      Ok(u)
  }

  /** `negative()`: every component negated; `NegativeIsTimesMinusOne`
      shows this is what `multiply(-1)` does. */
  function Negated(v: Vec3): Vec3 {
    Vec3(Negate(v.x), Negate(v.y), Negate(v.z))
  }

  /** `abs()`: a component below zero is multiplied by -1. */
  function Absolute(v: Vec3): (r: Vec3)
    ensures !Less(r.x, Finite(0.0)) && !Less(r.y, Finite(0.0)) && !Less(r.z, Finite(0.0))
    ensures !Less(v.x, Finite(0.0)) ==> r.x == v.x
    ensures !Less(v.y, Finite(0.0)) ==> r.y == v.y
    ensures !Less(v.z, Finite(0.0)) ==> r.z == v.z
    ensures Less(v.x, Finite(0.0)) ==> r.x == Negate(v.x)
    ensures Less(v.y, Finite(0.0)) ==> r.y == Negate(v.y)
    ensures Less(v.z, Finite(0.0)) ==> r.z == Negate(v.z)
    ensures AllFinite(v) ==> AllFinite(r) && r.x.r >= 0.0 && r.y.r >= 0.0 && r.z.r >= 0.0
  {
    TimesMinusOne(v.x);
    TimesMinusOne(v.y);
    TimesMinusOne(v.z);
    Vec3(
      if Less(v.x, Finite(0.0)) then Times(v.x, Finite(-1.0)) else v.x,
      if Less(v.y, Finite(0.0)) then Times(v.y, Finite(-1.0)) else v.y,
      if Less(v.z, Finite(0.0)) then Times(v.z, Finite(-1.0)) else v.z)
  }

  /** `cross(vector)` as the source computes it: the three assignments run
      one after the other, so the second and the third read the components
      already overwritten. */
  function Crossed(v: Vec3, vector: JsValue): (r: Result<Vec3>)
    ensures r.Ok? <==> Is3DVectorLike(vector)
    ensures r.Err? ==> r.error == NotVector3
  {
    if !Is3DVectorLike(vector) then Err(NotVector3)
    else
      var wx, wy, wz := Field(vector, "x"), Field(vector, "y"), Field(vector, "z");
      var nx := Minus(Times(v.y, wz), Times(v.z, wy));
      var ny := Minus(Times(v.z, wx), Times(nx, wz));
      var nz := Minus(Times(nx, wy), Times(ny, wx));
      Ok(Vec3(nx, ny, nz))
  }

  /** The cross product `u × w`, every component computed from the original
      components. */
  function CrossProduct(u: Vec3, w: Vec3): (r: Vec3)
    ensures AllFinite(u) && AllFinite(w) ==> AllFinite(r)
    ensures AllFinite(u) && w == Origin3 ==> r == Origin3
  {
    var product := Vec3(
      Minus(Times(u.y, w.z), Times(u.z, w.y)),
      Minus(Times(u.z, w.x), Times(u.x, w.z)),
      Minus(Times(u.x, w.y), Times(u.y, w.x)));
    assert AllFinite(u) && AllFinite(w) ==> AllFinite(product) by {
      if AllFinite(u) && AllFinite(w) {
        var p1, p2, p3, q1, q2, q3 := u.x.r, u.y.r, u.z.r, w.x.r, w.y.r, w.z.r;
        MinusTimes(p2, q3, p3, q2, p2 * q3 - p3 * q2);
        MinusTimes(p3, q1, p1, q3, p3 * q1 - p1 * q3);
        MinusTimes(p1, q2, p2, q1, p1 * q2 - p2 * q1);
      }
    }
    assert AllFinite(u) && w == Origin3 ==> product == Origin3 by {
      if AllFinite(u) && w == Origin3 {
        var p1, p2, p3 := u.x.r, u.y.r, u.z.r;
        MinusTimes(p2, 0.0, p3, 0.0, 0.0);
        MinusTimes(p3, 0.0, p1, 0.0, 0.0);
        MinusTimes(p1, 0.0, p2, 0.0, 0.0);
      }
    }
    product
  }

  /** `magSq()`: `x ** 2 + y ** 2 + z ** 2`, the real sum of squares when
      every component is finite, and never -Infinity. */
  function SquaredMagnitude(v: Vec3): (r: Num)
    ensures AllFinite(v) ==> r == Finite(v.x.r * v.x.r + v.y.r * v.y.r + v.z.r * v.z.r)
    ensures !r.NegInf?
  {
    SquareKind(v.x);
    SquareKind(v.y);
    SquareKind(v.z);
    SumKind(Times(v.x, v.x), Times(v.y, v.y));
    SumKind(Plus(Times(v.x, v.x), Times(v.y, v.y)), Times(v.z, v.z));
    assert AllFinite(v) ==>
      Plus(Plus(Times(v.x, v.x), Times(v.y, v.y)), Times(v.z, v.z)) == Finite(v.x.r * v.x.r + v.y.r * v.y.r + v.z.r * v.z.r) by {
      if AllFinite(v) {
        var a, b, c := v.x.r, v.y.r, v.z.r;
        assert v == Vec3(Finite(a), Finite(b), Finite(c));
        SquaresOfFinite3(a, b, c);
      }
    }
    Plus(Plus(Times(v.x, v.x), Times(v.y, v.y)), Times(v.z, v.z))
  }

  // ----------------------------------------------------- static functions

  /** `Vector3.from(target)`: the `x, y, z` of a vector-like value, elements
      0 to 2 of an array (checked by the constructor), or `new this(target,
      target)` for a number, which leaves `z` undefined. */
  function FromValue(target: JsValue): (r: Result<Vec3>)
    ensures r.Ok? ==> AllFinite(r.value)
    ensures Is3DVectorLike(target) ==> r == Ok(Vec3(Field(target, "x"), Field(target, "y"), Field(target, "z")))
    ensures IsArray(target) ==> r == Constructed(At(target, 0), At(target, 1), At(target, 2))
    ensures IsNumber(target) ==> r == Err(ComponentsNotNumbers3)
    ensures !Is3DVectorLike(target) && !IsArray(target) && !IsNumber(target) ==> r == Err(UnexpectedTarget)
  {
    if Is3DVectorLike(target) then Constructed(Get(target, "x"), Get(target, "y"), Get(target, "z"))
    else if IsArray(target) then Constructed(At(target, 0), At(target, 1), At(target, 2))
    else if IsNumber(target) then Constructed(target, target, Undefined)
    else Err(UnexpectedTarget)
  }

  /** `Vector3.of(x, y, z)`: `y` and `z` default to `x` when they are not
      numbers. */
  function OfValues(x: JsValue, y: JsValue, z: JsValue): (r: Result<Vec3>)
    ensures r.Ok? <==> IsNumber(x)
    ensures r.Err? ==> r.error == OfNotNumber3
    ensures r.Ok? ==> r.value.x == x.n
    ensures r.Ok? ==> r.value.y == (if IsNumber(y) then y.n else x.n)
    ensures r.Ok? ==> r.value.z == (if IsNumber(z) then z.n else x.n)
  {
    if !IsNumber(x) then Err(OfNotNumber3)
    else Constructed(x, if IsNumber(y) then y else x, if IsNumber(z) then z else x)
  }

  /** Static `Vector3.dot(A, B)`. */
  function DotProduct(a: JsValue, b: JsValue): (r: Result<real>)
    ensures r.Ok? <==> Is3DVectorLike(a) && Is3DVectorLike(b)
    ensures r.Err? ==> r.error == NotVector3
  {
    if !Is3DVectorLike(a) || !Is3DVectorLike(b) then Err(NotVector3)
    else Ok(FieldReal(a, "x") * FieldReal(b, "x") + FieldReal(a, "y") * FieldReal(b, "y") + FieldReal(a, "z") * FieldReal(b, "z"))
  }

  /** Static `Vector3.equals(A, B)`: `===` on all three components. */
  function SameComponents(a: JsValue, b: JsValue): (r: Result<bool>)
    ensures r.Ok? <==> Is3DVectorLike(a) && Is3DVectorLike(b)
    ensures r == Ok(true) <==>
      Is3DVectorLike(a) && Is3DVectorLike(b) &&
      Field(a, "x") == Field(b, "x") && Field(a, "y") == Field(b, "y") && Field(a, "z") == Field(b, "z")
    ensures r.Err? ==> r.error == NotVector3
  {
    if !Is3DVectorLike(a) || !Is3DVectorLike(b) then Err(NotVector3)
    else Ok(StrictEquals(Field(a, "x"), Field(b, "x")) && StrictEquals(Field(a, "y"), Field(b, "y"))
            && StrictEquals(Field(a, "z"), Field(b, "z")))
  }

  /** Static `Vector3.distance(A, B)` up to its final square root. */
  function SquaredDistance(a: JsValue, b: JsValue): (r: Result<real>)
    ensures r.Ok? <==> Is3DVectorLike(a) && Is3DVectorLike(b)
    ensures r.Ok? ==> r.value >= 0.0
    ensures r.Err? ==> r.error == NotVector3
  {
    if !Is3DVectorLike(a) || !Is3DVectorLike(b) then Err(NotVector3)
    else
      var dx := FieldReal(b, "x") - FieldReal(a, "x");
      var dy := FieldReal(b, "y") - FieldReal(a, "y");
      var dz := FieldReal(b, "z") - FieldReal(a, "z");
      SumOfSquares3(dx, dy, dz);
      Ok(dx * dx + dy * dy + dz * dz)
  }

  /** Static `Vector3.lerp(A, B, fraction)`:
      `from(B).subtract(A).multiply(fraction).add(A)`. */
  function Interpolated(a: JsValue, b: JsValue, fraction: JsValue): (r: Result<Vec3>)
    ensures r.Ok? <==> FromValue(b).Ok?
    ensures r.Err? ==> r.error == FromValue(b).error
  {
    match FromValue(b)
    case Err(e) => Err(e)
    case Ok(v) => Ok(Added(Multiplied(Subtracted(v, a), fraction), a))
  }

  /** Static `Vector3.min(...vectors)`: every argument, the first included,
      must be vector-like; `vectors[0]` is undefined when there is none. */
  function Minimum(vectors: seq<JsValue>): (r: Result<Vec3>)
    ensures r.Ok? <==> |vectors| > 0 && All3DVectorLike(vectors)
    ensures r.Err? ==> r.error == NotVector3
  {
    var first := At(Array(vectors), 0);
    if !Is3DVectorLike(first) || !All3DVectorLike(vectors) then Err(NotVector3)
    else Ok(Vec3(Finite(FoldLower(FieldReal(first, "x"), Column(vectors, "x"))),
                 Finite(FoldLower(FieldReal(first, "y"), Column(vectors, "y"))),
                 Finite(FoldLower(FieldReal(first, "z"), Column(vectors, "z")))))
  }

  /** Static `Vector3.max(...vectors)`. */
  function Maximum(vectors: seq<JsValue>): (r: Result<Vec3>)
    ensures r.Ok? <==> |vectors| > 0 && All3DVectorLike(vectors)
    ensures r.Err? ==> r.error == NotVector3
  {
    var first := At(Array(vectors), 0);
    if !Is3DVectorLike(first) || !All3DVectorLike(vectors) then Err(NotVector3)
    else Ok(Vec3(Finite(FoldHigher(FieldReal(first, "x"), Column(vectors, "x"))),
                 Finite(FoldHigher(FieldReal(first, "y"), Column(vectors, "y"))),
                 Finite(FoldHigher(FieldReal(first, "z"), Column(vectors, "z")))))
  }

  // ------------------------------------------------------------ the class

  class Vector3 {
    var x: Num
    var y: Num
    var z: Num

    function State(): Vec3
      reads this
    {
      Vec3(x, y, z)
    }

    /** Stores components that have already been checked. */
    constructor Init(s: Vec3)
      ensures State() == s
    {
      x, y, z := s.x, s.y, s.z;
    }

    /** `new Vector3(x, y, z)`. */
    static method New(x: JsValue, y: JsValue, z: JsValue) returns (r: Result<Vector3>)
      ensures Realizes(r, Constructed(x, y, z)) && (r.Ok? ==> fresh(r.value))
    {
      if !((IsNumber(x) && IsNumber(y) && IsNumber(z)) || (IsUndefined(x) && IsUndefined(y) && IsUndefined(z))) {
        return Err(ComponentsNotNumbers3);
      }
      var v := new Vector3.Init(Vec3(AsNum(Or(x, 0.0)), AsNum(Or(y, 0.0)), AsNum(Or(z, 0.0))));
      r := Ok(v);
    }

    /** The sequence the iterator yields: `x`, `y`, `z`. */
    function Elements(): (r: seq<Num>)
      reads this
      ensures |r| == 3 && r[0] == x && r[1] == y && r[2] == z
    {
      [x, y, z]
    }

    method Set(value: JsValue) returns (self: Vector3)
      modifies this
      ensures self == this && State() == Assigned(old(State()), value)
    {
      if Is3DVectorLike(value) {
        x := Field(value, "x");
        y := Field(value, "y");
        z := Field(value, "z");
      }
      var s := AsNum(Or(value, 0.0));
      z := s;
      y := z;
      x := y;
      self := this;
    }

    method Add(value: JsValue) returns (self: Vector3)
      modifies this
      ensures self == this && State() == Added(old(State()), value)
    {
      if Is3DVectorLike(value) {
        x := Plus(x, Field(value, "x"));
        y := Plus(y, Field(value, "y"));
        z := Plus(z, Field(value, "z"));
      }
      x := ApplyValue(PlusAssign, x, Or(value, 0.0));
      y := ApplyValue(PlusAssign, y, Or(value, 0.0));
      z := ApplyValue(PlusAssign, z, Or(value, 0.0));
      self := this;
    }

    method Subtract(value: JsValue) returns (self: Vector3)
      modifies this
      ensures self == this && State() == Subtracted(old(State()), value)
    {
      if Is3DVectorLike(value) {
        x := Minus(x, Field(value, "x"));
        y := Minus(y, Field(value, "y"));
        z := Minus(z, Field(value, "z"));
      }
      x := ApplyValue(MinusAssign, x, Or(value, 0.0));
      y := ApplyValue(MinusAssign, y, Or(value, 0.0));
      z := ApplyValue(MinusAssign, z, Or(value, 0.0));
      self := this;
    }

    method Multiply(value: JsValue) returns (self: Vector3)
      modifies this
      ensures self == this && State() == Multiplied(old(State()), value)
    {
      if Is3DVectorLike(value) {
        x := Times(x, Field(value, "x"));
        y := Times(y, Field(value, "y"));
        z := Times(z, Field(value, "z"));
      }
      x := ApplyValue(TimesAssign, x, Or(value, 0.0));
      y := ApplyValue(TimesAssign, y, Or(value, 0.0));
      z := ApplyValue(TimesAssign, z, Or(value, 0.0));
      self := this;
    }

    /** The component-wise division runs before the zero check; it cannot
        have run when the check fails, since 0 is not vector-like. */
    method Divide(value: JsValue) returns (r: Result<Vector3>)
      modifies this
      ensures r.Ok? ==> r.value == this && Divided(old(State()), value) == Ok(State())
      ensures r.Err? ==> Divided(old(State()), value) == Err(r.error) && State() == old(State())
    {
      if Is3DVectorLike(value) {
        x := Quotient(x, Field(value, "x"));
        y := Quotient(y, Field(value, "y"));
        z := Quotient(z, Field(value, "z"));
      }
      if value == Number(Finite(0.0)) {
        return Err(DivideByZero);
      }
      x := ApplyValue(DivideAssign, x, Or(value, 1.0));
      y := ApplyValue(DivideAssign, y, Or(value, 1.0));
      z := ApplyValue(DivideAssign, z, Or(value, 1.0));
      r := Ok(this);
    }

    method Abs() returns (self: Vector3)
      modifies this
      ensures self == this && State() == Absolute(old(State()))
    {
      if Less(x, Finite(0.0)) {
        x := Times(x, Finite(-1.0));
      }
      if Less(y, Finite(0.0)) {
        y := Times(y, Finite(-1.0));
      }
      if Less(z, Finite(0.0)) {
        z := Times(z, Finite(-1.0));
      }
      self := this;
    }

    /** `cross(vector)`: overwrites `x`, then `y` and `z` from the fields as
        they are at that point. */
    method Cross(vector: JsValue) returns (r: Result<Vector3>)
      modifies this
      ensures r.Ok? ==> r.value == this && Crossed(old(State()), vector) == Ok(State())
      ensures r.Err? ==> Crossed(old(State()), vector) == Err(r.error) && State() == old(State())
    {
      if !Is3DVectorLike(vector) {
        return Err(NotVector3);
      }
      x := Minus(Times(y, Field(vector, "z")), Times(z, Field(vector, "y")));
      y := Minus(Times(z, Field(vector, "x")), Times(x, Field(vector, "z")));
      z := Minus(Times(x, Field(vector, "y")), Times(y, Field(vector, "x")));
      r := Ok(this);
    }

    method Negative() returns (self: Vector3)
      modifies this
      ensures self == this && State() == Negated(old(State()))
    {
      NegativeIsTimesMinusOne(State());
      self := Multiply(Number(Finite(-1.0)));
    }

    /** Instance `dot(vector)`. */
    method Dot(vector: JsValue) returns (r: Result<Num>)
      ensures r.Ok? <==> Is3DVectorLike(vector)
      ensures r.Err? ==> r.error == NotVector3
      ensures r.Ok? ==>
        r.value == Plus(Plus(Times(x, Field(vector, "x")), Times(y, Field(vector, "y"))), Times(z, Field(vector, "z")))
      ensures r.Ok? && AllFinite(State()) ==> r.value == Finite(DotProduct(AsRecord(State()), vector).value)
    {
      if !Is3DVectorLike(vector) {
        return Err(NotVector3);
      }
      r := Ok(Plus(Plus(Times(x, Field(vector, "x")), Times(y, Field(vector, "y"))), Times(z, Field(vector, "z"))));
      if AllFinite(State()) {
        DotOfFinite(State(), vector);
      }
    }

    /** Instance `equals(vector)`. */
    method Equals(vector: JsValue) returns (r: Result<bool>)
      ensures r.Ok? <==> Is3DVectorLike(vector)
      ensures r.Err? ==> r.error == NotVector3
      ensures r == Ok(true) <==>
        Is3DVectorLike(vector) && State() == Vec3(Field(vector, "x"), Field(vector, "y"), Field(vector, "z"))
      ensures AllFinite(State()) ==> r == SameComponents(AsRecord(State()), vector)
    {
      if !Is3DVectorLike(vector) {
        return Err(NotVector3);
      }
      r := Ok(StrictEquals(x, Field(vector, "x")) && StrictEquals(y, Field(vector, "y"))
              && StrictEquals(z, Field(vector, "z")));
      RecordFields(State());
    }

    /** `clone()`: `new Vector3(...this)`, spreading the iterator's three
        values into the constructor, which rejects them once one is no
        longer a finite number. */
    method Clone() returns (r: Result<Vector3>)
      ensures r.Ok? <==> AllFinite(State())
      ensures r.Ok? ==> fresh(r.value) && r.value.State() == State()
      ensures r.Err? ==> r.error == ComponentsNotNumbers3
    {
      var elements := Elements();
      r := New(Number(elements[0]), Number(elements[1]), Number(elements[2]));
    }

    method MagSq() returns (r: Num)
      ensures r == SquaredMagnitude(State())
      ensures AllFinite(State()) <==> r.Finite?
      ensures AllFinite(State()) ==> r.r >= 0.0
      ensures r == Finite(0.0) ==> State() == Origin3
    {
      r := Plus(Plus(Times(x, x), Times(y, y)), Times(z, z));
      MagSqMeaning(State());
    }

    method IsOK() returns (r: bool)
      ensures r <==> Is3DVectorLike(AsRecord(State()))
      ensures r <==> Constructed(Number(x), Number(y), Number(z)).Ok?
    {
      r := IsNumber(Number(x)) && IsNumber(Number(y)) && IsNumber(Number(z));
      RecordFields(State());
    }

    method ToJSON() returns (r: JsValue)
      ensures r == AsRecord(State())
      ensures FromValue(r) == if AllFinite(State()) then Ok(State()) else Err(UnexpectedTarget)
    {
      r := Record(map["x" := Number(x), "y" := Number(y), "z" := Number(z)]);
      RecordFields(State());
    }

    method ToArray() returns (r: JsValue)
      ensures r == AsArray(State())
      ensures |r.elems| == |Elements()| && forall i :: 0 <= i < |r.elems| ==> r.elems[i] == Number(Elements()[i])
      ensures FromValue(r) == if AllFinite(State()) then Ok(State()) else Err(ComponentsNotNumbers3)
    {
      r := Array([Number(x), Number(y), Number(z)]);
    }

    /** `Vector3.from(target)`. */
    static method From(target: JsValue) returns (r: Result<Vector3>)
      ensures Realizes(r, FromValue(target)) && (r.Ok? ==> fresh(r.value))
    {
      if Is3DVectorLike(target) {
        r := New(Get(target, "x"), Get(target, "y"), Get(target, "z"));
        return;
      }
      if IsArray(target) {
        r := New(At(target, 0), At(target, 1), At(target, 2));
        return;
      }
      if IsNumber(target) {
        r := New(target, target, Undefined);
        return;
      }
      r := Err(UnexpectedTarget);
    }

    /** `Vector3.of(x, y, z)`. */
    static method Of(x: JsValue, y: JsValue, z: JsValue) returns (r: Result<Vector3>)
      ensures Realizes(r, OfValues(x, y, z)) && (r.Ok? ==> fresh(r.value))
    {
      if !IsNumber(x) {
        return Err(OfNotNumber3);
      }
      var y' := if IsNumber(y) then y else x;
      var z' := if IsNumber(z) then z else x;
      r := New(x, y', z');
    }

    /** `Vector3.lerp(A, B, fraction)`: the fluent chain on a fresh vector. */
    static method Lerp(a: JsValue, b: JsValue, fraction: JsValue) returns (r: Result<Vector3>)
      ensures Realizes(r, Interpolated(a, b, fraction)) && (r.Ok? ==> fresh(r.value))
    {
      var from := From(b);
      if from.Err? {
        return Err(from.error);
      }
      var v := from.value.Subtract(a);
      v := v.Multiply(fraction);
      v := v.Add(a);
      r := Ok(v);
    }

    /** `Vector3.min(...vectors)`: starts from a copy of `vectors[0]` and
        visits every argument, the first included. */
    static method Min(vectors: seq<JsValue>) returns (r: Result<Vector3>)
      ensures Realizes(r, Minimum(vectors)) && (r.Ok? ==> fresh(r.value))
    {
      var first := At(Array(vectors), 0);
      if !Is3DVectorLike(first) {
        return Err(NotVector3);
      }
      var from := From(first);
      var vec := from.value;
      var i := 0;
      while i < |vectors|
        invariant 0 <= i <= |vectors|
        invariant fresh(vec)
        invariant forall j :: 0 <= j < i ==> Is3DVectorLike(vectors[j])
        invariant vec.State() == Vec3(Lowest(Field(first, "x"), vectors[..i], "x"), Lowest(Field(first, "y"), vectors[..i], "y"),
                                      Lowest(Field(first, "z"), vectors[..i], "z"))
      {
        var vector := vectors[i];
        if !Is3DVectorLike(vector) {
          return Err(NotVector3);
        }
        assert vectors[..i + 1][..i] == vectors[..i];
        if Less(Field(vector, "x"), vec.x) {
          vec.x := Field(vector, "x");
        }
        if Less(Field(vector, "y"), vec.y) {
          vec.y := Field(vector, "y");
        }
        if Less(Field(vector, "z"), vec.z) {
          vec.z := Field(vector, "z");
        }
        i := i + 1;
      }
      assert vectors[..i] == vectors;
      MinimumIsRunning(vectors);
      r := Ok(vec);
    }

    /** `Vector3.max(...vectors)`. */
    static method Max(vectors: seq<JsValue>) returns (r: Result<Vector3>)
      ensures Realizes(r, Maximum(vectors)) && (r.Ok? ==> fresh(r.value))
    {
      var first := At(Array(vectors), 0);
      if !Is3DVectorLike(first) {
        return Err(NotVector3);
      }
      var from := From(first);
      var vec := from.value;
      var i := 0;
      while i < |vectors|
        invariant 0 <= i <= |vectors|
        invariant fresh(vec)
        invariant forall j :: 0 <= j < i ==> Is3DVectorLike(vectors[j])
        invariant vec.State() == Vec3(Highest(Field(first, "x"), vectors[..i], "x"), Highest(Field(first, "y"), vectors[..i], "y"),
                                      Highest(Field(first, "z"), vectors[..i], "z"))
      {
        var vector := vectors[i];
        if !Is3DVectorLike(vector) {
          return Err(NotVector3);
        }
        assert vectors[..i + 1][..i] == vectors[..i];
        if Less(vec.x, Field(vector, "x")) {
          vec.x := Field(vector, "x");
        }
        if Less(vec.y, Field(vector, "y")) {
          vec.y := Field(vector, "y");
        }
        if Less(vec.z, Field(vector, "z")) {
          vec.z := Field(vector, "z");
        }
        i := i + 1;
      }
      assert vectors[..i] == vectors;
      MaximumIsRunning(vectors);
      r := Ok(vec);
    }

    static method Zero() returns (v: Vector3)
      ensures fresh(v) && v.State() == Vec3(Finite(0.0), Finite(0.0), Finite(0.0))
    {
      var r := New(Number(Finite(0.0)), Number(Finite(0.0)), Number(Finite(0.0)));
      v := r.value;
    }

    static method One() returns (v: Vector3)
      ensures fresh(v) && v.State() == Vec3(Finite(1.0), Finite(1.0), Finite(1.0))
    {
      var r := New(Number(Finite(1.0)), Number(Finite(1.0)), Number(Finite(1.0)));
      v := r.value;
    }

    static method Neg() returns (v: Vector3)
      ensures fresh(v) && v.State() == Vec3(Finite(-1.0), Finite(-1.0), Finite(-1.0))
    {
      var r := New(Number(Finite(-1.0)), Number(Finite(-1.0)), Number(Finite(-1.0)));
      v := r.value;
    }

    static method Left() returns (v: Vector3)
      ensures fresh(v) && v.State() == Vec3(Finite(-1.0), Finite(0.0), Finite(0.0))
    {
      var r := New(Number(Finite(-1.0)), Number(Finite(0.0)), Number(Finite(0.0)));
      v := r.value;
    }

    static method Forward() returns (v: Vector3)
      ensures fresh(v) && v.State() == Vec3(Finite(0.0), Finite(-1.0), Finite(0.0))
    {
      var r := New(Number(Finite(0.0)), Number(Finite(-1.0)), Number(Finite(0.0)));
      v := r.value;
    }

    static method Right() returns (v: Vector3)
      ensures fresh(v) && v.State() == Vec3(Finite(1.0), Finite(0.0), Finite(0.0))
    {
      var r := New(Number(Finite(1.0)), Number(Finite(0.0)), Number(Finite(0.0)));
      v := r.value;
    }

    static method Back() returns (v: Vector3)
      ensures fresh(v) && v.State() == Vec3(Finite(0.0), Finite(1.0), Finite(0.0))
    {
      var r := New(Number(Finite(0.0)), Number(Finite(1.0)), Number(Finite(0.0)));
      v := r.value;
    }

    static method Up() returns (v: Vector3)
      ensures fresh(v) && v.State() == Vec3(Finite(0.0), Finite(0.0), Finite(-1.0))
    {
      var r := New(Number(Finite(0.0)), Number(Finite(0.0)), Number(Finite(-1.0)));
      v := r.value;
    }

    static method Down() returns (v: Vector3)
      ensures fresh(v) && v.State() == Vec3(Finite(0.0), Finite(0.0), Finite(1.0))
    {
      var r := New(Number(Finite(0.0)), Number(Finite(0.0)), Number(Finite(1.0)));
      v := r.value;
    }
  }

  /** `r` is the outcome `s` describes: the same failure, or a vector
      holding the described components. */
  predicate Realizes(r: Result<Vector3>, s: Result<Vec3>)
    reads if r.Ok? then {r.value} else {}
  {
    match r
    case Ok(v) => s == Ok(v.State())
    case Err(e) => s == Err(e)
  }

  /** `min` keeps, component by component, the running minimum of the
      operands in order, starting from those of `vectors[0]`; on operands
      that are all vector-like that is the fold of `Lower` over each column. */
  lemma MinimumIsRunning(vectors: seq<JsValue>)
    requires Is3DVectorLike(At(Array(vectors), 0)) && All3DVectorLike(vectors)
    ensures Minimum(vectors) == Ok(Vec3(Lowest(Field(vectors[0], "x"), vectors, "x"), Lowest(Field(vectors[0], "y"), vectors, "y"),
                                        Lowest(Field(vectors[0], "z"), vectors, "z")))
  {
    var first := vectors[0];
    LowestIsFold(FieldReal(first, "x"), vectors, "x");
    LowestIsFold(FieldReal(first, "y"), vectors, "y");
    LowestIsFold(FieldReal(first, "z"), vectors, "z");
  }

  /** `max` mirrors `min` with the running maximum. */
  lemma MaximumIsRunning(vectors: seq<JsValue>)
    requires Is3DVectorLike(At(Array(vectors), 0)) && All3DVectorLike(vectors)
    ensures Maximum(vectors) == Ok(Vec3(Highest(Field(vectors[0], "x"), vectors, "x"), Highest(Field(vectors[0], "y"), vectors, "y"),
                                        Highest(Field(vectors[0], "z"), vectors, "z")))
  {
    var first := vectors[0];
    HighestIsFold(FieldReal(first, "x"), vectors, "x");
    HighestIsFold(FieldReal(first, "y"), vectors, "y");
    HighestIsFold(FieldReal(first, "z"), vectors, "z");
  }

  /** The record of a vector has exactly its three components under `x`,
      `y` and `z`. */
  lemma RecordFields(v: Vec3)
    ensures Get(AsRecord(v), "x") == Number(v.x)
    ensures Get(AsRecord(v), "y") == Number(v.y)
    ensures Get(AsRecord(v), "z") == Number(v.z)
  {
  }

  /** On finite components the instance `dot` is the static one. */
  lemma DotOfFinite(v: Vec3, vector: JsValue)
    requires AllFinite(v) && Is3DVectorLike(vector)
    ensures Plus(Plus(Times(v.x, Field(vector, "x")), Times(v.y, Field(vector, "y"))), Times(v.z, Field(vector, "z")))
      == Finite(DotProduct(AsRecord(v), vector).value)
  {
    RecordFields(v);
    var a, b, c := Field(vector, "x").r, Field(vector, "y").r, Field(vector, "z").r;
    FiniteArithmetic(v.x.r, a);
    FiniteArithmetic(v.y.r, b);
    FiniteArithmetic(v.z.r, c);
    FiniteArithmetic(v.x.r * a, v.y.r * b);
    FiniteArithmetic(v.x.r * a + v.y.r * b, v.z.r * c);
  }

  // --------------------------------------------------------------- lemmas

  /** `magSq` is finite exactly when all three components are; it is never
      negative then, and zero only for the zero vector. */
  lemma MagSqMeaning(v: Vec3)
    ensures AllFinite(v) <==> SquaredMagnitude(v).Finite?
    ensures AllFinite(v) ==> SquaredMagnitude(v).r >= 0.0
    ensures SquaredMagnitude(v) == Finite(0.0) ==> v == Origin3
  {
    if AllFinite(v) {
      MagSqFinite(v);
    } else {
      MagSqNotFinite(v);
    }
  }

  lemma MagSqNotFinite(v: Vec3)
    requires !AllFinite(v)
    ensures !SquaredMagnitude(v).Finite?
  {
    SquareKind(v.x);
    SquareKind(v.y);
    SquareKind(v.z);
    SumKind(Times(v.x, v.x), Times(v.y, v.y));
    SumKind(Plus(Times(v.x, v.x), Times(v.y, v.y)), Times(v.z, v.z));
  }

  lemma MagSqFinite(v: Vec3)
    requires AllFinite(v)
    ensures SquaredMagnitude(v).Finite? && SquaredMagnitude(v).r >= 0.0
    ensures SquaredMagnitude(v) == Finite(0.0) ==> v == Origin3
  {
    var a, b, c := v.x.r, v.y.r, v.z.r;
    assert v == Vec3(Finite(a), Finite(b), Finite(c));
    SquaresOfFinite3(a, b, c);
    SumOfSquares3(a, b, c);
    SumOfSquares(a, b);
    SumOfSquares(b, c);
    if a != 0.0 {
      SquarePositive(a);
    }
    if b != 0.0 {
      SquarePositive(b);
    }
    if c != 0.0 {
      SquarePositive(c);
    }
  }

  /** The constructor accepts three finite numbers or three `undefined`; it
      rejects a mix of numbers and absent values, and, unlike the 2D
      constructor, three `null`s. */
  lemma ConstructorRules(k: real)
    ensures Constructed(Undefined, Undefined, Undefined) == Ok(Origin3)
    ensures Constructed(Null, Null, Null) == Err(ComponentsNotNumbers3)
    ensures Constructed(Number(Finite(k)), Number(Finite(k)), Undefined) == Err(ComponentsNotNumbers3)
    ensures Constructed(Undefined, Undefined, Number(Finite(k))) == Err(ComponentsNotNumbers3)
    ensures Constructed(Number(Finite(k)), Number(Finite(k)), Number(Finite(k))) == Ok(Vec3(Finite(k), Finite(k), Finite(k)))
  {
  }

  /** A binary mutator whose operand is not vector-like is its scalar step
      alone. */
  lemma UpdateByNonVector(v: Vec3, op: Op, value: JsValue, fallback: real)
    requires !Is3DVectorLike(value)
    ensures Update(v, op, value, fallback) ==
      Vec3(ApplyValue(op, v.x, Or(value, fallback)), ApplyValue(op, v.y, Or(value, fallback)),
           ApplyValue(op, v.z, Or(value, fallback)))
  {
  }

  /** A finite scalar is applied to all three components by `set`, `add`,
      `subtract` and `multiply`, and by `divide` when it is not zero. */
  lemma ScalarBroadcast(v: Vec3, k: real)
    ensures Assigned(v, Number(Finite(k))) == Vec3(Finite(k), Finite(k), Finite(k))
    ensures Added(v, Number(Finite(k))) == Vec3(Plus(v.x, Finite(k)), Plus(v.y, Finite(k)), Plus(v.z, Finite(k)))
    ensures Subtracted(v, Number(Finite(k))) == Vec3(Minus(v.x, Finite(k)), Minus(v.y, Finite(k)), Minus(v.z, Finite(k)))
    ensures Multiplied(v, Number(Finite(k))) == Vec3(Times(v.x, Finite(k)), Times(v.y, Finite(k)), Times(v.z, Finite(k)))
    ensures k != 0.0 ==>
      Divided(v, Number(Finite(k))) == Ok(Vec3(Quotient(v.x, Finite(k)), Quotient(v.y, Finite(k)), Quotient(v.z, Finite(k))))
  {
    OrZeroKeepsNumber(k);
    UpdateByNonVector(v, PlusAssign, Number(Finite(k)), 0.0);
    UpdateByNonVector(v, MinusAssign, Number(Finite(k)), 0.0);
    UpdateByNonVector(v, TimesAssign, Number(Finite(k)), 0.0);
    UpdateByNonVector(v, DivideAssign, Number(Finite(k)), 1.0);
  }

  /** On finite components the broadcast is plain real arithmetic. */
  lemma ScalarBroadcastFinite(a: real, b: real, c: real, k: real)
    ensures Added(Vec3(Finite(a), Finite(b), Finite(c)), Number(Finite(k))) == Vec3(Finite(a + k), Finite(b + k), Finite(c + k))
    ensures Subtracted(Vec3(Finite(a), Finite(b), Finite(c)), Number(Finite(k))) == Vec3(Finite(a - k), Finite(b - k), Finite(c - k))
    ensures Multiplied(Vec3(Finite(a), Finite(b), Finite(c)), Number(Finite(k))) == Vec3(Finite(a * k), Finite(b * k), Finite(c * k))
    ensures k != 0.0 ==>
      Divided(Vec3(Finite(a), Finite(b), Finite(c)), Number(Finite(k))) == Ok(Vec3(Finite(a / k), Finite(b / k), Finite(c / k)))
  {
    ScalarBroadcast(Vec3(Finite(a), Finite(b), Finite(c)), k);
    FiniteArithmetic(a, k);
    FiniteArithmetic(b, k);
    FiniteArithmetic(c, k);
  }

  /** With 0, null or undefined, `add` and `subtract` change nothing, while
      `multiply` and `set` zero a vector whose components are numbers; with
      null or undefined `divide` divides by 1, changing nothing; `divide(0)`
      fails. */
  lemma NeutralOperands(v: Vec3, value: JsValue)
    requires IsEmpty(value) || value == Number(Finite(0.0))
    ensures Added(v, value) == v && Subtracted(v, value) == v
    ensures Assigned(v, value) == Origin3
    ensures AllFinite(v) ==> Multiplied(v, value) == Origin3
    ensures Divided(v, value) == if IsEmpty(value) then Ok(v) else Err(DivideByZero)
  {
    assert Or(value, 0.0) == Number(Finite(0.0));
    assert IsEmpty(value) ==> Or(value, 1.0) == Number(Finite(1.0));
    UpdateByNonVector(v, PlusAssign, value, 0.0);
    UpdateByNonVector(v, MinusAssign, value, 0.0);
    UpdateByNonVector(v, TimesAssign, value, 0.0);
    UpdateByNonVector(v, DivideAssign, value, 1.0);
    NeutralOperand(v.x);
    NeutralOperand(v.y);
    NeutralOperand(v.z);
  }

  /** Any plain object as operand (a 3D vector-like one, or a 2D one without
      `z`) ends in the scalar step with the object itself, so every binary
      mutator leaves components that are not numbers, and `isOK()` is
      false. */
  lemma ObjectOperandSpoils(v: Vec3, value: JsValue)
    requires value.Record?
    ensures Assigned(v, value) == Vec3(NaN, NaN, NaN)
    ensures Added(v, value) == Vec3(NaN, NaN, NaN)
    ensures Subtracted(v, value) == Vec3(NaN, NaN, NaN)
    ensures Multiplied(v, value) == Vec3(NaN, NaN, NaN)
    ensures Divided(v, value) == Ok(Vec3(NaN, NaN, NaN))
    ensures !AllFinite(Added(v, value))
  {
  }

  /** Operands of other types act through their conversion to a number:
      `multiply([k])` multiplies by `k`, `add(true)` adds 1, and
      `subtract([])` changes nothing. */
  lemma ConvertedOperands(a: real, b: real, c: real, k: real, v: Vec3)
    ensures Multiplied(Vec3(Finite(a), Finite(b), Finite(c)), Array([Number(Finite(k))])) ==
      Vec3(Finite(a * k), Finite(b * k), Finite(c * k))
    ensures Added(Vec3(Finite(a), Finite(b), Finite(c)), Bool(true)) == Vec3(Finite(a + 1.0), Finite(b + 1.0), Finite(c + 1.0))
    ensures Subtracted(v, Array([])) == v
  {
    FiniteArithmetic(a, k);
    FiniteArithmetic(b, k);
    FiniteArithmetic(c, k);
    FiniteArithmetic(a, 1.0);
    FiniteArithmetic(b, 1.0);
    FiniteArithmetic(c, 1.0);
  }

  /** The decimal text of an integer is converted too: `subtract("3")`
      subtracts 3 and `divide("2")` halves. */
  lemma ConvertedStrings(a: real, b: real, c: real, n: nat)
    ensures Subtracted(Vec3(Finite(a), Finite(b), Finite(c)), Str(DecimalText(n))) ==
      Vec3(Finite(a - n as real), Finite(b - n as real), Finite(c - n as real))
    ensures n != 0 ==>
      Divided(Vec3(Finite(a), Finite(b), Finite(c)), Str(DecimalText(n))) == Ok(Vec3(Finite(a / n as real), Finite(b / n as real), Finite(c / n as real)))
  {
    IntegerTextRoundTrip(n);
    FiniteArithmetic(a, n as real);
    FiniteArithmetic(b, n as real);
    FiniteArithmetic(c, n as real);
  }

  /** `add` with any non-empty string concatenates, whatever the string
      holds, and so leaves no number in any component. */
  lemma StringsConcatenate(s: string, v: Vec3)
    requires s != ""
    ensures Added(v, Str(s)) == Vec3(NaN, NaN, NaN)
  {
  }

  /** `negative()` is `multiply(-1)`: it negates every component, the
      infinities and NaN included. */
  lemma NegativeIsTimesMinusOne(v: Vec3)
    ensures Multiplied(v, Number(Finite(-1.0))) == Negated(v)
  {
    UpdateByNonVector(v, TimesAssign, Number(Finite(-1.0)), 0.0);
    TimesMinusOne(v.x);
    TimesMinusOne(v.y);
    TimesMinusOne(v.z);
  }

  /** `negative()` negates all components, and twice restores the vector. */
  lemma NegateTwice(v: Vec3)
    ensures Negated(Negated(v)) == v
    ensures AllFinite(v) ==> Negated(v) == Vec3(Finite(-v.x.r), Finite(-v.y.r), Finite(-v.z.r))
  {
    NegateInvolution(v.x);
    NegateInvolution(v.y);
    NegateInvolution(v.z);
  }

  /** `abs()` is idempotent. */
  lemma AbsIdempotent(v: Vec3)
    ensures Absolute(Absolute(v)) == Absolute(v)
  {
  }

  /** The first component of `cross` is that of the cross product; the
      second agrees with it whenever `x` did not change, and the third
      whenever neither `x` nor `y` did. */
  lemma CrossAgreement(v: Vec3, vector: JsValue)
    requires Is3DVectorLike(vector)
    ensures Crossed(v, vector).value.x == CrossProduct(v, Vec3(Field(vector, "x"), Field(vector, "y"), Field(vector, "z"))).x
    ensures Crossed(v, vector).value.x == v.x ==>
      Crossed(v, vector).value.y == CrossProduct(v, Vec3(Field(vector, "x"), Field(vector, "y"), Field(vector, "z"))).y
    ensures Crossed(v, vector).value.x == v.x && Crossed(v, vector).value.y == v.y ==>
      Crossed(v, vector) == Ok(CrossProduct(v, Vec3(Field(vector, "x"), Field(vector, "y"), Field(vector, "z"))))
  {
  }

  /** `cross` in three steps: once the new `x` is known the new `y`
      follows, and from both the new `z`. */
  lemma CrossedSteps(v: Vec3, w: JsValue, nx: Num, ny: Num, nz: Num)
    requires Is3DVectorLike(w)
    requires nx == Minus(Times(v.y, Field(w, "z")), Times(v.z, Field(w, "y")))
    requires ny == Minus(Times(v.z, Field(w, "x")), Times(nx, Field(w, "z")))
    requires nz == Minus(Times(nx, Field(w, "y")), Times(ny, Field(w, "x")))
    ensures Crossed(v, w) == Ok(Vec3(nx, ny, nz))
  {
  }

  /** `a * b - c * d` on finite numbers. */
  lemma MinusTimes(a: real, b: real, c: real, d: real, r: real)
    requires r == a * b - c * d
    ensures Minus(Times(Finite(a), Finite(b)), Times(Finite(c), Finite(d))) == Finite(r)
  {
    FiniteArithmetic(a, b);
    FiniteArithmetic(c, d);
    FiniteArithmetic(a * b, c * d);
  }

  /** On finite components `cross` gives finite components. */
  lemma CrossKeepsFinite(v: Vec3, w: JsValue)
    requires AllFinite(v) && Is3DVectorLike(w)
    ensures AllFinite(Crossed(v, w).value)
  {
    var q1, q2, q3 := FieldReal(w, "x"), FieldReal(w, "y"), FieldReal(w, "z");
    var p2, p3 := v.y.r, v.z.r;
    var nx := p2 * q3 - p3 * q2;
    MinusTimes(p2, q3, p3, q2, nx);
    var ny := p3 * q1 - nx * q3;
    MinusTimes(p3, q1, nx, q3, ny);
    var nz := nx * q2 - ny * q1;
    MinusTimes(nx, q2, ny, q1, nz);
    CrossedSteps(v, w, Finite(nx), Finite(ny), Finite(nz));
  }

  /** The sequential assignments make `cross` differ from the cross
      product: on finite components its `y` is the cross product's exactly
      when `x` did not change or the operand's `z` is zero. For instance
      `(0, 1, 0).cross({x: 0, y: 0, z: 1})` gives `y = -1` where the cross
      product has `y = 0`. */
  lemma CrossSecondComponent(v: Vec3, w: JsValue)
    requires AllFinite(v) && Is3DVectorLike(w)
    ensures Crossed(v, w).value.y == CrossProduct(v, Vec3(Field(w, "x"), Field(w, "y"), Field(w, "z"))).y <==>
      Crossed(v, w).value.x == v.x || FieldReal(w, "z") == 0.0
  {
    var p1, p2, p3 := v.x.r, v.y.r, v.z.r;
    var q1, q2, q3 := FieldReal(w, "x"), FieldReal(w, "y"), FieldReal(w, "z");
    var nx := p2 * q3 - p3 * q2;
    MinusTimes(p2, q3, p3, q2, nx);
    var ny := p3 * q1 - nx * q3;
    MinusTimes(p3, q1, nx, q3, ny);
    var nz := nx * q2 - ny * q1;
    MinusTimes(nx, q2, ny, q1, nz);
    CrossedSteps(v, w, Finite(nx), Finite(ny), Finite(nz));
    var ty := p3 * q1 - p1 * q3;
    MinusTimes(p3, q1, p1, q3, ty);
    DifferenceOfProducts(p3 * q1, nx, p1, q3, ny, ty);
  }

  /** `c - a * d` and `c - b * d` agree exactly when `a == b` or `d == 0`. */
  lemma DifferenceOfProducts(c: real, a: real, b: real, d: real, s: real, t: real)
    requires s == c - a * d && t == c - b * d
    ensures s == t <==> a == b || d == 0.0
  {
    if a != b && d != 0.0 {
      var e := a - b;
      NonZeroProduct(e, d, e * d);
      assert e * d == a * d - b * d;
    } else if d == 0.0 {
      assert a * d == 0.0 && b * d == 0.0;
    }
  }

  /** A zero receiver stays zero under `cross` with any vector-like
      operand. */
  lemma CrossOfZero(vector: JsValue)
    requires Is3DVectorLike(vector)
    ensures Crossed(Origin3, vector) == Ok(Origin3)
  {
    var a, b, c := Field(vector, "x").r, Field(vector, "y").r, Field(vector, "z").r;
    FiniteArithmetic(0.0, a);
    FiniteArithmetic(0.0, b);
    FiniteArithmetic(0.0, c);
    FiniteArithmetic(0.0, 0.0);
  }

  /** The cross product of finite vectors is finite and orthogonal to its
      first factor. */
  lemma CrossProductOrthogonal(p1: real, p2: real, p3: real, q1: real, q2: real, q3: real)
    ensures CrossProduct(Vec3(Finite(p1), Finite(p2), Finite(p3)), Vec3(Finite(q1), Finite(q2), Finite(q3)))
      == Vec3(Finite(p2 * q3 - p3 * q2), Finite(p3 * q1 - p1 * q3), Finite(p1 * q2 - p2 * q1))
    ensures p1 * (p2 * q3 - p3 * q2) + p2 * (p3 * q1 - p1 * q3) + p3 * (p1 * q2 - p2 * q1) == 0.0
  {
    FiniteArithmetic(p2, q3);
    FiniteArithmetic(p3, q2);
    FiniteArithmetic(p3, q1);
    FiniteArithmetic(p1, q3);
    FiniteArithmetic(p1, q2);
    FiniteArithmetic(p2, q1);
    FiniteArithmetic(p2 * q3, p3 * q2);
    FiniteArithmetic(p3 * q1, p1 * q3);
    FiniteArithmetic(p1 * q2, p2 * q1);
  }

  /** `from` inverts `toJSON` and `toArray` on a vector whose components are
      finite numbers. */
  lemma FromInvertsConversions(v: Vec3)
    requires AllFinite(v)
    ensures FromValue(AsRecord(v)) == Ok(v)
    ensures FromValue(AsArray(v)) == Ok(v)
  {
    RecordFields(v);
  }

  /** `from` of a number never succeeds, and an array needs three finite
      numbers (or no elements at all). */
  lemma FromNumberAndShortArrays(k: real, l: real)
    ensures FromValue(Number(Finite(k))) == Err(ComponentsNotNumbers3)
    ensures FromValue(Array([Number(Finite(k)), Number(Finite(l))])) == Err(ComponentsNotNumbers3)
    ensures FromValue(Array([])) == Ok(Origin3)
  {
  }

  /** Static `dot` and `equals` are symmetric, and `equals` is reflexive on
      vector-like values; `distance` is symmetric. */
  lemma StaticSymmetry(a: JsValue, b: JsValue)
    ensures DotProduct(a, b) == DotProduct(b, a)
    ensures SameComponents(a, b) == SameComponents(b, a)
    ensures SquaredDistance(a, b) == SquaredDistance(b, a)
    ensures Is3DVectorLike(a) ==> SameComponents(a, a) == Ok(true)
  {
    if Is3DVectorLike(a) && Is3DVectorLike(b) {
      var dx := FieldReal(b, "x") - FieldReal(a, "x");
      var dy := FieldReal(b, "y") - FieldReal(a, "y");
      var dz := FieldReal(b, "z") - FieldReal(a, "z");
      assert (-dx) * (-dx) == dx * dx;
      assert (-dy) * (-dy) == dy * dy;
      assert (-dz) * (-dz) == dz * dz;
    }
  }

  /** `min` starts from a copy of `vectors[0]` and compares every argument:
      each component of the result is at most the matching component of
      every argument, and equals that of one of them. */
  lemma MinimumBounds(vectors: seq<JsValue>)
    requires Minimum(vectors).Ok?
    ensures AllFinite(Minimum(vectors).value)
    ensures forall i :: 0 <= i < |vectors| ==>
      Minimum(vectors).value.x.r <= FieldReal(vectors[i], "x") &&
      Minimum(vectors).value.y.r <= FieldReal(vectors[i], "y") &&
      Minimum(vectors).value.z.r <= FieldReal(vectors[i], "z")
    ensures exists i :: 0 <= i < |vectors| && Minimum(vectors).value.x.r == FieldReal(vectors[i], "x")
    ensures exists i :: 0 <= i < |vectors| && Minimum(vectors).value.y.r == FieldReal(vectors[i], "y")
    ensures exists i :: 0 <= i < |vectors| && Minimum(vectors).value.z.r == FieldReal(vectors[i], "z")
  {
    var first := vectors[0];
    FoldLowerBounds(FieldReal(first, "x"), Column(vectors, "x"));
    FoldLowerBounds(FieldReal(first, "y"), Column(vectors, "y"));
    FoldLowerBounds(FieldReal(first, "z"), Column(vectors, "z"));
  }

  /** `max` mirrors `min`. */
  lemma MaximumBounds(vectors: seq<JsValue>)
    requires Maximum(vectors).Ok?
    ensures AllFinite(Maximum(vectors).value)
    ensures forall i :: 0 <= i < |vectors| ==>
      Maximum(vectors).value.x.r >= FieldReal(vectors[i], "x") &&
      Maximum(vectors).value.y.r >= FieldReal(vectors[i], "y") &&
      Maximum(vectors).value.z.r >= FieldReal(vectors[i], "z")
    ensures exists i :: 0 <= i < |vectors| && Maximum(vectors).value.x.r == FieldReal(vectors[i], "x")
    ensures exists i :: 0 <= i < |vectors| && Maximum(vectors).value.y.r == FieldReal(vectors[i], "y")
    ensures exists i :: 0 <= i < |vectors| && Maximum(vectors).value.z.r == FieldReal(vectors[i], "z")
  {
    var first := vectors[0];
    FoldHigherBounds(FieldReal(first, "x"), Column(vectors, "x"));
    FoldHigherBounds(FieldReal(first, "y"), Column(vectors, "y"));
    FoldHigherBounds(FieldReal(first, "z"), Column(vectors, "z"));
  }

  /** With a number `A`, a finite fraction `t` and a `B` that `from`
      accepts, `lerp` computes `d * t + A` on each component, where `d` is
      that component of `B - A`. */
  lemma LerpOfNumber(p: real, b: JsValue, qx: real, qy: real, qz: real, t: real, dx: real, dy: real, dz: real, rx: real, ry: real, rz: real)
    requires FromValue(b) == Ok(Vec3(Finite(qx), Finite(qy), Finite(qz)))
    requires dx == qx - p && dy == qy - p && dz == qz - p
    requires rx == dx * t + p && ry == dy * t + p && rz == dz * t + p
    ensures Interpolated(Number(Finite(p)), b, Number(Finite(t))) == Ok(Vec3(Finite(rx), Finite(ry), Finite(rz)))
  {
    var d := Subtracted(Vec3(Finite(qx), Finite(qy), Finite(qz)), Number(Finite(p)));
    assert d == Vec3(Finite(dx), Finite(dy), Finite(dz)) by {
      ScalarBroadcastFinite(qx, qy, qz, p);
    }
    LerpSteps(dx, dy, dz, p, t);
  }

  /** `t = 0` gives `A` on every component. */
  lemma LerpAtZero(p: real, b: JsValue, qx: real, qy: real, qz: real)
    requires FromValue(b) == Ok(Vec3(Finite(qx), Finite(qy), Finite(qz)))
    ensures Interpolated(Number(Finite(p)), b, Number(Finite(0.0))) == Ok(Vec3(Finite(p), Finite(p), Finite(p)))
  {
    LerpOfNumber(p, b, qx, qy, qz, 0.0, qx - p, qy - p, qz - p, p, p, p);
  }

  /** `t = 1` gives `B`. */
  lemma LerpAtOne(p: real, b: JsValue, qx: real, qy: real, qz: real)
    requires FromValue(b) == Ok(Vec3(Finite(qx), Finite(qy), Finite(qz)))
    ensures Interpolated(Number(Finite(p)), b, Number(Finite(1.0))) == Ok(Vec3(Finite(qx), Finite(qy), Finite(qz)))
  {
    LerpOfNumber(p, b, qx, qy, qz, 1.0, qx - p, qy - p, qz - p, qx, qy, qz);
  }

  /** The `multiply(fraction).add(A)` tail of `lerp` with numbers. */
  lemma LerpSteps(dx: real, dy: real, dz: real, p: real, t: real)
    ensures Added(Multiplied(Vec3(Finite(dx), Finite(dy), Finite(dz)), Number(Finite(t))), Number(Finite(p))) ==
      Vec3(Finite(dx * t + p), Finite(dy * t + p), Finite(dz * t + p))
  {
    var a, b, c := dx * t, dy * t, dz * t;
    assert Multiplied(Vec3(Finite(dx), Finite(dy), Finite(dz)), Number(Finite(t))) == Vec3(Finite(a), Finite(b), Finite(c)) by {
      ScalarBroadcastFinite(dx, dy, dz, t);
    }
    assert Added(Vec3(Finite(a), Finite(b), Finite(c)), Number(Finite(p))) == Vec3(Finite(a + p), Finite(b + p), Finite(c + p)) by {
      ScalarBroadcastFinite(a, b, c, p);
    }
  }

  /** With an object `A` (in particular another vector), `lerp` never
      yields a usable vector. */
  lemma LerpOfObjectSpoils(a: JsValue, b: JsValue, fraction: JsValue)
    requires a.Record? && FromValue(b).Ok?
    ensures Interpolated(a, b, fraction) == Ok(Vec3(NaN, NaN, NaN))
  {
  }
}
