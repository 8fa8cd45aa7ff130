/** The value predicates of the library (src/utils/types.js). They are total:
    each is a boolean expression over its argument and never fails. */
module Types {
  import opened JsValues

  /** `value != null`: neither null nor undefined, the negation of
      `isEmpty`. */
  predicate IsDefined(v: JsValue): (r: bool)
    ensures r <==> !IsEmpty(v)
  {
    !(v.Undefined? || v.Null?)
  }

  /** `value == null`: null or undefined, both of them falsy. */
  predicate IsEmpty(v: JsValue): (r: bool)
    ensures r <==> v == Null || v == Undefined
    ensures r ==> !Truthy(v)
  {
    v.Undefined? || v.Null?
  }

  /** A value of number type that is finite: neither NaN nor an infinity,
      and not a value of another type that would convert to a number. */
  predicate IsNumber(v: JsValue): (r: bool)
    ensures r ==> v.Number? && !v.n.NaN? && !v.n.PosInf? && !v.n.NegInf?
    ensures !v.Number? ==> !r
  {
    v.Number? && v.n.Finite?
  }

  /** `Array.isArray`. An array has no `x`, `y` or `z` property, so it is
      never vector-like. */
  predicate IsArray(v: JsValue): (r: bool)
    ensures r ==> Get(v, "x") == Undefined && Get(v, "y") == Undefined && Get(v, "z") == Undefined
  {
    v.Array?
  }

  /** Defined, with finite numbers in `x` and `y`: a plain object with
      those two properties. */
  predicate Is2DVectorLike(v: JsValue): (r: bool)
    ensures r ==> v.Record? && "x" in v.fields && "y" in v.fields
  {
    IsDefined(v) && IsNumber(Get(v, "x")) && IsNumber(Get(v, "y"))
  }

  /** Defined, with finite numbers in `x`, `y` and `z`: a plain object
      with those three properties. */
  predicate Is3DVectorLike(v: JsValue): (r: bool)
    ensures r ==> v.Record? && "x" in v.fields && "y" in v.fields && "z" in v.fields
  {
    IsDefined(v) && IsNumber(Get(v, "x")) && IsNumber(Get(v, "y")) && IsNumber(Get(v, "z"))
  }

  /** Every element is 2D vector-like. */
  predicate All2DVectorLike(vs: seq<JsValue>) {
    forall i :: 0 <= i < |vs| ==> Is2DVectorLike(vs[i])
  }

  /** Every element is 3D vector-like. */
  predicate All3DVectorLike(vs: seq<JsValue>) {
    forall i :: 0 <= i < |vs| ==> Is3DVectorLike(vs[i])
  }

  /** `isEmpty` holds for exactly null and undefined, and `isDefined` is its
      negation. */
  lemma EmptyIsNullOrUndefined(v: JsValue)
    ensures IsEmpty(v) <==> v == Null || v == Undefined
    ensures IsDefined(v) <==> !IsEmpty(v)
  {
  }

  /** `isNumber` accepts exactly the finite numbers: not NaN, not the
      infinities, not a numeric string, not null. */
  lemma NumberMeansFinite(v: JsValue, r: real, s: string)
    ensures IsNumber(Number(Finite(r)))
    ensures !IsNumber(Number(NaN)) && !IsNumber(Number(PosInf)) && !IsNumber(Number(NegInf))
    ensures !IsNumber(Str(s)) && !IsNumber(Null) && !IsNumber(Undefined)
    ensures IsNumber(v) ==> v == Number(Finite(v.n.r))
  {
  }

  /** Only a plain object with finite `x` and `y` is 2D vector-like, and its
      other properties play no part. */
  lemma VectorLike2DReadsOnlyXY(m: map<string, JsValue>, key: string, w: JsValue, v: JsValue)
    requires key != "x" && key != "y"
    ensures Is2DVectorLike(Record(m[key := w])) == Is2DVectorLike(Record(m))
    ensures Is2DVectorLike(v) ==> v.Record? && Field(v, "x").Finite? && Field(v, "y").Finite?
  {
    assert Get(Record(m[key := w]), "x") == Get(Record(m), "x");
    assert Get(Record(m[key := w]), "y") == Get(Record(m), "y");
  }

  /** The same for the 3D predicate, with `z` as well. */
  lemma VectorLike3DReadsOnlyXYZ(m: map<string, JsValue>, key: string, w: JsValue, v: JsValue)
    requires key != "x" && key != "y" && key != "z"
    ensures Is3DVectorLike(Record(m[key := w])) == Is3DVectorLike(Record(m))
    ensures Is3DVectorLike(v) ==> v.Record? && Field(v, "x").Finite? && Field(v, "y").Finite? && Field(v, "z").Finite?
  {
    assert Get(Record(m[key := w]), "x") == Get(Record(m), "x");
    assert Get(Record(m[key := w]), "y") == Get(Record(m), "y");
    assert Get(Record(m[key := w]), "z") == Get(Record(m), "z");
  }

  /** A 3D vector-like value is 2D vector-like. */
  lemma VectorLike3DIs2D(v: JsValue)
    ensures Is3DVectorLike(v) ==> Is2DVectorLike(v)
  {
  }

  /** The `isDefined` guard comes first, so null and undefined are simply not
      vector-like, and neither is a number, a string, a boolean or an array. */
  lemma VectorLikeRejectsOtherShapes(v: JsValue)
    requires !v.Record?
    ensures !Is2DVectorLike(v) && !Is3DVectorLike(v)
  {
  }
}
