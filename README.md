# Vector — a Dafny model of the 2D and 3D vector classes

This project models the arithmetic core of the `Vector` JavaScript library. The core has three parts:

- `Vector2` (`src/vector2.js`), a mutable pair of components.
- `Vector3` (`src/vector3.js`), a mutable triple of components.
- The duck-typing predicates both classes rely on (`src/utils/types.js`).

Every operation the library offers with exact arithmetic is modelled:

- the constructors with their argument check;
- the in-place mutators `set`, `add`, `subtract`, `multiply`, `divide`, `abs`, `negative` and `cross`;
- the queries `dot`, `equals`, `clone`, `magSq`, `isOK`, `toJSON` and `toArray`, and the iterator;
- the static `from`, `of`, `dot`, `lerp`, `distance` (up to its square root), `equals`, `min` and `max`;
- the factory constants.

## How the model is built

- **Values.** `JsValues` (`js_values.dfy`) gives the values an operation can receive: `undefined`, `null`, booleans, numbers, strings, arrays and plain objects.
  - Numbers are IEEE doubles with their special values (±Infinity and NaN) over exact reals.
  - `JsValues` also defines JavaScript truthiness, `value || fallback`, and the compound assignments `+=`, `-=`, `*=` and `/=`.
  - An operand that is not a number is converted as JavaScript converts it (`ToNumber`). Booleans become 1 and 0, `null` and the empty array become 0, and an array with one element converts like that element's text. A string is read as a numeric literal with white space around it ignored (`StringToNumber`): decimal with an optional sign, point and exponent, `Infinity`, or `0b`/`0o`/`0x` integers. `+=` with a string, an array or an object concatenates instead.
- **Predicates.** `Types` (`types.dfy`) holds the predicates of `src/utils/types.js`.
- **Errors.** `Failures` (`failures.dfy`) lists the messages the library throws. A thrown error becomes an `Err` result.
- **Extrema.** `Extrema` (`extrema.dfy`) is the running minimum or maximum kept by the `min` and `max` loops.
- **Vector2 and Vector3.** `Vectors2D` (`vector2.dfy`) and `Vectors3D` (`vector3.dfy`) each model one class in two layers:
  - A pure function per operation says what the operation computes on the components (`Added`, `Divided`, `Crossed`, `FromValue`, `Minimum`, …).
  - A `class` with the same mutable fields performs the operation in place, step by step as the source does. Each method's `ensures` ties the new state to that function of the old state, or ties the returned vector to it through `Realizes`.
  - Lemmas then state what the operations promise: neutral operands, scalar broadcast, operand conversion, involutions, round trips through `toJSON`/`toArray`, bounds for `min`/`max`, end points of `lerp`, and the sign and zero of `magSq`.

## Quirks of the code

In each case below, the code does something other than its names and JSDoc suggest. The model follows the code.

- **Mutators do not return early.** The JSDoc of `set`, `add`, `subtract`, `multiply` and `divide` announces a vector operand (`@param {number | Vector2} value`, `src/vector2.js:36`, `:49`, `:63`, `:77`, `:91`). The component-wise branch handles it (`src/vector2.js:52-55` for `add`). No `return` follows that branch, so the scalar step (`src/vector2.js:57-58`) runs as well, with `value || 0`. For an object operand that is the object itself. A plain object converts to NaN, and `+=` concatenates with it, so no component stays a number (`ObjectOperandSpoils`). `lerp` passes its `A` to `subtract` and `add`, so a vector `A` has the same effect (`LerpOfObjectSpoils`). `Vector3` is written the same way (`src/vector3.js:44-119`).
- **`Vector3.cross` is sequential.** The method takes `@param {Vector3} vector` (`src/vector3.js:150-153`) and bears the cross product's name. Its three assignments (`src/vector3.js:155-157`) overwrite `this.x` and then `this.y`, and the later lines read the new values. The result is the cross product only when `x` does not change or the operand's `z` is 0 (`CrossSecondComponent`). The cross product of the original components is modelled separately as `CrossProduct`, and its orthogonality is proved.
- **`Vector3.from(number)` always fails.** The JSDoc of `from` accepts a `number` (`src/vector3.js:192`). The code then calls `new this(target, target)` (`src/vector3.js:203`), which leaves `z` undefined, and the constructor's check (`src/vector3.js:26`) rejects that (`FromNumberAndShortArrays`).
- **`isUndefined` does not exist.** `src/vector3.js:7` imports `isUndefined` from `src/utils/types.js`, and that file does not export it (`src/utils/types.js:1-36`). As written, the import does not resolve. The model takes the meaning the name has among its neighbours: `isEmpty` is `== null` (`src/utils/types.js:7-9`), so `isUndefined` is `=== undefined`. Under that assumption, `Vector3` rejects three `null`s while `Vector2` accepts two (`ConstructorRules`).
- **`Vector3.min`/`max` have no separate first argument.** Unlike `Vector2.min(A, ...vectors)`, they check `vectors[0]` with the default message (`src/vector3.js:270`). The loop then visits every argument, the first one included.

## Model

| member | source | states |
|---|---|---|
| Types.IsDefined | src/utils/types.js:2-4 | `isDefined` holds exactly when `isEmpty` does not |
| Types.IsEmpty | src/utils/types.js:7-9 | `isEmpty` holds exactly for null and undefined, which are both falsy |
| Types.IsNumber | src/utils/types.js:12-14 | only a value of number type that is neither NaN nor an infinity passes |
| Types.IsArray | src/utils/types.js:17 | an array has no `x`, `y` or `z` property |
| Types.Is2DVectorLike | src/utils/types.js:20-26 | a 2D vector-like value is a plain object that has both `x` and `y` |
| Types.Is3DVectorLike | src/utils/types.js:29-36 | a 3D vector-like value is a plain object that has `x`, `y` and `z` |
| Types.EmptyIsNullOrUndefined | src/utils/types.js:2-9 | `isEmpty` holds exactly for null and undefined; `isDefined` is its negation |
| Types.NumberMeansFinite | src/utils/types.js:12-14 | `isNumber` accepts exactly the finite numbers: not NaN, not ±Infinity, not strings, null or undefined |
| Types.VectorLike2DReadsOnlyXY | src/utils/types.js:20-26 | only a plain object with finite `x` and `y` is 2D vector-like; its other properties do not matter |
| Types.VectorLike3DReadsOnlyXYZ | src/utils/types.js:29-36 | the same for `x`, `y` and `z` |
| Types.VectorLike3DIs2D | src/utils/types.js:20-36 | every 3D vector-like value is 2D vector-like |
| Types.VectorLikeRejectsOtherShapes | src/utils/types.js:20-36 | null, undefined, numbers, strings, booleans and arrays are never vector-like |
| JsValues.ApplyValueIsBinaryOperator | src/vector2.js:57-58 | `a op= value` agrees with the binary operators of section 13.15.3 of ECMAScript (`BinaryOperator`): both sides are made primitive, `+` with a string side concatenates and leaves no number, and otherwise both sides are converted and the operation applies; NaN on either side gives NaN |
| JsValues.ToNumberThroughPrimitive | src/vector2.js:71-72 | converting any operand to a number is the same as converting the primitive it becomes |
| JsValues.ToNumberRules | src/vector2.js:71-72 | the conversion the scalar step applies: booleans are 1 and 0, null and `[]` are 0, undefined and objects are NaN, a one-element array holding a number, a string or an array converts like that element, a longer array is NaN |
| JsValues.TrimStartShape | src/vector2.js:71-72 | the conversion of a string drops exactly its leading white space |
| JsValues.TrimEndShape | src/vector2.js:71-72 | the conversion of a string drops exactly its trailing white space |
| JsValues.DecimalText | src/vector2.js:71-72 | the decimal text of a natural number is a non-empty run of digits without a leading zero |
| JsValues.DecimalTextValue | src/vector2.js:71-72 | reading those digits back gives the number |
| JsValues.IntegerTextRoundTrip | src/vector2.js:71-72 | converting the decimal text of `n` gives `n` |
| JsValues.NegativeTextRoundTrip | src/vector2.js:71-72 | converting `"-"` followed by the decimal text of `n` gives `-n` |
| JsValues.DigitsAreLiteral | src/vector2.js:71-72 | a run of digits without a leading zero converts to its decimal value |
| JsValues.NegatedDigitsAreLiteral | src/vector2.js:71-72 | a run of digits after a minus sign converts to the negated decimal value |
| JsValues.SurroundingWhiteSpace | src/vector2.js:71-72 | white space before and after a literal does not change its conversion |
| JsValues.PointAndExponent | src/vector2.js:71-72 | a literal `whole.fraction e exp` is worth its digits times ten to `exp` less the number of fraction digits |
| JsValues.StringExamples | src/vector2.js:71-72 | `"3"` converts to 3; the empty string and a string of white space convert to 0 |
| JsValues.TimesMinusOne | src/vector2.js:127-131 | `*= -1` negates every number, the infinities and NaN included |
| JsValues.NegateInvolution | src/vector2.js:162 | negating twice gives back every number, the special values included |
| JsValues.FiniteArithmetic | src/vector2.js:57-102 | `+=`, `-=`, `*=` and `/=` on finite numbers are real addition, subtraction, multiplication and division (by a non-zero divisor) |
| JsValues.NeutralOperand | src/vector2.js:57-102 | adding or subtracting 0 and multiplying or dividing by 1 leave every number unchanged, the special values included |
| JsValues.OrZeroKeepsNumber | src/vector2.js:57-58 | `value \|\| 0` keeps a finite number, 0 included |
| JsValues.SquareKind | src/vector2.js:159 | `n ** 2` is finite iff `n` is, and never -Infinity |
| JsValues.SumKind | src/vector2.js:159 | a sum of values that are not -Infinity is not -Infinity, and is finite iff both terms are |
| JsValues.NothingToTrim | src/vector2.js:71-72 | a string with no white space at either end is read as it is |
| Extrema.FoldLowerBounds | src/vector2.js:250-254 | the running minimum is at most the start and every candidate, and equals one of them |
| Extrema.FoldHigherBounds | src/vector2.js:266-270 | the running maximum is at least the start and every candidate, and equals one of them |
| Extrema.LowestIsFold | src/vector2.js:250-254 | the component the `min` loop holds after visiting the operands in order is the running minimum of the column |
| Extrema.HighestIsFold | src/vector2.js:266-270 | the component the `max` loop holds is the running maximum of the column |
| Vectors2D.Constructed | src/vector2.js:23-28 | succeeds iff both arguments are finite numbers or both are null/undefined (then the origin); otherwise fails with "x and y must be a number." |
| Vectors2D.Update | src/vector2.js:51-102 | the component-wise step is always overwritten by the scalar step: an object operand leaves no number, any other operand is applied to both components as `value \|\| fallback` |
| Vectors2D.Assigned | src/vector2.js:38-46 | both components become the same value: a finite number operand, 0 for a falsy one, no number for any other truthy non-number |
| Vectors2D.Added | src/vector2.js:51-60 | a falsy operand changes nothing; a boolean or a number is added to both components; a string, an array or an object leaves no number |
| Vectors2D.Subtracted | src/vector2.js:65-74 | a falsy operand changes nothing; any other operand but an object is converted and subtracted from both components; an object leaves no number |
| Vectors2D.Multiplied | src/vector2.js:79-88 | a falsy operand multiplies by 0, giving the origin on finite components; any other operand but an object is converted and multiplies both; an object leaves no number |
| Vectors2D.Divided | src/vector2.js:93-104 | fails with the zero message exactly on the number 0; another falsy operand changes nothing; any other operand but an object is converted to the divisor; an object leaves no number |
| Vectors2D.Absolute | src/vector2.js:127-131 | no component is below zero afterwards; negative ones are negated and the others kept |
| Vectors2D.SquaredMagnitude | src/vector2.js:159 | on finite components, the real sum of their squares; never -Infinity |
| Vectors2D.FromValue | src/vector2.js:173-187 | a vector-like value gives its `x, y`; an array is checked by the constructor on elements 0 and 1; a number goes to both components; anything else fails with the "Unexpected type target" message; every success is finite |
| Vectors2D.OfValues | src/vector2.js:193-197 | succeeds iff `x` is a number; `y` falls back to `x` when not a number |
| Vectors2D.DotProduct | src/vector2.js:203-208 | fails unless both arguments are 2D vector-like |
| Vectors2D.Interpolated | src/vector2.js:214-216 | `lerp` fails exactly when `from(B)` fails, with the same error |
| Vectors2D.SameComponents | src/vector2.js:232-240 | true iff both are vector-like and their components are equal; fails unless both are vector-like |
| Vectors2D.SquaredDistance | src/vector2.js:222-226 | fails unless both are vector-like; otherwise the sum of squared differences, never negative |
| Vectors2D.Minimum | src/vector2.js:246-256 | succeeds iff `A` and every further argument are vector-like; "The first argument must be a Vector" for a bad `A`, the default message otherwise |
| Vectors2D.Maximum | src/vector2.js:262-272 | the same checks as `min` |
| Vectors2D.Vector2.New | src/vector2.js:23-28 | the new instance holds what `Constructed` describes, or the constructor's error |
| Vectors2D.Vector2.Elements | src/vector2.js:30-33 | the iterator yields `x`, then `y`, and nothing else |
| Vectors2D.Vector2.Set | src/vector2.js:38-46 | the new state is `Assigned(old, value)`; the receiver is returned |
| Vectors2D.Vector2.Add | src/vector2.js:51-60 | the new state is `Added(old, value)`: the component-wise step, then the scalar step; the receiver is returned |
| Vectors2D.Vector2.Subtract | src/vector2.js:65-74 | the new state is `Subtracted(old, value)` |
| Vectors2D.Vector2.Multiply | src/vector2.js:79-88 | the new state is `Multiplied(old, value)` |
| Vectors2D.Vector2.Divide | src/vector2.js:93-104 | on the number 0 it fails with the zero message and leaves the state unchanged; otherwise the new state is `Divided(old, value)` |
| Vectors2D.Vector2.Abs | src/vector2.js:127-131 | the new state is `Absolute(old)` |
| Vectors2D.Vector2.Negative | src/vector2.js:162 | the new state is every old component negated |
| Vectors2D.Vector2.Dot | src/vector2.js:136-139 | fails unless the operand is vector-like; otherwise `x*v.x + y*v.y`, which on finite components equals static `dot` |
| Vectors2D.Vector2.Equals | src/vector2.js:150-156 | true iff the components equal the operand's; on finite components it agrees with static `equals` |
| Vectors2D.Vector2.Clone | src/vector2.js:158 | succeeds iff both components are finite numbers, and then gives a fresh instance with the same components |
| Vectors2D.Vector2.MagSq | src/vector2.js:159 | `x ** 2 + y ** 2`: finite iff both components are, never negative then, zero only for the zero vector |
| Vectors2D.Vector2.IsOK | src/vector2.js:163 | true iff the vector's own `toJSON` is vector-like, i.e. iff the constructor would accept its components |
| Vectors2D.Vector2.ToJSON | src/vector2.js:166 | the object `{x, y}`; `from` gives the vector back when its components are finite |
| Vectors2D.Vector2.ToArray | src/vector2.js:167 | the components in iteration order; `from` gives the vector back when they are finite |
| Vectors2D.Vector2.From | src/vector2.js:173-187 | a fresh instance holding `FromValue(target)`, or its error |
| Vectors2D.Vector2.Of | src/vector2.js:193-197 | a fresh instance holding `OfValues(x, y)`, or its error |
| Vectors2D.Vector2.Lerp | src/vector2.js:214-216 | the chain `from(B).subtract(A).multiply(fraction).add(A)` on a fresh instance equals `Interpolated` |
| Vectors2D.Vector2.Min | src/vector2.js:246-256 | the loop over the further arguments ends with `Minimum(A, vectors)`; its invariant is the running minimum of the arguments visited |
| Vectors2D.Vector2.Max | src/vector2.js:262-272 | the loop ends with `Maximum(A, vectors)`; its invariant is the running maximum |
| Vectors2D.Vector2.Zero | src/vector2.js:274 | a fresh (0, 0) |
| Vectors2D.Vector2.One | src/vector2.js:275 | a fresh (1, 1) |
| Vectors2D.Vector2.Neg | src/vector2.js:276 | a fresh (-1, -1) |
| Vectors2D.Vector2.Left | src/vector2.js:278 | a fresh (-1, 0) |
| Vectors2D.Vector2.Forward | src/vector2.js:279 | a fresh (0, -1) |
| Vectors2D.Vector2.Right | src/vector2.js:280 | a fresh (1, 0) |
| Vectors2D.Vector2.Back | src/vector2.js:281 | a fresh (0, 1) |
| Vectors2D.MagSqMeaning | src/vector2.js:159 | `magSq` is finite iff both components are, never negative then, and zero only at the origin |
| Vectors2D.MagSqFinite | src/vector2.js:159 | on finite components `magSq` is finite, never negative, and zero only at the origin |
| Vectors2D.MagSqNotFinite | src/vector2.js:159 | a component that is not a finite number makes `magSq` not finite |
| Vectors2D.ConstructorMixFails | src/vector2.js:10-28 | one number with one absent argument is rejected; no arguments give the origin; two numbers are kept |
| Vectors2D.UpdateByNonVector | src/vector2.js:51-104 | with an operand that is not vector-like, a mutator is its scalar step alone |
| Vectors2D.ScalarBroadcast | src/vector2.js:38-104 | a finite number is applied to both components by `set`, `add`, `subtract`, `multiply`, and by `divide` when non-zero |
| Vectors2D.ScalarBroadcastFinite | src/vector2.js:51-104 | on finite components that broadcast is real addition, subtraction, multiplication and division |
| Vectors2D.NeutralOperands | src/vector2.js:38-104 | 0, null and undefined leave `add`/`subtract` unchanged and zero `set`/`multiply`; `divide` by null/undefined changes nothing, `divide(0)` fails |
| Vectors2D.ObjectOperandSpoils | src/vector2.js:38-104 | with any plain object operand, vector-like or not, every mutator leaves components that are not numbers |
| Vectors2D.ConvertedOperands | src/vector2.js:51-88 | `multiply([k])` multiplies by `k`, `add(true)` adds 1, `subtract([])` changes nothing |
| Vectors2D.ConvertedStrings | src/vector2.js:65-104 | `subtract` with the decimal text of `n` subtracts `n`; `divide` with it divides by `n` when `n` is not 0 |
| Vectors2D.StringsConcatenate | src/vector2.js:51-60 | `add` with any non-empty string, numeric or not, leaves no number |
| Vectors2D.NegativeIsTimesMinusOne | src/vector2.js:162 | `negative()`, i.e. `multiply(-1)`, negates each component, including the special values |
| Vectors2D.NegateTwice | src/vector2.js:162 | `negative` twice restores the vector; on finite components it is real negation |
| Vectors2D.AbsIdempotent | src/vector2.js:127-131 | `abs` twice equals `abs` once |
| Vectors2D.FromInvertsConversions | src/vector2.js:166-187 | `from(v.toJSON())` and `from(v.toArray())` give `v` back for finite components |
| Vectors2D.StaticSymmetry | src/vector2.js:203-240 | static `dot`, `equals` and `distance` are symmetric; `equals(A, A)` holds for vector-like `A` |
| Vectors2D.MinimumIsRunning | src/vector2.js:246-256 | on vector-like arguments, `min` is the running minimum, component by component, starting from `A` |
| Vectors2D.MaximumIsRunning | src/vector2.js:262-272 | on vector-like arguments, `max` is the running maximum starting from `A` |
| Vectors2D.MinimumBounds | src/vector2.js:246-256 | each component of `min` is at most that of `A` and of every further argument, and equals one of them |
| Vectors2D.MaximumBounds | src/vector2.js:262-272 | each component of `max` is at least that of every argument, and equals one of them |
| Vectors2D.LerpOfNumber | src/vector2.js:214-216 | with a number `A`, a finite fraction `t` and a `B` that `from` accepts, each component is `d * t + A`, where `d` is that component of `B` less `A` |
| Vectors2D.LerpAtZero | src/vector2.js:214-216 | fraction 0 gives `A` on both components |
| Vectors2D.LerpAtOne | src/vector2.js:214-216 | fraction 1 gives `from(B)` |
| Vectors2D.LerpSteps | src/vector2.js:214-216 | the `multiply(t).add(A)` tail is `d * t + A` per component |
| Vectors2D.LerpOfObjectSpoils | src/vector2.js:214-216 | with a plain object `A` the result has no numeric components |
| Vectors3D.IsUndefined | src/vector3.js:14-16 | `isUndefined` holds only for values `isEmpty` accepts, and not for null |
| Vectors3D.Constructed | src/vector3.js:10-33 | succeeds iff all three arguments are finite numbers or all three are `undefined` (then the origin); otherwise fails with "arguments X, Y and Z must be a numbers" |
| Vectors3D.Update | src/vector3.js:58-117 | the scalar step always decides the result: an object operand leaves no number, any other operand is applied to all three components as `value \|\| fallback` |
| Vectors3D.Assigned | src/vector3.js:44-53 | all three components become the same value: a finite number operand, 0 for a falsy one, no number for any other truthy non-number |
| Vectors3D.Added | src/vector3.js:58-69 | a falsy operand changes nothing; a boolean or a number is added to every component; a string, an array or an object leaves no number |
| Vectors3D.Subtracted | src/vector3.js:74-85 | a falsy operand changes nothing; any other operand but an object is converted and subtracted; an object leaves no number |
| Vectors3D.Multiplied | src/vector3.js:90-101 | a falsy operand multiplies by 0, giving the origin on finite components; any other operand but an object is converted and multiplies every component; an object leaves no number |
| Vectors3D.Divided | src/vector3.js:106-119 | fails with the zero message exactly on the number 0; another falsy operand changes nothing; any other operand but an object is converted to the divisor; an object leaves no number |
| Vectors3D.Absolute | src/vector3.js:135-140 | no component is below zero afterwards; negative ones are negated and the others kept |
| Vectors3D.Crossed | src/vector3.js:153-159 | fails unless the operand is 3D vector-like, with the default message |
| Vectors3D.CrossProduct | src/vector3.js:150-159 | the cross product the method's name and JSDoc announce: finite on finite factors, and zero when the second factor is zero |
| Vectors3D.SquaredMagnitude | src/vector3.js:180 | on finite components, the real sum of their squares; never -Infinity |
| Vectors3D.FromValue | src/vector3.js:195-209 | a vector-like value gives its `x, y, z`; an array is checked by the constructor on elements 0 to 2; a number always fails; anything else fails with the "Unexpected type target" message |
| Vectors3D.OfValues | src/vector3.js:216-221 | succeeds iff `x` is a number; `y` and `z` each fall back to `x` |
| Vectors3D.DotProduct | src/vector3.js:227-231 | fails unless both arguments are 3D vector-like |
| Vectors3D.Interpolated | src/vector3.js:238-240 | `lerp` fails exactly when `from(B)` fails, with the same error |
| Vectors3D.SameComponents | src/vector3.js:256-264 | true iff both are vector-like with equal components; fails unless both are vector-like |
| Vectors3D.SquaredDistance | src/vector3.js:246-250 | fails unless both are vector-like; otherwise the sum of squared differences, never negative |
| Vectors3D.Minimum | src/vector3.js:269-280 | succeeds iff there is at least one argument and all are 3D vector-like |
| Vectors3D.Maximum | src/vector3.js:285-296 | the same checks as `min` |
| Vectors3D.Vector3.New | src/vector3.js:24-33 | the new instance holds what `Constructed` describes, or the constructor's error |
| Vectors3D.Vector3.Elements | src/vector3.js:35-39 | the iterator yields `x`, `y`, then `z`, and nothing else |
| Vectors3D.Vector3.Set | src/vector3.js:44-53 | the new state is `Assigned(old, value)` |
| Vectors3D.Vector3.Add | src/vector3.js:58-69 | the new state is `Added(old, value)` |
| Vectors3D.Vector3.Subtract | src/vector3.js:74-85 | the new state is `Subtracted(old, value)` |
| Vectors3D.Vector3.Multiply | src/vector3.js:90-101 | the new state is `Multiplied(old, value)` |
| Vectors3D.Vector3.Divide | src/vector3.js:106-119 | on the number 0 it fails and leaves the state unchanged; otherwise the new state is `Divided(old, value)` |
| Vectors3D.Vector3.Abs | src/vector3.js:135-140 | the new state is `Absolute(old)` |
| Vectors3D.Vector3.Cross | src/vector3.js:153-159 | fails and leaves the state unchanged for an operand that is not vector-like; otherwise the new state is `Crossed(old, vector)` |
| Vectors3D.Vector3.Negative | src/vector3.js:183 | the new state is every old component negated |
| Vectors3D.Vector3.Dot | src/vector3.js:145-148 | fails unless the operand is vector-like; otherwise `x*v.x + y*v.y + z*v.z`, equal to static `dot` on finite components |
| Vectors3D.Vector3.Equals | src/vector3.js:170-177 | true iff all three components equal the operand's; agrees with static `equals` on finite components |
| Vectors3D.Vector3.Clone | src/vector3.js:179 | spreading the iterator into the constructor succeeds iff all components are finite, and gives a fresh copy |
| Vectors3D.Vector3.MagSq | src/vector3.js:180 | finite iff all components are, never negative then, zero only for the zero vector |
| Vectors3D.Vector3.IsOK | src/vector3.js:185 | true iff `toJSON` is 3D vector-like, i.e. iff the constructor would accept the components |
| Vectors3D.Vector3.ToJSON | src/vector3.js:188 | the object `{x, y, z}`; `from` gives the vector back when its components are finite |
| Vectors3D.Vector3.ToArray | src/vector3.js:189 | the components in iteration order; `from` gives the vector back when they are finite |
| Vectors3D.Vector3.From | src/vector3.js:195-209 | a fresh instance holding `FromValue(target)`, or its error |
| Vectors3D.Vector3.Of | src/vector3.js:216-221 | a fresh instance holding `OfValues(x, y, z)`, or its error |
| Vectors3D.Vector3.Lerp | src/vector3.js:238-240 | the fluent chain on a fresh instance equals `Interpolated` |
| Vectors3D.Vector3.Min | src/vector3.js:269-280 | the loop over all arguments ends with `Minimum(vectors)`; its invariant is the running minimum of the arguments visited |
| Vectors3D.Vector3.Max | src/vector3.js:285-296 | the loop ends with `Maximum(vectors)`; its invariant is the running maximum |
| Vectors3D.Vector3.Zero | src/vector3.js:298 | a fresh (0, 0, 0) |
| Vectors3D.Vector3.One | src/vector3.js:299 | a fresh (1, 1, 1) |
| Vectors3D.Vector3.Neg | src/vector3.js:300 | a fresh (-1, -1, -1) |
| Vectors3D.Vector3.Left | src/vector3.js:302 | a fresh (-1, 0, 0) |
| Vectors3D.Vector3.Forward | src/vector3.js:303 | a fresh (0, -1, 0) |
| Vectors3D.Vector3.Right | src/vector3.js:304 | a fresh (1, 0, 0) |
| Vectors3D.Vector3.Back | src/vector3.js:305 | a fresh (0, 1, 0) |
| Vectors3D.Vector3.Up | src/vector3.js:306 | a fresh (0, 0, -1) |
| Vectors3D.Vector3.Down | src/vector3.js:307 | a fresh (0, 0, 1) |
| Vectors3D.RecordFields | src/vector3.js:188 | the object of `toJSON` holds exactly the three components under `x`, `y` and `z` |
| Vectors3D.DotOfFinite | src/vector3.js:145-148 | on finite components the instance `dot` equals static `dot` of its `toJSON` |
| Vectors3D.MagSqMeaning | src/vector3.js:180 | `magSq` is finite iff all components are, never negative then, and zero only at the origin |
| Vectors3D.MagSqFinite | src/vector3.js:180 | on finite components `magSq` is finite, never negative, and zero only at the origin |
| Vectors3D.MagSqNotFinite | src/vector3.js:180 | a component that is not a finite number makes `magSq` not finite |
| Vectors3D.ConstructorRules | src/vector3.js:10-33 | three `undefined` give the origin; three `null`s, or numbers mixed with `undefined`, are rejected; three numbers are kept |
| Vectors3D.UpdateByNonVector | src/vector3.js:58-119 | with an operand that is not 3D vector-like, a mutator is its scalar step alone |
| Vectors3D.ScalarBroadcast | src/vector3.js:44-119 | a finite number is applied to all three components by `set`, `add`, `subtract`, `multiply`, and by `divide` when non-zero |
| Vectors3D.ScalarBroadcastFinite | src/vector3.js:58-119 | on finite components that broadcast is real arithmetic |
| Vectors3D.NeutralOperands | src/vector3.js:44-119 | 0, null and undefined leave `add`/`subtract` unchanged and zero `set`/`multiply`; `divide` by null/undefined changes nothing, `divide(0)` fails |
| Vectors3D.ObjectOperandSpoils | src/vector3.js:44-119 | any object operand, including a 2D vector-like one without `z`, leaves components that are not numbers |
| Vectors3D.ConvertedOperands | src/vector3.js:58-101 | `multiply([k])` multiplies by `k`, `add(true)` adds 1, `subtract([])` changes nothing |
| Vectors3D.ConvertedStrings | src/vector3.js:74-119 | `subtract` with the decimal text of `n` subtracts `n`; `divide` with it divides by `n` when `n` is not 0 |
| Vectors3D.StringsConcatenate | src/vector3.js:58-69 | `add` with any non-empty string leaves no number |
| Vectors3D.NegativeIsTimesMinusOne | src/vector3.js:183 | `negative()`, i.e. `multiply(-1)`, negates each component |
| Vectors3D.NegateTwice | src/vector3.js:183 | `negative` twice restores the vector; on finite components it is real negation |
| Vectors3D.AbsIdempotent | src/vector3.js:135-140 | `abs` twice equals `abs` once |
| Vectors3D.CrossAgreement | src/vector3.js:153-159 | the new `x` is the cross product's; `y` agrees when `x` did not change, and all three agree when neither `x` nor `y` changed |
| Vectors3D.CrossedSteps | src/vector3.js:155-157 | the result of `cross` is determined step by step: the new `y` from the new `x`, the new `z` from both |
| Vectors3D.CrossKeepsFinite | src/vector3.js:153-159 | `cross` of finite components with a vector-like operand is finite |
| Vectors3D.CrossSecondComponent | src/vector3.js:155-156 | on finite components, `cross` gives the cross product's `y` iff `x` did not change or the operand's `z` is 0 |
| Vectors3D.CrossOfZero | src/vector3.js:153-159 | the zero vector stays zero under `cross` with any vector-like operand |
| Vectors3D.CrossProductOrthogonal | src/vector3.js:150-159 | the cross product of finite vectors is finite and orthogonal to its first factor |
| Vectors3D.FromInvertsConversions | src/vector3.js:188-209 | `from(v.toJSON())` and `from(v.toArray())` give `v` back for finite components |
| Vectors3D.FromNumberAndShortArrays | src/vector3.js:195-209 | `from(number)` fails with the constructor's message, as does a two-element array; an empty array gives the origin |
| Vectors3D.StaticSymmetry | src/vector3.js:227-264 | static `dot`, `equals` and `distance` are symmetric; `equals(A, A)` holds for vector-like `A` |
| Vectors3D.MinimumIsRunning | src/vector3.js:269-280 | on vector-like arguments, `min` is the running minimum, component by component, starting from `vectors[0]` |
| Vectors3D.MaximumIsRunning | src/vector3.js:285-296 | on vector-like arguments, `max` is the running maximum starting from `vectors[0]` |
| Vectors3D.MinimumBounds | src/vector3.js:269-280 | each component of `min` is at most that of every argument, and equals that of one of them |
| Vectors3D.MaximumBounds | src/vector3.js:285-296 | each component of `max` is at least that of every argument, and equals that of one of them |
| Vectors3D.LerpOfNumber | src/vector3.js:238-240 | with a number `A`, a finite fraction `t` and a `B` that `from` accepts, each component is `d * t + A`, where `d` is that component of `B` less `A` |
| Vectors3D.LerpAtZero | src/vector3.js:238-240 | fraction 0 gives `A` on every component |
| Vectors3D.LerpAtOne | src/vector3.js:238-240 | fraction 1 gives `from(B)` |
| Vectors3D.LerpSteps | src/vector3.js:238-240 | the `multiply(t).add(A)` tail is `d * t + A` per component |
| Vectors3D.LerpOfObjectSpoils | src/vector3.js:238-240 | with an object `A` the result has no numeric components |

## Left out

- `heading`, `setHeading` and `rotate` (2D), `heading` and `setHeading` (3D), and `mag`, `magnitude`, `normalize` and `norm` are left out. They rest on `Math.atan2`, `Math.cos`, `Math.sin` and `Math.sqrt`, and the floating-point results of those are not modelled.
- `toString` is left out as an operation. It only formats text. Its one effect on the modelled operations is the `Vector2` instance operand described below.
- Vectors2D.SquaredDistance: models `distance` only up to its final `Math.sqrt`. It states the value under the root and that this value is never negative.
- Vectors3D.SquaredDistance: the same for `Vector3.distance`.
- Vectors2D.ObjectOperandSpoils: states the outcome for a plain object operand only. A `Vector2` instance passed to `add`, `subtract`, `multiply` or `divide` is converted at the scalar step (`src/vector2.js:57`, `:71`, `:85`, `:101`) through its `toString` (`src/vector2.js:165`). That method reads the unbound names `x` and `y` and throws a `ReferenceError`. By then the component-wise step (`src/vector2.js:53-54`, `:67-68`, `:81-82`, `:95-96`) has already updated the receiver, so JavaScript throws after a partial update. The model does not capture that throw. `set` stores the operand without converting it, so it does not throw.
- Vectors2D.LerpOfObjectSpoils: states the outcome for a plain object `A` only. With a `Vector2` instance as `A`, `subtract(A)` throws the same `ReferenceError` after updating the fresh vector.
- **`Vector3` instance operands.** `Vector3.toString` (`src/vector3.js:187`) reads `this.x`, `this.y` and `this.z` and returns text, which converts to NaN. A `Vector3` operand therefore behaves as the plain object of its fields, as modelled.
- **Arithmetic.** Numbers are exact reals plus ±Infinity and NaN. Rounding, overflow to Infinity and negative zero are not modelled. The conversion of a numeric string gives its exact value, so a literal too large for a double is not Infinity.
- **Non-number components.** A component that stores a value other than a number is NaN in the model. That happens with `set` of a truthy non-number (`true`, a numeric string, an array such as `[3]`, a `Vector2` instance; `src/vector2.js:44`), and with `+=` of a string, an array or an object, which concatenates. JavaScript keeps the stored value, and every later arithmetic use converts it again: `+=` converts a stored boolean (`set(true).add(1)` gives (2, 2), `src/vector2.js:57-58`), `-=`, `*=` and `/=` convert a numeric string, a boolean or a one-element array, and so do `**` in `magSq` (after `set("3")`, `magSq()` is 18; `src/vector2.js:159`), `*` in `dot` (`src/vector2.js:136-139`) and `<` in `abs` (`src/vector2.js:127-131`). A stored `Vector2` instance throws there through its `toString` (`src/vector2.js:165`). The model keeps NaN in every such case, so what `MagSq`, `MagSqNotFinite`, `Dot` and `Absolute` state of a non-finite component holds of that NaN, not of the stored value.
- **Aliasing.** An operand is modelled as a snapshot of its fields. `v.cross(v)`, which in JavaScript also reads `v`'s already-updated fields, is not covered.
- **Exceptions.** A thrown `Error` is an `Err` result carrying the message. Every check of the library runs before the first update, except in `divide`, whose component-wise step runs before the zero check; 0 is not vector-like, so that step has not run when the check fails.
- **Iterator and spread.** The iterator is modelled as the sequence of components (`Elements`), not as a generator. `Vector3.clone` spreads it into the constructor.
- Vectors3D.IsUndefined: assumes `=== undefined` for an import that `src/utils/types.js` does not provide (see the quirks above). Under an `== null` reading, `Vector3` would accept three `null`s as `Vector2` accepts two.
- `src/utils/assert.js` and `src/utils/assertVector.js` only throw with the messages listed in `Failures`. `src/index.js` only re-exports. None of the three is modelled beyond those messages.
