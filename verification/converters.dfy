/**
 * The two XAML value converters. A boxed argument is a `Value`; the
 * requested target type is a `TargetType`; WPF's `DependencyProperty.UnsetValue`
 * is the `Unset` outcome.
 */
module Converters {
  import opened Wrappers
  import opened Exceptions
  import opened FixedWidth

  datatype Visibility = Visible | Hidden | Collapsed

  /** The boxed values the converters distinguish; `Sequence` is any `IEnumerable`. */
  datatype Value =
    | Null
    | BoolValue(b: bool)
    | IntValue(i: int32)
    | VisibilityValue(vis: Visibility)
    | Sequence(items: seq<Value>)
    | OtherValue

  datatype TargetType = VisibilityType | BoolType | NullableBoolType | OtherType

  /** What a conversion returns: `Unset`, or a boxed value. */
  datatype Output = Unset | Out(value: Value)

  // ----- AdvancedBooleanToVisibilityConverter -----

  /** The visibility used for "hidden": the parameter when it is a Visibility, Collapsed otherwise; Visible is refused. */
  function HideMode(parameter: Value): (r: Result<Visibility, Exception>)
    ensures r.Failure? <==> parameter == VisibilityValue(Visible)
    ensures r.Failure? ==> r.error == ArgumentOutOfRange
    ensures r.Success? ==> r.value != Visible
    ensures r.Success? && parameter.VisibilityValue? ==> r.value == parameter.vis
    ensures !parameter.VisibilityValue? ==> r == Success(Collapsed)
  {
    if parameter.VisibilityValue? then
      if parameter.vis == Visible then Failure(ArgumentOutOfRange) else Success(parameter.vis)
    else Success(Collapsed)
  }

  /** `Convert`: a bool to Visible or the hide mode, inverted on request; a non-bool always hides. */
  function Convert(inverted: bool, value: Value, target: TargetType, parameter: Value): (r: Result<Output, Exception>)
    ensures target != VisibilityType ==> r == Success(Unset)
    ensures target == VisibilityType ==> (r.Failure? <==> parameter == VisibilityValue(Visible))
    ensures target == VisibilityType && r.Success? ==> r.value.Out? && r.value.value.VisibilityValue?
    ensures target == VisibilityType && r.Success? && value.BoolValue? ==>
      (r.value.value.vis == Visible <==> value.b != inverted)
    ensures target == VisibilityType && r.Success? && !value.BoolValue? ==> r.value.value.vis != Visible
    ensures target == VisibilityType && r.Success? && r.value.value.vis != Visible ==>
      r.value.value.vis == HideMode(parameter).value
  {
    if target != VisibilityType then Success(Unset)
    else
      var mode := HideMode(parameter);
      if mode.Failure? then Failure(mode.error)
      else
        var given := if value.BoolValue? then value.b else inverted;
        var shown := if inverted then !given else given;
        Success(Out(VisibilityValue(if shown then Visible else mode.value)))
  }

  /** `ConvertBack`: Visible or not, inverted on request; a non-Visibility value gives false. */
  function ConvertBack(inverted: bool, value: Value, target: TargetType): (r: Output)
    ensures target != BoolType && target != NullableBoolType ==> r == Unset
    ensures (target == BoolType || target == NullableBoolType) && value.VisibilityValue? ==>
      r == Out(BoolValue((value.vis == Visible) != inverted))
    ensures (target == BoolType || target == NullableBoolType) && !value.VisibilityValue? ==>
      r == Out(BoolValue(false))
  {
    if target != BoolType && target != NullableBoolType then Unset
    else
      var ret := if value.VisibilityValue? then value.vis == Visible else inverted;
      Out(BoolValue(if inverted then !ret else ret))
  }

  /** Converting a bool and back gives the bool again, whatever the inversion and the allowed hide mode. */
  lemma ConvertRoundTrip(inverted: bool, b: bool, parameter: Value, back: TargetType)
    requires parameter != VisibilityValue(Visible)
    requires back == BoolType || back == NullableBoolType
    ensures Convert(inverted, BoolValue(b), VisibilityType, parameter).Success?
    ensures ConvertBack(inverted, Convert(inverted, BoolValue(b), VisibilityType, parameter).value.value, back)
            == Out(BoolValue(b))
  {
  }

  // ----- ChooseConverter -----

  /** What `ChooseConverter.Convert` does: picks an element, returns `Unset`, or never returns. */
  datatype Choice = Chosen(element: Value) | UnsetChoice | Diverges

  /**
   * The element under the enumerator after `moves` calls of `MoveNext`;
   * reading `Current` past the end throws, as the array enumerator does.
   */
  function CurrentAfter(items: seq<Value>, moves: nat): (r: Result<Choice, Exception>)
    requires moves >= 1
    ensures moves <= |items| <==> r.Success?
    ensures r.Success? ==> r.value == Chosen(items[moves - 1])
    ensures r.Failure? ==> r.error == InvalidOperation
  {
    if moves <= |items| then Success(Chosen(items[moves - 1])) else Failure(InvalidOperation)
  }

  /**
   * `ChooseConverter.Convert` as written: true, false and null choose the
   * first, second and third element; a negative integer and any other value
   * give `Unset`; zero chooses the first element, and a positive integer
   * never leaves the loop, which does not decrement it.
   */
  function Choose(value: Value, parameter: Value): (r: Result<Choice, Exception>)
    ensures !parameter.Sequence? ==> r == Failure(Argument)
    ensures parameter.Sequence? && (value.BoolValue? || value.Null? || value == IntValue(0)) ==>
      var k := if value == BoolValue(false) then 1 else if value.Null? then 2 else 0;
      && (r.Success? <==> k < |parameter.items|)
      && (r.Success? ==> r.value == Chosen(parameter.items[k]))
      && (r.Failure? ==> r.error == InvalidOperation)
    ensures parameter.Sequence? && value.IntValue? && value.i > 0 ==> r == Success(Diverges)
    ensures parameter.Sequence? && value.IntValue? && value.i < 0 ==> r == Success(UnsetChoice)
    ensures parameter.Sequence? && !(value.BoolValue? || value.Null? || value.IntValue?) ==> r == Success(UnsetChoice)
  {
    if !parameter.Sequence? then Failure(Argument)
    else
      var items := parameter.items;
      if value.BoolValue? then CurrentAfter(items, if value.b then 1 else 2)
      else if value.Null? then CurrentAfter(items, 3)
      else if value.IntValue? then
        if value.i < 0 then Success(UnsetChoice)
        else if value.i > 0 then Success(Diverges)
        else CurrentAfter(items, 1)
      else Success(UnsetChoice)
  }

  /** `Convert` as documented: an integer `idx` chooses element `idx`. */
  function ChooseCorrected(value: Value, parameter: Value): (r: Result<Choice, Exception>)
    ensures !parameter.Sequence? ==> r == Failure(Argument)
    ensures parameter.Sequence? && value.IntValue? && 0 <= value.i as int < |parameter.items| ==>
      r == Success(Chosen(parameter.items[value.i]))
    ensures r != Success(Diverges)
    ensures !(value.IntValue? && value.i > 0) ==> r == Choose(value, parameter)
  {
    if !parameter.Sequence? then Failure(Argument)
    else if value.IntValue? && value.i > 0 then CurrentAfter(parameter.items, value.i as int + 1)
    else Choose(value, parameter)
  }

  /** true, false and null choose the first three elements of a long enough sequence. */
  lemma ChooseFirstThree(a: Value, b: Value, c: Value)
    ensures Choose(BoolValue(true), Sequence([a, b, c])) == Success(Chosen(a))
    ensures Choose(BoolValue(false), Sequence([a, b, c])) == Success(Chosen(b))
    ensures Choose(Null, Sequence([a, b, c])) == Success(Chosen(c))
    ensures Choose(IntValue(0), Sequence([a, b, c])) == Success(Chosen(a))
  {
  }

  /** A sequence too short for the selector makes `Current` throw. */
  lemma ChooseShortSequence(a: Value, b: Value)
    ensures Choose(Null, Sequence([a, b])) == Failure(InvalidOperation)
    ensures Choose(BoolValue(false), Sequence([a])) == Failure(InvalidOperation)
    ensures Choose(BoolValue(true), Sequence([])) == Failure(InvalidOperation)
  {
  }

  /** Index 1 hangs the written converter, while the documented result is the second element. */
  lemma ChooseDivergesForPositiveIndex(a: Value, b: Value)
    ensures Choose(IntValue(1), Sequence([a, b])) == Success(Diverges)
    ensures ChooseCorrected(IntValue(1), Sequence([a, b])) == Success(Chosen(b))
  {
  }
}
