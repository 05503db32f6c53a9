/**
 * org/baracus/validation/builtins/StringIsNumericInteger.java: the validator that accepts a missing or blank value and
 * otherwise demands that Integer.parseInt accept the trimmed text.
 */
module OrgStringIsNumericInteger {
  import opened JavaLang
  import opened AndroidViews
  import NetStringUtil

  /** An exception viewToMessageParams may throw. */
  datatype ParamsError = IllegalArgumentException(message: string)

  /** getMessageId: R.string.notAIntegerField. */
  const MESSAGE_ID: MessageId := StringResource("notAIntegerField")

  /** validate: null and blank values pass; any other value passes iff its trimmed text parses as an int. */
  function Validate(value: Option<string>): (ok: bool)
    ensures value.None? ==> ok
    ensures value.Some? && Trim(value.value) == [] ==> ok
    ensures value.Some? && Trim(value.value) != [] ==> (ok <==> ParseInt(Trim(value.value)).Some?)
  {
    if value.Some? && Trim(value.value) != [] then ParseInt(Trim(value.value)).Some? else true
  }

  /** Every 32-bit int, written in decimal, is accepted. */
  lemma AcceptsEveryInt(n: int)
    requires IsInt32(n)
    ensures Validate(Some(IntToString(n)))
  {
    var s := IntToString(n);
    TrimUntrimmedEnds(s);
    ParseIntToString(n);
  }

  /** A decimal beyond Integer.MAX_VALUE is rejected: the 32-bit range is enforced. */
  lemma RejectsAboveIntRange(n: int)
    requires n > INT_MAX
    ensures !Validate(Some(IntToString(n)))
  {
    var s := IntToString(n);
    TrimUntrimmedEnds(s);
    NatToStringValue(n);
    assert IsDigit(s[0]);
  }

  /**
   * viewToMessageParams: null for a null view, IllegalArgumentException
   * naming the class for a view that is not a TextView, otherwise toArray
   * of the view's trimmed text.
   */
  function ViewToMessageParams(v: Option<View>): (r: Result<Option<seq<string>>, ParamsError>)
    ensures v.None? ==> r == Success(None)
    ensures v.Some? && !v.value.IsTextView() ==>
      r == Failure(IllegalArgumentException("Not the correct type. This validator requires a Text View but got " + v.value.className))
    ensures v.Some? && v.value.IsTextView() ==> r.Success? && r.value.Some?
    ensures v.Some? && v.value.IsTextView() ==>
      (r.value.value == [] <==> TextOf(v.value) == []) &&
      (r.value.value != [] ==> r.value.value == [TextOf(v.value)])
  {
    if v.None? then Success(None)
    else if !v.value.IsTextView() then
      Failure(IllegalArgumentException("Not the correct type. This validator requires a Text View but got " + v.value.className))
    else Success(Some(NetStringUtil.ToArray(Some(TextOf(v.value)))))
  }
}
