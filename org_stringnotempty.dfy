/**
 * org/baracus/validation/builtins/StringNotEmpty.java: the validator that rejects a missing or blank value.
 */
module OrgStringNotEmpty {
  import opened JavaLang
  import opened AndroidViews

  /** getMessageId: R.string.notNullField. */
  const MESSAGE_ID: MessageId := StringResource("notNullField")

  /** validate: false for null and for a value that trims to "", true otherwise. */
  function Validate(value: Option<string>): (ok: bool)
    ensures ok <==> value.Some? && exists i :: 0 <= i < |value.value| && !IsTrimmable(value.value[i])
  {
    if value.Some? then TrimEmptyIff(value.value); Trim(value.value) != [] else false
  }
}
