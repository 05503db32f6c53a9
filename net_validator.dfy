/**
 * The net Validator contract as a value: a validator is its simple class
 * name, its validate predicate on a ConstrainedView's current value, the
 * message id it reports and its viewToMessageParams. Validator.java is a
 * declaration without behaviour; this record stands in for its
 * implementations.
 */
module NetValidator {
  import opened JavaLang
  import opened AndroidViews

  /** An exception viewToMessageParams may throw. */
  datatype ParamsError = IllegalArgumentException(message: string)

  datatype Validator = Validator(
    simpleName: string,
    validate: Option<string> -> bool,
    messageId: MessageId,
    messageParams: Option<View> -> Result<Option<seq<string>>, ParamsError>)

  /** AbstractValidator.viewToMessageParams: always null. */
  function NoParams(v: Option<View>): (r: Result<Option<seq<string>>, ParamsError>)
    ensures r == Success(None)
  {
    Success(None)
  }
}
