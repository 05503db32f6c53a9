/**
 * The slice of the Android view system the validation and error code
 * touches, as values: a view has an id and a runtime class name, may be a
 * TextView (with its text), a ConstrainedView (with its validator list and
 * current value) and a ViewGroup (with its child slots, which may be
 * empty). String resources are named by their R.string identifier.
 */
module AndroidViews {
  import opened JavaLang

  /** An R.string resource, named as in the generated R class (the numeric value is the build's). */
  datatype MessageId = StringResource(name: string)

  /** The ConstrainedView interface: a comma-separated validator list and the current value. */
  datatype Constraint = Constraint(validators: Option<string>, currentValue: Option<string>)

  /** A view; `children` holds a ViewGroup's child slots and is ignored for any other view. */
  datatype View = View(
    id: int,
    className: string,
    textView: Option<string>,
    constraint: Option<Constraint>,
    viewGroup: bool,
    children: seq<Option<View>>)
  {
    predicate IsTextView() { textView.Some? }
    predicate IsConstrained() { constraint.Some? }
    predicate IsViewGroup() { viewGroup }
  }

  /** StringUtil.getString(TextView): the view's text, trimmed. */
  function TextOf(v: View): (s: string)
    requires v.IsTextView()
    ensures s == Trim(v.textView.value)
  {
    Trim(v.textView.value)
  }
}
