/**
 * net/mantucon/baracus/validation/ValidationFactory.java: the registry of
 * named validators and the form validation walk. A view tree is walked in
 * pre-order; each ConstrainedView is checked against the validators its
 * comma-separated list names, the first failing one reports an error to the
 * ErrorHandlingFactory bean against the root view, and the walk descends
 * into every non-null child of a ViewGroup.
 */
module NetValidationFactory {
  import opened JavaLang
  import opened AndroidViews
  import NetStringUtil
  import NetValidator
  import NetStringNotEmpty
  import NetStringIsNumericInteger
  import opened NetErrorHandlingFactory

  type Validator = NetValidator.Validator

  /** The exceptions the registry and the walk can throw. */
  datatype ValidationError =
    | InvalidValidatorNameException(validatorName: string)
    | IllegalArgumentException(message: string)
    | NullPointerException
    | StringIndexOutOfBounds

  /** A reported violation: the view and the validator that rejected it. */
  type Violation = (View, Validator)

  /** The validator names of a list, as splitPurified(list, ",") gives them. */
  function ValidatorNames(list: Option<string>): Option<seq<string>>
  {
    NetStringUtil.Purified(list, ',')
  }

  /** A name rejects the value when a validator is registered under it and its validate fails; unknown names are skipped. */
  predicate Fails(name: string, registry: map<string, Validator>, value: Option<string>)
  {
    name in registry && !registry[name].validate(value)
  }

  /** The position of the first name in the list that rejects the value, if any. */
  function FirstFailing(names: seq<string>, registry: map<string, Validator>, value: Option<string>): (r: Option<nat>)
    ensures r.Some? ==> r.value < |names| && Fails(names[r.value], registry, value)
    ensures r.Some? ==> forall j :: 0 <= j < r.value ==> !Fails(names[j], registry, value)
    ensures r.None? <==> forall j :: 0 <= j < |names| ==> !Fails(names[j], registry, value)
  {
    if names == [] then None
    else if Fails(names[0], registry, value) then Some(0)
    else
      match FirstFailing(names[1..], registry, value)
      case None => None
      case Some(k) => Some(k + 1)
  }

  /** A violation is a validator that genuinely rejected the view's current value. */
  predicate Genuine(x: Violation)
  {
    x.0.IsConstrained() && !x.1.validate(x.0.constraint.value.currentValue)
  }

  /** Every violation in the list is genuine. */
  predicate AllGenuine(vs: seq<Violation>)
  {
    forall k :: 0 <= k < |vs| ==> Genuine(vs[k])
  }

  lemma AllGenuineConcat(a: seq<Violation>, b: seq<Violation>)
    requires AllGenuine(a) && AllGenuine(b)
    ensures AllGenuine(a + b)
  {
    forall k | 0 <= k < |a + b|
      ensures Genuine((a + b)[k])
    {
      if k >= |a| {
        assert (a + b)[k] == b[k - |a|];
      }
    }
  }

  /** The validator names of a ConstrainedView, as splitPurified gives them; none for a null or empty list. */
  function NamesOf(v: View): seq<string>
    requires v.IsConstrained()
  {
    var names := ValidatorNames(v.constraint.value.validators);
    if names.Some? then names.value else []
  }

  /** The violation a single ConstrainedView reports: at most one, from the first failing validator of its list. */
  function OwnViolations(v: View, registry: map<string, Validator>): seq<Violation>
  {
    if !v.IsConstrained() then [] else FirstViolation(v, NamesOf(v), registry, v.constraint.value.currentValue)
  }

  /** The violation v reports for the given names and value: the validator of the first name that rejects it, if any. */
  function FirstViolation(v: View, names: seq<string>, registry: map<string, Validator>, value: Option<string>): seq<Violation>
  {
    match FirstFailing(names, registry, value)
    case None => []
    case Some(k) => [(v, registry[names[k]])]
  }

  /**
   * A view reports at most one violation, and one exactly when it is
   * constrained and some validator of its list rejects the value; the
   * violation names the view itself and is genuine.
   */
  lemma OwnViolationsSpec(v: View, registry: map<string, Validator>)
    ensures |OwnViolations(v, registry)| <= 1
    ensures |OwnViolations(v, registry)| == 1 <==>
      v.IsConstrained() && exists j :: 0 <= j < |NamesOf(v)| && Fails(NamesOf(v)[j], registry, v.constraint.value.currentValue)
    ensures |OwnViolations(v, registry)| == 1 ==> OwnViolations(v, registry)[0].0 == v && Genuine(OwnViolations(v, registry)[0])
  {
    if v.IsConstrained() {
      var f := FirstFailing(NamesOf(v), registry, v.constraint.value.currentValue);
      if f.Some? {
        assert Fails(NamesOf(v)[f.value], registry, v.constraint.value.currentValue);
      }
    }
  }

  /** When the name at position k is the first to reject the value, the view reports exactly that validator. */
  lemma OwnViolationsAt(v: View, registry: map<string, Validator>, k: nat)
    requires v.IsConstrained() && k < |NamesOf(v)|
    requires Fails(NamesOf(v)[k], registry, v.constraint.value.currentValue)
    requires forall j :: 0 <= j < k ==> !Fails(NamesOf(v)[j], registry, v.constraint.value.currentValue)
    ensures OwnViolations(v, registry) == [(v, registry[NamesOf(v)[k]])]
  {
    var f := FirstFailing(NamesOf(v), registry, v.constraint.value.currentValue);
    assert f == Some(k);
  }

  /** The violations of a whole tree, in the order the walk reports them: the view itself, then its children in index order. */
  function Violations(v: View, registry: map<string, Validator>): seq<Violation>
    decreases v, 1
  {
    OwnViolations(v, registry) + if v.IsViewGroup() then ChildrenFrom(v, 0, registry) else []
  }

  /** The violations of the child slots from index i on; empty slots are skipped. */
  function ChildrenFrom(parent: View, i: nat, registry: map<string, Validator>): seq<Violation>
    requires i <= |parent.children|
    decreases parent, 0, |parent.children| - i
  {
    if i == |parent.children| then []
    else
      var kid := parent.children[i];
      (if kid.Some? then Violations(kid.value, registry) else []) + ChildrenFrom(parent, i + 1, registry)
  }

  /** Every violation the walk reports is genuine: its view is constrained and the validator rejected its current value. */
  lemma {:induction false} ViolationsAreGenuine(v: View, registry: map<string, Validator>)
    ensures AllGenuine(Violations(v, registry))
    decreases v, 1
  {
    OwnViolationsSpec(v, registry);
    if v.IsViewGroup() {
      ChildrenAreGenuine(v, 0, registry);
      AllGenuineConcat(OwnViolations(v, registry), ChildrenFrom(v, 0, registry));
    } else {
      AllGenuineConcat(OwnViolations(v, registry), []);
    }
  }

  lemma {:induction false} ChildrenAreGenuine(parent: View, i: nat, registry: map<string, Validator>)
    requires i <= |parent.children|
    ensures AllGenuine(ChildrenFrom(parent, i, registry))
    decreases parent, 0, |parent.children| - i
  {
    if i < |parent.children| {
      var kid := parent.children[i];
      ChildrenAreGenuine(parent, i + 1, registry);
      if kid.Some? {
        ViolationsAreGenuine(kid.value, registry);
        AllGenuineConcat(Violations(kid.value, registry), ChildrenFrom(parent, i + 1, registry));
      } else {
        AllGenuineConcat([], ChildrenFrom(parent, i + 1, registry));
      }
    }
  }

  /**
   * The effect of reporting the violations in order: each one asks its
   * validator for the message parameters of the view (an
   * IllegalArgumentException there ends the walk), then calls
   * addErrorToView on the factory (a missing factory ends it with a
   * NullPointerException). The result is the exception, if any, and the
   * resulting error table.
   */
  function Record(errors: ErrorMap, handlers: map<int, CustomErrorHandler>, root: View, vs: seq<Violation>, present: bool)
    : (r: (Option<ValidationError>, ErrorMap))
    ensures vs == [] ==> r == (None, errors)
    decreases |vs|
  {
    if vs == [] then (None, errors)
    else
      var params := vs[0].1.messageParams(Some(vs[0].0));
      if params.Failure? then (Some(IllegalArgumentException(params.error.message)), errors)
      else if !present then (Some(NullPointerException), errors)
      else
        var next := WithError(errors, handlers, root, vs[0].0.id, vs[0].1.messageId, ERROR, params.value);
        Record(next, handlers, root, vs[1..], present)
  }

  /** Reporting two runs of violations in turn is reporting their concatenation, unless the first run threw. */
  lemma {:induction false} RecordAppend(errors: ErrorMap, handlers: map<int, CustomErrorHandler>, root: View,
                                        vs1: seq<Violation>, vs2: seq<Violation>, present: bool)
    ensures Record(errors, handlers, root, vs1 + vs2, present) ==
      var first := Record(errors, handlers, root, vs1, present);
      if first.0.Some? then first else Record(first.1, handlers, root, vs2, present)
    decreases |vs1|
  {
    if vs1 == [] {
      assert vs1 + vs2 == vs2;
    } else {
      assert (vs1 + vs2)[0] == vs1[0];
      assert (vs1 + vs2)[1..] == vs1[1..] + vs2;
      var params := vs1[0].1.messageParams(Some(vs1[0].0));
      if params.Success? && present {
        var next := WithError(errors, handlers, root, vs1[0].0.id, vs1[0].1.messageId, ERROR, params.value);
        RecordAppend(next, handlers, root, vs1[1..], vs2, present);
      }
    }
  }

  /** Validation only ever writes the root's table: every other container's errors are kept. */
  lemma {:induction false} RecordTouchesOnlyRoot(errors: ErrorMap, handlers: map<int, CustomErrorHandler>, root: View,
                                                 vs: seq<Violation>, present: bool)
    ensures Record(errors, handlers, root, vs, present).1.Keys <= errors.Keys + {root}
    ensures forall w :: w in errors && w != root ==> w in Record(errors, handlers, root, vs, present).1 &&
                                                     Record(errors, handlers, root, vs, present).1[w] == errors[w]
    decreases |vs|
  {
    if vs != [] {
      var params := vs[0].1.messageParams(Some(vs[0].0));
      if params.Success? && present {
        var next := WithError(errors, handlers, root, vs[0].0.id, vs[0].1.messageId, ERROR, params.value);
        RecordTouchesOnlyRoot(next, handlers, root, vs[1..], present);
      }
    }
  }

  /** A walk that found a violation and did not throw leaves the root with errors, so viewHasErrors(root) holds. */
  lemma {:induction false} RecordMarksRoot(errors: ErrorMap, handlers: map<int, CustomErrorHandler>, root: View,
                                           vs: seq<Violation>, present: bool)
    requires vs != [] && Record(errors, handlers, root, vs, present).0.None?
    ensures HasErrors(Record(errors, handlers, root, vs, present).1, root)
    decreases |vs|
  {
    var params := vs[0].1.messageParams(Some(vs[0].0));
    var next := WithError(errors, handlers, root, vs[0].0.id, vs[0].1.messageId, ERROR, params.value);
    WithErrorHasErrors(errors, handlers, root, vs[0].0.id, vs[0].1.messageId, ERROR, params.value, root);
    if vs[1..] != [] {
      RecordMarksRoot(next, handlers, root, vs[1..], present);
    }
  }

  /** Without a factory bean, the first violation whose parameters can be computed ends the walk with a NullPointerException. */
  lemma NoFactoryThrows(errors: ErrorMap, handlers: map<int, CustomErrorHandler>, root: View, vs: seq<Violation>)
    requires vs != [] && vs[0].1.messageParams(Some(vs[0].0)).Success?
    ensures Record(errors, handlers, root, vs, false) == (Some(NullPointerException), errors)
  {
  }

  /** On a ConstrainedView that is not a ViewGroup, exactly the first failing validator of its list is reported. */
  lemma LeafFirstFailingWins(v: View, registry: map<string, Validator>, k: nat)
    requires v.IsConstrained() && !v.IsViewGroup() && k < |NamesOf(v)|
    requires Fails(NamesOf(v)[k], registry, v.constraint.value.currentValue)
    requires forall j :: 0 <= j < k ==> !Fails(NamesOf(v)[j], registry, v.constraint.value.currentValue)
    ensures Violations(v, registry) == [(v, registry[NamesOf(v)[k]])]
  {
    OwnViolationsAt(v, registry, k);
    assert Violations(v, registry) == OwnViolations(v, registry) + [];
  }

  /** A ConstrainedView whose every named validator accepts the value (or is unknown) reports nothing. */
  lemma AllAcceptingReportsNothing(v: View, registry: map<string, Validator>)
    requires v.IsConstrained()
    requires forall j :: 0 <= j < |NamesOf(v)| ==> !Fails(NamesOf(v)[j], registry, v.constraint.value.currentValue)
    ensures OwnViolations(v, registry) == []
  {
  }

  /** Once a run of violations throws, whatever follows it is never reported. */
  /** One non-null child slot of the walk: its own record, then the remaining slots unless it threw. */
  lemma ChildStep(errors: ErrorMap, after: ErrorMap, handlers: map<int, CustomErrorHandler>, root: View,
                  v: View, i: nat, registry: map<string, Validator>, present: bool, thrown: Option<ValidationError>)
    requires i < |v.children| && v.children[i].Some?
    requires (thrown, after) == Record(errors, handlers, root, Violations(v.children[i].value, registry), present)
    ensures thrown.Some? ==> Record(errors, handlers, root, ChildrenFrom(v, i, registry), present) == (thrown, after)
    ensures thrown.None? ==>
      Record(after, handlers, root, ChildrenFrom(v, i + 1, registry), present) == Record(errors, handlers, root, ChildrenFrom(v, i, registry), present)
  {
    assert ChildrenFrom(v, i, registry) == Violations(v.children[i].value, registry) + ChildrenFrom(v, i + 1, registry);
    RecordAppend(errors, handlers, root, Violations(v.children[i].value, registry), ChildrenFrom(v, i + 1, registry), present);
  }

  lemma {:induction false} RecordStopsAtThrow(errors: ErrorMap, handlers: map<int, CustomErrorHandler>, root: View,
                                              vs1: seq<Violation>, vs2: seq<Violation>, present: bool)
    requires Record(errors, handlers, root, vs1, present).0.Some?
    ensures Record(errors, handlers, root, vs1 + vs2, present) == Record(errors, handlers, root, vs1, present)
  {
    RecordAppend(errors, handlers, root, vs1, vs2, present);
  }

  /** verifyValidators splits without trimming: a list with a blank after the comma names " b", not "b". */
  lemma VerifyDoesNotTrim(registry: map<string, Validator>)
    requires "a" in registry && "b" in registry && " b" !in registry
    ensures Split("a, b", ',') == ["a", " b"] && Split("a, b", ',')[1] !in registry
    ensures ValidatorNames(Some("a, b")).value[1] == "b"
  {
    NetStringUtil.SplitPurifiedExample();
    NetStringUtil.PurifiedPieces(Some("a, b"), ',');
  }

  /** firstByteToLower yields a name that differs from the simple name only in its lower-cased first character. */
  lemma FirstLowered(name: string, lowered: string)
    requires |name| > 0 && |lowered| == |name| && lowered[0] == ToLowerAscii(name[0])
    requires forall i :: 1 <= i < |name| ==> lowered[i] == name[i]
    ensures NetStringUtil.FirstByteToLower(name) == Success(lowered)
  {
    assert lowered == [ToLowerAscii(name[0])] + name[1..];
  }

  /** The names postConstruct registers the five built-in validators under. */
  lemma BuiltinNamesLowered()
    ensures NetStringUtil.FirstByteToLower("StringNotEmpty") == Success("stringNotEmpty")
    ensures NetStringUtil.FirstByteToLower("StringIsNumericDouble") == Success("stringIsNumericDouble")
    ensures NetStringUtil.FirstByteToLower("StringIsNumericInteger") == Success("stringIsNumericInteger")
    ensures NetStringUtil.FirstByteToLower("NumberMustBeGreaterThanZero") == Success("numberMustBeGreaterThanZero")
    ensures NetStringUtil.FirstByteToLower("DateFromNow") == Success("dateFromNow")
  {
    FirstLowered("StringNotEmpty", "stringNotEmpty");
    FirstLowered("StringIsNumericDouble", "stringIsNumericDouble");
    FirstLowered("StringIsNumericInteger", "stringIsNumericInteger");
    FirstLowered("NumberMustBeGreaterThanZero", "numberMustBeGreaterThanZero");
    FirstLowered("DateFromNow", "dateFromNow");
  }

  /** The validation bean. The registry is static in the source; here it is a field of the one bean instance. */
  class ValidationFactory {
    var namedValidators: map<string, Validator>
    /** The injected ErrorHandlingFactory bean; null until injection. */
    var errorHandlingFactory: ErrorHandlingFactory?

    constructor()
      ensures namedValidators == map[] && errorHandlingFactory == null
    {
      namedValidators := map[];
      errorHandlingFactory := null;
    }

    /** The error table of the injected factory; empty without one. */
    ghost function Errors(): ErrorMap
      reads this, errorHandlingFactory
    {
      if errorHandlingFactory != null then errorHandlingFactory.errorMap else map[]
    }

    ghost function Handlers(): map<int, CustomErrorHandler>
      reads this, errorHandlingFactory
    {
      if errorHandlingFactory != null then errorHandlingFactory.registeredHandlers else map[]
    }

    /** registerValidator(name, validator): a later registration under the same name replaces the earlier one. */
    method RegisterValidator(name: string, validator: Validator)
      modifies this`namedValidators
      ensures namedValidators == old(namedValidators)[name := validator]
    {
      namedValidators := namedValidators[name := validator];
    }

    /** registerValidator(validator): the name is the simple class name with its first character lower-cased. */
    method RegisterValidatorByClass(validator: Validator) returns (thrown: Option<ValidationError>)
      modifies this`namedValidators
      ensures thrown.Some? <==> validator.simpleName == []
      ensures thrown.Some? ==> thrown.value == StringIndexOutOfBounds && namedValidators == old(namedValidators)
      ensures thrown.None? ==>
        namedValidators == old(namedValidators)[[ToLowerAscii(validator.simpleName[0])] + validator.simpleName[1..] := validator]
    {
      var name := NetStringUtil.FirstByteToLower(validator.simpleName);
      if name.Failure? {
        return Some(StringIndexOutOfBounds);
      }
      namedValidators := namedValidators[name.value := validator];
      return None;
    }

    /**
     * verifyValidators: a null or blank list passes; otherwise every piece
     * of list.split(","), untrimmed, must be a registered name, and the
     * first that is not is thrown.
     */
    method VerifyValidators(list: Option<string>) returns (thrown: Option<ValidationError>, ghost at: nat)
      ensures thrown.None? <==>
        list.None? || Trim(list.value) == [] ||
        forall i :: 0 <= i < |Split(list.value, ',')| ==> Split(list.value, ',')[i] in namedValidators
      ensures thrown.Some? ==>
        list.Some? && at < |Split(list.value, ',')| &&
        thrown.value == InvalidValidatorNameException(Split(list.value, ',')[at]) &&
        Split(list.value, ',')[at] !in namedValidators &&
        forall j :: 0 <= j < at ==> Split(list.value, ',')[j] in namedValidators
    {
      at := 0;
      if list.None? || |Trim(list.value)| == 0 {
        return None, 0;
      }
      var validators := Split(list.value, ',');
      var i := 0;
      while i < |validators|
        invariant 0 <= i <= |validators|
        invariant forall j :: 0 <= j < i ==> validators[j] in namedValidators
      {
        if validators[i] !in namedValidators {
          return Some(InvalidValidatorNameException(validators[i])), i;
        }
        i := i + 1;
      }
      return None, 0;
    }

    /** The injected factory, as a frame: empty before injection. */
    ghost function Factory(): set<ErrorHandlingFactory>
      reads this
    {
      if errorHandlingFactory != null then {errorHandlingFactory} else {}
    }

    /**
     * Reporting one violation: viewToMessageParams(v) is evaluated first
     * (its IllegalArgumentException propagates), then addErrorToView is
     * called on the factory field, which throws NullPointerException when
     * it was never injected.
     */
    method Report(root: View, v: View, validator: Validator) returns (thrown: Option<ValidationError>)
      modifies Factory()`errorMap
      ensures var r := Record(old(Errors()), Handlers(), root, [(v, validator)], errorHandlingFactory != null);
              thrown == r.0 && Errors() == r.1
    {
      var params := validator.messageParams(Some(v));
      if params.Failure? {
        return Some(IllegalArgumentException(params.error.message));
      }
      if errorHandlingFactory == null {
        return Some(NullPointerException);
      }
      errorHandlingFactory.AddErrorToView(root, v.id, validator.messageId, ERROR, params.value);
      thrown := None;
    }

    /**
     * The constrained part of validateView(root, v): the validator list is
     * split and trimmed, and a null or empty result checks nothing.
     */
    method ValidateOwn(root: View, v: View) returns (thrown: Option<ValidationError>)
      requires v.IsConstrained()
      modifies Factory()`errorMap
      ensures var r := Record(old(Errors()), Handlers(), root, OwnViolations(v, namedValidators), errorHandlingFactory != null);
              thrown == r.0 && Errors() == r.1
    {
      var cv := v.constraint.value;
      var validators := NetStringUtil.SplitPurified(cv.validators, ',');
      assert validators.Some? ==> NamesOf(v) == validators.value;
      if validators.Some? && |validators.value| > 0 {
        thrown := ValidateNames(root, v, validators.value, cv.currentValue);
      } else {
        thrown := None;
        assert NamesOf(v) == [];
      }
    }

    /**
     * The while loop of validateView(root, v): the names are taken in order
     * until one is registered and its validator rejects the value; that
     * one reports its error against the root and the loop stops. Unknown
     * names are skipped.
     */
    method ValidateNames(root: View, v: View, names: seq<string>, value: Option<string>) returns (thrown: Option<ValidationError>)
      requires |names| > 0
      modifies Factory()`errorMap
      ensures var r := Record(old(Errors()), Handlers(), root, FirstViolation(v, names, namedValidators, value), errorHandlingFactory != null);
              thrown == r.0 && Errors() == r.1
    {
      thrown := None;
      ghost var start := Errors();
      ghost var outcome := Record(start, Handlers(), root, FirstViolation(v, names, namedValidators, value), errorHandlingFactory != null);
      var stop := false;
      var i := 0;
      while !stop
        invariant 0 <= i <= |names| && (!stop ==> i < |names|)
        invariant !stop ==> forall j :: 0 <= j < i ==> !Fails(names[j], namedValidators, value)
        invariant !stop ==> Errors() == start
        invariant thrown.None?
        invariant stop ==> outcome.0.None? && Errors() == outcome.1
        decreases |names| - i
      {
        var validatorName := names[i];
        i := i + 1;
        if validatorName in namedValidators && !namedValidators[validatorName].validate(value) {
          var validator := namedValidators[validatorName];
          assert FirstFailing(names, namedValidators, value) == Some(i - 1);
          assert FirstViolation(v, names, namedValidators, value) == [(v, validator)];
          ghost var handlers := Handlers();
          thrown := Report(root, v, validator);
          assert Handlers() == handlers;
          if thrown.Some? {
            return;
          }
          stop := true;
        } else if i >= |names| {
          assert FirstFailing(names, namedValidators, value).None?;
          assert FirstViolation(v, names, namedValidators, value) == [];
        }
        stop := stop || i >= |names|;
      }
    }

    /**
     * validateView(root, v): the view's own check, then every non-null
     * child in index order; the first exception ends the whole walk.
     */
    method ValidateViewFrom(root: View, v: View) returns (thrown: Option<ValidationError>)
      modifies Factory()`errorMap
      ensures var r := Record(old(Errors()), Handlers(), root, Violations(v, namedValidators), errorHandlingFactory != null);
              thrown == r.0 && Errors() == r.1
      decreases v, 2
    {
      ghost var start := Errors();
      ghost var rest := if v.IsViewGroup() then ChildrenFrom(v, 0, namedValidators) else [];
      thrown := None;
      if v.IsConstrained() {
        thrown := ValidateOwn(root, v);
        if thrown.Some? {
          RecordStopsAtThrow(start, Handlers(), root, OwnViolations(v, namedValidators), rest, errorHandlingFactory != null);
          return;
        }
      }
      ghost var mid := Errors();
      if v.IsViewGroup() {
        thrown := ValidateChildren(root, v);
      }
      RecordAppend(start, Handlers(), root, OwnViolations(v, namedValidators), rest, errorHandlingFactory != null);
    }

    /** The ViewGroup part of validateView(root, v): each non-null child slot in index order. */
    method ValidateChildren(root: View, v: View) returns (thrown: Option<ValidationError>)
      modifies Factory()`errorMap
      ensures var r := Record(old(Errors()), Handlers(), root, ChildrenFrom(v, 0, namedValidators), errorHandlingFactory != null);
              thrown == r.0 && Errors() == r.1
      decreases v, 1
    {
      ghost var goal := Record(Errors(), Handlers(), root, ChildrenFrom(v, 0, namedValidators), errorHandlingFactory != null);
      var i := 0;
      thrown := None;
      while i < |v.children|
        invariant 0 <= i <= |v.children|
        invariant thrown.None?
        invariant Record(Errors(), Handlers(), root, ChildrenFrom(v, i, namedValidators), errorHandlingFactory != null) == goal
      {
        thrown := ValidateSlot(root, v, i);
        if thrown.Some? {
          return;
        }
        i := i + 1;
      }
    }

    /** One child slot of the walk: a null slot is skipped, a view is validated in full. */
    method ValidateSlot(root: View, v: View, i: nat) returns (thrown: Option<ValidationError>)
      requires i < |v.children|
      modifies Factory()`errorMap
      ensures var r := Record(old(Errors()), Handlers(), root, ChildrenFrom(v, i, namedValidators), errorHandlingFactory != null);
              if thrown.Some? then r == (thrown, Errors())
              else Record(Errors(), Handlers(), root, ChildrenFrom(v, i + 1, namedValidators), errorHandlingFactory != null) == r
      decreases v, 0
    {
      var nextChild := v.children[i];
      thrown := None;
      if nextChild.Some? {
        ghost var before := Errors();
        thrown := ValidateViewFrom(root, nextChild.value);
        ChildStep(before, Errors(), Handlers(), root, v, i, namedValidators, errorHandlingFactory != null, thrown);
      } else {
        assert ChildrenFrom(v, i, namedValidators) == ChildrenFrom(v, i + 1, namedValidators);
      }
    }

    /** validateView(v): the walk with v as its own root. */
    method ValidateView(v: View) returns (thrown: Option<ValidationError>)
      modifies Factory()`errorMap
      ensures var r := Record(old(Errors()), Handlers(), v, Violations(v, namedValidators), errorHandlingFactory != null);
              thrown == r.0 && Errors() == r.1
      ensures thrown.None? && Violations(v, namedValidators) != [] ==> HasErrors(Errors(), v)
      ensures forall w :: w in old(Errors()) && w != v ==> w in Errors() && Errors()[w] == old(Errors())[w]
    {
      thrown := ValidateViewFrom(v, v);
      RecordTouchesOnlyRoot(old(Errors()), Handlers(), v, Violations(v, namedValidators), errorHandlingFactory != null);
      if thrown.None? && Violations(v, namedValidators) != [] {
        RecordMarksRoot(old(Errors()), Handlers(), v, Violations(v, namedValidators), errorHandlingFactory != null);
      }
    }

    /**
     * postConstruct: the five built-in validators are registered by class,
     * under their simple names with the first letter lower-cased.
     * StringIsNumericDouble, NumberMustBeGreaterThanZero and DateFromNow
     * are not part of this model and are passed in.
     */
    method PostConstruct(numericDouble: Validator, greaterThanZero: Validator, dateFromNow: Validator)
      requires numericDouble.simpleName == "StringIsNumericDouble"
      requires greaterThanZero.simpleName == "NumberMustBeGreaterThanZero"
      requires dateFromNow.simpleName == "DateFromNow"
      modifies this`namedValidators
      ensures namedValidators == old(namedValidators)
        ["stringNotEmpty" := NetStringNotEmpty.Instance]
        ["stringIsNumericDouble" := numericDouble]
        ["stringIsNumericInteger" := NetStringIsNumericInteger.Instance]
        ["numberMustBeGreaterThanZero" := greaterThanZero]
        ["dateFromNow" := dateFromNow]
    {
      BuiltinNamesLowered();
      RegisterBuiltin(NetStringNotEmpty.Instance, "stringNotEmpty");
      RegisterBuiltin(numericDouble, "stringIsNumericDouble");
      RegisterBuiltin(NetStringIsNumericInteger.Instance, "stringIsNumericInteger");
      RegisterBuiltin(greaterThanZero, "numberMustBeGreaterThanZero");
      RegisterBuiltin(dateFromNow, "dateFromNow");
    }

    /** One registration of postConstruct: a validator whose lowered simple name is known. */
    method RegisterBuiltin(validator: Validator, name: string)
      requires NetStringUtil.FirstByteToLower(validator.simpleName) == Success(name)
      modifies this`namedValidators
      ensures namedValidators == old(namedValidators)[name := validator]
    {
      var thrown := RegisterValidatorByClass(validator);
    }

    /** onDestroy: the registry is cleared. */
    method OnDestroy()
      modifies this`namedValidators
      ensures namedValidators == map[]
    {
      namedValidators := map[];
    }
  }
}
