/**
 * net/mantucon/baracus/errorhandling/ErrorHandlingFactory.java: the error
 * bookkeeping behind form validation. Errors are kept per container view as
 * a table from the id of the field that shows the error to the stored
 * values [messageId, severity, params...]; custom error handlers are kept
 * by the id they display for, standard handlers as a set. Only the table
 * effects are modelled; the widget calls that show or clear an error are
 * not.
 */
module NetErrorHandlingFactory {
  import opened JavaLang
  import opened AndroidViews

  /** An ErrorSeverity constant, named as in the enum (ErrorSeverity.java is not part of this model). */
  datatype ErrorSeverity = ErrorSeverity(name: string)

  const ERROR: ErrorSeverity := ErrorSeverity("ERROR")

  /** An element of a stored Object[]: the message id, the severity, or one parameter text. */
  datatype ErrorValue = MessageValue(id: MessageId) | SeverityValue(severity: ErrorSeverity) | ParamValue(text: string)

  /** A CustomErrorHandler as the factory sees it: its own view id and the id of the field it displays for. */
  datatype CustomErrorHandler = CustomErrorHandler(id: int, idToDisplayFor: int)

  /** A StandardErrorHandler object: the TextEditErrorHandlers postConstruct creates, or one registered from outside. */
  datatype StandardErrorHandler = TextEditErrorHandler(instance: nat) | OtherStandardHandler(instance: nat)

  type ErrorMap = map<View, map<int, seq<ErrorValue>>>

  /** The values addErrorToView stores: the message id, the severity, then the parameters in order. */
  function StoredValues(messageId: MessageId, severity: ErrorSeverity, params: Option<seq<string>>): (r: seq<ErrorValue>)
    ensures |r| == 2 + (if params.Some? then |params.value| else 0)
    ensures r[0] == MessageValue(messageId) && r[1] == SeverityValue(severity)
    ensures forall i :: 2 <= i < |r| ==> r[i] == ParamValue(params.value[i - 2])
  {
    var ps := if params.Some? then params.value else [];
    [MessageValue(messageId), SeverityValue(severity)] + seq(|ps|, i requires 0 <= i < |ps| => ParamValue(ps[i]))
  }

  /** The key an error for `affected` is stored under: the id of the custom handler registered for it, else `affected`. */
  function ErrorKey(handlers: map<int, CustomErrorHandler>, affected: int): (k: int)
    ensures affected in handlers ==> k == handlers[affected].id
    ensures affected !in handlers ==> k == affected
  {
    if affected in handlers then handlers[affected].id else affected
  }

  /** The errors stored for a container; none when it has no table. */
  function ErrorsOf(errorMap: ErrorMap, container: View): map<int, seq<ErrorValue>>
  {
    if container in errorMap then errorMap[container] else map[]
  }

  /** The error table after addErrorToView: the container's table gains (or replaces) one entry; no other container changes. */
  function WithError(errorMap: ErrorMap, handlers: map<int, CustomErrorHandler>, container: View, affected: int,
                     messageId: MessageId, severity: ErrorSeverity, params: Option<seq<string>>): (r: ErrorMap)
    ensures r.Keys == errorMap.Keys + {container}
    ensures r[container] == ErrorsOf(errorMap, container)[ErrorKey(handlers, affected) := StoredValues(messageId, severity, params)]
    ensures forall w :: w in errorMap && w != container ==> r[w] == errorMap[w]
  {
    errorMap[container := ErrorsOf(errorMap, container)[ErrorKey(handlers, affected) := StoredValues(messageId, severity, params)]]
  }

  /** Creating the container's table on first use and then putting into it is WithError. */
  lemma PutIsWithError(errorMap: ErrorMap, created: ErrorMap, handlers: map<int, CustomErrorHandler>, container: View, affected: int,
                       messageId: MessageId, severity: ErrorSeverity, params: Option<seq<string>>)
    requires created == if container in errorMap then errorMap else errorMap[container := map[]]
    ensures container in created
    ensures created[container := created[container][ErrorKey(handlers, affected) := StoredValues(messageId, severity, params)]]
            == WithError(errorMap, handlers, container, affected, messageId, severity, params)
  {
  }

  /** viewHasErrors: the view has a table with at least one entry. */
  predicate HasErrors(errorMap: ErrorMap, v: View)
  {
    v in errorMap && |errorMap[v]| > 0
  }

  /** After addErrorToView the container has errors, and whether any other view has errors is unchanged. */
  lemma WithErrorHasErrors(errorMap: ErrorMap, handlers: map<int, CustomErrorHandler>, container: View, affected: int,
                           messageId: MessageId, severity: ErrorSeverity, params: Option<seq<string>>, w: View)
    ensures HasErrors(WithError(errorMap, handlers, container, affected, messageId, severity, params), container)
    ensures w != container ==>
      (HasErrors(WithError(errorMap, handlers, container, affected, messageId, severity, params), w) <==> HasErrors(errorMap, w))
  {
    var r := WithError(errorMap, handlers, container, affected, messageId, severity, params);
    assert ErrorKey(handlers, affected) in r[container];
  }

  /** A later error for the same field replaces the earlier one: only the last values remain. */
  lemma LaterErrorReplaces(errorMap: ErrorMap, handlers: map<int, CustomErrorHandler>, container: View, affected: int,
                           m1: MessageId, s1: ErrorSeverity, p1: Option<seq<string>>,
                           m2: MessageId, s2: ErrorSeverity, p2: Option<seq<string>>)
    ensures var once := WithError(errorMap, handlers, container, affected, m1, s1, p1);
            var twice := WithError(once, handlers, container, affected, m2, s2, p2);
            twice == WithError(errorMap, handlers, container, affected, m2, s2, p2)
  {
    var once := WithError(errorMap, handlers, container, affected, m1, s1, p1);
    var k := ErrorKey(handlers, affected);
    assert ErrorsOf(once, container)[k := StoredValues(m2, s2, p2)] == ErrorsOf(errorMap, container)[k := StoredValues(m2, s2, p2)];
  }

  /** The Object[] addErrorToView fills: length |params| + 2 (2 for null params), filled by index. */
  method StoredArray(messageId: MessageId, severity: ErrorSeverity, params: Option<seq<string>>) returns (values: array<ErrorValue>)
    ensures fresh(values)
    ensures values[..] == StoredValues(messageId, severity, params)
  {
    values := new ErrorValue[if params.Some? then |params.value| + 2 else 2](_ => MessageValue(messageId));
    values[0] := MessageValue(messageId);
    values[1] := SeverityValue(severity);
    if params.Some? && |params.value| > 0 {
      var ps := params.value;
      var i := 2;
      while i < values.Length
        invariant 2 <= i <= values.Length
        invariant values[0] == MessageValue(messageId) && values[1] == SeverityValue(severity)
        invariant forall k :: 2 <= k < i ==> values[k] == ParamValue(ps[k - 2])
      {
        values[i] := ParamValue(ps[i - 2]);
        i := i + 1;
      }
    }
  }

  /** The factory bean's state. */
  class ErrorHandlingFactory {
    var errorMap: ErrorMap
    var registeredHandlers: map<int, CustomErrorHandler>
    var standardHandlers: set<StandardErrorHandler>
    /** How many TextEditErrorHandlers postConstruct has created; they are numbered from 0. */
    var createdHandlers: nat

    /** Every TextEditErrorHandler in the set is one postConstruct created. */
    ghost predicate Valid()
      reads this
    {
      forall h :: h in standardHandlers && h.TextEditErrorHandler? ==> h.instance < createdHandlers
    }

    constructor()
      ensures Valid()
      ensures errorMap == map[] && registeredHandlers == map[] && standardHandlers == {} && createdHandlers == 0
    {
      errorMap := map[];
      registeredHandlers := map[];
      standardHandlers := {};
      createdHandlers := 0;
    }

    /**
     * addErrorToView: the container's table is created on first use; the
     * values array, of length |params| + 2 (2 for null params), is filled
     * by index and stored under the custom handler's id when one is
     * registered for affectedResource, else under affectedResource.
     */
    method AddErrorToView(container: View, affectedResource: int, messageId: MessageId, severity: ErrorSeverity,
                          params: Option<seq<string>>)
      modifies this`errorMap
      ensures errorMap == WithError(old(errorMap), registeredHandlers, container, affectedResource, messageId, severity, params)
      ensures HasErrors(errorMap, container)
    {
      if container !in errorMap {
        errorMap := errorMap[container := map[]];
      }
      var assignment := errorMap[container];
      var values := StoredArray(messageId, severity, params);
      var id := -1;
      if affectedResource in registeredHandlers {
        id := registeredHandlers[affectedResource].id;
      } else {
        id := affectedResource;
      }
      PutIsWithError(old(errorMap), errorMap, registeredHandlers, container, affectedResource, messageId, severity, params);
      errorMap := errorMap[container := assignment[id := values[..]]];
      WithErrorHasErrors(old(errorMap), registeredHandlers, container, affectedResource, messageId, severity, params, container);
    }

    /** viewHasErrors */
    function ViewHasErrors(v: View): (r: bool)
      reads this
      ensures r <==> HasErrors(errorMap, v)
      ensures r ==> v in errorMap && errorMap[v] != map[]
    {
      if v in errorMap then |errorMap[v]| > 0 else false
    }

    /** resetErrors: a known container's table is replaced by an empty one; an unknown container is left alone. */
    method ResetErrors(container: View)
      modifies this`errorMap
      ensures errorMap == if container in old(errorMap) then old(errorMap)[container := map[]] else old(errorMap)
      ensures !HasErrors(errorMap, container)
      ensures forall w :: w != container ==> (HasErrors(errorMap, w) <==> HasErrors(old(errorMap), w))
    {
      if container in errorMap {
        errorMap := errorMap[container := map[]];
      }
    }

    /** registerCustomErrorHandler: keyed by the id it displays for, replacing an earlier one; -1 is ignored. */
    method RegisterCustomErrorHandler(h: CustomErrorHandler)
      modifies this`registeredHandlers
      ensures registeredHandlers == if h.idToDisplayFor == -1 then old(registeredHandlers)
                                    else old(registeredHandlers)[h.idToDisplayFor := h]
    {
      if h.idToDisplayFor != -1 {
        registeredHandlers := registeredHandlers[h.idToDisplayFor := h];
      }
    }

    /** unregisterCustomErrorHandlersForView: only that container's errors go. */
    method UnregisterCustomErrorHandlersForView(container: View)
      modifies this`errorMap
      ensures errorMap == old(errorMap) - {container}
    {
      errorMap := errorMap - {container};
    }

    /** registerStandardErrorHandler */
    method RegisterStandardErrorHandler(h: StandardErrorHandler)
      requires Valid() && (h.TextEditErrorHandler? ==> h.instance < createdHandlers)
      modifies this`standardHandlers
      ensures Valid() && standardHandlers == old(standardHandlers) + {h}
    {
      standardHandlers := standardHandlers + {h};
    }

    /** onDestroy: the three tables are emptied. */
    method OnDestroy()
      modifies this`registeredHandlers, this`standardHandlers, this`errorMap
      ensures Valid()
      ensures registeredHandlers == map[] && standardHandlers == {} && errorMap == map[]
    {
      registeredHandlers := map[];
      standardHandlers := {};
      errorMap := map[];
    }

    /** postConstruct: a new TextEditErrorHandler joins the standard handlers, so the set grows by one. */
    method PostConstruct()
      requires Valid()
      modifies this`standardHandlers, this`createdHandlers
      ensures Valid() && createdHandlers == old(createdHandlers) + 1
      ensures standardHandlers == old(standardHandlers) + {TextEditErrorHandler(old(createdHandlers))}
      ensures |standardHandlers| == |old(standardHandlers)| + 1
    {
      var h := TextEditErrorHandler(createdHandlers);
      assert h !in standardHandlers;
      createdHandlers := createdHandlers + 1;
      RegisterStandardErrorHandler(h);
    }
  }
}
