/**
 * net/mantucon/baracus/util/DateUtil.java and org/baracus/util/DateUtil.java:
 * the null-aware date comparator and the null branches of the format and
 * parse helpers, which the two trees write identically, so one module
 * models both. The calendar arithmetic and the text layouts of
 * SimpleDateFormat are given as functions.
 */
module DateUtil {
  import opened JavaLang

  /** java.util.Date, reduced to its getTime() milliseconds. */
  datatype Date = Date(time: int)

  /** A ParseException wrapped by the helper as DateFormatException. */
  datatype DateFormatException = DateFormatException

  /** DateComparator.compare: nulls first, otherwise Long.compareTo on getTime(). */
  function Compare(date: Option<Date>, date1: Option<Date>): (r: int)
    ensures date.None? && date1.None? ==> r == 0
    ensures date.Some? && date1.None? ==> r == 1
    ensures date.None? && date1.Some? ==> r == -1
    ensures date.Some? && date1.Some? ==> (r < 0 <==> date.value.time < date1.value.time)
    ensures date.Some? && date1.Some? ==> (r == 0 <==> date.value.time == date1.value.time)
    ensures -1 <= r <= 1
  {
    if date1.None? && date.None? then 0
    else if date1.None? then 1
    else if date.None? then -1
    else if date.value.time < date1.value.time then -1
    else if date.value.time == date1.value.time then 0
    else 1
  }

  /** The comparator is a total order: it is antisymmetric, transitive, and 0 exactly on equal dates. */
  lemma CompareIsTotalOrder(a: Option<Date>, b: Option<Date>, c: Option<Date>)
    ensures Compare(a, b) == -Compare(b, a)
    ensures Compare(a, b) == 0 <==> a == b
    ensures Compare(a, b) <= 0 && Compare(b, c) <= 0 ==> Compare(a, c) <= 0
  {
  }

  /** toEuropeanDate: "" for null, otherwise the "dd.MM.yyyy" rendering. */
  function ToEuropeanDate(date: Option<Date>, format: Date -> string): (r: string)
    ensures date.None? ==> r == ""
    ensures date.Some? ==> r == format(date.value)
  {
    if date.Some? then format(date.value) else ""
  }

  /** fromEuropeanDate: null for null, otherwise the "dd.MM.yyyy" parse, a parse error becoming DateFormatException. */
  function FromEuropeanDate(s: Option<string>, parse: string -> Option<Date>): (r: Result<Option<Date>, DateFormatException>)
    ensures s.None? ==> r == Success(None)
    ensures s.Some? ==> (r.Failure? <==> parse(s.value).None?)
    ensures s.Some? && r.Success? ==> r.value == parse(s.value)
  {
    if s.None? then Success(None)
    else if parse(s.value).None? then Failure(DateFormatException)
    else Success(parse(s.value))
  }

  /** toReverseDate: "" for null, otherwise the "yyyyMMdd_hhmmss" rendering. */
  function ToReverseDate(date: Option<Date>, format: Date -> string): (r: string)
    ensures date.None? ==> r == ""
    ensures date.Some? ==> r == format(date.value)
  {
    if date.Some? then format(date.value) else ""
  }
}
