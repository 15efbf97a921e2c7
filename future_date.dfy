/** Dtos/FutureDateAttribute.cs: a date must be today (UTC) or later, by calendar day. */
module FutureDate {

  import opened Wrappers
  import opened Time
  import opened Annotations

  /** The `object?` the attribute is handed: null, a boxed DateTime, or anything else. */
  datatype BoxedValue = Null | BoxedDateTime(dateTime: DateTime) | OtherObject

  const ErrorMessage: string := "Date must be today or in the future."

  /** IsValid: None is ValidationResult.Success, Some(message) a failure.
      `now` is the clock reading (DateTime.UtcNow) the check is made against. */
  function IsValid(value: BoxedValue, now: DateTime): (r: Option<string>)
    ensures value.Null? ==> r == None
    ensures value.OtherObject? ==> r == Some(ErrorMessage)
    ensures value.BoxedDateTime? ==> (r == None <==> value.dateTime >= DatePart(now))
    ensures r != None ==> r == Some(ErrorMessage)
  {
    match value
    case Null => None
    case BoxedDateTime(date) =>
      DatePartOrder(date, now);
      if DatePart(date) >= DatePart(now) then None else Some(ErrorMessage)
    case OtherObject => Some(ErrorMessage)
  }

  /** The error the attribute contributes for member, from IsValid's result. */
  function Errors(member: string, result: Option<string>): (r: seq<ValidationError>)
    ensures result == None ==> r == []
    ensures result != None ==> r == [ValidationError(member, result.value)]
  {
    match result
    case None => []
    case Some(message) => [ValidationError(member, message)]
  }

  /** Any time of today passes, however early. */
  lemma {:induction false} AnyTimeTodayIsValid(date: DateTime, now: DateTime)
    requires DatePart(date) == DatePart(now)
    ensures IsValid(BoxedDateTime(date), now) == None
  {
    assert date >= DatePart(date);
  }

  /** Any time of an earlier day fails, however late. */
  lemma {:induction false} EarlierDayIsInvalid(date: DateTime, now: DateTime)
    requires DatePart(date) < DatePart(now)
    ensures IsValid(BoxedDateTime(date), now) == Some(ErrorMessage)
  {
    DatePartOrder(date, now);
  }

  /** Validity is monotone: a later date than a valid one is valid. */
  lemma {:induction false} ValidIsMonotone(date: DateTime, later: DateTime, now: DateTime)
    requires IsValid(BoxedDateTime(date), now) == None && date <= later
    ensures IsValid(BoxedDateTime(later), now) == None
  {
  }

  /** A rejected date is rejected at every later clock reading too. */
  lemma {:induction false} RejectionIsPermanent(date: DateTime, now: DateTime, later: DateTime)
    requires IsValid(BoxedDateTime(date), now) != None && now <= later
    ensures IsValid(BoxedDateTime(date), later) != None
  {
    MidnightBeforeIsAtMostDatePart(DatePart(now), later);
  }
}
