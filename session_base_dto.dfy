/**
 * Dtos/SessionBaseDto.cs: the payload shared by session creation and update,
 * with the Title rules and the cross-field time checks of Validate.
 */
module SessionDtos {

  import opened Wrappers
  import opened Time
  import opened Annotations
  import Text

  /** Title can arrive as JSON null, hence Option. */
  datatype SessionBaseDto = SessionBaseDto(
    title: Option<string>,
    startTime: DateTime,
    endTime: DateTime)

  /** SessionCreateDto and SessionUpdateDto add nothing to the base class. */
  type SessionCreateDto = SessionBaseDto
  type SessionUpdateDto = SessionBaseDto

  const StartTimeError: ValidationError := ValidationError("StartTime", "Start time must be in the future.")
  const EndTimeError: ValidationError := ValidationError("EndTime", "End time must be after the start time.")

  /** IValidatableObject.Validate against the clock reading now: two independent
      checks, the start-time one first. */
  function Validate(dto: SessionBaseDto, now: DateTime): (r: seq<ValidationError>)
    ensures StartTimeError in r <==> dto.startTime < now
    ensures EndTimeError in r <==> dto.endTime <= dto.startTime
    ensures forall e :: e in r ==> e == StartTimeError || e == EndTimeError
    ensures dto.startTime < now && dto.endTime <= dto.startTime ==> r == [StartTimeError, EndTimeError]
    ensures dto.startTime < now && dto.startTime < dto.endTime ==> r == [StartTimeError]
    ensures now <= dto.startTime && dto.endTime <= dto.startTime ==> r == [EndTimeError]
    ensures r == [] <==> now <= dto.startTime < dto.endTime
  {
    (if dto.startTime < now then [StartTimeError] else [])
      + (if dto.endTime <= dto.startTime then [EndTimeError] else [])
  }

  /** The property attributes: [Required] [MinLength(3)] on Title. The [Required]
      on StartTime and EndTime cannot fail, a DateTime is never null. */
  function PropertyErrors(dto: SessionBaseDto): (r: seq<ValidationError>)
    ensures r == [] <==> dto.title.Some? && !Text.IsBlank(dto.title.value) && Text.Utf16Length(dto.title.value) >= 3
    ensures forall e :: e in r ==> e.member == "Title"
  {
    RequiredMinLengthErrors("Title", dto.title, 3)
  }

  /** Model validation of a session payload: the property attributes first;
      Validate runs only when they all pass. */
  function ValidateModel(dto: SessionBaseDto, now: DateTime): (r: seq<ValidationError>)
    ensures r == [] <==> && dto.title.Some? && !Text.IsBlank(dto.title.value) && Text.Utf16Length(dto.title.value) >= 3
                         && now <= dto.startTime < dto.endTime
    ensures HasErrorFor(r, "Title") ==> r == PropertyErrors(dto)
    ensures PropertyErrors(dto) == [] ==> r == Validate(dto, now)
  {
    var properties := PropertyErrors(dto);
    if properties != [] then properties else Validate(dto, now)
  }

  /** A start time equal to the clock reading is accepted: the check is
      "not earlier than now", not "strictly later". */
  lemma StartAtNowIsAccepted(dto: SessionBaseDto, now: DateTime)
    requires dto.startTime == now < dto.endTime
    ensures Validate(dto, now) == []
  {
  }

  /** An accepted payload describes a session that starts no earlier than now
      and ends after it starts. */
  lemma {:induction false} AcceptedSessionIsChronological(dto: SessionBaseDto, now: DateTime)
    requires ValidateModel(dto, now) == []
    ensures now <= dto.startTime < dto.endTime
    ensures |Text.Trim(dto.title.value)| >= 1
  {
    Text.TrimNonBlank(dto.title);
  }
}
