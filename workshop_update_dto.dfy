/**
 * Dtos/WorkshopUpdateDto.cs: the payload of a workshop update. It declares its
 * own four properties and attributes; SameVerdictAsCreate shows they are the
 * rules of the creation payload.
 */
module WorkshopUpdateDtos {

  import opened Wrappers
  import opened Time
  import opened Entities
  import opened Annotations
  import Text
  import FutureDate
  import WorkshopCreateDtos

  /** Title and Description can arrive as JSON null, hence Option. */
  datatype WorkshopUpdateDto = WorkshopUpdateDto(
    title: Option<string>,
    description: Option<string>,
    date: DateTime,
    maxParticipants: Int32)

  /** The creation payload carrying the same fields. */
  function AsCreateDto(dto: WorkshopUpdateDto): (c: WorkshopCreateDtos.WorkshopCreateDto)
    ensures c.title == dto.title && c.description == dto.description
    ensures c.date == dto.date && c.maxParticipants == dto.maxParticipants
  {
    WorkshopCreateDtos.WorkshopCreateDto(dto.title, dto.description, dto.date, dto.maxParticipants)
  }

  /** The Range message this class declares for itself. */
  const MaxParticipantsMessage: string := "Max participants must be at least 1."

  /** Model validation of an update payload, from this class's own attributes:
      every failing rule, property by property in declaration order. The payload
      is accepted exactly when its title is present, not blank and at least 3
      UTF-16 code units long, its description is present and not blank, its date
      is not on an earlier day than now, and at least one participant is allowed. */
  function Validate(dto: WorkshopUpdateDto, now: DateTime): (r: seq<ValidationError>)
    ensures r == [] <==>
      && dto.title.Some? && !Text.IsBlank(dto.title.value) && Text.Utf16Length(dto.title.value) >= 3
      && dto.description.Some? && !Text.IsBlank(dto.description.value)
      && DatePart(dto.date) >= DatePart(now)
      && dto.maxParticipants >= 1
    ensures HasErrorFor(r, "Title") <==> Text.IsNullOrWhiteSpace(dto.title) || Text.Utf16Length(dto.title.value) < 3
    ensures HasErrorFor(r, "Description") <==> Text.IsNullOrWhiteSpace(dto.description)
    ensures ValidationError("Date", FutureDate.ErrorMessage) in r <==> DatePart(dto.date) < DatePart(now)
    ensures ValidationError("MaxParticipants", MaxParticipantsMessage) in r <==> dto.maxParticipants < 1
  {
    var r := RequiredMinLengthErrors("Title", dto.title, 3)
      + Check("Description", RequiredIsValid(dto.description), RequiredMessage("Description"))
      + FutureDate.Errors("Date", FutureDate.IsValid(FutureDate.BoxedDateTime(dto.date), now))
      + Check("MaxParticipants", RangeIsValid(dto.maxParticipants, 1, Int32MaxValue), MaxParticipantsMessage);
    var c := AsCreateDto(dto);
    assert r == WorkshopCreateDtos.Validate(c, now);
    DatePartOrder(dto.date, now);
    WorkshopCreateDtos.TitleRule(c, now);
    WorkshopCreateDtos.DescriptionRule(c, now);
    WorkshopCreateDtos.DateRule(c, now);
    WorkshopCreateDtos.MaxParticipantsRule(c, now);
    r
  }

  /** The two payload classes declare their rules separately; they agree: an
      update payload meets the errors the same fields meet on creation, so it is
      accepted exactly when the creation payload would be. */
  lemma {:induction false} SameVerdictAsCreate(dto: WorkshopUpdateDto, now: DateTime)
    ensures Validate(dto, now) == WorkshopCreateDtos.Validate(AsCreateDto(dto), now)
    ensures Validate(dto, now) == [] <==> WorkshopCreateDtos.Accepts(AsCreateDto(dto), now)
  {
    var c := AsCreateDto(dto);
    assert MaxParticipantsMessage == WorkshopCreateDtos.MaxParticipantsMessage;
    assert WorkshopCreateDtos.Validate(c, now)
      == WorkshopCreateDtos.TitleErrors(c) + WorkshopCreateDtos.DescriptionErrors(c)
         + WorkshopCreateDtos.DateErrors(c, now) + WorkshopCreateDtos.MaxParticipantsErrors(c);
  }
}
