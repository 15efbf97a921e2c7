/** Dtos/WorkshopCreateDto.cs: the payload of a workshop creation and its declared rules. */
module WorkshopCreateDtos {

  import opened Wrappers
  import opened Time
  import opened Entities
  import opened Annotations
  import Text
  import FutureDate

  /** Title and Description can arrive as JSON null, hence Option. */
  datatype WorkshopCreateDto = WorkshopCreateDto(
    title: Option<string>,
    description: Option<string>,
    date: DateTime,
    maxParticipants: Int32)

  const MaxParticipantsMessage: string := "Max participants must be at least 1."

  /** The payload passes every declared rule against the clock reading now. */
  predicate Accepts(dto: WorkshopCreateDto, now: DateTime)
  {
    && dto.title.Some? && !Text.IsBlank(dto.title.value) && Text.Utf16Length(dto.title.value) >= 3
    && dto.description.Some? && !Text.IsBlank(dto.description.value)
    && dto.date >= DatePart(now)
    && dto.maxParticipants >= 1
  }

  /** Model validation: every failing rule, property by property in declaration order. */
  function Validate(dto: WorkshopCreateDto, now: DateTime): (r: seq<ValidationError>)
    ensures r == [] <==> Accepts(dto, now)
  {
    TitleErrors(dto) + DescriptionErrors(dto) + DateErrors(dto, now) + MaxParticipantsErrors(dto)
  }

  /** Title: [Required] and [MinLength(3)]. */
  function TitleErrors(dto: WorkshopCreateDto): (r: seq<ValidationError>)
    ensures forall e :: e in r ==> e.member == "Title"
    ensures r == [] <==> dto.title.Some? && !Text.IsBlank(dto.title.value) && Text.Utf16Length(dto.title.value) >= 3
  {
    RequiredMinLengthErrors("Title", dto.title, 3)
  }

  /** Description: [Required]. */
  function DescriptionErrors(dto: WorkshopCreateDto): (r: seq<ValidationError>)
    ensures forall e :: e in r ==> e.member == "Description"
    ensures r == [] <==> RequiredIsValid(dto.description)
  {
    Check("Description", RequiredIsValid(dto.description), RequiredMessage("Description"))
  }

  /** Date: [FutureDate]. */
  function DateErrors(dto: WorkshopCreateDto, now: DateTime): (r: seq<ValidationError>)
    ensures forall e :: e in r ==> e == ValidationError("Date", FutureDate.ErrorMessage)
    ensures r == [] <==> dto.date >= DatePart(now)
  {
    DatePartOrder(dto.date, now);
    FutureDate.Errors("Date", FutureDate.IsValid(FutureDate.BoxedDateTime(dto.date), now))
  }

  /** MaxParticipants: [Range(1, int.MaxValue)] with its own message. */
  function MaxParticipantsErrors(dto: WorkshopCreateDto): (r: seq<ValidationError>)
    ensures forall e :: e in r ==> e == ValidationError("MaxParticipants", MaxParticipantsMessage)
    ensures r == [] <==> dto.maxParticipants >= 1
  {
    Check("MaxParticipants", RangeIsValid(dto.maxParticipants, 1, Int32MaxValue), MaxParticipantsMessage)
  }

  /** Title fails when it is null or white space, or shorter than 3 UTF-16 code
      units before trimming. */
  lemma {:induction false} TitleRule(dto: WorkshopCreateDto, now: DateTime)
    ensures HasErrorFor(Validate(dto, now), "Title") <==> Text.IsNullOrWhiteSpace(dto.title) || Text.Utf16Length(dto.title.value) < 3
  {
    var t, d, x, m := TitleErrors(dto), DescriptionErrors(dto), DateErrors(dto, now), MaxParticipantsErrors(dto);
    HasErrorForConcat(t + d + x, m, "Title");
    HasErrorForConcat(t + d, x, "Title");
    HasErrorForConcat(t, d, "Title");
    HasErrorForOnly(t, "Title", "Title");
    HasErrorForOnly(d, "Description", "Title");
    HasErrorForOnly(x, "Date", "Title");
    HasErrorForOnly(m, "MaxParticipants", "Title");
  }

  /** Description fails exactly when it is null or white space. */
  lemma {:induction false} DescriptionRule(dto: WorkshopCreateDto, now: DateTime)
    ensures HasErrorFor(Validate(dto, now), "Description") <==> Text.IsNullOrWhiteSpace(dto.description)
  {
    var t, d, x, m := TitleErrors(dto), DescriptionErrors(dto), DateErrors(dto, now), MaxParticipantsErrors(dto);
    HasErrorForConcat(t + d + x, m, "Description");
    HasErrorForConcat(t + d, x, "Description");
    HasErrorForConcat(t, d, "Description");
    HasErrorForOnly(t, "Title", "Description");
    HasErrorForOnly(d, "Description", "Description");
    HasErrorForOnly(x, "Date", "Description");
    HasErrorForOnly(m, "MaxParticipants", "Description");
  }

  /** Date fails, with the attribute's message, exactly when it falls on a day before today. */
  lemma {:induction false} DateRule(dto: WorkshopCreateDto, now: DateTime)
    ensures ValidationError("Date", FutureDate.ErrorMessage) in Validate(dto, now) <==> DatePart(dto.date) < DatePart(now)
  {
    var e := ValidationError("Date", FutureDate.ErrorMessage);
    DatePartOrder(dto.date, now);
    assert e !in TitleErrors(dto) && e !in DescriptionErrors(dto) && e !in MaxParticipantsErrors(dto);
    assert e in DateErrors(dto, now) <==> DateErrors(dto, now) != [];
  }

  /** MaxParticipants fails, with its declared message, exactly when it is below 1. */
  lemma {:induction false} MaxParticipantsRule(dto: WorkshopCreateDto, now: DateTime)
    ensures ValidationError("MaxParticipants", MaxParticipantsMessage) in Validate(dto, now) <==> dto.maxParticipants < 1
  {
    var e := ValidationError("MaxParticipants", MaxParticipantsMessage);
    assert e !in TitleErrors(dto) && e !in DescriptionErrors(dto) && e !in DateErrors(dto, now);
    assert e in MaxParticipantsErrors(dto) <==> MaxParticipantsErrors(dto) != [];
  }

  /** An accepted payload has a title and a description that stay non-empty once trimmed. */
  lemma {:induction false} AcceptedTextsTrimToNonEmpty(dto: WorkshopCreateDto, now: DateTime)
    requires Validate(dto, now) == []
    ensures |Text.Trim(dto.title.value)| >= 1 && |Text.Trim(dto.description.value)| >= 1
  {
    Text.TrimNonBlank(dto.title);
    Text.TrimNonBlank(dto.description);
  }

  /** [MinLength(3)] measures the raw title: "  a" is accepted, yet trims to "a". */
  lemma RawTitleLengthCounts(now: DateTime)
    ensures Validate(WorkshopCreateDto(Some("  a"), Some("Body"), now, 1), now) == []
    ensures Text.Trim("  a") == "a"
  {
    Text.TrimStripsPadding("  ", "a", "");
    Text.Utf16LengthOfBasicPlane("  a");
    assert "  " + "a" + "" == "  a";
    assert !Text.IsWhiteSpace("  a"[2]) && !Text.IsWhiteSpace("Body"[0]);
    assert Accepts(WorkshopCreateDto(Some("  a"), Some("Body"), now, 1), now);
  }

  /** [MinLength(3)] counts UTF-16 code units: two characters outside the Basic
      Multilingual Plane, four code units, make a title long enough. */
  lemma {:induction false} SurrogatePairsCountTwice(c: char, d: char, now: DateTime)
    requires c >= '\U{10000}' && d >= '\U{10000}'
    ensures Text.Utf16Length([c, d]) == 4
    ensures Validate(WorkshopCreateDto(Some([c, d]), Some([d]), now, 1), now) == []
  {
    assert [c, d][1..] == [d] && [d][1..] == [];
    assert !Text.IsWhiteSpace([c, d][0]) && !Text.IsWhiteSpace([d][0]);
  }
}
