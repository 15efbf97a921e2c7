/** The shapes returned to clients. */
module ResponseDtos {

  import opened Time
  import opened Entities

  /** Dtos/WorkshopResponseDto.cs: a workshop without its description. */
  datatype WorkshopResponseDto = WorkshopResponseDto(
    id: Guid,
    title: string,
    date: DateTime,
    maxParticipants: Int32)

  /** Dtos/SessionResponseDto.cs. */
  datatype SessionResponseDto = SessionResponseDto(
    id: Guid,
    workshopId: Guid,
    title: string,
    startTime: DateTime,
    endTime: DateTime)
}
