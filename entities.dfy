/** The two persisted records: a workshop and one of its sessions. */
module Entities {

  import opened Time

  /** System.Guid: a 128-bit identifier. */
  newtype Guid = x: int | 0 <= x < 0x1_0000_0000_0000_0000_0000_0000_0000_0000

  /** C#'s int. */
  type Int32 = x: int | -0x8000_0000 <= x < 0x8000_0000

  const Int32MaxValue: Int32 := 0x7FFF_FFFF

  /** Entities/Workshop.cs. The Sessions navigation collection is not a column of
      the row; a workshop's sessions are the session rows carrying its id. */
  datatype Workshop = Workshop(
    id: Guid,
    title: string,
    description: string,
    date: DateTime,
    maxParticipants: Int32)

  /** Entities/Session.cs, with the foreign key to its workshop. */
  datatype Session = Session(
    id: Guid,
    title: string,
    startTime: DateTime,
    endTime: DateTime,
    workshopId: Guid)
}
