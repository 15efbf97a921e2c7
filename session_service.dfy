/** Services/SessionService.cs: CRUD over the Sessions table, scoped to a workshop. */
module SessionServices {

  import opened Wrappers
  import opened Time
  import opened Entities
  import opened ResponseDtos
  import opened Sorting
  import opened Queries
  import Text
  import Data
  import SessionDtos

  /** MapToResponseDto: the response shape of a session row, every column copied. */
  function MapToResponseDto(entity: Session): (dto: SessionResponseDto)
  {
    SessionResponseDto(entity.id, entity.workshopId, entity.title, entity.startTime, entity.endTime)
  }

  /** The session response loses nothing: the row can be read back from it. */
  lemma {:induction false} MapToResponseDtoIsInjective(a: Session, b: Session)
    ensures MapToResponseDto(a) == MapToResponseDto(b) <==> a == b
  {
  }

  class SessionService {
    const db: Data.AppDbContext

    constructor (dbContext: Data.AppDbContext)
      ensures db == dbContext
    {
      db := dbContext;
    }

    /** Some row of the Workshops table has Id workshopId (the query's Any). */
    ghost predicate HasWorkshop(workshopId: Guid)
      reads db
    {
      exists k :: k in db.workshops && db.workshops[k].id == workshopId
    }

    /** Some row of the Sessions table has both WorkshopId workshopId and Id sessionId. */
    ghost predicate HasSession(workshopId: Guid, sessionId: Guid)
      reads db
    {
      exists k :: k in db.sessions && db.sessions[k].workshopId == workshopId && db.sessions[k].id == sessionId
    }

    /** WorkshopExists: the parent-existence check. */
    function WorkshopExists(workshopId: Guid): (b: bool)
      requires db.Valid()
      reads db
      ensures b <==> HasWorkshop(workshopId)
    {
      assert workshopId in db.workshops ==> db.workshops[workshopId].id == workshopId;
      workshopId in db.workshops
    }

    /** GetAllAsync: None when the workshop does not exist; otherwise its sessions,
        each once, ordered by start time. */
    method GetAll(workshopId: Guid) returns (r: Option<seq<SessionResponseDto>>)
      requires db.Valid()
      ensures r == None <==> !HasWorkshop(workshopId)
      ensures r != None ==> forall i :: 0 <= i < |r.value| ==>
        && r.value[i].id in db.sessions
        && db.sessions[r.value[i].id].workshopId == workshopId
        && r.value[i] == MapToResponseDto(db.sessions[r.value[i].id])
      ensures r != None ==> forall id :: id in db.sessions && db.sessions[id].workshopId == workshopId ==>
        MapToResponseDto(db.sessions[id]) in r.value
      ensures r != None ==> forall i, j :: 0 <= i < j < |r.value| ==> r.value[i].id != r.value[j].id
      ensures r != None ==> forall i, j :: 0 <= i < j < |r.value| ==> r.value[i].startTime <= r.value[j].startTime
    {
      if !WorkshopExists(workshopId) {
        return None;
      }
      var ordered := SortedWhere(db.sessions, (s: Session) => s.workshopId == workshopId,
        (s: Session) => s.id, (s: Session) => s.startTime);
      var dtos := seq(|ordered|, i requires 0 <= i < |ordered| => MapToResponseDto(ordered[i]));
      forall i | 0 <= i < |dtos|
        ensures dtos[i].id in db.sessions && db.sessions[dtos[i].id] == ordered[i]
      {
        assert ordered[i] in ordered;
      }
      forall id | id in db.sessions && db.sessions[id].workshopId == workshopId
        ensures MapToResponseDto(db.sessions[id]) in dtos
      {
        var i :| 0 <= i < |ordered| && ordered[i] == db.sessions[id];
        assert dtos[i] == MapToResponseDto(db.sessions[id]);
      }
      forall i, j | 0 <= i < j < |dtos| ensures dtos[i].id != dtos[j].id && dtos[i].startTime <= dtos[j].startTime {
        assert ordered[i] != ordered[j];
      }
      r := Some(dtos);
    }

    /** GetByIdAsync: the session matching the compound key, whether or not the
        workshop itself still exists. */
    method GetById(workshopId: Guid, sessionId: Guid) returns (r: Option<SessionResponseDto>)
      requires db.Valid()
      ensures r != None <==> HasSession(workshopId, sessionId)
      ensures r != None ==> r.value == MapToResponseDto(db.sessions[sessionId])
    {
      if sessionId in db.sessions && db.sessions[sessionId].workshopId == workshopId {
        r := Some(MapToResponseDto(db.sessions[sessionId]));
      } else {
        r := None;
      }
    }

    /** CreateAsync: None, and no new row, when the workshop does not exist;
        otherwise a row under the fresh id newId, attached to the workshop. */
    method Create(workshopId: Guid, createDto: SessionDtos.SessionCreateDto, newId: Guid)
      returns (r: Option<SessionResponseDto>)
      requires db.Valid()
      requires createDto.title.Some?
      requires newId !in db.sessions
      modifies db
      ensures db.Valid()
      ensures db.workshops == old(db.workshops)
      ensures r == None <==> !old(HasWorkshop(workshopId))
      ensures r == None ==> db.sessions == old(db.sessions)
      ensures r != None ==> db.sessions == old(db.sessions)[newId := Session(
        newId, Text.Trim(createDto.title.value), createDto.startTime, createDto.endTime, workshopId)]
      ensures r != None ==> r.value == MapToResponseDto(db.sessions[newId]) && r.value.workshopId == workshopId
    {
      if !WorkshopExists(workshopId) {
        return None;
      }
      var entity := Session(newId, Text.Trim(createDto.title.value), createDto.startTime, createDto.endTime, workshopId);
      db.sessions := db.sessions[newId := entity];
      r := Some(MapToResponseDto(entity));
    }

    /** UpdateAsync: overwrites Title, StartTime and EndTime of the session
        matching the compound key; Id and WorkshopId stay. */
    method Update(workshopId: Guid, sessionId: Guid, updateDto: SessionDtos.SessionUpdateDto)
      returns (r: Option<SessionResponseDto>)
      requires db.Valid()
      requires updateDto.title.Some?
      modifies db
      ensures db.Valid()
      ensures db.workshops == old(db.workshops)
      ensures r == None <==> !old(HasSession(workshopId, sessionId))
      ensures r == None ==> db.sessions == old(db.sessions)
      ensures r != None ==> db.sessions == old(db.sessions)[sessionId := old(db.sessions)[sessionId].(
        title := Text.Trim(updateDto.title.value),
        startTime := updateDto.startTime,
        endTime := updateDto.endTime)]
      ensures r != None ==> r.value == MapToResponseDto(db.sessions[sessionId])
    {
      if !(sessionId in db.sessions && db.sessions[sessionId].workshopId == workshopId) {
        return None;
      }
      var entity := db.sessions[sessionId];
      entity := entity.(title := Text.Trim(updateDto.title.value));
      entity := entity.(startTime := updateDto.startTime);
      entity := entity.(endTime := updateDto.endTime);
      db.sessions := db.sessions[sessionId := entity];
      r := Some(MapToResponseDto(entity));
    }

    /** DeleteAsync: removes the session matching the compound key, reporting
        whether there was one. */
    method Delete(workshopId: Guid, sessionId: Guid) returns (deleted: bool)
      requires db.Valid()
      modifies db
      ensures db.Valid()
      ensures db.workshops == old(db.workshops)
      ensures deleted <==> old(HasSession(workshopId, sessionId))
      ensures deleted ==> db.sessions == old(db.sessions) - {sessionId}
      ensures !deleted ==> db.sessions == old(db.sessions)
    {
      if !(sessionId in db.sessions && db.sessions[sessionId].workshopId == workshopId) {
        return false;
      }
      db.sessions := db.sessions - {sessionId};
      deleted := true;
    }
  }
}
