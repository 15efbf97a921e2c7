/** Services/WorkshopService.cs: CRUD and title search over the Workshops table. */
module WorkshopServices {

  import opened Wrappers
  import opened Time
  import opened Entities
  import opened ResponseDtos
  import opened Sorting
  import opened Queries
  import Text
  import Data
  import WorkshopCreateDtos
  import WorkshopUpdateDtos

  /** MapToResponseDto: the response shape of a workshop row. */
  function MapToResponseDto(entity: Workshop): (dto: WorkshopResponseDto)
  {
    WorkshopResponseDto(entity.id, entity.title, entity.date, entity.maxParticipants)
  }

  /** Two rows have the same response exactly when they differ at most in Description. */
  lemma {:induction false} MapToResponseDtoDropsDescription(a: Workshop, b: Workshop)
    ensures MapToResponseDto(a) == MapToResponseDto(b)
        <==> a.id == b.id && a.title == b.title && a.date == b.date && a.maxParticipants == b.maxParticipants
    ensures MapToResponseDto(a) == MapToResponseDto(b) <==> a.(description := b.description) == b
  {
  }

  /** The search filter of GetAllAsync: none for a null or blank term, otherwise
      the title must contain the trimmed term. */
  predicate MatchesSearch(title: string, search: Option<string>)
  {
    Text.IsNullOrWhiteSpace(search) || Text.Contains(title, Text.Trim(search.value))
  }

  /** A null or blank search filters nothing; a non-blank one keeps exactly the
      titles in which the trimmed term occurs. */
  lemma {:induction false} SearchSemantics(title: string, search: Option<string>)
    ensures Text.IsNullOrWhiteSpace(search) ==> MatchesSearch(title, search)
    ensures !Text.IsNullOrWhiteSpace(search) ==>
      (MatchesSearch(title, search) <==> exists i: nat :: Text.OccursAt(title, Text.Trim(search.value), i))
  {
    if search.Some? {
      Text.ContainsOccurs(title, Text.Trim(search.value));
    }
  }

  /** White space around the search term makes no difference. */
  lemma {:induction false} SearchTermIsTrimmed(title: string, term: string)
    ensures MatchesSearch(title, Some(term)) == MatchesSearch(title, Some(Text.Trim(term)))
  {
    var t := Text.Trim(term);
    Text.TrimIdempotent(term);
    Text.TrimSlice(term);
    Text.TrimSlice(t);
    assert Text.Trim(t) == t;
    assert Text.IsBlank(t) <==> Text.IsBlank(term) by {
      assert t == [] <==> Text.IsBlank(term);
      assert t == [] <==> Text.IsBlank(t);
    }
  }

  class WorkshopService {
    const db: Data.AppDbContext

    constructor (dbContext: Data.AppDbContext)
      ensures db == dbContext
    {
      db := dbContext;
    }

    /** GetAllAsync: the matching workshops, each once, ordered by date. */
    method GetAll(search: Option<string>) returns (r: seq<WorkshopResponseDto>)
      requires db.Valid()
      ensures forall i :: 0 <= i < |r| ==>
        && r[i].id in db.workshops
        && MatchesSearch(db.workshops[r[i].id].title, search)
        && r[i] == MapToResponseDto(db.workshops[r[i].id])
      ensures forall id :: id in db.workshops && MatchesSearch(db.workshops[id].title, search) ==>
        MapToResponseDto(db.workshops[id]) in r
      ensures forall i, j :: 0 <= i < j < |r| ==> r[i].id != r[j].id
      ensures forall i, j :: 0 <= i < j < |r| ==> r[i].date <= r[j].date
    {
      var ordered := SortedWhere(db.workshops, (w: Workshop) => MatchesSearch(w.title, search),
        (w: Workshop) => w.id, (w: Workshop) => w.date);
      r := seq(|ordered|, i requires 0 <= i < |ordered| => MapToResponseDto(ordered[i]));
      forall i | 0 <= i < |r|
        ensures r[i].id in db.workshops && db.workshops[r[i].id] == ordered[i]
      {
        assert ordered[i] in ordered;
      }
      forall id | id in db.workshops && MatchesSearch(db.workshops[id].title, search)
        ensures MapToResponseDto(db.workshops[id]) in r
      {
        var i :| 0 <= i < |ordered| && ordered[i] == db.workshops[id];
        assert r[i] == MapToResponseDto(db.workshops[id]);
      }
      forall i, j | 0 <= i < j < |r| ensures r[i].id != r[j].id && r[i].date <= r[j].date {
        assert ordered[i] != ordered[j];
      }
    }

    /** GetByIdAsync: the response for the row whose Id is id, if there is one. */
    method GetById(id: Guid) returns (r: Option<WorkshopResponseDto>)
      requires db.Valid()
      ensures r != None <==> exists k :: k in db.workshops && db.workshops[k].id == id
      ensures r != None ==> r.value == MapToResponseDto(db.workshops[id])
    {
      if id in db.workshops {
        r := Some(MapToResponseDto(db.workshops[id]));
      } else {
        r := None;
      }
    }

    /** CreateAsync: adds a row under the fresh id newId with trimmed texts. */
    method Create(createDto: WorkshopCreateDtos.WorkshopCreateDto, newId: Guid) returns (r: WorkshopResponseDto)
      requires db.Valid()
      requires createDto.title.Some? && createDto.description.Some?
      requires newId !in db.workshops
      modifies db
      ensures db.Valid()
      ensures db.workshops == old(db.workshops)[newId := Workshop(
        newId, Text.Trim(createDto.title.value), Text.Trim(createDto.description.value),
        createDto.date, createDto.maxParticipants)]
      ensures db.sessions == old(db.sessions)
      ensures r == MapToResponseDto(db.workshops[newId])
    {
      var entity := Workshop(
        newId, Text.Trim(createDto.title.value), Text.Trim(createDto.description.value),
        createDto.date, createDto.maxParticipants);
      db.workshops := db.workshops[newId := entity];
      r := MapToResponseDto(entity);
    }

    /** UpdateAsync: overwrites the four mutable fields of the row whose Id is id. */
    method Update(id: Guid, updateDto: WorkshopUpdateDtos.WorkshopUpdateDto) returns (r: Option<WorkshopResponseDto>)
      requires db.Valid()
      requires updateDto.title.Some? && updateDto.description.Some?
      modifies db
      ensures db.Valid()
      ensures r == None <==> !(exists k :: k in old(db.workshops) && old(db.workshops)[k].id == id)
      ensures r == None ==> db.workshops == old(db.workshops)
      ensures r != None ==> db.workshops == old(db.workshops)[id := old(db.workshops)[id].(
        title := Text.Trim(updateDto.title.value),
        description := Text.Trim(updateDto.description.value),
        date := updateDto.date,
        maxParticipants := updateDto.maxParticipants)]
      ensures r != None ==> r.value == MapToResponseDto(db.workshops[id])
      ensures db.sessions == old(db.sessions)
    {
      if id !in db.workshops {
        return None;
      }
      var entity := db.workshops[id];
      entity := entity.(title := Text.Trim(updateDto.title.value));
      entity := entity.(description := Text.Trim(updateDto.description.value));
      entity := entity.(date := updateDto.date);
      entity := entity.(maxParticipants := updateDto.maxParticipants);
      db.workshops := db.workshops[id := entity];
      r := Some(MapToResponseDto(entity));
    }

    /** DeleteAsync: removes the row whose Id is id, reporting whether there was one.
        What happens to that workshop's sessions is left to the database. */
    method Delete(id: Guid) returns (deleted: bool)
      requires db.Valid()
      modifies db
      ensures db.Valid()
      ensures deleted <==> exists k :: k in old(db.workshops) && old(db.workshops)[k].id == id
      ensures db.workshops == old(db.workshops) - {id}
      ensures !deleted ==> db.sessions == old(db.sessions)
    {
      if id !in db.workshops {
        return false;
      }
      db.workshops := db.workshops - {id};
      deleted := true;
    }
  }
}
