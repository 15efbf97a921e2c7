/**
 * Client code over the services, generalising the repository's own service
 * tests: each method states with assertions what a caller can conclude from
 * the operations' contracts alone.
 */
module Scenarios {

  import opened Wrappers
  import opened Time
  import opened Entities
  import Text
  import Data
  import WorkshopCreateDtos
  import SessionDtos
  import WorkshopServices
  import SessionServices

  /** Creating a workshop whose texts carry white-space padding stores and
      returns them without it. */
  method CreateStoresTrimmedTexts(pre: string, title: string, post: string, description: string, date: DateTime, id: Guid)
    requires Text.IsBlank(pre) && Text.IsBlank(post)
    requires title != [] && !Text.IsWhiteSpace(title[0]) && !Text.IsWhiteSpace(title[|title| - 1])
    requires description != [] && !Text.IsWhiteSpace(description[0]) && !Text.IsWhiteSpace(description[|description| - 1])
  {
    var db := new Data.AppDbContext();
    var service := new WorkshopServices.WorkshopService(db);
    Text.TrimStripsPadding(pre, title, post);
    Text.TrimStripsPadding(pre, description, post);
    var created := service.Create(
      WorkshopCreateDtos.WorkshopCreateDto(Some(pre + title + post), Some(pre + description + post), date, 10), id);
    assert created.title == title;
    assert db.workshops[created.id].title == title;
    assert db.workshops[created.id].description == description;
  }

  /** Of two stored workshops, a search term found in the first title only
      lists the first alone. */
  method SearchFiltersByTitle(term: string, first: Workshop, second: Workshop)
    requires !Text.IsBlank(term) && Text.Trim(term) == term
    requires Text.Contains(first.title, term) && !Text.Contains(second.title, term)
    requires first.id != second.id
  {
    var db := new Data.AppDbContext();
    db.workshops := map[first.id := first, second.id := second];
    var service := new WorkshopServices.WorkshopService(db);
    assert db.workshops[first.id] == first && db.workshops[second.id] == second;
    assert WorkshopServices.MatchesSearch(first.title, Some(term));
    assert !WorkshopServices.MatchesSearch(second.title, Some(term));

    var found := service.GetAll(Some(term));
    assert WorkshopServices.MapToResponseDto(first) in found;
    forall i | 0 <= i < |found| ensures found[i] == WorkshopServices.MapToResponseDto(first) {
      assert found[i].id == first.id;
    }
  }

  /** With no search term every stored workshop is listed and nothing else,
      the earlier date first. */
  method ListingIsOrderedByDate(first: Workshop, second: Workshop)
    requires first.id != second.id && first.date < second.date
  {
    var db := new Data.AppDbContext();
    db.workshops := map[first.id := first, second.id := second];
    var service := new WorkshopServices.WorkshopService(db);
    var earlier := WorkshopServices.MapToResponseDto(first);
    var later := WorkshopServices.MapToResponseDto(second);
    assert db.workshops[first.id] == first && db.workshops[second.id] == second;

    var all := service.GetAll(None);
    assert earlier in all && later in all;
    forall i | 0 <= i < |all| ensures all[i] == earlier || all[i] == later {
      assert all[i].id == first.id || all[i].id == second.id;
    }
    forall i, j | 0 <= i < |all| && 0 <= j < |all| && all[i] == earlier && all[j] == later
      ensures i < j
    {
      assert all[i].date < all[j].date;
    }
  }

  /** Once a workshop is deleted it is no longer found. */
  method DeletedWorkshopIsGone(id: Guid, title: string, description: string, date: DateTime)
  {
    var db := new Data.AppDbContext();
    var service := new WorkshopServices.WorkshopService(db);
    var created := service.Create(WorkshopCreateDtos.WorkshopCreateDto(Some(title), Some(description), date, 5), id);
    var deleted := service.Delete(id);
    assert deleted;
    var found := service.GetById(id);
    assert found == None;
  }

  /** Sessions of a workshop that does not exist are not listed, not created,
      and updating a session that does not exist changes no row. */
  method MissingParentOrSession(workshopId: Guid, sessionId: Guid, payload: SessionDtos.SessionBaseDto)
    requires payload.title.Some?
  {
    var db := new Data.AppDbContext();
    var service := new SessionServices.SessionService(db);
    var listed := service.GetAll(workshopId);
    assert listed == None;
    var created := service.Create(workshopId, payload, sessionId);
    assert created == None && db.sessions == map[];
    var updated := service.Update(workshopId, sessionId, payload);
    assert updated == None && db.sessions == map[] && db.workshops == map[];
  }

  /** A session created under an existing workshop is attached to it, stored
      with its title trimmed, and listed among the workshop's sessions. */
  method CreateSessionUnderWorkshop(workshopId: Guid, sessionId: Guid, workshop: WorkshopCreateDtos.WorkshopCreateDto, session: SessionDtos.SessionBaseDto)
    requires workshop.title.Some? && workshop.description.Some? && session.title.Some?
  {
    var db := new Data.AppDbContext();
    var workshops := new WorkshopServices.WorkshopService(db);
    var sessions := new SessionServices.SessionService(db);
    var parent := workshops.Create(workshop, workshopId);
    var created := sessions.Create(workshopId, session, sessionId);
    assert db.workshops[workshopId].id == workshopId;
    assert created != None;
    assert created.value.title == Text.Trim(session.title.value) && created.value.workshopId == workshopId;
    var listed := sessions.GetAll(workshopId);
    assert listed != None && created.value in listed.value;
  }
}
