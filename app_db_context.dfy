/** The database: the Workshops and Sessions tables, each keyed by the row's id. */
module Data {

  import opened Entities

  class AppDbContext {
    var workshops: map<Guid, Workshop>
    var sessions: map<Guid, Session>

    /** Every row is stored under its own primary key. */
    ghost predicate Valid()
      reads this
    {
      && (forall id :: id in workshops ==> workshops[id].id == id)
      && (forall id :: id in sessions ==> sessions[id].id == id)
    }

    /** A fresh, empty database. */
    constructor ()
      ensures Valid()
      ensures workshops == map[] && sessions == map[]
    {
      workshops := map[];
      sessions := map[];
    }
  }
}
