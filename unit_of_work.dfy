/**
 * The unit of work's registry of repositories: one repository per entity
 * type, built on first request and handed out again on every later one.
 *
 * The entity type is an opaque key K; a repository is an object that
 * remembers the entity type it serves.
 */
module DataAccess {

  /** A repository for the entity type entityType over the shared context. */
  class Repository<K> {
    const entityType: K

    constructor (entityType: K)
      ensures this.entityType == entityType
    {
      this.entityType := entityType;
    }
  }

  class UnitOfWork<K(==)> {
    var repositories: map<K, Repository<K>>

    /** Every cached repository serves the entity type it is filed under. */
    ghost predicate Valid()
      reads this
    {
      forall t :: t in repositories ==> repositories[t].entityType == t
    }

    constructor ()
      ensures Valid()
      ensures repositories == map[]
    {
      repositories := map[];
    }

    /**
     * The repository for entity type t: built and registered the first time
     * t is asked for, the cached one afterwards. Entries for other types are
     * left as they were, and no entry is ever removed.
     */
    method GetRepository(t: K) returns (r: Repository<K>)
      requires Valid()
      modifies this
      ensures Valid()
      ensures t in repositories && r == repositories[t]
      ensures r.entityType == t
      ensures t in old(repositories) ==> r == old(repositories)[t] && repositories == old(repositories)
      ensures t !in old(repositories) ==> fresh(r) && repositories == old(repositories)[t := r]
      ensures forall k :: k in old(repositories) ==> k in repositories && repositories[k] == old(repositories)[k]
      ensures forall k :: k != t ==> (k in repositories <==> k in old(repositories))
    {
      if t !in repositories {
        var repository := new Repository(t);
        repositories := repositories[t := repository];
      }
      r := repositories[t];
    }
  }

  /** Asking twice for the same entity type gives the same repository object. */
  method GetRepositoryTwice<K(==)>(unitOfWork: UnitOfWork<K>, t: K)
    returns (first: Repository<K>, second: Repository<K>)
    requires unitOfWork.Valid()
    modifies unitOfWork
    ensures unitOfWork.Valid()
    ensures t in unitOfWork.repositories && first == second == unitOfWork.repositories[t]
    ensures unitOfWork.repositories.Keys == old(unitOfWork.repositories).Keys + {t}
  {
    first := unitOfWork.GetRepository(t);
    second := unitOfWork.GetRepository(t);
  }
}
