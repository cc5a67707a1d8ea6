/**
 * The repository list of one GitHub user, once fetched: a fixed snapshot of JSON elements, each
 * with an id, a name, an html url, a fork count and an update time, queried by id.
 */
module UserRepos {
  import opened Wrappers
  import opened Collaborators

  /** One element of the repos JSON array. */
  datatype RepoRecord = RepoRecord(id: int, name: string, htmlUrl: string, forksCount: int, updatedAt: Timestamp)

  /** The exception thrown for an id that no element carries. */
  datatype RepoError = RepoNotFound(message: string)

  const REPO_NOT_FOUND_MESSAGE := "Provided ID does not correspond to a repository owned by this user!"

  /** The ids of a snapshot, one per element, in order. */
  function Ids(repos: seq<RepoRecord>): (ids: seq<int>)
    ensures |ids| == |repos|
    ensures forall i :: 0 <= i < |repos| ==> ids[i] == repos[i].id
  {
    seq(|repos|, (i: int) requires 0 <= i < |repos| => repos[i].id)
  }

  /** Some element carries `id`. */
  predicate HasId(repos: seq<RepoRecord>, id: int)
  {
    exists i :: 0 <= i < |repos| && repos[i].id == id
  }

  /** The index of the first element that carries `id`, or None when no element does. */
  function Find(repos: seq<RepoRecord>, id: int): (k: Option<nat>)
    ensures k.None? <==> !HasId(repos, id)
    ensures k.Some? ==> k.value < |repos| && repos[k.value].id == id
    ensures k.Some? ==> forall j :: 0 <= j < k.value ==> repos[j].id != id
  {
    if repos == [] then None
    else if repos[0].id == id then Some(0)
    else match Find(repos[1..], id)
      case None => None
      case Some(k) => Some(k + 1)
  }

  /** The first element that carries `id`, or RepoNotFound. */
  function Lookup(repos: seq<RepoRecord>, id: int): (r: Result<RepoRecord, RepoError>)
    ensures r.Failure? <==> !HasId(repos, id)
    ensures r.Failure? ==> r.error == RepoNotFound(REPO_NOT_FOUND_MESSAGE)
    ensures r.Success? ==> FirstWith(repos, id, Find(repos, id).value) && r.value == repos[Find(repos, id).value]
  {
    match Find(repos, id)
    case None => Failure(RepoNotFound(REPO_NOT_FOUND_MESSAGE))
    case Some(k) => Success(repos[k])
  }

  /** Element k carries `id` and no element before it does. */
  predicate FirstWith(repos: seq<RepoRecord>, id: int, k: nat)
  {
    k < |repos| && repos[k].id == id && forall j :: 0 <= j < k ==> repos[j].id != id
  }

  /** An id has at most one first occurrence: the lookup's element is determined by the snapshot. */
  lemma FirstWithUnique(repos: seq<RepoRecord>, id: int, k: nat, m: nat)
    requires FirstWith(repos, id, k) && FirstWith(repos, id, m)
    ensures k == m
  {
  }

  /** Every id that the snapshot lists is found, at or before the element that lists it. */
  lemma {:induction false} ListedIdsAreFound(repos: seq<RepoRecord>, i: nat)
    requires i < |repos|
    ensures Find(repos, Ids(repos)[i]).Some?
    ensures Find(repos, Ids(repos)[i]).value <= i
    ensures Lookup(repos, Ids(repos)[i]).Success?
  {
    assert Ids(repos)[i] == repos[i].id;
    assert HasId(repos, repos[i].id);
  }

  /** On an empty snapshot there are no ids and every lookup fails. */
  lemma EmptySnapshot(id: int)
    ensures Ids([]) == []
    ensures Lookup([], id) == Failure(RepoNotFound(REPO_NOT_FOUND_MESSAGE))
  {
  }

  /** With unique ids, looking up the id of element i yields element i itself. */
  lemma {:induction false} UniqueIdsLookupOwnElement(repos: seq<RepoRecord>, i: nat)
    requires forall a, b :: 0 <= a < b < |repos| ==> repos[a].id != repos[b].id
    requires i < |repos|
    ensures Lookup(repos, repos[i].id) == Success(repos[i])
  {
    assert HasId(repos, repos[i].id);
    var k := Find(repos, repos[i].id).value;
    assert k == i by {
      if k < i {
        assert repos[k].id == repos[i].id;
      }
    }
  }

  /**
   * The wrapper over one user's repository list. The snapshot is set once, when the object is
   * created; the getters only read it.
   */
  class UserReposWrapper {
    /** The username whose repositories the route requests. */
    const username: string
    var reposJson: seq<RepoRecord>

    /** Creates the wrapper; `fetched` is the repos JSON array the request returns. */
    constructor (username: string, fetched: seq<RepoRecord>)
      ensures this.username == username
      ensures reposJson == fetched
    {
      this.username := username;
      new;
      UpdateReposJson(fetched);
    }

    /** Stores the result of the request as the snapshot. */
    method UpdateReposJson(fetched: seq<RepoRecord>)
      modifies this
      ensures reposJson == fetched
    {
      reposJson := fetched;
    }

    /** The ids of the snapshot's elements, one per element, in order. */
    method GetIDs() returns (result: seq<int>)
      ensures result == Ids(reposJson)
      ensures |result| == |reposJson|
    {
      result := [];
      for i := 0 to |reposJson|
        invariant |result| == i
        invariant forall j :: 0 <= j < i ==> result[j] == reposJson[j].id
      {
        result := result + [reposJson[i].id];
      }
    }

    /** The name of the first element with this id; RepoNotFound when there is none. */
    method GetRepoName(id: int) returns (r: Result<string, RepoError>)
      ensures r == Lookup(reposJson, id).MapValue((x: RepoRecord) => x.name)
    {
      for i := 0 to |reposJson|
        invariant forall j :: 0 <= j < i ==> reposJson[j].id != id
      {
        if reposJson[i].id == id {
          return Success(reposJson[i].name);
        }
      }
      return Failure(RepoNotFound(REPO_NOT_FOUND_MESSAGE));
    }

    /** The html url of the first element with this id; RepoNotFound when there is none. */
    method GetRepoUrl(id: int) returns (r: Result<string, RepoError>)
      ensures r == Lookup(reposJson, id).MapValue((x: RepoRecord) => x.htmlUrl)
    {
      for i := 0 to |reposJson|
        invariant forall j :: 0 <= j < i ==> reposJson[j].id != id
      {
        if reposJson[i].id == id {
          return Success(reposJson[i].htmlUrl);
        }
      }
      return Failure(RepoNotFound(REPO_NOT_FOUND_MESSAGE));
    }

    /** The update time of the first element with this id; RepoNotFound when there is none. */
    method GetLastUpdated(id: int) returns (r: Result<Timestamp, RepoError>)
      ensures r == Lookup(reposJson, id).MapValue((x: RepoRecord) => x.updatedAt)
    {
      for i := 0 to |reposJson|
        invariant forall j :: 0 <= j < i ==> reposJson[j].id != id
      {
        if reposJson[i].id == id {
          return Success(reposJson[i].updatedAt);
        }
      }
      return Failure(RepoNotFound(REPO_NOT_FOUND_MESSAGE));
    }

    /** The fork count of the first element with this id; RepoNotFound when there is none. */
    method GetRepoForkCount(id: int) returns (r: Result<int, RepoError>)
      ensures r == Lookup(reposJson, id).MapValue((x: RepoRecord) => x.forksCount)
    {
      for i := 0 to |reposJson|
        invariant forall j :: 0 <= j < i ==> reposJson[j].id != id
      {
        if reposJson[i].id == id {
          return Success(reposJson[i].forksCount);
        }
      }
      return Failure(RepoNotFound(REPO_NOT_FOUND_MESSAGE));
    }
  }
}
