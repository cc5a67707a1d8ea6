/**
 * A GitHub user as the address book stores it: username, profile url, display name, optional
 * email and location, and the list of the user's repositories.
 */
module GitHubUser {
  import opened Wrappers
  import opened Collaborators
  import opened UserRepos

  const GITHUB_PREFIX := "https://github.com/"

  /** The longest username the validation pattern admits. */
  const MAX_USERNAME_LENGTH := 39

  // ----- The validation pattern ^[a-zA-Z\d](?:[a-zA-Z\d]|-(?=[a-zA-Z\d])){0,38}$ -----

  /** The character class [a-zA-Z\d]; without the UNICODE_CHARACTER_CLASS flag \d is ASCII only. */
  predicate IsAlnum(c: char)
  {
    ('a' <= c <= 'z') || ('A' <= c <= 'Z') || ('0' <= c <= '9')
  }

  /**
   * Whether (?:[a-zA-Z\d]|-(?=[a-zA-Z\d])){0,budget}$ matches s from position i to the end.
   * The two alternatives start with disjoint characters, so at most one applies at each position.
   */
  predicate UnitsMatch(s: string, i: nat, budget: nat)
    requires i <= |s|
    decreases |s| - i
  {
    i == |s| ||
    (budget > 0 &&
     ((IsAlnum(s[i]) && UnitsMatch(s, i + 1, budget - 1)) ||
      (s[i] == '-' && i + 1 < |s| && IsAlnum(s[i + 1]) && UnitsMatch(s, i + 1, budget - 1))))
  }

  /** String.matches(VALIDATION_REGEX): the whole of s matches the pattern. */
  predicate MatchesValidationRegex(s: string)
  {
    |s| > 0 && IsAlnum(s[0]) && UnitsMatch(s, 1, MAX_USERNAME_LENGTH - 1)
  }

  /** The constraints the user is shown for a GitHub username. */
  predicate DocumentedUsername(s: string)
  {
    && 1 <= |s| <= MAX_USERNAME_LENGTH
    && (forall i :: 0 <= i < |s| ==> IsAlnum(s[i]) || s[i] == '-')
    && s[0] != '-'
    && s[|s| - 1] != '-'
    && (forall i :: 0 <= i < |s| - 1 ==> !(s[i] == '-' && s[i + 1] == '-'))
  }

  /** Every hyphen at or after position i is directly followed by a letter or digit. */
  predicate HyphensFollowed(s: string, i: nat)
  {
    forall j :: i <= j < |s| && s[j] == '-' ==> j + 1 < |s| && IsAlnum(s[j + 1])
  }

  /** What the repeated group admits: a bounded rest of letters, digits and followed hyphens. */
  lemma {:induction false} UnitsMatchMeaning(s: string, i: nat, budget: nat)
    requires i <= |s|
    ensures UnitsMatch(s, i, budget) <==>
      (|s| - i <= budget &&
       (forall j :: i <= j < |s| ==> IsAlnum(s[j]) || s[j] == '-') &&
       HyphensFollowed(s, i))
    decreases |s| - i
  {
    if i < |s| {
      UnitsMatchMeaning(s, i + 1, if budget > 0 then budget - 1 else 0);
    }
  }

  /** A full match of the pattern is exactly a string meeting the documented constraints. */
  lemma RegexMatchesDocumented(s: string)
    ensures MatchesValidationRegex(s) <==> DocumentedUsername(s)
  {
    if |s| > 0 {
      UnitsMatchMeaning(s, 1, MAX_USERNAME_LENGTH - 1);
      if DocumentedUsername(s) {
        forall j | 1 <= j < |s| && s[j] == '-'
          ensures j + 1 < |s| && IsAlnum(s[j + 1])
        {
          assert j != |s| - 1;
          assert !(s[j] == '-' && s[j + 1] == '-');
        }
      }
      if MatchesValidationRegex(s) {
        forall i | 0 <= i < |s| - 1
          ensures !(s[i] == '-' && s[i + 1] == '-')
        {
          if s[i] == '-' {
            assert IsAlnum(s[i + 1]);
          }
        }
        if |s| > 1 {
          assert s[|s| - 1] != '-' by {
            if s[|s| - 1] == '-' {
              assert HyphensFollowed(s, 1);
            }
          }
        }
      }
    }
  }

  /** isValidUsername with the polarity its documentation states: true exactly on a full match. */
  predicate IsValidUsernameIntended(s: string)
  {
    MatchesValidationRegex(s)
  }

  /** The corrected validator accepts exactly the usernames the documented constraints allow. */
  lemma IntendedValidatorMeetsConstraints(s: string)
    ensures IsValidUsernameIntended(s) <==> DocumentedUsername(s)
  {
    RegexMatchesDocumented(s);
  }

  /** What the user-info request yields: the echoed login, the profile url and optional fields. */
  datatype UserInfo = UserInfo(username: string, url: string, name: Option<string>,
                               email: Option<string>, location: Option<string>)

  /** The display name: the fetched name when there is one, otherwise the username. */
  function DisplayName(info: UserInfo): (n: Name)
    ensures info.name.Some? ==> n.fullName == info.name.value
    ensures info.name.None? ==> n.fullName == info.username
  {
    Name(info.name.GetOr(info.username))
  }

  /** The email: absent exactly when the user info has none, otherwise built from its text. */
  function EmailOf(info: UserInfo): (e: Option<Email>)
    ensures e.None? <==> info.email.None?
    ensures e.Some? ==> e.value.text == info.email.value
  {
    if info.email.Some? then Some(Email(info.email.value)) else None
  }

  /** The address: absent exactly when the user info has no location, otherwise built from it. */
  function AddressOf(info: UserInfo): (a: Option<Address>)
    ensures a.None? <==> info.location.None?
    ensures a.Some? ==> a.value.text == info.location.value
  {
    if info.location.Some? then Some(Address(info.location.value)) else None
  }

  /** The repo built from a snapshot element. */
  function ToRepo(rec: RepoRecord): Repo
  {
    Repo(rec.name, rec.htmlUrl, rec.forksCount, rec.updatedAt)
  }

  /**
   * The repo list a snapshot yields: one repo per listed id, in order; entry i is built from the
   * first element carrying the i-th id.
   */
  function RepoListOf(repos: seq<RepoRecord>): (list: seq<Repo>)
    ensures |list| == |Ids(repos)|
    ensures forall i :: 0 <= i < |repos| ==>
      Lookup(repos, Ids(repos)[i]).Success? && list[i] == ToRepo(Lookup(repos, Ids(repos)[i]).value)
  {
    seq(|repos|, (i: int) requires 0 <= i < |repos| =>
      assert HasId(repos, repos[i].id);
      ToRepo(Lookup(repos, repos[i].id).value))
  }

  /** With unique ids (as the API guarantees) the repo list mirrors the snapshot element by element. */
  lemma UniqueIdsRepoListMirrorsSnapshot(repos: seq<RepoRecord>)
    requires forall a, b :: 0 <= a < b < |repos| ==> repos[a].id != repos[b].id
    ensures |RepoListOf(repos)| == |repos|
    ensures forall i :: 0 <= i < |repos| ==> RepoListOf(repos)[i] == ToRepo(repos[i])
  {
    forall i | 0 <= i < |repos|
      ensures RepoListOf(repos)[i] == ToRepo(repos[i])
    {
      UniqueIdsLookupOwnElement(repos, i);
    }
  }

  /**
   * A duplicated id yields copies of the first element that carries it: when element i is the
   * first with its id and element j repeats that id, entries i and j are both built from element i.
   */
  lemma DuplicateIdRepeatsFirstElement(repos: seq<RepoRecord>, i: nat, j: nat)
    requires i < j < |repos| && repos[i].id == repos[j].id
    requires forall k :: 0 <= k < i ==> repos[k].id != repos[i].id
    ensures RepoListOf(repos)[i] == ToRepo(repos[i])
    ensures RepoListOf(repos)[j] == ToRepo(repos[i])
  {
    var id := repos[i].id;
    assert FirstWith(repos, id, i);
    ListedIdsAreFound(repos, i);
    FirstWithUnique(repos, id, i, Find(repos, id).value);
  }

  /** The collaborator that hash codes are computed with: any function of the hashed fields. */
  type UserHash = (string, string, Name, Option<Email>, Option<Address>) -> int

  class User {
    const username: string
    const url: string
    const name: Name
    const email: Option<Email>
    const address: Option<Address>
    const repoList: seq<Repo>

    /** The fields are those derived from the user info and the repos snapshot. */
    ghost predicate BuiltFrom(info: UserInfo, repos: seq<RepoRecord>)
    {
      && username == info.username
      && url == info.url
      && name == DisplayName(info)
      && email == EmailOf(info)
      && address == AddressOf(info)
      && repoList == RepoListOf(repos)
    }

    /**
     * Builds a user from the user info and the repos wrapper. The username argument is only
     * required to be present; the stored username is the one the user info echoes.
     */
    constructor (username: string, userInfo: UserInfo, userRepos: UserReposWrapper)
      ensures BuiltFrom(userInfo, userRepos.reposJson)
    {
      this.username := userInfo.username;
      this.url := userInfo.url;
      this.name := DisplayName(userInfo);
      this.email := EmailOf(userInfo);
      this.address := AddressOf(userInfo);
      var list := UpdatedRepoList(userRepos);
      this.repoList := list;
    }

    /** The repo list built by looking up each listed id's fields, in the order of the ids. */
    static method UpdatedRepoList(userRepos: UserReposWrapper) returns (repoList: seq<Repo>)
      ensures repoList == RepoListOf(userRepos.reposJson)
    {
      repoList := [];
      var ids := userRepos.GetIDs();
      ghost var expected := RepoListOf(userRepos.reposJson);
      for i := 0 to |ids|
        invariant repoList == expected[..i]
      {
        ListedIdsAreFound(userRepos.reposJson, i);
        var repo := FetchRepo(userRepos, ids[i]);
        repoList := repoList + [repo];
        assert expected[..i + 1] == expected[..i] + [expected[i]];
      }
      assert expected[..|ids|] == expected;
    }

    /** new Repo(getRepoName(id), getRepoUrl(id), getRepoForkCount(id), getLastUpdated(id)). */
    static method FetchRepo(userRepos: UserReposWrapper, id: int) returns (repo: Repo)
      requires HasId(userRepos.reposJson, id)
      ensures repo == ToRepo(Lookup(userRepos.reposJson, id).value)
    {
      var name := userRepos.GetRepoName(id);
      var url := userRepos.GetRepoUrl(id);
      var forkCount := userRepos.GetRepoForkCount(id);
      var lastUpdated := userRepos.GetLastUpdated(id);
      repo := Repo(name.value, url.value, forkCount.value, lastUpdated.value);
    }

    /** Whether a string is a valid username, as written: the negation of a full match. */
    static predicate IsValidUsername(test: string)
    {
      !MatchesValidationRegex(test)
    }

    /** The profile link: the GitHub prefix followed by the username. */
    function ToString(): string
    {
      GITHUB_PREFIX + username
    }

    /**
     * Whether equals(obj) completes without a null dereference. The comparisons short-circuit:
     * the receiver's email is dereferenced only once the argument is a different user with an
     * equal username, url and name, and its address only once the emails are equal as well.
     */
    predicate EqualsDefinedFor(obj: object?)
    {
      (obj is User && obj != this && username == (obj as User).username &&
       url == (obj as User).url && name == (obj as User).name) ==>
        email.Some? && (email == (obj as User).email ==> address.Some?)
    }

    /** User.equals, where it completes: the same object, or a user with equal fields. */
    predicate Equals(obj: object?)
      requires EqualsDefinedFor(obj)
    {
      EqualsNullSafe(obj)
    }

    /**
     * equals with the email and the address compared null-safely (Objects.equals): the same
     * object, or a user whose six fields are all equal.
     */
    predicate EqualsNullSafe(obj: object?)
    {
      obj == this ||
      (obj is User &&
       var other := obj as User;
       && username == other.username
       && url == other.url
       && name == other.name
       && other.email == email
       && other.address == address
       && repoList == other.repoList)
    }

    /** Objects.hash over username, url, name, email and address, for a given hash function. */
    function HashCode(hash: UserHash): int
    {
      hash(username, url, name, email, address)
    }
  }

  /**
   * Equality is reflexive and false for null; where the calls complete it is symmetric and
   * transitive.
   */
  lemma UserEqualsIsEquivalence(u: User, v: User, w: User)
    ensures u.EqualsDefinedFor(u) && u.Equals(u)
    ensures u.EqualsDefinedFor(null) && !u.Equals(null)
    ensures u.EqualsDefinedFor(v) && v.EqualsDefinedFor(u) ==> (u.Equals(v) <==> v.Equals(u))
    ensures u.EqualsDefinedFor(v) && v.EqualsDefinedFor(w) && u.EqualsDefinedFor(w) ==>
      (u.Equals(v) && v.Equals(w) ==> u.Equals(w))
  {
  }

  /** Equal users have equal hash codes, whatever hash the fields are combined with. */
  lemma UserEqualsImpliesEqualHash(u: User, v: User, hash: UserHash)
    requires u.EqualsDefinedFor(v)
    requires u.Equals(v)
    ensures u.HashCode(hash) == v.HashCode(hash)
  {
  }

  /**
   * For two distinct users built from the same inputs, equals completes exactly when the user info
   * has an email and a location, and then the users are equal.
   */
  lemma UsersFromSameInputsAreEqual(u: User, v: User, info: UserInfo, repos: seq<RepoRecord>)
    requires u.BuiltFrom(info, repos) && v.BuiltFrom(info, repos)
    ensures u != v ==> (u.EqualsDefinedFor(v) <==> info.email.Some? && info.location.Some?)
    ensures u.EqualsDefinedFor(v) ==> u.Equals(v)
  {
  }

  /**
   * Two distinct users built from the same email-less user info, as in the octocat example, make
   * equals dereference the absent email.
   */
  lemma EmaillessUsersEqualsThrows(u: User, v: User, info: UserInfo, repos: seq<RepoRecord>)
    requires u.BuiltFrom(info, repos) && v.BuiltFrom(info, repos)
    requires u != v && info.email.None?
    ensures !u.EqualsDefinedFor(v)
  {
  }

  /**
   * With null-safe comparisons, users built from the same inputs are equal whatever fields the
   * user info lacks, and the comparison agrees with equals wherever equals completes.
   */
  lemma NullSafeUsersFromSameInputsAreEqual(u: User, v: User, info: UserInfo, repos: seq<RepoRecord>)
    requires u.BuiltFrom(info, repos) && v.BuiltFrom(info, repos)
    ensures u.EqualsNullSafe(v)
    ensures u.EqualsDefinedFor(v) ==> (u.Equals(v) <==> u.EqualsNullSafe(v))
  {
  }

  /** Users differing only in the email are not equal; equals returns before the address. */
  lemma UsersWithDifferentEmailDiffer(u: User, v: User, info: UserInfo, info': UserInfo, repos: seq<RepoRecord>)
    requires u.BuiltFrom(info, repos) && v.BuiltFrom(info', repos)
    requires info.email.Some?
    requires info' == info.(email := info'.email) && info'.email != info.email
    ensures u.EqualsDefinedFor(v)
    ensures !u.Equals(v)
  {
    assert EmailOf(info) != EmailOf(info');
  }

  /** The profile link is the GitHub prefix followed by the username, which it determines. */
  lemma ToStringLayout(u: User, v: User)
    ensures |u.ToString()| == |GITHUB_PREFIX| + |u.username|
    ensures u.ToString()[..|GITHUB_PREFIX|] == GITHUB_PREFIX
    ensures u.ToString()[|GITHUB_PREFIX|..] == u.username
    ensures u.ToString() == v.ToString() ==> u.username == v.username
  {
    if u.ToString() == v.ToString() {
      assert u.username == u.ToString()[|GITHUB_PREFIX|..];
    }
  }

  /** The validator as written rejects a well-formed username and accepts malformed ones. */
  lemma IsValidUsernameIsInverted()
    ensures !User.IsValidUsername("octocat")
    ensures User.IsValidUsername("-octocat") && User.IsValidUsername("")
    ensures forall s :: User.IsValidUsername(s) <==> !DocumentedUsername(s)
  {
    forall s ensures User.IsValidUsername(s) <==> !DocumentedUsername(s) {
      RegexMatchesDocumented(s);
    }
    RegexMatchesDocumented("octocat");
  }

  /**
   * The octocat example: no display name, so the username stands in, and one repository with
   * three forks.
   */
  method OctocatExample() returns (user: User)
    ensures user.username == "octocat" && user.name == Name("octocat")
    ensures user.email == None && user.address == None
    ensures |user.repoList| == 1
    ensures user.repoList[0].name == "Hello-World" && user.repoList[0].forkCount == 3
  {
    var info := UserInfo("octocat", "https://github.com/octocat", None, None, None);
    var hello := RepoRecord(1, "Hello-World", "https://github.com/octocat/Hello-World", 3,
                            Timestamp("2023-01-01T00:00:00Z"));
    var repos := new UserReposWrapper("octocat", [hello]);
    assert Lookup([hello], 1) == Success(hello);
    user := new User("octocat", info, repos);
  }
}
