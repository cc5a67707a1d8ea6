# GitHub enrichment of address-book persons — a verified model

This project models three pieces of an address-book application that can enrich a person with
their GitHub profile:

- **The repository snapshot** (`UserReposWrapper`). It is the list of a user's repositories,
  fetched once as a JSON array. Each element has an id, a name, an html url, a fork count and an
  update time. `getIDs` lists the ids in order. Each field getter scans for the first element with
  the requested id, and throws `RepoNotFoundException` when no element has it.
- **The GitHub user aggregate** (`User`). This covers the username validator built on
  `VALIDATION_REGEX`, and the rules that build a user from the user-info record and the snapshot:
  the name fallback, the optional email and address, and one repo per listed id. It also covers
  `toString`, `equals` and `hashCode`.
- **The person value object** (`Person`). This covers weak identity (`isSamePerson`), strong
  equality, ordering by name, the Optional getters, `hashCode` and the layout of `toString`.

Modules, one per component:

| file | module | models |
|---|---|---|
| wrappers.dfy | `Wrappers` | Optional / nullable fields (`Option`), thrown exceptions (`Result`) |
| collaborators.dfy | `Collaborators` | the value types the core uses but whose sources are not part of this model: `Name` (with its order), `Address`, `Email`, `Tag`, `Contact`, `ContactType`, `Role`, `Timezone`, `Repo`, and the update time |
| user_repos_wrapper.dfy | `UserRepos` | `UserReposWrapper` and the snapshot's specification functions |
| user.dfy | `GitHubUser` | `User`, the username pattern, the user-info record |
| person.dfy | `Persons` | `Person` |

How the source's form is kept:

- `UserReposWrapper` is a class. Its `reposJson` field is assigned only by `UpdateReposJson`, and
  only the constructor calls that method. The getters are `for` loops with an early `return` and
  a failure after the loop. Each one is proved against the specification function `Lookup`
  (the first element with that id, or `RepoNotFound`). The getters declare no `modifies` clause,
  so Dafny checks that they leave the snapshot unchanged.
- `User` is a class of `const` fields that the constructor assigns one by one. The repo list is
  built by a loop (`UpdatedRepoList`) that appends one repo per id. That loop is proved equal to
  the function `RepoListOf`.
- `Person` is a class. Its tag set and contact map start empty, and the constructor fills them
  (`addAll` / `putAll`). `toString` is a method that appends to a builder. It is proved equal to
  the function `Text`.

Inputs that the source gets from I/O or from collaborators are parameters here:

- The JSON array that the repos request returns (`fetched` in the `UserReposWrapper` constructor).
- The user-info record (`UserInfo`).
- The iteration orders of the `HashSet` of tags and the `HashMap` of contacts (`tagOrder`,
  `contactOrder`). Each must list every element or key once.
- The hash functions (`UserHash`, `PersonHash`).

Where the informal description and the code disagree, the model follows the code:

- The profile url is taken from the user-info record. It is not built from a prefix and the
  username.
- The stored username is the one the user-info record echoes. The constructor's `username`
  argument is only required to be present.
- `isValidUsername` returns the negation of the match. See "## Findings".
- Two users built from identical inputs are equal only when the user info has an email and a
  location; otherwise `equals` dereferences null. See "## Findings".
- `User.java` imports `UserReposWrapper` from the package `seedu.address.github`. The model takes
  that class to be `src/main/java/seedu/address/wrapper/UserReposWrapper.java`.

## Model

| member | source | states |
|---|---|---|
| `UserRepos.Ids` | src/main/java/seedu/address/wrapper/UserReposWrapper.java:47-56 | one id per snapshot element, in snapshot order; the length equals the snapshot length |
| `UserRepos.Find` | src/main/java/seedu/address/wrapper/UserReposWrapper.java:58-67 | the scan's result: the index of an element with the id that no earlier element has; None exactly when no element has the id |
| `UserRepos.Lookup` | src/main/java/seedu/address/wrapper/UserReposWrapper.java:58-68 | fails with RepoNotFound and the source's message exactly when no element has the id; otherwise yields the first such element |
| `UserRepos.FirstWithUnique` | src/main/java/seedu/address/wrapper/UserReposWrapper.java:60-65 | the first match is unique, so each lookup's result is determined by the snapshot |
| `UserRepos.ListedIdsAreFound` | src/main/java/seedu/address/wrapper/UserReposWrapper.java:47-104 | for every id that getIDs lists, the lookup succeeds, at or before the element that lists it |
| `UserRepos.EmptySnapshot` | src/main/java/seedu/address/wrapper/UserReposWrapper.java:50-67 | on an empty snapshot getIDs is empty and every lookup fails with RepoNotFound |
| `UserRepos.UniqueIdsLookupOwnElement` | src/main/java/seedu/address/wrapper/UserReposWrapper.java:58-65 | when ids are unique, looking up element i's id yields element i |
| `UserRepos.UserReposWrapper.constructor` | src/main/java/seedu/address/wrapper/UserReposWrapper.java:35-41 | the snapshot is exactly the fetched array |
| `UserRepos.UserReposWrapper.UpdateReposJson` | src/main/java/seedu/address/wrapper/UserReposWrapper.java:43-45 | the only assignment to the snapshot: it becomes the fetched array |
| `UserRepos.UserReposWrapper.GetIDs` | src/main/java/seedu/address/wrapper/UserReposWrapper.java:47-56 | the loop returns the snapshot's ids in order, one per element; the snapshot is unchanged |
| `UserRepos.UserReposWrapper.GetRepoName` | src/main/java/seedu/address/wrapper/UserReposWrapper.java:58-68 | the name of the first element with the id, or RepoNotFound when none has it; the snapshot is unchanged |
| `UserRepos.UserReposWrapper.GetRepoUrl` | src/main/java/seedu/address/wrapper/UserReposWrapper.java:70-80 | the html url of the first element with the id, or RepoNotFound when none has it |
| `UserRepos.UserReposWrapper.GetLastUpdated` | src/main/java/seedu/address/wrapper/UserReposWrapper.java:82-92 | the update time of the first element with the id, or RepoNotFound when none has it |
| `UserRepos.UserReposWrapper.GetRepoForkCount` | src/main/java/seedu/address/wrapper/UserReposWrapper.java:94-104 | the fork count of the first element with the id, or RepoNotFound when none has it |
| `GitHubUser.UnitsMatchMeaning` | src/main/java/seedu/address/model/person/github/User.java:29 | the repeated group of the pattern, anchored at the end, matches exactly a remainder within the repetition budget, made of letters, digits and hyphens, where each hyphen is followed by a letter or digit |
| `GitHubUser.RegexMatchesDocumented` | src/main/java/seedu/address/model/person/github/User.java:22-29 | a full match of the pattern holds exactly when the documented constraints hold: 1 to 39 characters, only ASCII letters, digits and hyphens, no leading or trailing hyphen, no two consecutive hyphens |
| `GitHubUser.IsValidUsernameIsInverted` | src/main/java/seedu/address/model/person/github/User.java:57-59 | the validator as written is the negation of a full match: it rejects "octocat", accepts "-octocat" and "", and accepts exactly the strings that break the documented constraints |
| `GitHubUser.IntendedValidatorMeetsConstraints` | src/main/java/seedu/address/model/person/github/User.java:22-29 | the validator with the documented polarity accepts exactly the strings that meet the documented constraints |
| `GitHubUser.UnitsMatch` | src/main/java/seedu/address/model/person/github/User.java:29 | the repeated group `(?:[a-zA-Z\d]\|-(?=[a-zA-Z\d])){0,n}$` from a position to the end; `UnitsMatchMeaning` states which remainders it admits |
| `GitHubUser.MatchesValidationRegex` | src/main/java/seedu/address/model/person/github/User.java:29 | a full match of the pattern: a letter or digit, then the group at most 38 times; `RegexMatchesDocumented` proves it equal to the documented constraints |
| `GitHubUser.User.IsValidUsername` | src/main/java/seedu/address/model/person/github/User.java:57-59 | as written, the negation of a full match; `IsValidUsernameIsInverted` proves it rejects exactly the well-formed usernames |
| `GitHubUser.DisplayName` | src/main/java/seedu/address/model/person/github/User.java:46 | the display name is the fetched name when present, otherwise the username |
| `GitHubUser.EmailOf` | src/main/java/seedu/address/model/person/github/User.java:47 | the email is absent exactly when the user info has none; otherwise it carries that text |
| `GitHubUser.AddressOf` | src/main/java/seedu/address/model/person/github/User.java:48-49 | the address is absent exactly when the user info has no location; otherwise it carries that text |
| `GitHubUser.RepoListOf` | src/main/java/seedu/address/model/person/github/User.java:85-100 | one repo per listed id, in order; entry i is built from the first element that carries the i-th id, and that lookup succeeds |
| `GitHubUser.UniqueIdsRepoListMirrorsSnapshot` | src/main/java/seedu/address/model/person/github/User.java:85-96 | with unique ids, entry i of the repo list is built from snapshot element i |
| `GitHubUser.DuplicateIdRepeatsFirstElement` | src/main/java/seedu/address/model/person/github/User.java:87-93 | for every snapshot, when element i is the first with its id and a later element j repeats that id, entries i and j of the repo list are both built from element i |
| `GitHubUser.ToRepo` | src/main/java/seedu/address/model/person/github/User.java:88-93 | the repo of one snapshot element; `User.FetchRepo` proves the four getters of an id build it from that id's first element |
| `GitHubUser.User.constructor` | src/main/java/seedu/address/model/person/github/User.java:42-52 | username and url are copied from the user info; name, email and address follow the fallback and absence rules; the repo list is the one the snapshot yields |
| `GitHubUser.User.UpdatedRepoList` | src/main/java/seedu/address/model/person/github/User.java:85-100 | the loop over getIDs builds exactly the repo list of the snapshot, and no lookup in it fails |
| `GitHubUser.User.FetchRepo` | src/main/java/seedu/address/model/person/github/User.java:88-93 | the four lookups of one listed id build the repo of the first element with that id |
| `GitHubUser.User.ToString` | src/main/java/seedu/address/model/person/github/User.java:102-105 | the profile link; `ToStringLayout` proves it is the prefix followed by the username and determines the username |
| `GitHubUser.User.EqualsDefinedFor` | src/main/java/seedu/address/model/person/github/User.java:118-122 | where equals completes: a different user with equal username, url and name requires the receiver's email, and an equal email too requires its address |
| `GitHubUser.User.Equals` | src/main/java/seedu/address/model/person/github/User.java:107-124 | equals, applicable exactly where it completes: the same object, or a user with all six fields equal; `UserEqualsIsEquivalence` and the lemmas below state its properties |
| `GitHubUser.User.EqualsNullSafe` | src/main/java/seedu/address/model/person/github/User.java:118-123 | equals with null-safe comparisons of email and address (defined everywhere); `NullSafeUsersFromSameInputsAreEqual` proves it meets the documented equality |
| `GitHubUser.User.HashCode` | src/main/java/seedu/address/model/person/github/User.java:126-129 | the hash of username, url, name, email and address; `UserEqualsImpliesEqualHash` proves it consistent with equals |
| `GitHubUser.ToStringLayout` | src/main/java/seedu/address/model/person/github/User.java:28-105 | toString is "https://github.com/" followed by the username, so the link determines the username |
| `GitHubUser.UserEqualsIsEquivalence` | src/main/java/seedu/address/model/person/github/User.java:107-124 | equals is reflexive and false for null, and both calls complete; wherever the calls complete it is symmetric and transitive |
| `GitHubUser.UserEqualsImpliesEqualHash` | src/main/java/seedu/address/model/person/github/User.java:107-129 | users that equals relates (where it completes) have equal hash codes, for any hash of the hashed fields |
| `GitHubUser.UsersFromSameInputsAreEqual` | src/main/java/seedu/address/model/person/github/User.java:42-124 | for two distinct users built from the same user info and snapshot, equals completes exactly when the info has an email and a location, and then they are equal |
| `GitHubUser.EmaillessUsersEqualsThrows` | src/main/java/seedu/address/model/person/github/User.java:118-121 | two distinct users built from the same user info without an email make equals dereference the absent email |
| `GitHubUser.NullSafeUsersFromSameInputsAreEqual` | src/main/java/seedu/address/model/person/github/User.java:118-123 | with null-safe comparisons, users built from the same inputs are always equal, and that comparison agrees with equals wherever equals completes |
| `GitHubUser.UsersWithDifferentEmailDiffer` | src/main/java/seedu/address/model/person/github/User.java:47-121 | when the first user has an email, equals completes on users built from user infos that differ only in the email, and it is false; a missing location does not matter, since line 121 returns first |
| `GitHubUser.OctocatExample` | src/main/java/seedu/address/model/person/github/User.java:42-52 | the user built from a user info without a name and a one-repo snapshot has the username as name and that repo with its fork count |
| `Collaborators.CompareStrings` | src/main/java/seedu/address/model/person/Person.java:101-104 | String.compareTo: the first differing characters' difference, else the length difference; the lemmas below state its order |
| `Collaborators.Name.CompareTo` | src/main/java/seedu/address/model/person/Person.java:101-104 | the name order, String.compareTo on the full names; `NameOrderIsTotal` proves it a total order |
| `Collaborators.CompareZeroIffEqual` | src/main/java/seedu/address/model/person/Person.java:101-104 | String.compareTo is zero exactly on equal strings |
| `Collaborators.CompareAntisymmetric` | src/main/java/seedu/address/model/person/Person.java:101-104 | swapping the strings negates String.compareTo |
| `Collaborators.CompareTransitive` | src/main/java/seedu/address/model/person/Person.java:101-104 | String.compareTo's strict order is transitive |
| `Collaborators.NameOrderIsTotal` | src/main/java/seedu/address/model/person/Person.java:102-104 | the name order is a total order: zero exactly on equal names, antisymmetric, transitive |
| `Persons.Person.constructor` | src/main/java/seedu/address/model/person/Person.java:38-70 | the fields and the Optional getters equal the arguments (an absent address, role or timezone stays absent); tags and contacts equal the set and map passed in; the GitHub user is always empty |
| `Persons.Person.IsSamePerson` | src/main/java/seedu/address/model/person/Person.java:92-99 | weak identity; `SamePersonIffEqualNames` and `SamePersonIsEquivalence` state what it means |
| `Persons.Person.CompareTo` | src/main/java/seedu/address/model/person/Person.java:101-104 | the order by name; `CompareToMatchesSamePerson` ties it to weak identity |
| `Persons.Person.SameFieldsBeforeUser` | src/main/java/seedu/address/model/person/Person.java:121-126 | the six fields equals compares before it reaches the GitHub user |
| `Persons.Person.Equals` | src/main/java/seedu/address/model/person/Person.java:110-128 | strong equality, applicable wherever it completes: the GitHub users are compared only once the six other fields are equal; the lemmas below state its properties |
| `Persons.Person.HashCode` | src/main/java/seedu/address/model/person/Person.java:130-134 | the hash of name, address, tags, contacts and the GitHub user; `EqualsImpliesEqualHash` proves it consistent with equals |
| `Persons.OptionalUserText` | src/main/java/seedu/address/model/person/Person.java:159-160 | Optional.toString of the GitHub user: "Optional.empty", or "Optional[" and the user's link and "]" |
| `Persons.UsersComparable` | src/main/java/seedu/address/model/person/Person.java:127 | Optional.equals on the two users completes: User.equals, when it is called, does not dereference null |
| `Persons.OptionalUserEquals` | src/main/java/seedu/address/model/person/Person.java:127 | Optional.equals: both empty, or the same user, or users that User.equals relates |
| `Persons.OptionalUserHash` | src/main/java/seedu/address/model/person/Person.java:133 | Optional's hash of the GitHub user: 0 when empty, otherwise the user's hash code |
| `Persons.SamePersonIffEqualNames` | src/main/java/seedu/address/model/person/Person.java:92-99 | isSamePerson holds exactly for a person with an equal name; it holds for the same object and is false for null |
| `Persons.SamePersonIsEquivalence` | src/main/java/seedu/address/model/person/Person.java:88-99 | weak identity is symmetric and transitive |
| `Persons.EqualsImpliesSamePerson` | src/main/java/seedu/address/model/person/Person.java:110-128 | strong equality implies weak identity |
| `Persons.EqualsImpliesEqualHash` | src/main/java/seedu/address/model/person/Person.java:110-134 | equal persons have equal hash codes, for any hashes of the fields and of the GitHub user |
| `Persons.NewPersonsComparable` | src/main/java/seedu/address/model/person/Person.java:110-128 | for persons without a GitHub user, as every constructed person is, equals is symmetric and compares exactly the six other fields |
| `Persons.CompareToMatchesSamePerson` | src/main/java/seedu/address/model/person/Person.java:92-104 | compareTo is zero exactly for the same person, and swapping the two persons negates it |
| `Persons.Person.Text` | src/main/java/seedu/address/model/person/Person.java:136-162 | the rendering for given iteration orders; `Person.ToString` is proved equal to it and the layout lemmas below state its shape |
| `Persons.Person.ToString` | src/main/java/seedu/address/model/person/Person.java:136-162 | the builder loop yields the text of the name followed by the tags, contacts, address, role, timezone and GitHub segments |
| `Persons.Person.AppendTags` | src/main/java/seedu/address/model/person/Person.java:141-145 | appends "; Tags: " and the tags in iteration order only when there are tags |
| `Persons.Person.AppendContacts` | src/main/java/seedu/address/model/person/Person.java:147-153 | appends "; type: contact" for each key in iteration order, only when there are contacts |
| `Persons.AppendIfPresent` | src/main/java/seedu/address/model/person/Person.java:155-157 | appends the caption and the field's text only when the field is present |
| `Persons.TextStartsWithName` | src/main/java/seedu/address/model/person/Person.java:139 | toString starts with the name |
| `Persons.TextEndsWithGithub` | src/main/java/seedu/address/model/person/Person.java:159-160 | toString ends with "; Github: " and the rendering of the GitHub user |
| `Persons.TagOrderEmptyIffNoTags` | src/main/java/seedu/address/model/person/Person.java:141-144 | an iteration order of the tag set is empty exactly when there are no tags |
| `Persons.TextTagsSegment` | src/main/java/seedu/address/model/person/Person.java:139-145 | without tags the tags segment is empty; with tags the name is followed directly by "; Tags: "; for an iteration order of the tags, the segment is empty exactly when that order is |
| `Persons.OptionalSegmentsPresentIffFields` | src/main/java/seedu/address/model/person/Person.java:155-157 | the address, role and timezone segments are non-empty exactly when the field is present, and then are their caption and text |
| `Persons.NewPersonGithubSegment` | src/main/java/seedu/address/model/person/Person.java:159-160 | without a GitHub user the closing segment renders "Optional.empty" |

## Left out

- Network I/O: the user-repos request and its route, the Unirest client, and the JSON parsing.
  The snapshot is given as a sequence of records instead.
- The avatar download in the `User` constructor (User.java:50). It is a side effect over I/O.
- `GetLastUpdated`: the update time is kept as the ISO-8601 offset date-time text the element
  carries. `LocalDateTime.parse` and its `DateTimeParseException` are not modelled, so a
  malformed timestamp does not fail here.
- Java `int` range: ids and fork counts are unbounded integers. `JSONObject.getInt` failures on
  missing or non-integer fields are not modelled either.
- `UserReposWrapper.equals` / `hashCode`: they compare the request objects, which are not
  modelled.
- `User.getRepoIds` delegates to `getIDs`, and the model calls `GetIDs` directly. The getters of
  `User` and `Person` are the `const` fields themselves.
- `requireAllNonNull`: Dafny's non-null types carry these checks. Java `private` visibility is not
  modelled.
- `equals(Object)` takes `object?`: an argument of another class is covered by the `is` test.
- `GitHubUser.User.Equals`: the NullPointerException that `User.equals` throws on an absent
  email or address is a precondition (`EqualsDefinedFor`, exactly the inputs on which the source
  does not throw), not an error result. `Persons.Person.Equals` calls this as-written `equals`,
  as `Person.java` does, and its precondition likewise covers only the inputs on which the
  GitHub users are compared. `EqualsNullSafe` is the corrected comparison; see "## Findings".
- Collaborator types (`Name`, `Address`, `Email`, `Tag`, `Contact`, `ContactType`, `Role`,
  `Timezone`, `Repo`, `RepoList`) are not part of this model. They are values with structural
  equality that wrap their text. Constructor validation (such as an `Email` format check) is not
  modelled. Their `toString` is taken to be their text. `RepoList` is a sequence, and its `add`
  appends.
- `Name.compareTo` is not part of this model. It is taken to be `String.compareTo` on the full
  name. Characters are Unicode scalar values, so UTF-16 surrogate ordering is not modelled.
- The concrete `Objects.hash` values. Only consistency between equality and hashing is stated.
- The iteration order of the tag `HashSet` and the contact `HashMap` in `Person.toString`. The
  order is a caller-given enumeration.
- `ResetCommand`, `GithubWrapper` and `UserInfoRoute` (and thus the user-info JSON fields) are
  not part of this model. They delegate to the model layer or do network I/O.

## Findings

| source | as written | input that shows it | evidently intended | confidence | as-written member | corrected member |
|---|---|---|---|---|---|---|
| src/main/java/seedu/address/model/person/github/User.java:54-59 | `isValidUsername` returns `!test.matches(VALIDATION_REGEX)` | "octocat" gives false; "-octocat" and "" give true | true exactly when the username fully matches the pattern, that is, meets the documented constraints | high; not executed | `GitHubUser.IsValidUsernameIsInverted` | `GitHubUser.IntendedValidatorMeetsConstraints` |
| src/main/java/seedu/address/model/person/github/User.java:118-122 | `equals` calls `email.equals(...)` and `address.equals(...)` on fields that the constructor leaves null when the user info has no email or location | two distinct users built from the octocat user info (`"email":null`) make `equals` throw a NullPointerException at line 121 | two users built from identical inputs are equal, whatever fields the user info lacks; `Objects.equals` on email and address gives that | high; not executed | `GitHubUser.EmaillessUsersEqualsThrows` | `GitHubUser.NullSafeUsersFromSameInputsAreEqual` |
