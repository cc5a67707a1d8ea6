/**
 * A person in the address book: a name (the identity), optional address, role and timezone,
 * a set of tags, a map of contacts, and an optional GitHub user.
 */
module Persons {
  import opened Wrappers
  import opened Collaborators
  import opened GitHubUser

  /** No element occurs twice. */
  predicate NoDuplicates<T(==)>(s: seq<T>)
  {
    forall i, j :: 0 <= i < j < |s| ==> s[i] != s[j]
  }

  /** `order` is an iteration order of the tag set: each tag once. */
  predicate EnumeratesSet(order: seq<Tag>, items: set<Tag>)
  {
    (forall x :: x in order ==> x in items) && (forall x :: x in items ==> x in order) && NoDuplicates(order)
  }

  /** `order` is an iteration order of the contact map's keys: each key once. */
  predicate EnumeratesKeys(order: seq<ContactType>, m: map<ContactType, Contact>)
  {
    (forall k :: k in order ==> k in m) && (forall k :: k in m ==> k in order) && NoDuplicates(order)
  }

  /** The tags one after another, as forEach(builder::append) writes them. */
  function TagsText(tags: seq<Tag>): string
  {
    if tags == [] then "" else TagsText(tags[..|tags| - 1]) + tags[|tags| - 1].tagName
  }

  /** "; <type>: <contact>" for each key, in the given order. */
  function ContactsText(keys: seq<ContactType>, contacts: map<ContactType, Contact>): string
    requires forall k :: k in keys ==> k in contacts
  {
    if keys == [] then ""
    else
      var k := keys[|keys| - 1];
      ContactsText(keys[..|keys| - 1], contacts) + "; " + k.typeName + ": " + contacts[k].text
  }

  /** Optional.toString of the GitHub user. */
  function OptionalUserText(user: Option<User>): string
  {
    match user
    case None => "Optional.empty"
    case Some(u) => "Optional[" + u.ToString() + "]"
  }

  /**
   * Optional.equals on GitHub users: both empty, or the same user, or users that User.equals
   * relates.
   */
  predicate OptionalUserEquals(a: Option<User>, b: Option<User>)
    requires UsersComparable(a, b)
  {
    match a
    case None => b.None?
    case Some(u) => b.Some? && (u == b.value || u.Equals(b.value))
  }

  /** Optional.equals completes: User.equals, when it is called, does not dereference null. */
  predicate UsersComparable(a: Option<User>, b: Option<User>)
  {
    a.Some? && b.Some? && a.value != b.value ==> a.value.EqualsDefinedFor(b.value)
  }

  /** Optional.hashCode of a GitHub user: the user's hash code, or 0 when empty. */
  function OptionalUserHash(a: Option<User>, userHash: UserHash): int
  {
    match a
    case None => 0
    case Some(u) => u.HashCode(userHash)
  }

  /** The collaborator that hash codes are computed with: any function of the hashed fields. */
  type PersonHash = (Name, Option<Address>, set<Tag>, map<ContactType, Contact>, int) -> int

  class Person {
    // Identity field
    const name: Name

    // Data fields
    const address: Option<Address>
    const gitHubUser: Option<User>
    const role: Option<Role>
    const timezone: Option<Timezone>
    var tags: set<Tag>
    var contacts: map<ContactType, Contact>

    /**
     * Creates a person; an absent address, role or timezone is passed as None. The tag set and
     * the contact map start empty and are filled from the arguments. The GitHub user is not set.
     */
    constructor (name: Name, address: Option<Address>, tags: set<Tag>,
                 contacts: map<ContactType, Contact>, role: Option<Role>, timezone: Option<Timezone>)
      ensures this.name == name && this.address == address
      ensures this.role == role && this.timezone == timezone
      ensures this.tags == tags && this.contacts == contacts
      ensures gitHubUser == None
    {
      this.name := name;
      this.address := address;
      this.role := role;
      this.timezone := timezone;
      this.gitHubUser := None;
      this.tags := {};
      this.contacts := map[];
      new;
      this.tags := this.tags + tags;
      this.contacts := this.contacts + contacts;
    }

    /** isSamePerson: the same object, or a person with an equal name. */
    predicate IsSamePerson(otherPerson: Person?)
    {
      otherPerson == this || (otherPerson != null && otherPerson.name == name)
    }

    /** compareTo delegates to the names. */
    function CompareTo(other: Person): int
    {
      name.CompareTo(other.name)
    }

    /** The six fields that equals compares before it reaches the GitHub user. */
    predicate SameFieldsBeforeUser(otherPerson: Person)
      reads this, otherPerson
    {
      && otherPerson.name == name
      && otherPerson.address == address
      && otherPerson.tags == tags
      && otherPerson.contacts == contacts
      && otherPerson.role == role
      && otherPerson.timezone == timezone
    }

    /**
     * equals: the same object, or a person with equal identity and data fields. The GitHub users
     * are compared only once the other six fields are equal, so only then must that comparison
     * complete.
     */
    predicate Equals(other: object?)
      reads this, other
      requires other is Person && other != this && SameFieldsBeforeUser(other as Person) ==>
        UsersComparable((other as Person).gitHubUser, gitHubUser)
    {
      other == this ||
      (other is Person &&
       var otherPerson := other as Person;
       && SameFieldsBeforeUser(otherPerson)
       && OptionalUserEquals(otherPerson.gitHubUser, gitHubUser))
    }

    /**
     * Objects.hash over name, address, tags, contacts and the GitHub user, for given hashes of
     * the fields and of a user.
     */
    function HashCode(hash: PersonHash, userHash: UserHash): int
      reads this
    {
      hash(name, address, tags, contacts, OptionalUserHash(gitHubUser, userHash))
    }

    /** "; Tags: " and the tags, when there are tags. */
    function TagsPart(tagOrder: seq<Tag>): string
      reads this
    {
      if tags != {} then "; Tags: " + TagsText(tagOrder) else ""
    }

    /** The contacts, when there are contacts. */
    function ContactsPart(contactOrder: seq<ContactType>): string
      reads this
      requires EnumeratesKeys(contactOrder, contacts)
    {
      if contacts != map[] then ContactsText(contactOrder, contacts) else ""
    }

    /** "; Address: " and the address, when present. */
    function AddressPart(): string
    {
      Segment("; Address: ", address.Map((a: Address) => a.text))
    }

    /** "; Role: " and the role, when present. */
    function RolePart(): string
    {
      Segment("; Role: ", role.Map((r: Role) => r.text))
    }

    /** "; Timezone: " and the timezone, when present. */
    function TimezonePart(): string
    {
      Segment("; Timezone: ", timezone.Map((z: Timezone) => z.text))
    }

    /** The closing segment: the GitHub user, as Optional renders it. */
    function GithubPart(): string
    {
      "; Github: " + OptionalUserText(gitHubUser)
    }

    /** The text of toString, for the given iteration orders of the tag set and contact map. */
    function Text(tagOrder: seq<Tag>, contactOrder: seq<ContactType>): string
      reads this
      requires EnumeratesKeys(contactOrder, contacts)
    {
      name.fullName + TagsPart(tagOrder) + ContactsPart(contactOrder)
        + AddressPart() + RolePart() + TimezonePart() + GithubPart()
    }

    /** toString, appending to a builder segment by segment. */
    method ToString(tagOrder: seq<Tag>, contactOrder: seq<ContactType>) returns (s: string)
      requires EnumeratesSet(tagOrder, tags) && EnumeratesKeys(contactOrder, contacts)
      ensures s == Text(tagOrder, contactOrder)
    {
      var builder := name.fullName;
      builder := AppendTags(builder, tagOrder);
      builder := AppendContacts(builder, contactOrder);
      builder := AppendIfPresent(builder, "; Address: ", address.Map((a: Address) => a.text));
      builder := AppendIfPresent(builder, "; Role: ", role.Map((r: Role) => r.text));
      builder := AppendIfPresent(builder, "; Timezone: ", timezone.Map((z: Timezone) => z.text));
      builder := builder + GithubPart();
      s := builder;
    }

    /** When there are tags, appends "; Tags: " and each tag in the given order. */
    method AppendTags(builder: string, tagOrder: seq<Tag>) returns (b: string)
      ensures b == builder + TagsPart(tagOrder)
    {
      b := builder;
      if tags != {} {
        b := b + "; Tags: ";
        for i := 0 to |tagOrder|
          invariant b == builder + "; Tags: " + TagsText(tagOrder[..i])
        {
          assert tagOrder[..i + 1][..i] == tagOrder[..i];
          b := b + tagOrder[i].tagName;
        }
        assert tagOrder[..|tagOrder|] == tagOrder;
      }
    }

    /** When there are contacts, appends "; <type>: <contact>" for each key in the given order. */
    method AppendContacts(builder: string, contactOrder: seq<ContactType>) returns (b: string)
      requires EnumeratesKeys(contactOrder, contacts)
      ensures b == builder + ContactsPart(contactOrder)
    {
      b := builder;
      if contacts != map[] {
        for i := 0 to |contactOrder|
          invariant b == builder + ContactsText(contactOrder[..i], contacts)
        {
          assert contactOrder[..i + 1][..i] == contactOrder[..i];
          var contactType := contactOrder[i];
          b := b + ("; " + contactType.typeName + ": ");
          b := b + contacts[contactType].text;
        }
        assert contactOrder[..|contactOrder|] == contactOrder;
      }
    }
  }

  /** caption followed by the text, when the text is present (Optional.ifPresent). */
  function Segment(caption: string, text: Option<string>): string
  {
    if text.Some? then caption + text.value else ""
  }

  /** Appends the segment of an optional field. */
  method AppendIfPresent(builder: string, caption: string, text: Option<string>) returns (b: string)
    ensures b == builder + Segment(caption, text)
  {
    b := builder;
    if text.Some? {
      b := b + (caption + text.value);
    }
  }

  /** isSamePerson holds exactly for a person with an equal name; it is false for null. */
  lemma SamePersonIffEqualNames(p: Person, q: Person?)
    ensures p.IsSamePerson(q) <==> q != null && q.name == p.name
    ensures !p.IsSamePerson(null)
    ensures p.IsSamePerson(p)
  {
  }

  /** Weak identity is an equivalence: symmetric and transitive. */
  lemma SamePersonIsEquivalence(p: Person, q: Person, r: Person)
    ensures p.IsSamePerson(q) <==> q.IsSamePerson(p)
    ensures p.IsSamePerson(q) && q.IsSamePerson(r) ==> p.IsSamePerson(r)
  {
  }

  /** Strong equality implies weak identity. */
  lemma EqualsImpliesSamePerson(p: Person, q: Person)
    requires p != q && p.SameFieldsBeforeUser(q) ==> UsersComparable(q.gitHubUser, p.gitHubUser)
    requires p.Equals(q)
    ensures p.IsSamePerson(q)
  {
  }

  /** Equal persons have equal hash codes, whatever hashes the fields are combined with. */
  lemma EqualsImpliesEqualHash(p: Person, q: Person, hash: PersonHash, userHash: UserHash)
    requires p != q && p.SameFieldsBeforeUser(q) ==> UsersComparable(q.gitHubUser, p.gitHubUser)
    requires p.Equals(q)
    ensures p.HashCode(hash, userHash) == q.HashCode(hash, userHash)
  {
    if p != q && p.gitHubUser.Some? && p.gitHubUser.value != q.gitHubUser.value {
      UserEqualsImpliesEqualHash(q.gitHubUser.value, p.gitHubUser.value, userHash);
    }
  }

  /** Persons as the constructor builds them (no GitHub user) may always be compared. */
  lemma NewPersonsComparable(p: Person, q: Person)
    requires p.gitHubUser == None && q.gitHubUser == None
    ensures p.Equals(q) <==> q.Equals(p)
    ensures p.Equals(q) <==> (p.name == q.name && p.address == q.address && p.tags == q.tags
                             && p.contacts == q.contacts && p.role == q.role && p.timezone == q.timezone)
  {
  }

  /** compareTo is zero exactly for the same person, and swapping the persons negates it. */
  lemma CompareToMatchesSamePerson(p: Person, q: Person)
    ensures p.CompareTo(q) == 0 <==> p.IsSamePerson(q)
    ensures p.CompareTo(q) == -q.CompareTo(p)
  {
    NameOrderIsTotal(p.name, q.name, q.name);
  }

  /** x begins with a. */
  predicate StartsWith(x: string, a: string)
  {
    |a| <= |x| && x[..|a|] == a
  }

  /** Appending keeps a prefix. */
  lemma AppendKeepsPrefix(x: string, a: string, y: string)
    requires StartsWith(x, a)
    ensures StartsWith(x + y, a)
  {
    assert (x + y)[..|a|] == x[..|a|];
  }

  /** A prefix of the name and tags segment is a prefix of the whole text. */
  lemma TextKeepsPrefix(p: Person, tagOrder: seq<Tag>, contactOrder: seq<ContactType>, a: string)
    requires EnumeratesKeys(contactOrder, p.contacts)
    requires StartsWith(p.name.fullName + p.TagsPart(tagOrder), a)
    ensures StartsWith(p.Text(tagOrder, contactOrder), a)
  {
    var x := p.name.fullName + p.TagsPart(tagOrder);
    AppendKeepsPrefix(x, a, p.ContactsPart(contactOrder));
    x := x + p.ContactsPart(contactOrder);
    AppendKeepsPrefix(x, a, p.AddressPart());
    x := x + p.AddressPart();
    AppendKeepsPrefix(x, a, p.RolePart());
    x := x + p.RolePart();
    AppendKeepsPrefix(x, a, p.TimezonePart());
    x := x + p.TimezonePart();
    AppendKeepsPrefix(x, a, p.GithubPart());
  }

  /** toString starts with the name. */
  lemma TextStartsWithName(p: Person, tagOrder: seq<Tag>, contactOrder: seq<ContactType>)
    requires EnumeratesKeys(contactOrder, p.contacts)
    ensures StartsWith(p.Text(tagOrder, contactOrder), p.name.fullName)
  {
    var n := p.name.fullName;
    AppendKeepsPrefix(n, n, p.TagsPart(tagOrder));
    TextKeepsPrefix(p, tagOrder, contactOrder, n);
  }

  /** toString ends with "; Github: " and the rendering of the GitHub user. */
  lemma TextEndsWithGithub(p: Person, tagOrder: seq<Tag>, contactOrder: seq<ContactType>)
    requires EnumeratesKeys(contactOrder, p.contacts)
    ensures var t := p.Text(tagOrder, contactOrder);
            var github := "; Github: " + OptionalUserText(p.gitHubUser);
            |github| <= |t| && t[|t| - |github|..] == github
  {
  }

  /** An iteration order of the tags is empty exactly when there are no tags. */
  lemma TagOrderEmptyIffNoTags(tags: set<Tag>, tagOrder: seq<Tag>)
    requires EnumeratesSet(tagOrder, tags)
    ensures tags != {} <==> tagOrder != []
  {
    if tagOrder == [] {
      assert forall x :: x !in tags;
    } else {
      assert tagOrder[0] in tags;
    }
  }

  /** The tags segment is empty without tags and otherwise follows the name. */
  lemma TextTagsSegment(p: Person, tagOrder: seq<Tag>, contactOrder: seq<ContactType>)
    requires EnumeratesKeys(contactOrder, p.contacts)
    ensures p.tags == {} ==> p.TagsPart(tagOrder) == ""
    ensures p.tags != {} ==> StartsWith(p.Text(tagOrder, contactOrder), p.name.fullName + "; Tags: ")
    ensures EnumeratesSet(tagOrder, p.tags) ==> (p.TagsPart(tagOrder) == "" <==> tagOrder == [])
  {
    if EnumeratesSet(tagOrder, p.tags) {
      TagOrderEmptyIffNoTags(p.tags, tagOrder);
    }
    if p.tags != {} {
      var a := p.name.fullName + "; Tags: ";
      assert p.name.fullName + p.TagsPart(tagOrder) == a + TagsText(tagOrder);
      AppendKeepsPrefix(a, a, TagsText(tagOrder));
      TextKeepsPrefix(p, tagOrder, contactOrder, a);
    }
  }

  /** The address, role and timezone segments are there exactly when the field is present. */
  lemma OptionalSegmentsPresentIffFields(p: Person)
    ensures p.AddressPart() != "" <==> p.address.Some?
    ensures p.RolePart() != "" <==> p.role.Some?
    ensures p.TimezonePart() != "" <==> p.timezone.Some?
    ensures p.address.Some? ==> p.AddressPart() == "; Address: " + p.address.value.text
    ensures p.role.Some? ==> p.RolePart() == "; Role: " + p.role.value.text
    ensures p.timezone.Some? ==> p.TimezonePart() == "; Timezone: " + p.timezone.value.text
  {
  }

  /** Every person the constructor builds renders its GitHub user as "Optional.empty". */
  lemma NewPersonGithubSegment(p: Person)
    requires p.gitHubUser == None
    ensures OptionalUserText(p.gitHubUser) == "Optional.empty"
  {
  }
}
