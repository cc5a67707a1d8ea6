/**
 * The value types that the modelled classes use but whose sources are not part of this model
 * (Name, Address, Email, Tag, Contact, ContactType, Role, Timezone, Repo). Each is a value with
 * equality that wraps its text; Name also carries the total order its compareTo provides.
 */
module Collaborators {

  /** A person's name; its order is that of java.lang.String.compareTo on the full name. */
  datatype Name = Name(fullName: string) {
    function CompareTo(other: Name): int
    {
      CompareStrings(fullName, other.fullName)
    }
  }

  datatype Address = Address(text: string)
  datatype Email = Email(text: string)
  datatype Tag = Tag(tagName: string)
  datatype Contact = Contact(text: string)
  datatype ContactType = ContactType(typeName: string)
  datatype Role = Role(text: string)
  datatype Timezone = Timezone(text: string)

  /** A repository's last-update time, kept as the value the JSON element carries. */
  datatype Timestamp = Timestamp(iso: string)

  /** One repository of a GitHub user. */
  datatype Repo = Repo(name: string, url: string, forkCount: int, lastUpdated: Timestamp)

  /**
   * java.lang.String.compareTo: the difference of the first pair of differing characters,
   * otherwise the difference of the lengths.
   */
  function CompareStrings(a: string, b: string): int
  {
    if a == [] || b == [] then |a| - |b|
    else if a[0] != b[0] then a[0] as int - b[0] as int
    else CompareStrings(a[1..], b[1..])
  }

  /** The comparison is zero exactly on equal strings. */
  lemma {:induction false} CompareZeroIffEqual(a: string, b: string)
    ensures CompareStrings(a, b) == 0 <==> a == b
  {
    if a != [] && b != [] && a[0] == b[0] {
      CompareZeroIffEqual(a[1..], b[1..]);
      assert a == [a[0]] + a[1..];
      assert b == [b[0]] + b[1..];
    }
  }

  /** Swapping the arguments negates the result. */
  lemma {:induction false} CompareAntisymmetric(a: string, b: string)
    ensures CompareStrings(a, b) == -CompareStrings(b, a)
  {
    if a != [] && b != [] && a[0] == b[0] {
      CompareAntisymmetric(a[1..], b[1..]);
    }
  }

  /** "Less than" under the comparison is transitive. */
  lemma {:induction false} CompareTransitive(a: string, b: string, c: string)
    requires CompareStrings(a, b) < 0 && CompareStrings(b, c) < 0
    ensures CompareStrings(a, c) < 0
  {
    if a != [] && b != [] && c != [] && a[0] == b[0] && b[0] == c[0] {
      CompareTransitive(a[1..], b[1..], c[1..]);
    }
  }

  /** Name.compareTo is a total order: zero exactly on equal names, antisymmetric, transitive. */
  lemma NameOrderIsTotal(x: Name, y: Name, z: Name)
    ensures x.CompareTo(y) == 0 <==> x == y
    ensures x.CompareTo(y) == -y.CompareTo(x)
    ensures x.CompareTo(y) < 0 && y.CompareTo(z) < 0 ==> x.CompareTo(z) < 0
  {
    CompareZeroIffEqual(x.fullName, y.fullName);
    CompareAntisymmetric(x.fullName, y.fullName);
    if x.CompareTo(y) < 0 && y.CompareTo(z) < 0 {
      CompareTransitive(x.fullName, y.fullName, z.fullName);
    }
  }
}
