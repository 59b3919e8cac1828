/**
 * The family-member record and the values it is made of (src/types/types.ts).
 * Everything here is data; the behaviour lives in the Layout, Store and
 * Attributes modules.
 */
module Types {

  datatype Option<+T> = None | Some(value: T)

  /** 'M' | 'F' | 'U' | 'P': male, female, unknown, pet. */
  datatype Gender = Male | Female | UnknownGender | Pet

  datatype RelationStatus = Married | Divorced

  datatype BirthStatus = Normal | Pregnancy | Miscarriage | Abortion

  /** The twelve attribute markers 'A'..'L'. */
  datatype AttributeMarker = A | B | C | D | E | F | G | H | I | J | K | L

  /** A manual position override, stored with the person. */
  datatype Point = Point(x: real, y: real)

  /**
   * One family member. Optional numeric fields are `Option<int>`: JavaScript's
   * `null` and `undefined` are both `None`. Optional booleans are `bool`, an
   * absent flag being `false`.
   */
  datatype Person = Person(
    key: int,
    name: string,
    age: Option<int>,
    gender: Gender,
    deceased: bool,
    father: Option<int>,
    mother: Option<int>,
    spouse: Option<int>,
    relationStatus: Option<RelationStatus>,
    attributes: seq<AttributeMarker>,
    position: Option<Point>,
    isAdopted: bool,
    isFoster: bool,
    birthStatus: Option<BirthStatus>,
    twinGroup: Option<int>,
    isIdenticalTwin: bool)

  /** The saved-file document: a version tag, the key counter and the people. */
  datatype GenogramData = GenogramData(version: string, nextKey: int, familyData: seq<Person>)

  /**
   * JavaScript truthiness of an optional number: `null`, `undefined` and `0`
   * are all falsy, so a reference to key 0 counts as no reference.
   */
  predicate Truthy(o: Option<int>) {
    o.Some? && o.value != 0
  }

  /** The set of keys present in a collection of people. */
  function KeySet(data: seq<Person>): set<int> {
    set i | 0 <= i < |data| :: data[i].key
  }

  /** `age || 0`: a missing age counts as 0. */
  function AgeOrZero(p: Person): int {
    if p.age.Some? then p.age.value else 0
  }
}
