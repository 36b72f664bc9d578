/**
 * Request validation for tables: the create schema's bounds and name rule,
 * and the update schema, whose optional name has bounds only.
 */
module TableSchema {
  import opened Wrappers

  const MAX_NAME_LENGTH := 100
  const MAX_LOCATION_LENGTH := 100
  const MAX_SEATS := 20

  /** The body of a create request, before validation. */
  datatype TableRequest = TableRequest(name: string, seats: int, location: string)

  /** A validated create request. */
  datatype TableCreate = TableCreate(name: string, seats: int, location: string)

  /** The body of an update request: every field optional. */
  datatype TableUpdate = TableUpdate(name: Option<string>, seats: Option<int>, location: Option<string>)

  /** One supplied field of an update, as `dict(exclude_unset=True)` yields it. */
  datatype TableField = Name(name: string) | Seats(seats: int) | Location(location: string)

  /**
   * A letter or number: ASCII letters and digits, every Latin-1 character
   * `isalnum` accepts (the letters, the ordinal indicators, the micro sign,
   * the superscript digits and the vulgar fractions) and the Cyrillic letters
   * (the names this restaurant uses are Russian).
   */
  predicate IsAlnumChar(c: char) {
    || ('a' <= c <= 'z') || ('A' <= c <= 'Z') || ('0' <= c <= '9')
    || c == '\U{AA}' || ('\U{B2}' <= c <= '\U{B3}') || c == '\U{B5}'
    || ('\U{B9}' <= c <= '\U{BA}') || ('\U{BC}' <= c <= '\U{BE}')
    || ('\U{C0}' <= c <= '\U{D6}') || ('\U{D8}' <= c <= '\U{F6}') || ('\U{F8}' <= c <= '\U{FF}')
    || ('\U{400}' <= c <= '\U{481}') || ('\U{48A}' <= c <= '\U{4FF}')
  }

  /** Python's `str.isalnum`: non-empty, and every character a letter or digit. */
  predicate IsAlnum(s: string) {
    |s| > 0 && forall i :: 0 <= i < |s| ==> IsAlnumChar(s[i])
  }

  /** `s.replace(' ', '')`: the string with every space character dropped. */
  function RemoveSpaces(s: string): (r: string)
    ensures |r| <= |s|
    ensures forall c :: c in r <==> c in s && c != ' '
    decreases |s|
  {
    if s == [] then []
    else
      assert forall c :: c in s <==> c == s[0] || c in s[1..];
      (if s[0] == ' ' then [] else [s[0]]) + RemoveSpaces(s[1..])
  }

  /** Dropping spaces keeps every other character as often as it occurs. */
  lemma {:induction false} RemoveSpacesCounts(s: string)
    ensures multiset(RemoveSpaces(s)) == multiset(s)[' ' := 0]
    decreases |s|
  {
    if s != [] {
      assert s == [s[0]] + s[1..];
      RemoveSpacesCounts(s[1..]);
    }
  }

  /** Dropping spaces keeps the order of what is left: it distributes over concatenation. */
  lemma {:induction false} RemoveSpacesConcat(a: string, b: string)
    ensures RemoveSpaces(a + b) == RemoveSpaces(a) + RemoveSpaces(b)
    decreases |a|
  {
    if a != [] {
      assert (a + b)[0] == a[0];
      assert (a + b)[1..] == a[1..] + b;
      RemoveSpacesConcat(a[1..], b);
    } else {
      assert a + b == b;
    }
  }

  /**
   * Accepts a name made only of letters, digits and spaces, with at least one
   * character that is not a space; a valid name is returned unchanged.
   */
  function NameMustNotContainSpecialChars(v: string): (r: Result<string, string>)
    ensures r.Success? <==>
      (exists c :: c in v && c != ' ') && (forall c :: c in v ==> c == ' ' || IsAlnumChar(c))
    ensures r.Success? ==> r.value == v
  {
    var stripped := RemoveSpaces(v);
    if |stripped| == 0 then
      assert stripped == [];
      assert !exists c :: c in v && c != ' ';
      Failure("name may only contain letters, digits and spaces")
    else if !IsAlnum(stripped) then
      var i :| 0 <= i < |stripped| && !IsAlnumChar(stripped[i]);
      assert stripped[i] in v && stripped[i] != ' ';
      Failure("name may only contain letters, digits and spaces")
    else
      assert stripped[0] in v && stripped[0] != ' ';
      assert forall c :: c in v ==> c == ' ' || IsAlnumChar(c) by {
        forall c | c in v ensures c == ' ' || IsAlnumChar(c) {
          if c != ' ' {
            var i :| 0 <= i < |stripped| && stripped[i] == c;
          }
        }
      }
      Success(v)
  }

  /** `name` bounds: length 1..100. */
  predicate NameInBounds(name: string) { 1 <= |name| <= MAX_NAME_LENGTH }

  /** `seats` bounds: greater than 0, at most 20. */
  predicate SeatsInBounds(seats: int) { 0 < seats <= MAX_SEATS }

  /** `location` bounds: length 1..100. */
  predicate LocationInBounds(location: string) { 1 <= |location| <= MAX_LOCATION_LENGTH }

  /** The names of the rejected fields of a create request, in declaration order. */
  function CreateErrors(req: TableRequest): seq<string> {
    (if NameInBounds(req.name) && NameMustNotContainSpecialChars(req.name).Success? then [] else ["name"])
    + (if SeatsInBounds(req.seats) then [] else ["seats"])
    + (if LocationInBounds(req.location) then [] else ["location"])
  }

  /**
   * Validates a create request: accepted exactly when the name has 1..100
   * characters, all letters, digits or spaces and not all spaces, the seats
   * are in [1, 20] and the location has 1..100 characters.
   */
  function ParseCreate(req: TableRequest): (r: Result<TableCreate, seq<string>>)
    ensures r.Success? <==>
      && 1 <= |req.name| <= 100
      && (exists c :: c in req.name && c != ' ')
      && (forall c :: c in req.name ==> c == ' ' || IsAlnumChar(c))
      && 1 <= req.seats <= 20
      && 1 <= |req.location| <= 100
    ensures r.Success? ==> r.value == TableCreate(req.name, req.seats, req.location)
    ensures r.Failure? ==> r.error != []
    ensures r.Failure? ==> ("name" in r.error <==>
      !(1 <= |req.name| <= 100 && NameMustNotContainSpecialChars(req.name).Success?))
    ensures r.Failure? ==> ("seats" in r.error <==> !(1 <= req.seats <= 20))
    ensures r.Failure? ==> ("location" in r.error <==> !(1 <= |req.location| <= 100))
  {
    var errors := CreateErrors(req);
    if errors == [] then Success(TableCreate(req.name, req.seats, req.location)) else Failure(errors)
  }

  /** The names of the rejected fields of an update request: bounds only, no name-character rule. */
  function UpdateErrors(u: TableUpdate): (errors: seq<string>)
    ensures errors == [] <==>
      && (u.name.Some? ==> 1 <= |u.name.value| <= 100)
      && (u.seats.Some? ==> 1 <= u.seats.value <= 20)
      && (u.location.Some? ==> 1 <= |u.location.value| <= 100)
  {
    (if u.name.Some? && !NameInBounds(u.name.value) then ["name"] else [])
    + (if u.seats.Some? && !SeatsInBounds(u.seats.value) then ["seats"] else [])
    + (if u.location.Some? && !LocationInBounds(u.location.value) then ["location"] else [])
  }

  /** The supplied fields of an update, in declaration order. */
  function UpdateData(u: TableUpdate): seq<TableField> {
    (if u.name.Some? then [Name(u.name.value)] else [])
    + (if u.seats.Some? then [Seats(u.seats.value)] else [])
    + (if u.location.Some? then [Location(u.location.value)] else [])
  }

  /** A name of spaces only is rejected: nothing is left once they are removed. */
  lemma AllSpacesNameRejected(v: string)
    requires forall i :: 0 <= i < |v| ==> v[i] == ' '
    ensures NameMustNotContainSpecialChars(v).Failure?
  {
  }

  /** The empty name fails the create schema. */
  lemma EmptyNameRejected(seats: int, location: string)
    ensures var r := ParseCreate(TableRequest("", seats, location));
      r.Failure? && "name" in r.error
  {
  }

  /** A name with a character that is not a letter, digit or space fails the create schema but passes the update schema. */
  lemma UpdateSkipsNameCharacterCheck(name: string, seats: int, location: string)
    requires 1 <= |name| <= 100
    requires exists c :: c in name && c != ' ' && !IsAlnumChar(c)
    ensures ParseCreate(TableRequest(name, seats, location)).Failure?
    ensures UpdateErrors(TableUpdate(Some(name), None, None)) == []
  {
  }
}
