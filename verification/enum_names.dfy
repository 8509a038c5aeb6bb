/**
 * Case-insensitive parsing of enum member names and the validating `OrderStatus`
 * setter built on it. Both order classes of the system (the service model and the
 * domain entity) carry an identical setter over an identical enum; this module
 * states that setter once, over the enum's list of member names in declaration order.
 */
module EnumNames {
  import opened Wrappers
  import opened Text

  /** No two member names are equal ignoring case, so a case-insensitive parse is unambiguous. */
  predicate DistinctIgnoringCase(names: seq<string>) {
    forall i, j | 0 <= i < j < |names| :: !EqualsIgnoreCase(names[i], names[j])
  }

  /** What C# admits as enum member names, as far as this model needs: letters only, unambiguous. */
  predicate WellFormedNames(names: seq<string>) {
    && DistinctIgnoringCase(names)
    && forall i | 0 <= i < |names| :: NameShaped(names[i])
  }

  /** Index of the first name at or after `k` that equals `v` ignoring case. */
  function FindFrom(names: seq<string>, v: string, k: nat): (r: Option<nat>)
    requires k <= |names|
    ensures r.Some? ==> k <= r.value < |names| && EqualsIgnoreCase(names[r.value], v)
    ensures r.Some? ==> forall j | k <= j < r.value :: !EqualsIgnoreCase(names[j], v)
    ensures r.None? <==> forall j | k <= j < |names| :: !EqualsIgnoreCase(names[j], v)
    decreases |names| - k
  {
    if k == |names| then None
    else if EqualsIgnoreCase(names[k], v) then Some(k)
    else FindFrom(names, v, k + 1)
  }

  /** Index of the first member name equal to `v` ignoring case, if any. */
  function Find(names: seq<string>, v: string): (r: Option<nat>)
    ensures r.Some? ==> r.value < |names| && EqualsIgnoreCase(names[r.value], v)
    ensures r.None? <==> forall j | 0 <= j < |names| :: !EqualsIgnoreCase(names[j], v)
  {
    FindFrom(names, v, 0)
  }

  /** With distinct names, every casing of the i-th name is found at index i and nowhere else. */
  lemma FindIsUnambiguous(names: seq<string>, i: nat, v: string)
    requires DistinctIgnoringCase(names)
    requires i < |names| && EqualsIgnoreCase(names[i], v)
    ensures Find(names, v) == Some(i)
  {
    var r := Find(names, v);
    assert r.Some?;
    if r.value != i {
      EqualsIgnoreCaseIsEquivalence(names[i], v, names[r.value]);
      EqualsIgnoreCaseIsEquivalence(names[r.value], v, names[i]);
      assert false;
    }
  }

  /** A letters-only value is never null or blank. */
  lemma NameShapedIsNotBlank(v: string)
    requires NameShaped(v)
    ensures !IsNullOrWhiteSpace(Some(v))
  {
    assert IsAsciiLetter(v[0]);
  }

  /**
   * The outcome of `Enum.TryParse(value, ignoreCase: true, out parsed)` on a non-blank value.
   * `Unparsed` marks the values this model does not describe: .NET also reads numbers,
   * comma-separated lists and padded names, and the model covers letters-only values only.
   */
  datatype Parsed = Member(index: nat) | NoMember | Unparsed

  function TryParse(names: seq<string>, v: string): (r: Parsed)
    ensures r.Unparsed? <==> !NameShaped(v)
    ensures r.Member? ==> r.index < |names| && EqualsIgnoreCase(names[r.index], v)
    ensures r.NoMember? <==> NameShaped(v) && forall j | 0 <= j < |names| :: !EqualsIgnoreCase(names[j], v)
  {
    if !NameShaped(v) then Unparsed
    else match Find(names, v)
      case Some(i) => Member(i)
      case None => NoMember
  }

  /** The `ArgumentException`s the setter throws, and the values outside the model. */
  datatype StatusError =
    | BlankStatus                    // null, empty or white space
    | UnknownStatus(value: string)   // matches no member name in any casing
    | UnmodelledForm(value: string)  // not letters-only: what .NET does is not modelled

  /** The backing field after an assignment, and the exception it threw, if any. */
  datatype Assignment = Assignment(stored: Option<string>, thrown: Option<StatusError>)

  /**
   * The `OrderStatus` setter over an enum with member `names`: reject blank values,
   * reject values naming no member, and otherwise store the member's canonical name.
   */
  function Assign(names: seq<string>, stored: Option<string>, value: Option<string>): (r: Assignment)
    ensures r.thrown.Some? ==> r.stored == stored
    ensures r.thrown == Some(BlankStatus) <==> IsNullOrWhiteSpace(value)
    ensures r.thrown.None? ==>
      && value.Some?
      && r.stored.Some? && r.stored.value in names
      && EqualsIgnoreCase(r.stored.value, value.value)
    ensures (r.thrown.Some? && r.thrown.value.UnknownStatus?) <==>
      && value.Some? && !IsNullOrWhiteSpace(value) && NameShaped(value.value)
      && forall j | 0 <= j < |names| :: !EqualsIgnoreCase(names[j], value.value)
  {
    if IsNullOrWhiteSpace(value) then Assignment(stored, Some(BlankStatus))
    else match TryParse(names, value.value)
      case Member(i) => Assignment(Some(names[i]), None)
      case NoMember => Assignment(stored, Some(UnknownStatus(value.value)))
      case Unparsed => Assignment(stored, Some(UnmodelledForm(value.value)))
  }

  /** Any casing of a member name is accepted and stored as the canonical name. */
  lemma AssignAcceptsAnyCasing(names: seq<string>, stored: Option<string>, i: nat, v: string)
    requires WellFormedNames(names)
    requires i < |names| && EqualsIgnoreCase(names[i], v)
    ensures Assign(names, stored, Some(v)) == Assignment(Some(names[i]), None)
  {
    NameShapedUpToCase(names[i], v);
    NameShapedIsNotBlank(v);
    FindIsUnambiguous(names, i, v);
  }

  /** Assigning the getter's current value back changes nothing. */
  lemma AssignIsIdempotent(names: seq<string>, stored: Option<string>)
    requires WellFormedNames(names)
    requires stored.None? || stored.value in names
    ensures Assign(names, stored, stored).stored == stored
  {
    if stored.Some? {
      var i :| 0 <= i < |names| && names[i] == stored.value;
      EqualsIgnoreCaseIsEquivalence(names[i], names[i], names[i]);
      AssignAcceptsAnyCasing(names, stored, i, stored.value);
    }
  }
}
