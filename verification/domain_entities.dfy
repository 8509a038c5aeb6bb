/**
 * The domain layer's `OrderStatus` enum and `Order` entity. The entity carries the
 * same validating status setter as the service's order document, parsed against
 * this enum rather than the service's.
 */
module DomainEntities {
  import opened Wrappers
  import opened Text
  import EnumNames

  /** The domain's order lifecycle states, a closed enum of eleven members. */
  datatype OrderStatus =
    | Placed
    | PendingApproval
    | Rejected
    | Accepted
    | InPreparation
    | ReadyForPickup
    | AssignedToRider
    | PickedUp
    | OutForDelivery
    | Delivered
    | Cancelled

  /** The members in declaration order; a member's position is its implicit underlying value. */
  const Members: seq<OrderStatus> := [
    Placed, PendingApproval, Rejected, Accepted, InPreparation, ReadyForPickup,
    AssignedToRider, PickedUp, OutForDelivery, Delivered, Cancelled
  ]

  /** The member names, as `Enum.GetNames` lists them. */
  const Names: seq<string> := [
    "Placed", "PendingApproval", "Rejected", "Accepted", "InPreparation", "ReadyForPickup",
    "AssignedToRider", "PickedUp", "OutForDelivery", "Delivered", "Cancelled"
  ]

  /** The implicit underlying value of a member: 0 for the first declared, counting up. */
  function Ordinal(s: OrderStatus): (n: nat)
    ensures n < |Members| && Members[n] == s
  {
    match s
    case Placed => 0
    case PendingApproval => 1
    case Rejected => 2
    case Accepted => 3
    case InPreparation => 4
    case ReadyForPickup => 5
    case AssignedToRider => 6
    case PickedUp => 7
    case OutForDelivery => 8
    case Delivered => 9
    case Cancelled => 10
  }

  /** `OrderStatus.ToString()`: the member's declared name. */
  function Name(s: OrderStatus): string {
    Names[Ordinal(s)]
  }

  /** The enum has exactly eleven members, numbered 0 to 10 in declaration order. */
  lemma MembersAreClosed()
    ensures |Members| == |Names| == 11
    ensures forall s: OrderStatus :: s in Members
    ensures forall i | 0 <= i < |Members| :: Ordinal(Members[i]) == i && Name(Members[i]) == Names[i]
    ensures Ordinal(Placed) == 0 && Ordinal(Cancelled) == 10
  {
    forall s: OrderStatus ensures s in Members {
      assert Members[Ordinal(s)] == s;
    }
  }

  /** Every member name is a non-empty run of ASCII letters. */
  lemma NamesAreLetters()
    ensures forall i | 0 <= i < |Names| :: NameShaped(Names[i])
  {
    forall i | 0 <= i < |Names| ensures NameShaped(Names[i]) {
      var n := Names[i];
      forall k | 0 <= k < |n| ensures IsAsciiLetter(n[k]) {
      }
    }
  }

  /** Member names are letters only and pairwise distinct even ignoring case. */
  lemma NamesAreWellFormed()
    ensures EnumNames.WellFormedNames(Names)
  {
    forall i, j | 0 <= i < j < |Names| ensures !EqualsIgnoreCase(Names[i], Names[j]) {
      assert |Names[i]| != |Names[j]| || FoldCase(Names[i][0]) != FoldCase(Names[j][0]);
    }
    NamesAreLetters();
  }

  /** The domain order entity. `status` is the setter's backing field, null until first assigned. */
  datatype Order = Order(
    orderId: string,
    customerId: string,
    createdAt: int,
    updatedAt: int,
    status: Option<string>,
    totalAmount: real,
    assignedRiderId: Option<int>
  )

  /** The order after `order.OrderStatus = value`, and the exception thrown, if any. */
  datatype StatusUpdate = StatusUpdate(order: Order, thrown: Option<EnumNames.StatusError>)

  /** The domain `Order.OrderStatus` setter. */
  function SetStatus(o: Order, value: Option<string>): (r: StatusUpdate)
    ensures r.order == o.(status := r.order.status)
    ensures r.thrown.Some? ==> r.order == o
    ensures r.thrown == Some(EnumNames.BlankStatus) <==> IsNullOrWhiteSpace(value)
    ensures r.thrown.None? ==>
      exists s: OrderStatus :: r.order.status == Some(Name(s)) && EqualsIgnoreCase(Name(s), value.value)
  {
    var a := EnumNames.Assign(Names, o.status, value);
    if a.thrown.None? then
      var i :| 0 <= i < |Names| && Names[i] == a.stored.value;
      MembersAreClosed();
      assert Name(Members[i]) == a.stored.value;
      StatusUpdate(o.(status := a.stored), None)
    else
      StatusUpdate(o, a.thrown)
  }

  /** Any casing of a member name is accepted and stored as the member's canonical name. */
  lemma SetStatusAcceptsAnyCasing(o: Order, s: OrderStatus, v: string)
    requires EqualsIgnoreCase(v, Name(s))
    ensures SetStatus(o, Some(v)) == StatusUpdate(o.(status := Some(Name(s))), None)
  {
    NamesAreWellFormed();
    EqualsIgnoreCaseIsEquivalence(v, Name(s), v);
    EnumNames.AssignAcceptsAnyCasing(Names, o.status, Ordinal(s), v);
  }

  /** A letters-only value that names no member in any casing is rejected and nothing is stored. */
  lemma SetStatusRejectsUnknownNames(o: Order, v: string)
    requires NameShaped(v)
    requires forall s: OrderStatus :: !EqualsIgnoreCase(v, Name(s))
    ensures SetStatus(o, Some(v)) == StatusUpdate(o, Some(EnumNames.UnknownStatus(v)))
  {
    EnumNames.NameShapedIsNotBlank(v);
    MembersAreClosed();
    forall j | 0 <= j < |Names| ensures !EqualsIgnoreCase(Names[j], v) {
      EqualsIgnoreCaseIsEquivalence(Names[j], v, v);
      assert !EqualsIgnoreCase(v, Name(Members[j]));
    }
  }

  /** For letters-only values, the accepted set is exactly the casings of the eleven member names. */
  lemma SetStatusAcceptsExactlyMembers(o: Order, v: string)
    requires NameShaped(v)
    ensures SetStatus(o, Some(v)).thrown.None? <==> exists s: OrderStatus :: EqualsIgnoreCase(v, Name(s))
  {
    if s: OrderStatus :| EqualsIgnoreCase(v, Name(s)) {
      SetStatusAcceptsAnyCasing(o, s, v);
    } else {
      SetStatusRejectsUnknownNames(o, v);
    }
  }

  /** Assigning the getter's current value back leaves the entity unchanged. */
  lemma SetStatusIsIdempotent(o: Order)
    requires o.status.None? || o.status.value in Names
    ensures SetStatus(o, o.status).order == o
  {
    NamesAreWellFormed();
    EnumNames.AssignIsIdempotent(Names, o.status);
  }
}
