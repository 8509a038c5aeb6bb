/** The service-side and domain-side `OrderStatus` enums describe the same lifecycle. */
module StatusAgreement {
  import OrderModels
  import DomainEntities

  /** The n-th member of the domain enum. */
  function ToDomain(s: OrderModels.OrderStatus): DomainEntities.OrderStatus {
    DomainEntities.Members[OrderModels.Ordinal(s)]
  }

  /**
   * Both enums list the same names in the same order, so the member with a given
   * underlying value has the same name on either side.
   */
  lemma EnumsAgree()
    ensures DomainEntities.Names == OrderModels.Names
    ensures forall s: OrderModels.OrderStatus ::
      DomainEntities.Ordinal(ToDomain(s)) == OrderModels.Ordinal(s)
      && DomainEntities.Name(ToDomain(s)) == OrderModels.Name(s)
  {
    DomainEntities.MembersAreClosed();
  }
}
