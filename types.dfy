/** The two enumerations of the domain model and the exceptions the core can raise. */
module Types {
  import opened Wrappers

  /** A Java String reference: None is null. */
  type JString = Option<string>

  /** The fixed set of cohort types (model/CohortType.java). */
  datatype CohortType = Fraud | Premium | Normal | Vip

  /** Paid or free user (model/UserType.java). */
  datatype UserType = Paid | Free

  /** Java exceptions that the modelled code throws or catches. */
  datatype Exception =
    | NullPointerException
    | IllegalArgumentException
    | NumberFormatException
    | RuntimeException
    | ServiceException   // any failure reported by a remote AWS call
    | JsonProcessingException

  /** Enum.name() of a cohort type. */
  function CohortTypeName(t: CohortType): (s: string)
    ensures s != [] && '_' !in s
  {
    match t
    case Fraud => "FRAUD"
    case Premium => "PREMIUM"
    case Normal => "NORMAL"
    case Vip => "VIP"
  }

  /** CohortType.valueOf(s): exact, case-sensitive match of a constant's name; None where Java throws. */
  function CohortTypeValueOf(s: string): (r: Option<CohortType>)
    ensures forall t :: r == Some(t) <==> CohortTypeName(t) == s
  {
    if s == "FRAUD" then Some(Fraud)
    else if s == "PREMIUM" then Some(Premium)
    else if s == "NORMAL" then Some(Normal)
    else if s == "VIP" then Some(Vip)
    else None
  }

  /** Enum.name() of a user type. */
  function UserTypeName(u: UserType): (s: string)
    ensures s != []
  {
    match u
    case Paid => "PAID"
    case Free => "FREE"
  }

  /** UserType.valueOf(s): exact match of a constant's name; None where Java throws. */
  function UserTypeValueOf(s: string): (r: Option<UserType>)
    ensures forall u :: r == Some(u) <==> UserTypeName(u) == s
  {
    if s == "PAID" then Some(Paid)
    else if s == "FREE" then Some(Free)
    else None
  }

  /** The name of a cohort type determines it. */
  lemma CohortTypeNameInjective(t: CohortType, u: CohortType)
    ensures CohortTypeName(t) == CohortTypeName(u) ==> t == u
  {
  }
}
