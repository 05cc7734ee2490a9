/** The contact enumerations of the dashboard, restricted to the members the
    contact pages reference. */
module Enums {

  /** `ContactStatusEnum`. `Unlisted` stands for any value outside the nine
      members, which the source can receive through a type cast. */
  datatype Status =
    | New
    | Contacted
    | Interested
    | Unqualified
    | Qualified
    | Negotiation
    | Lost
    | Won
    | Churned
    | Unlisted

  /** `ContactStageEnum`: the three lifecycle stages. */
  datatype Stage = Lead | SalesQualifiedLead | Customer

  /** The string value of a stage, as stored and sent in mutations. */
  function StageName(stage: Stage): (name: string)
    ensures |name| > 0
  {
    match stage
    case Lead => "LEAD"
    case SalesQualifiedLead => "SALES_QUALIFIED_LEAD"
    case Customer => "CUSTOMER"
  }

  /** Position of a stage in the customer lifecycle, for ordering. */
  function StageRank(stage: Stage): (rank: nat)
    ensures rank < 3
  {
    match stage
    case Lead => 0
    case SalesQualifiedLead => 1
    case Customer => 2
  }
}
