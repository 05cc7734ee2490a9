/** The contact status widget: the status-to-stage rule, the six-item pipeline
    bar, the labels of its dropdown items, the status update payload and the
    lifecycle stage caption. */
module ContactStatus {
  import opened Wrappers
  import opened Enums
  import opened Contacts
  import Text

  /** `statusToStage`: the lifecycle stage of a status. The stage starts as
      CUSTOMER and the default branch leaves it, so unlisted values are
      customers. */
  function StatusToStage(status: Status): (stage: Stage)
    ensures stage == Lead <==> status in {New, Contacted, Interested, Unqualified}
    ensures stage == SalesQualifiedLead <==> status in {Qualified, Negotiation, Lost}
    ensures stage == Customer <==> status in {Won, Churned, Unlisted}
  {
    var initial := Customer;
    match status
    case New | Contacted | Interested => Lead
    case Qualified | Negotiation => SalesQualifiedLead
    case Unqualified => Lead
    case Lost => SalesQualifiedLead
    case Won => Customer
    case Churned => Customer
    case Unlisted => initial
  }

  /** A contact whose stage agrees with its status. */
  predicate Consistent(c: Contact) {
    c.stage == StatusToStage(c.status)
  }

  /** The `values` that `updateStatus` sends: the status and its stage, and
      nothing else. */
  function UpdateStatusPayload(status: Status): (p: Patch)
    ensures Keys(p) == {StatusKey, StageKey}
    ensures p.status == Some(status)
    ensures p.stage.Some? && p.stage.value == StatusToStage(status)
  {
    Patch(None, Some(status), Some(StatusToStage(status)))
  }

  /** Whatever the contact looked like before, after a status update it has the
      chosen status and a stage consistent with it, and its other fields are
      untouched. */
  lemma UpdateStatusKeepsConsistency(c: Contact, status: Status)
    ensures Apply(c, UpdateStatusPayload(status)).status == status
    ensures Consistent(Apply(c, UpdateStatusPayload(status)))
    ensures Apply(c, UpdateStatusPayload(status)) == c.(status := status, stage := StatusToStage(status))
  {
  }

  /** The six items of the pipeline bar, left to right. */
  datatype PipelineItem =
    | NewItem
    | ContactedItem
    | InterestedItem
    | QualifiedItem
    | NegotiationItem
    | WonItem

  const AllItems: seq<PipelineItem> :=
    [NewItem, ContactedItem, InterestedItem, QualifiedItem, NegotiationItem, WonItem]

  function Position(item: PipelineItem): (pos: nat)
    ensures 1 <= pos <= 6
    ensures AllItems[pos - 1] == item
  {
    match item
    case NewItem => 1
    case ContactedItem => 2
    case InterestedItem => 3
    case QualifiedItem => 4
    case NegotiationItem => 5
    case WonItem => 6
  }

  /** The condition under which each `<li>` of the bar gets the `active`
      class. An unlisted value lights nothing, and a lit item sits in the
      segment of the bar for the status's stage: items 1-3 for leads, 4-5 for
      sales qualified leads, 6 for customers. */
  predicate IsActive(item: PipelineItem, status: Status): (on: bool)
    ensures on ==> status != Unlisted
    ensures on ==> StatusToStage(status)
                   == (if Position(item) <= 3 then Lead
                       else if Position(item) <= 5 then SalesQualifiedLead
                       else Customer)
  {
    match item
    case NewItem => status == New
    case ContactedItem => status == Contacted
    case InterestedItem => status == Interested || status == Unqualified
    case QualifiedItem => status == Qualified
    case NegotiationItem => status == Negotiation || status == Lost
    case WonItem => status == Won || status == Churned
  }

  /** The item of the bar that is highlighted for a status: exactly the items
      `IsActive` accepts, and none for an unlisted value. */
  function ActiveItem(status: Status): (r: Option<PipelineItem>)
    ensures forall item :: IsActive(item, status) <==> r == Some(item)
    ensures r.None? <==> status == Unlisted
  {
    match status
    case New => Some(NewItem)
    case Contacted => Some(ContactedItem)
    case Interested | Unqualified => Some(InterestedItem)
    case Qualified => Some(QualifiedItem)
    case Negotiation | Lost => Some(NegotiationItem)
    case Won | Churned => Some(WonItem)
    case Unlisted => None
  }

  /** The highlighted items of the bar. */
  function ActiveItems(status: Status): set<PipelineItem> {
    set item | item in AllItems && IsActive(item, status)
  }

  /** Every listed status highlights exactly one item of the bar; an unlisted
      value highlights none. */
  lemma ExactlyOneActive(status: Status)
    ensures status != Unlisted ==> |ActiveItems(status)| == 1
    ensures status == Unlisted ==> ActiveItems(status) == {}
  {
    if status != Unlisted {
      var item := ActiveItem(status).value;
      assert item == AllItems[Position(item) - 1];
      assert ActiveItems(status) == {item};
    }
  }

  /** The statuses an item sends to `updateStatus`: a plain item its own
      status, a dropdown its primary and then its alternate entry. */
  function Choices(item: PipelineItem): (ss: seq<Status>)
    ensures 1 <= |ss| <= 2
    ensures Unlisted !in ss
    ensures forall s :: s in ss ==> ActiveItem(s) == Some(item)
    ensures |ss| == 2 ==> ss[0] != ss[1]
  {
    match item
    case NewItem => [New]
    case ContactedItem => [Contacted]
    case InterestedItem => [Interested, Unqualified]
    case QualifiedItem => [Qualified]
    case NegotiationItem => [Negotiation, Lost]
    case WonItem => [Won, Churned]
  }

  /** The bar and the menus agree: choosing a status from an item highlights
      that same item, and every listed status is offered by the item it
      highlights. */
  lemma ChoicesMatchActiveItem(item: PipelineItem, status: Status)
    ensures status in Choices(item) <==> ActiveItem(status) == Some(item)
  {
  }

  /** The stage every status of an item maps to. */
  function ItemStage(item: PipelineItem): Stage {
    StatusToStage(Choices(item)[0])
  }

  /** Statuses that share an item share a stage, and the stage never goes
      back when moving right along the bar: items 1-3 are leads, 4-5 sales
      qualified leads, 6 customers. */
  lemma StageFollowsPipeline(s1: Status, s2: Status)
    ensures ActiveItem(s1) == ActiveItem(s2) ==> StatusToStage(s1) == StatusToStage(s2)
    ensures s1 != Unlisted ==> StatusToStage(s1) == ItemStage(ActiveItem(s1).value)
    ensures s1 != Unlisted && s2 != Unlisted
            && Position(ActiveItem(s1).value) <= Position(ActiveItem(s2).value)
            ==> StageRank(StatusToStage(s1)) <= StageRank(StatusToStage(s2))
  {
  }

  /** The label of a status in the dropdown menus and on plain items: every
      listed status has a non-empty label. */
  function MenuLabel(status: Status): (text: string)
    ensures text == "" <==> status == Unlisted
  {
    match status
    case New => "New"
    case Contacted => "Contacted"
    case Interested => "Interested"
    case Unqualified => "Unqualified"
    case Qualified => "Qualified"
    case Negotiation => "Negotiation"
    case Lost => "Lost"
    case Won => "Won"
    case Churned => "Churned"
    case Unlisted => ""
  }

  /** Different statuses have different labels, so the label shown names the
      status. */
  lemma MenuLabelInjective(a: Status, b: Status)
    ensures MenuLabel(a) == MenuLabel(b) <==> a == b
  {
  }

  /** The text shown on an item: a dropdown shows its alternate label exactly
      when the current status is that alternate, and its primary label
      otherwise. */
  function ItemLabel(item: PipelineItem, status: Status): (shown: string)
    ensures |Choices(item)| == 2 ==>
              (shown == MenuLabel(Choices(item)[1]) <==> status == Choices(item)[1])
    ensures status in Choices(item) ==> shown == MenuLabel(status)
    ensures status !in Choices(item) ==> shown == MenuLabel(Choices(item)[0])
  {
    match item
    case NewItem => "New"
    case ContactedItem => "Contacted"
    case InterestedItem => if status == Unqualified then "Unqualified" else "Interested"
    case QualifiedItem => "Qualified"
    case NegotiationItem => if status == Lost then "Lost" else "Negotiation"
    case WonItem => if status == Churned then "Churned" else "Won"
  }

  /** The lifecycle caption of a stage: `stage.replaceAll("_", " ").toLowerCase()`. */
  function StageText(stage: Stage): (text: string)
    ensures |text| == |StageName(stage)|
    ensures forall i :: 0 <= i < |text| ==> text[i] != '_' && !Text.IsUpper(text[i])
  {
    Text.Humanize(StageName(stage))
  }

  /** Different stages get different captions, so the caption names the
      stage unambiguously. */
  lemma StageTextInjective(a: Stage, b: Stage)
    ensures StageText(a) == StageText(b) <==> a == b
  {
  }
}
