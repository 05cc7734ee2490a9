/** The contact record the contact pages show and update, and the partial
    update (`values` of a `useUpdate` mutation) they send. */
module Contacts {
  import opened Wrappers
  import opened Enums

  datatype Company = Company(id: Option<string>, name: Option<string>)

  datatype Contact = Contact(
    name: string,
    email: Option<string>,
    company: Company,
    jobTitle: Option<string>,
    phone: Option<string>,
    timezone: Option<string>,
    status: Status,
    stage: Stage
  )

  /** A field a mutation payload can carry. */
  datatype Key = NameKey | StatusKey | StageKey

  /** The `values` object of an update: a field is sent iff it is `Some`. */
  datatype Patch = Patch(name: Option<string>, status: Option<Status>, stage: Option<Stage>)

  /** The fields a payload carries. */
  function Keys(p: Patch): (ks: set<Key>)
    ensures NameKey in ks <==> p.name.Some?
    ensures StatusKey in ks <==> p.status.Some?
    ensures StageKey in ks <==> p.stage.Some?
  {
    (if p.name.Some? then {NameKey} else {})
    + (if p.status.Some? then {StatusKey} else {})
    + (if p.stage.Some? then {StageKey} else {})
  }

  /** The contact after the server (or the optimistic cache) merges a patch:
      the carried fields take the sent values and every other field keeps its
      value. */
  function Apply(c: Contact, p: Patch): (c': Contact)
    ensures c'.name == (if NameKey in Keys(p) then p.name.value else c.name)
    ensures c'.status == (if StatusKey in Keys(p) then p.status.value else c.status)
    ensures c'.stage == (if StageKey in Keys(p) then p.stage.value else c.stage)
    ensures c'.email == c.email && c'.company == c.company && c'.jobTitle == c.jobTitle
    ensures c'.phone == c.phone && c'.timezone == c.timezone
  {
    c.(name := p.name.GetOr(c.name),
       status := p.status.GetOr(c.status),
       stage := p.stage.GetOr(c.stage))
  }
}
