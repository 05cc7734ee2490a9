/** The contact drawer: at most one of five fields is edited at a time
    (`activeForm`), each field shows a form, its value or an empty
    placeholder, renaming sends only the name, and the timezone select lists
    the timezone enumeration. */
module ContactShow {
  import opened Wrappers
  import opened Contacts

  /** The tags `activeForm` can hold. */
  datatype Field = EmailField | CompanyField | JobTitleField | PhoneField | TimezoneField

  const AllFields: seq<Field> := [EmailField, CompanyField, JobTitleField, PhoneField, TimezoneField]

  /** `activeForm`: one optional tag, so at most one field is being edited. */
  type ActiveForm = Option<Field>

  /** The `state` given to a `SingleElementForm`. */
  datatype FieldState = Form | View | Empty

  /** The value whose truthiness decides between view and empty; the company
      field tests `company.id`. */
  function FieldValue(c: Contact, f: Field): Option<string> {
    match f
    case EmailField => c.email
    case CompanyField => c.company.id
    case JobTitleField => c.jobTitle
    case PhoneField => c.phone
    case TimezoneField => c.timezone
  }

  /** The state of one field: the form iff the field is the active one,
      otherwise its value if that is truthy and the placeholder if not. */
  function StateOf(active: ActiveForm, c: Contact, f: Field): (s: FieldState)
    ensures s == Form <==> active == Some(f)
    ensures s == View <==> active != Some(f) && Truthy(FieldValue(c, f))
    ensures s == Empty <==> active != Some(f) && !Truthy(FieldValue(c, f))
  {
    if active.Some? && active.value == f then Form
    else if Truthy(FieldValue(c, f)) then View
    else Empty
  }

  /** The fields showing a form. */
  function OpenFields(active: ActiveForm, c: Contact): set<Field> {
    set f | f in AllFields && StateOf(active, c, f) == Form
  }

  /** At most one field shows its form, and one does exactly when a field is
      active. */
  lemma AtMostOneOpen(active: ActiveForm, c: Contact)
    ensures active.None? ==> OpenFields(active, c) == {}
    ensures active.Some? ==> OpenFields(active, c) == {active.value}
    ensures |OpenFields(active, c)| <= 1
  {
    if active.Some? {
      var f := active.value;
      assert f in AllFields by {
        match f
        case EmailField => assert AllFields[0] == f;
        case CompanyField => assert AllFields[1] == f;
        case JobTitleField => assert AllFields[2] == f;
        case PhoneField => assert AllFields[3] == f;
        case TimezoneField => assert AllFields[4] == f;
      }
    }
  }

  /** What the user does: open a field (`onClick`), save it (`onUpdate`),
      abandon it (`onCancel`), or close the drawer (`closeModal`, also run on
      a load error and after a delete). */
  datatype Event = Click(f: Field) | Update(f: Field) | Cancel(f: Field) | Close

  /** The new `activeForm` after an event. */
  function Step(active: ActiveForm, e: Event): (active': ActiveForm)
    ensures e.Click? ==> active' == Some(e.f)
    ensures !e.Click? ==> active'.None?
  {
    match e
    case Click(f) => Some(f)
    case Update(_) => None
    case Cancel(_) => None
    case Close => None
  }

  /** `activeForm` after a sequence of events, in order. */
  function Run(active: ActiveForm, events: seq<Event>): ActiveForm
    decreases |events|
  {
    if |events| == 0 then active else Run(Step(active, events[0]), events[1..])
  }

  /** Reference: only the last event matters; with no event the state is
      unchanged. */
  function LastOpened(active: ActiveForm, events: seq<Event>): ActiveForm {
    if |events| == 0 then active
    else match events[|events| - 1]
      case Click(f) => Some(f)
      case _ => None
  }

  /** Running the transitions agrees with the reference for every start state
      and every event sequence. */
  lemma {:induction false} RunIsLastOpened(active: ActiveForm, events: seq<Event>)
    ensures Run(active, events) == LastOpened(active, events)
    decreases |events|
  {
    if |events| > 0 {
      RunIsLastOpened(Step(active, events[0]), events[1..]);
      if |events| == 1 {
        assert events[1..] == [];
      } else {
        assert events[1..][|events[1..]| - 1] == events[|events| - 1];
      }
    }
  }

  /** After a click on `f` only `f` shows a form; after an update, a cancel
      or closing the drawer no field does, whatever the contact holds. */
  lemma TransitionsKeepOneOpen(active: ActiveForm, c: Contact, e: Event)
    ensures e.Click? ==> OpenFields(Step(active, e), c) == {e.f}
    ensures !e.Click? ==> OpenFields(Step(active, e), c) == {}
  {
    AtMostOneOpen(Step(active, e), c);
  }

  /** The update the editable title sends: `values` holding only `name`. */
  function RenamePayload(value: string): (p: Patch)
    ensures Keys(p) == {NameKey}
    ensures p.name == Some(value)
  {
    Patch(Some(value), None, None)
  }

  /** Renaming changes the name and nothing else, status and stage
      included. */
  lemma RenameChangesOnlyName(c: Contact, value: string)
    ensures Apply(c, RenamePayload(value)) == c.(name := value)
  {
  }

  /** One option of a select. */
  datatype SelectOption = SelectOption(caption: string, value: string)

  /** `timezoneOptions`: for each key of the timezone enumeration, in key
      order, an option whose caption (`label`) and value are both the key's value. The
      enumeration is given as its (key, value) pairs in declaration order. */
  method TimezoneOptions(timezones: seq<(string, string)>) returns (options: seq<SelectOption>)
    ensures |options| == |timezones|
    ensures forall i :: 0 <= i < |options| ==>
              options[i].caption == options[i].value && options[i].value == timezones[i].1
    ensures forall o :: o in options <==> exists i :: 0 <= i < |timezones| && o == SelectOption(timezones[i].1, timezones[i].1)
  {
    options := [];
    var i := 0;
    while i < |timezones|
      invariant 0 <= i <= |timezones|
      invariant |options| == i
      invariant forall j :: 0 <= j < i ==> options[j] == SelectOption(timezones[j].1, timezones[j].1)
    {
      var value := timezones[i].1;
      options := options + [SelectOption(value, value)];
      i := i + 1;
    }
  }
}
