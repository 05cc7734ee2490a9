# CRM dashboard rules, modelled in Dafny

The CRM back-office dashboard has some small rules that do not depend on rendering. This project models them as pure functions over enumerations, optional values and sequences, and proves what the components promise. The rules are:

- **Contact status widget** (`ContactStatus`): the status-to-lifecycle-stage rule (`statusToStage`); the `{status, stage}` payload of `updateStatus`; which of the six items of the pipeline bar is highlighted; the label each dropdown item shows; and the stage caption `stage.replaceAll("_", " ").toLowerCase()`.
- **Contact drawer** (`ContactShow`): `activeForm`, a single optional tag over five fields. Each field's `form` / `view` / `empty` state is decided from it. The click, update, cancel and close transitions change it. The rename payload and `timezoneOptions` are also modelled.
- **Kanban task card** (`ProjectCard`): the `checked/total` completion tag and its colour and "all completed" flag; the null case of the due-date tag; and the `memo` comparator that decides whether the card re-renders.
- **Checklist header** (`ChecklistHeader`): the `completed/total` counts, which tolerate a missing checklist and null entries.
- **Manage categories form** (`ManageCategories`): the `onFinish` handler. It checks for an empty list, removes `undefined` entries and builds `{title}` records.

Shared modules:

- `Wrappers`: `Option` for `undefined`, and JavaScript truthiness of an optional string.
- `Enums`: the referenced members of `ContactStatusEnum` and `ContactStageEnum`. `Unlisted` stands for any other value that reaches `statusToStage` through a type cast.
- `Contacts`: the contact record, plus the partial update (`Patch`) a mutation sends, with its merge (`Apply`).
- `Text`: the caption transformation, and decimal printing and parsing of counts.

The enumerations live in `@/enums`, which is not part of this model. The stage string values are taken to be the member names (`LEAD`, `SALES_QUALIFIED_LEAD`, `CUSTOMER`). The timezone enumeration is a parameter of `TimezoneOptions`.

Mutations are modelled by their payloads only. `Contacts.Apply` states what a contact looks like once a payload is merged: the sent fields change and nothing else does.

## Model

| member | source | states |
|---|---|---|
| ContactStatus.StatusToStage | src/routes/contacts/components/status/index.tsx:26-55 | NEW, CONTACTED, INTERESTED and UNQUALIFIED map to LEAD. QUALIFIED, NEGOTIATION and LOST map to SALES_QUALIFIED_LEAD. WON, CHURNED and any unlisted value map to CUSTOMER. Each is an if-and-only-if, so the three classes partition the statuses. |
| ContactStatus.UpdateStatusPayload | src/routes/contacts/components/status/index.tsx:109-117 | The update carries exactly the keys `status` and `stage`, with the chosen status and the stage `statusToStage` gives it. |
| ContactStatus.UpdateStatusKeepsConsistency | src/routes/contacts/components/status/index.tsx:109-117 | After a status update, every contact has the chosen status and a consistent stage, and all its other fields are unchanged. |
| ContactStatus.ActiveItem | src/routes/contacts/components/status/index.tsx:126-246 | An item's `active` condition holds exactly for the one item returned. No item is returned exactly when the status is unlisted. |
| ContactStatus.IsActive | src/routes/contacts/components/status/index.tsx:126-246 | An unlisted value lights no item. A lit item is in the bar segment for the status's stage: items 1-3 for LEAD, 4-5 for SALES_QUALIFIED_LEAD, 6 for CUSTOMER. |
| ContactStatus.ExactlyOneActive | src/routes/contacts/components/status/index.tsx:126-246 | Every listed status highlights exactly one of the six items. An unlisted value highlights none. |
| ContactStatus.Choices | src/routes/contacts/components/status/index.tsx:131-267 | Each item sends one or two distinct listed statuses to `updateStatus`: its own status for a plain link, its primary and alternate menu keys for a dropdown. Every status it sends highlights that same item. |
| ContactStatus.ChoicesMatchActiveItem | src/routes/contacts/components/status/index.tsx:126-275 | A status is offered by an item's link or menu exactly when that status highlights that item. Choosing a status therefore highlights the item it was chosen from. |
| ContactStatus.StageFollowsPipeline | src/routes/contacts/components/status/index.tsx:26-55 | Statuses that share an item share a stage. The stage rank never decreases from left to right along the bar: items 1-3 are LEAD, items 4-5 are SALES_QUALIFIED_LEAD and item 6 is CUSTOMER. |
| ContactStatus.MenuLabel | src/routes/contacts/components/status/index.tsx:169-266 | Every listed status has a non-empty label. An unlisted value has none. |
| ContactStatus.MenuLabelInjective | src/routes/contacts/components/status/index.tsx:169-266 | Two statuses have the same label if and only if they are the same status, so the label shown names the status. |
| ContactStatus.ItemLabel | src/routes/contacts/components/status/index.tsx:131-274 | A dropdown item shows its alternate label ("Unqualified", "Lost", "Churned") if and only if the status is that alternate, and its primary label otherwise. An item showing the current status uses that status's menu label. |
| ContactStatus.StageText | src/routes/contacts/components/status/index.tsx:95 | The stage caption has the stage name's length, and contains no `_` and no upper-case letter. |
| ContactStatus.StageTextInjective | src/routes/contacts/components/status/index.tsx:95 | Two stages have the same caption if and only if they are the same stage. |
| Text.Humanize | src/routes/contacts/components/status/index.tsx:95 | `replaceAll("_", " ").toLowerCase()` keeps the length and leaves no underscore and no upper-case letter. Every other character is unchanged. |
| Text.NatToString | src/routes/scrumboard/components/project-kanban-card/index.tsx:115 | A count is printed as a canonical numeral: at least one digit, digits only, and no leading zero unless the count is 0. |
| Text.ParseNatToString | src/routes/scrumboard/components/project-kanban-card/index.tsx:115 | Reading a printed count back gives the count. |
| Text.NatToStringParseNat | src/routes/scrumboard/components/project-kanban-card/index.tsx:115 | Every canonical numeral is the printing of the number it reads as. With `ParseNatToString`, printing is a bijection from counts onto canonical numerals. |
| ProjectCard.CheckedItems | src/routes/scrumboard/components/project-kanban-card/index.tsx:111 | The filter keeps every checked item exactly as many times as the list holds it, and no unchecked item. So `checked` is the number of items with `checked == true`, and `0 <= checked <= total`. |
| ProjectCard.CheckedItemsAppend | src/routes/scrumboard/components/project-kanban-card/index.tsx:111 | The filter works piecewise over concatenation, so it keeps the items' order. |
| ProjectCard.AllCheckedIffFilterKeepsAll | src/routes/scrumboard/components/project-kanban-card/index.tsx:110-119 | `checked == total` holds if and only if every item of the checklist is checked. |
| ProjectCard.TagText | src/routes/scrumboard/components/project-kanban-card/index.tsx:115 | The tag text `${checked}/${total}` parses back to exactly those two counts, and it is the only text that parses to them. So the counts are printed as canonical numerals, with no padding and no empty run. |
| ProjectCard.TagRoundTrip | src/routes/scrumboard/components/project-kanban-card/index.tsx:115 | Two printed counts joined by `/` parse back to those counts. |
| ProjectCard.ParseTagInverse | src/routes/scrumboard/components/project-kanban-card/index.tsx:115 | Every text that parses is the two printed counts joined by `/`. |
| ProjectCard.CompletionOptions | src/routes/scrumboard/components/project-kanban-card/index.tsx:104-126 | An absent or empty checklist gives no tag. Otherwise the text reads as `checked/total`, and no other text reads as those counts. `allCompleted` holds if and only if every item is checked, and the colour is success if and only if `allCompleted`. |
| ProjectCard.DueDateOptions | src/routes/scrumboard/components/project-kanban-card/index.tsx:93-102 | An absent or empty due date gives no due-date tag. Any other due date is passed on unchanged. |
| ProjectCard.MemoEqual | src/routes/scrumboard/components/project-kanban-card/index.tsx:323-332 | Identical props always compare equal. Props that compare equal agree on id, title and due date. An absent checklist never compares equal to a present one, even an empty one. The predicate itself is the six-field conjunction of the comparator. |
| ProjectCard.MemoEqualIsEquivalence | src/routes/scrumboard/components/project-kanban-card/index.tsx:323-332 | The memo comparator is reflexive, symmetric and transitive. |
| ProjectCard.MemoIgnoresToggle | src/routes/scrumboard/components/project-kanban-card/index.tsx:323-332 | Flipping one checklist item's `checked` flag still compares equal. |
| ProjectCard.MemoHidesCompletionChange | src/routes/scrumboard/components/project-kanban-card/index.tsx:323-332 | Two props that compare equal can still have different completion tags (finding below). |
| ProjectCard.MemoEqualFixedKeepsCompletion | src/routes/scrumboard/components/project-kanban-card/index.tsx:323-332 | The corrected comparator is an equivalence, and props it finds equal have the same completion tag. |
| ChecklistHeader.CompletedEntries | src/routes/scrumboard/components/headers/checklist-header.tsx:12 | Each present entry whose `checked` is true is kept exactly as many times as the list holds it. Null and unchecked entries are dropped. The count never exceeds the list length. |
| ChecklistHeader.CompletedEntriesAppend | src/routes/scrumboard/components/headers/checklist-header.tsx:12 | The count splits over concatenation, so a null entry anywhere contributes nothing. |
| ChecklistHeader.HeaderCounts | src/routes/scrumboard/components/headers/checklist-header.tsx:11-13 | A missing checklist gives 0/0. `total` is the list length and `completed <= total`. |
| ChecklistHeader.HeaderText | src/routes/scrumboard/components/headers/checklist-header.tsx:20-22 | The header text `completed/total` parses back to the two counts, and no other text parses to them. |
| ChecklistHeader.HeaderAgreesWithCard | src/routes/scrumboard/components/headers/checklist-header.tsx:12-13 | On a checklist without null entries, the header's completed count equals the kanban card's checked count, and its total equals the card's total. |
| ContactShow.StateOf | src/routes/contacts/show/index.tsx:172-178 | A field shows its form if and only if it is the active field. Otherwise it shows its value if that value is truthy, and the placeholder if not. For the company field the value checked is `company.id`. |
| ContactShow.AtMostOneOpen | src/routes/contacts/show/index.tsx:53-55 | At most one field shows a form. If no field is active, none does; if one is active, exactly that one does. |
| ContactShow.Step | src/routes/contacts/show/index.tsx:184-186 | Clicking a field makes it the active field. Update, cancel and close all clear the active field. |
| ContactShow.TransitionsKeepOneOpen | src/routes/contacts/show/index.tsx:172-215 | After a click on a field, only that field shows a form. After an update, a cancel or a close, no field does. |
| ContactShow.RunIsLastOpened | src/routes/contacts/show/index.tsx:53-82 | For every start state and every event sequence, the active field depends only on the last event. |
| ContactShow.RenamePayload | src/routes/contacts/show/index.tsx:152-157 | The rename update carries `name` and no other key. |
| ContactShow.RenameChangesOnlyName | src/routes/contacts/show/index.tsx:152-157 | Merging the rename update changes the name and nothing else. |
| ContactShow.TimezoneOptions | src/routes/contacts/show/index.tsx:47-50 | There is one option per enumeration key, in key order. Each option's label equals its value, which is that key's value. The options are exactly the enumeration's values. |
| ManageCategories.OnFinish | src/routes/calendar/components/categories/manage-categories/index.tsx:95-112 | An absent or empty list only calls `saveSuccces`. Any other list creates one `{title}` per defined entry, in order, never more records than entries. A non-empty list of nothing but `undefined` entries creates an empty batch. |
| ManageCategories.RemoveUndefined | src/routes/calendar/components/categories/manage-categories/index.tsx:100-103 | The loop removes exactly the `undefined` entries and keeps the order. Empty strings are kept. |
| ManageCategories.ToValues | src/routes/calendar/components/categories/manage-categories/index.tsx:105-107 | One `{title}` record per title, at the same position. |
| ManageCategories.DefinedAppend | src/routes/calendar/components/categories/manage-categories/index.tsx:101-103 | The filter works piecewise over concatenation, so it keeps order. |
| ManageCategories.DefinedRemovesUndefined | src/routes/calendar/components/categories/manage-categories/index.tsx:101-103 | The kept count is the input length minus the number of `undefined` entries. |
| ManageCategories.DefinedOfAllUndefined | src/routes/calendar/components/categories/manage-categories/index.tsx:96-111 | A list of only `undefined` entries keeps nothing. |

## Findings

| source | as written | input that shows it | evidently intended | confidence | as-written member | corrected member |
|---|---|---|---|---|---|---|
| src/routes/scrumboard/components/project-kanban-card/index.tsx:323-332 | The memo comparator compares only the checklist's length. Props whose items differ only in `checked` compare equal, so the card is not re-rendered. | A card with checklist `[{title: "a", checked: false}]` is updated to `[{title: "a", checked: true}]`. The props compare equal, and the tag stays `0/1` in the default colour instead of `1/1` in success. | Re-render whenever the completion tag would change, e.g. by also comparing the number of checked items. | medium, not executed | ProjectCard.MemoHidesCompletionChange | ProjectCard.MemoEqualFixedKeepsCompletion |

## Left out

- `server.js`, `resolver.js` and `models/index.js`: pass-through to Apollo Server and Sequelize, with no rule of their own. Model loading there uses an un-awaited `forEach(async …)`, so its behaviour depends on async timing rather than on a sequential rule.
- `src/routes/calendar/show.tsx`, `src/routes/administration/settings.tsx` and `src/routes/companies/components/card-view/index.tsx`: rendering and declarative table configuration. The all-day rule depends on dayjs parsing, which is not visible.
- Rendering, icons (including the icon choice in `LifecycleStage`), CSS class strings (including a stray `}` in the contacted item's class), navigation (`list`, `edit`) and notifications.
- The mutations and queries themselves: only the payloads are modelled. The create-many success callback (`saveSuccces`, form reset) and category deletion run after the server answers, and are not modelled.
- ProjectCard.DueDateOptions: returns the due date that is handed on, not the colour and text. Those come from `getDateColor` and dayjs formatting, which are outside this model.
- Text.Humanize: `toLowerCase` is modelled for ASCII letters only. Non-ASCII letters are left unchanged, whereas JavaScript lower-cases them, sometimes into more than one character. Its promises of keeping the length and of "no upper-case letter" therefore hold only for ASCII input. The only input the dashboard passes is a stage name, which is ASCII.
- ContactStatus.StageText: inherits the ASCII-only lower-casing of `Text.Humanize`. Stage names are ASCII, so nothing is lost there.
- ContactShow.StateOf: assumes `company` is present. The source reads `company.id` without a guard and would throw if `company` were missing.
- ChecklistHeader.HeaderCounts: the default `[]` applies only to an undefined checklist, as with a JavaScript default parameter. A `null` checklist would throw in the source, and is not modelled because the prop's type excludes it.
- ContactShow.TimezoneOptions: `Object.keys` order is taken to be declaration order. That holds for an enumeration with non-numeric keys.
- ManageCategories.OnFinish: `formValues` being undefined and `formValues.title` being undefined both take the same branch, so both are modelled as an absent list. Entries are strings or `undefined`; a `null` entry would pass the source's filter and is not modelled.
