/** The kanban task card: its checklist completion tag, the presence of its
    due-date tag, and the comparator `memo` uses to skip re-rendering. */
module ProjectCard {
  import opened Wrappers
  import opened Text

  datatype CheckItem = CheckItem(title: string, checked: bool)

  /** `checkList.filter((item) => item.checked)`: the checked items, in order. */
  function CheckedItems(items: seq<CheckItem>): (r: seq<CheckItem>)
    ensures |r| <= |items|
    ensures forall x :: x in r ==> x in items && x.checked
    ensures forall x :: x in items && x.checked ==> x in r
    ensures forall x :: multiset(r)[x] == (if x.checked then multiset(items)[x] else 0)
  {
    if |items| == 0 then []
    else
      assert items == [items[0]] + items[1..];
      if items[0].checked then [items[0]] + CheckedItems(items[1..])
      else CheckedItems(items[1..])
  }

  /** The filter works piecewise over a concatenation, so it keeps order. */
  lemma {:induction false} CheckedItemsAppend(a: seq<CheckItem>, b: seq<CheckItem>)
    ensures CheckedItems(a + b) == CheckedItems(a) + CheckedItems(b)
  {
    if |a| == 0 {
      assert a + b == b;
    } else {
      assert (a + b)[0] == a[0] && (a + b)[1..] == a[1..] + b;
      CheckedItemsAppend(a[1..], b);
      CheckedItemsHead(a + b);
      CheckedItemsHead(a);
    }
  }

  /** One step of the filter: the first item, if checked, then the rest. */
  lemma CheckedItemsHead(s: seq<CheckItem>)
    requires |s| > 0
    ensures CheckedItems(s) == (if s[0].checked then [s[0]] else []) + CheckedItems(s[1..])
  {
  }

  /** Every item is checked exactly when the filter keeps all of them. */
  lemma {:induction false} AllCheckedIffFilterKeepsAll(items: seq<CheckItem>)
    ensures |CheckedItems(items)| == |items| <==> forall i :: 0 <= i < |items| ==> items[i].checked
  {
    if |items| > 0 {
      AllCheckedIffFilterKeepsAll(items[1..]);
      if !items[0].checked {
        assert |CheckedItems(items)| < |items|;
      } else {
        assert forall i :: 1 <= i < |items| ==> items[i] == items[1..][i - 1];
      }
    }
  }

  datatype TagColor = DefaultColor | SuccessColor

  /** `checkListCompletionCountOptions` when it is not null. */
  datatype CompletionTag = CompletionTag(color: TagColor, text: string, allCompleted: bool)

  /** The tag text `${checked}/${total}`: the one text that reads back as
      exactly these two counts. */
  function TagText(checked: nat, total: nat): (text: string)
    ensures ParseTag(text) == Some((checked, total))
    ensures forall t :: ParseTag(t) == Some((checked, total)) ==> t == text
  {
    var text := NatToString(checked) + "/" + NatToString(total);
    assert ParseTag(text) == Some((checked, total)) by {
      TagRoundTrip(checked, total);
    }
    assert forall t :: ParseTag(t) == Some((checked, total)) ==> t == text by {
      forall t | ParseTag(t) == Some((checked, total)) {
        ParseTagInverse(t);
      }
    }
    text
  }

  /** Reads a `checked/total` text back into its two counts. Each count must
      be a canonical numeral, as the template literal prints it. */
  function ParseTag(text: string): Option<(nat, nat)> {
    match IndexOf(text, '/')
    case None => None
    case Some(k) =>
      var before, after := text[..k], text[k + 1..];
      if Canonical(before) && Canonical(after) then Some((ParseNat(before), ParseNat(after)))
      else None
  }

  /** Printed counts read back to themselves. */
  lemma TagRoundTrip(checked: nat, total: nat)
    ensures ParseTag(NatToString(checked) + "/" + NatToString(total)) == Some((checked, total))
  {
    var a, b := NatToString(checked), NatToString(total);
    var text := a + "/" + b;
    IndexOfAfterPrefix(a, '/', b);
    assert text == a + ['/'] + b;
    assert text[..|a|] == a;
    assert text[|a| + 1..] == b;
    ParseNatToString(checked);
    ParseNatToString(total);
  }

  /** A text that parses is the printing of the counts it parses to. */
  lemma ParseTagInverse(text: string)
    ensures ParseTag(text).Some? ==>
              text == NatToString(ParseTag(text).value.0) + "/" + NatToString(ParseTag(text).value.1)
  {
    if ParseTag(text).Some? {
      var k := IndexOf(text, '/').value;
      var before, after := text[..k], text[k + 1..];
      NatToStringParseNat(before);
      NatToStringParseNat(after);
      assert text == before + [text[k]] + after;
    }
  }

  /** `checkListCompletionCountOptions`: no tag for an absent or empty
      checklist; otherwise `checked/total`, in success colour and marked all
      completed exactly when every item is checked. */
  function CompletionOptions(checkList: Option<seq<CheckItem>>): (r: Option<CompletionTag>)
    ensures r.None? <==> checkList.None? || |checkList.value| == 0
    ensures r.Some? ==>
              var items := checkList.value;
              && ParseTag(r.value.text) == Some((|CheckedItems(items)|, |items|))
              && (forall t :: ParseTag(t) == ParseTag(r.value.text) ==> t == r.value.text)
              && |CheckedItems(items)| <= |items|
              && (r.value.allCompleted <==> forall i :: 0 <= i < |items| ==> items[i].checked)
              && (r.value.color == SuccessColor <==> r.value.allCompleted)
  {
    if checkList.None? || |checkList.value| == 0 then None
    else
      var total := |checkList.value|;
      var checked := |CheckedItems(checkList.value)|;
      AllCheckedIffFilterKeepsAll(checkList.value);
      var defaultOptions := CompletionTag(DefaultColor, TagText(checked, total), false);
      if checked == total then Some(defaultOptions.(color := SuccessColor, allCompleted := true))
      else Some(defaultOptions)
  }

  /** The date `dueDateOptions` hands on to formatting (which is not
      modelled): none when the due date is absent or empty. */
  function DueDateOptions(dueDate: Option<string>): (r: Option<string>)
    ensures r.None? <==> !Truthy(dueDate)
    ensures r.Some? ==> r == dueDate
  {
    if !Truthy(dueDate) then None else dueDate
  }

  datatype User = User(id: string, name: string)

  datatype CardProps = CardProps(
    id: string,
    title: string,
    commentCount: int,
    dueDate: Option<string>,
    users: Option<seq<User>>,
    checkList: Option<seq<CheckItem>>
  )

  /** `xs?.length`: undefined for an absent list. */
  function OptLength<T>(xs: Option<seq<T>>): Option<nat> {
    match xs
    case None => None
    case Some(s) => Some(|s|)
  }

  /** The `ProjectCardMemo` comparator: props are "equal" (no re-render) when
      id, title, due date, comment count, checklist length and user count all
      match. An absent list and an empty one differ. */
  predicate MemoEqual(prev: CardProps, next: CardProps): (same: bool)
    ensures prev == next ==> same
    ensures same ==> prev.id == next.id && prev.title == next.title && prev.dueDate == next.dueDate
    ensures prev.checkList.None? != next.checkList.None? ==> !same
  {
    && prev.id == next.id
    && prev.title == next.title
    && prev.dueDate == next.dueDate
    && prev.commentCount == next.commentCount
    && OptLength(prev.checkList) == OptLength(next.checkList)
    && OptLength(prev.users) == OptLength(next.users)
  }

  /** The comparator is an equivalence on card props. */
  lemma MemoEqualIsEquivalence(a: CardProps, b: CardProps, c: CardProps)
    ensures MemoEqual(a, a)
    ensures MemoEqual(a, b) ==> MemoEqual(b, a)
    ensures MemoEqual(a, b) && MemoEqual(b, c) ==> MemoEqual(a, c)
  {
  }

  /** Flip the `checked` flag of item `i`. */
  function Toggle(items: seq<CheckItem>, i: nat): (r: seq<CheckItem>)
    requires i < |items|
    ensures |r| == |items|
    ensures r[i].checked != items[i].checked
  {
    items[i := items[i].(checked := !items[i].checked)]
  }

  /** Toggling one checklist item leaves the comparator satisfied, so the card
      is not re-rendered. */
  lemma MemoIgnoresToggle(p: CardProps, i: nat)
    requires p.checkList.Some? && i < |p.checkList.value|
    ensures MemoEqual(p, p.(checkList := Some(Toggle(p.checkList.value, i))))
  {
  }

  /** As written, the comparator hides a change of the completion tag: a
      one-item checklist going from unchecked to checked keeps showing
      `0/1`. */
  lemma MemoHidesCompletionChange()
    ensures var prev := CardProps("t", "Task", 0, None, None, Some([CheckItem("a", false)]));
            var next := CardProps("t", "Task", 0, None, None, Some([CheckItem("a", true)]));
            MemoEqual(prev, next) && CompletionOptions(prev.checkList) != CompletionOptions(next.checkList)
  {
  }

  /** `checkList?.filter((item) => item.checked).length`. */
  function OptCheckedCount(checkList: Option<seq<CheckItem>>): Option<nat> {
    match checkList
    case None => None
    case Some(items) => Some(|CheckedItems(items)|)
  }

  /** The comparator with the number of checked items compared as well. */
  predicate MemoEqualFixed(prev: CardProps, next: CardProps) {
    MemoEqual(prev, next) && OptCheckedCount(prev.checkList) == OptCheckedCount(next.checkList)
  }

  /** With the corrected comparator, skipping a render never leaves a stale
      completion tag, and the comparator is still an equivalence. */
  lemma MemoEqualFixedKeepsCompletion(a: CardProps, b: CardProps, c: CardProps)
    ensures MemoEqualFixed(a, b) ==> CompletionOptions(a.checkList) == CompletionOptions(b.checkList)
    ensures MemoEqualFixed(a, a)
    ensures MemoEqualFixed(a, b) ==> MemoEqualFixed(b, a)
    ensures MemoEqualFixed(a, b) && MemoEqualFixed(b, c) ==> MemoEqualFixed(a, c)
  {
  }
}
