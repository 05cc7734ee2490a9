/** The checklist header of the task editor: `completed/total`, tolerant of a
    missing checklist and of null entries. */
module ChecklistHeader {
  import opened Wrappers
  import opened Text
  import opened ProjectCard

  /** `checklist.filter((item) => item?.checked)`: the entries that are
      present and checked, in order; null entries are skipped. */
  function CompletedEntries(entries: seq<Option<CheckItem>>): (r: seq<Option<CheckItem>>)
    ensures |r| <= |entries|
    ensures forall e :: e in r ==> e in entries && e.Some? && e.value.checked
    ensures forall e :: e in entries && e.Some? && e.value.checked ==> e in r
    ensures forall e :: multiset(r)[e] == (if e.Some? && e.value.checked then multiset(entries)[e] else 0)
  {
    if |entries| == 0 then []
    else
      assert entries == [entries[0]] + entries[1..];
      if entries[0].Some? && entries[0].value.checked then [entries[0]] + CompletedEntries(entries[1..])
      else CompletedEntries(entries[1..])
  }

  /** Filtering splits over concatenation, so a null entry anywhere adds
      nothing. */
  lemma {:induction false} CompletedEntriesAppend(a: seq<Option<CheckItem>>, b: seq<Option<CheckItem>>)
    ensures CompletedEntries(a + b) == CompletedEntries(a) + CompletedEntries(b)
  {
    if |a| == 0 {
      assert a + b == b;
    } else {
      assert (a + b)[0] == a[0] && (a + b)[1..] == a[1..] + b;
      CompletedEntriesAppend(a[1..], b);
      CompletedEntriesHead(a + b);
      CompletedEntriesHead(a);
    }
  }

  /** One step of the filter: the first entry, if present and checked, then
      the rest. */
  lemma CompletedEntriesHead(s: seq<Option<CheckItem>>)
    requires |s| > 0
    ensures CompletedEntries(s)
            == (if s[0].Some? && s[0].value.checked then [s[0]] else []) + CompletedEntries(s[1..])
  {
  }

  /** The two numbers of the header. */
  datatype Counts = Counts(completed: nat, total: nat)

  /** `ChecklistHeader`: an undefined checklist defaults to `[]`. */
  function HeaderCounts(checklist: Option<seq<Option<CheckItem>>>): (r: Counts)
    ensures r.total == |checklist.GetOr([])|
    ensures r.completed <= r.total
    ensures r.completed == |CompletedEntries(checklist.GetOr([]))|
    ensures checklist.None? ==> r == Counts(0, 0)
  {
    var entries := checklist.GetOr([]);
    Counts(|CompletedEntries(entries)|, |entries|)
  }

  /** The header text `{completed}/{total}`; it reads back to the counts. */
  function HeaderText(checklist: Option<seq<Option<CheckItem>>>): (text: string)
    ensures ParseTag(text) == Some((HeaderCounts(checklist).completed, HeaderCounts(checklist).total))
    ensures forall t :: ParseTag(t) == ParseTag(text) ==> t == text
  {
    var counts := HeaderCounts(checklist);
    TagText(counts.completed, counts.total)
  }

  /** A checklist without null entries, as the header receives it. */
  function Present(items: seq<CheckItem>): (r: seq<Option<CheckItem>>)
    ensures |r| == |items|
    ensures forall i :: 0 <= i < |items| ==> r[i] == Some(items[i])
  {
    if |items| == 0 then [] else [Some(items[0])] + Present(items[1..])
  }

  /** On a checklist with no null entries the header counts the same
      completed items as the kanban card's tag. */
  lemma {:induction false} HeaderAgreesWithCard(items: seq<CheckItem>)
    ensures HeaderCounts(Some(Present(items))).completed == |CheckedItems(items)|
    ensures HeaderCounts(Some(Present(items))).total == |items|
  {
    CompletedAgrees(items);
  }

  lemma {:induction false} CompletedAgrees(items: seq<CheckItem>)
    ensures |CompletedEntries(Present(items))| == |CheckedItems(items)|
  {
    if |items| > 0 {
      CompletedAgrees(items[1..]);
      assert Present(items)[1..] == Present(items[1..]);
    }
  }
}
