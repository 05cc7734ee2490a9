/** The "Manage Categories" form of the calendar: on submit, the list of new
    category titles is checked for emptiness, cleared of `undefined` entries
    and turned into `{title}` records for a create-many mutation. */
module ManageCategories {
  import opened Wrappers

  /** One record of the create payload. */
  datatype CategoryValue = CategoryValue(title: string)

  /** What submitting the form does: call `saveSuccces` without creating
      anything, or create the given categories. */
  datatype Outcome = SaveSuccess | CreateMany(values: seq<CategoryValue>)

  /** Reference filter: the defined titles, in order. Empty strings are
      defined and kept. */
  function Defined(titles: seq<Option<string>>): (r: seq<string>)
    ensures |r| <= |titles|
    ensures forall s :: s in r <==> Some(s) in titles
  {
    if |titles| == 0 then []
    else match titles[0]
      case Some(s) => [s] + Defined(titles[1..])
      case None => Defined(titles[1..])
  }

  /** The filter keeps order: it works piecewise over a concatenation. */
  lemma {:induction false} DefinedAppend(a: seq<Option<string>>, b: seq<Option<string>>)
    ensures Defined(a + b) == Defined(a) + Defined(b)
  {
    if |a| == 0 {
      assert a + b == b;
    } else {
      DefinedAppend(a[1..], b);
      assert (a + b)[0] == a[0];
      assert (a + b)[1..] == a[1..] + b;
      if a[0].Some? {
        calc {
          Defined(a + b);
          [a[0].value] + Defined(a[1..] + b);
          [a[0].value] + (Defined(a[1..]) + Defined(b));
          ([a[0].value] + Defined(a[1..])) + Defined(b);
        }
      }
    }
  }

  /** A list of nothing but `undefined` entries filters to nothing. */
  lemma {:induction false} DefinedOfAllUndefined(titles: seq<Option<string>>)
    requires forall i :: 0 <= i < |titles| ==> titles[i].None?
    ensures Defined(titles) == []
  {
    if |titles| > 0 {
      DefinedOfAllUndefined(titles[1..]);
    }
  }

  /** Number of `undefined` entries. */
  function Undefined(titles: seq<Option<string>>): nat {
    if |titles| == 0 then 0 else (if titles[0].None? then 1 else 0) + Undefined(titles[1..])
  }

  /** Exactly the `undefined` entries are removed. */
  lemma {:induction false} DefinedRemovesUndefined(titles: seq<Option<string>>)
    ensures |Defined(titles)| == |titles| - Undefined(titles)
  {
    if |titles| > 0 {
      DefinedRemovesUndefined(titles[1..]);
    }
  }

  /** `formValues.title.filter((title) => title !== undefined)`. */
  method RemoveUndefined(titles: seq<Option<string>>) returns (kept: seq<string>)
    ensures kept == Defined(titles)
  {
    kept := [];
    var i := 0;
    while i < |titles|
      invariant 0 <= i <= |titles|
      invariant kept == Defined(titles[..i])
    {
      DefinedAppend(titles[..i], [titles[i]]);
      assert titles[..i + 1] == titles[..i] + [titles[i]];
      if titles[i].Some? {
        kept := kept + [titles[i].value];
      }
      i := i + 1;
    }
    assert titles[..i] == titles;
  }

  /** `titles.map((title) => ({ title }))`. */
  method ToValues(titles: seq<string>) returns (values: seq<CategoryValue>)
    ensures |values| == |titles|
    ensures forall i :: 0 <= i < |titles| ==> values[i] == CategoryValue(titles[i])
  {
    values := [];
    var i := 0;
    while i < |titles|
      invariant 0 <= i <= |titles|
      invariant |values| == i
      invariant forall j :: 0 <= j < i ==> values[j] == CategoryValue(titles[j])
    {
      values := values + [CategoryValue(titles[i])];
      i := i + 1;
    }
  }

  /** The `onFinish` handler. An absent or empty list only reports success. A
      non-empty one creates one record per defined title, in order; a list of
      nothing but `undefined` entries passes the emptiness check and creates
      an empty batch. */
  method OnFinish(title: Option<seq<Option<string>>>) returns (outcome: Outcome)
    ensures outcome == SaveSuccess <==> title.None? || |title.value| == 0
    ensures outcome.CreateMany? ==>
              && |outcome.values| == |Defined(title.value)| <= |title.value|
              && (forall i :: 0 <= i < |outcome.values| ==>
                    outcome.values[i] == CategoryValue(Defined(title.value)[i]))
              && (forall s :: CategoryValue(s) in outcome.values <==> Some(s) in title.value)
    ensures title.Some? && |title.value| > 0 && (forall i :: 0 <= i < |title.value| ==> title.value[i].None?)
            ==> outcome == CreateMany([])
  {
    if title.None? || |title.value| == 0 {
      return SaveSuccess;
    }
    var kept := RemoveUndefined(title.value);
    if forall i :: 0 <= i < |title.value| ==> title.value[i].None? {
      DefinedOfAllUndefined(title.value);
    }
    var values := ToValues(kept);
    assert forall s :: CategoryValue(s) in values <==> s in kept by {
      forall s ensures CategoryValue(s) in values <==> s in kept {
        if s in kept {
          var i :| 0 <= i < |kept| && kept[i] == s;
          assert values[i] == CategoryValue(s);
        }
      }
    }
    outcome := CreateMany(values);
  }
}
