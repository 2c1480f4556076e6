/** The answer values the wizard stores, and the two pure helpers that work on them:
    `asArray` and `multiToggle` (src/App.tsx:20-26). */
module Answers {
  import opened JsStrings
  import opened Seqs

  /** An entry of the answers map. The source types it `any`; the inputs only ever store a
      string (text, select, imagepick), an array of strings (multiselect) or a number (likert).
      `Absent` is `undefined` / `null`, which is also what reading a missing key gives. */
  datatype Answer = Absent | Str(s: string) | List(items: seq<string>) | Num(n: int)

  /** `answers[id]`: a missing key reads as `undefined`. */
  function Get(answers: map<string, Answer>, id: string): Answer
  {
    if id in answers then answers[id] else Absent
  }

  /** `asArray`: an array passes through, anything else (absent, a string, a number) reads as []. */
  function AsArray(v: Answer): (r: seq<string>)
    ensures v.List? ==> r == v.items
    ensures !v.List? ==> r == []
  {
    match v
    case List(items) => items
    case _ => []
  }

  /** `String(v)` for the stored values, with `Absent` read as the `v ?? ""` fallback of the
      length check (the presence checks never coerce an absent value). A number prints in
      decimal and an array as its elements joined by commas. */
  function Stringify(v: Answer): (r: string)
    ensures v.Absent? ==> r == ""
    ensures v.Str? ==> r == v.s
    ensures v.Num? ==> !AllSpace(r)
    ensures v.List? ==>
      (AllSpace(r) <==> |v.items| <= 1 && forall i :: 0 <= i < |v.items| ==> AllSpace(v.items[i]))
  {
    match v
    case Absent => ""
    case Str(s) => s
    case Num(n) =>
      var r := Decimal(n);
      assert !IsSpace(r[0]);
      r
    case List(items) =>
      var r := Join(items);
      assert |items| >= 2 ==> !AllSpace(r);
      r
  }

  /** The selection already holds `max` items, a cap of 0 meaning "no cap" (the JavaScript
      truthiness of `max` in `if (max && arr.length >= max)`). */
  predicate AtCapacity<T>(arr: seq<T>, max: int): (full: bool)
    ensures max == 0 ==> !full
    ensures 0 < max && |arr| <= max ==> (full <==> |arr| == max)
    ensures 0 < max < |arr| ==> full
    ensures max < 0 ==> full
  {
    max != 0 && |arr| >= max
  }

  /** `multiToggle`: a selected item is removed (every occurrence, whatever the cap); an
      unselected one is appended at the end unless the cap is reached, in which case the
      selection comes back unchanged. */
  function MultiToggle<T(==)>(arr: seq<T>, item: T, max: int): (r: seq<T>)
    ensures item in arr ==> item !in r && multiset(r) == multiset(arr)[item := 0]
    ensures item !in arr && AtCapacity(arr, max) ==> r == arr
    ensures item !in arr && !AtCapacity(arr, max) ==> r == arr + [item]
    ensures item in r <==> item !in arr && !AtCapacity(arr, max)
  {
    if item in arr then
      RemoveAllCounts(arr, item);
      RemoveAll(arr, item)
    else if AtCapacity(arr, max) then arr
    else arr + [item]
  }

  /** A selection that respects a positive cap keeps respecting it. */
  lemma ToggleRespectsCap<T>(arr: seq<T>, item: T, max: int)
    requires 0 < max && |arr| <= max
    ensures |MultiToggle(arr, item, max)| <= max
  {
  }

  /** Toggles never introduce a duplicate. */
  lemma ToggleKeepsDistinct<T>(arr: seq<T>, item: T, max: int)
    requires Distinct(arr)
    ensures Distinct(MultiToggle(arr, item, max))
  {
    if item in arr {
      RemoveAllDistinct(arr, item);
    } else if !AtCapacity(arr, max) {
      var r := arr + [item];
      forall i, j | 0 <= i < j < |r| ensures r[i] != r[j] {
        if j == |arr| { assert r[i] == arr[i]; } else { assert r[i] == arr[i] && r[j] == arr[j]; }
      }
    }
  }

  /** Toggling an offered item keeps the selection inside the offered options. */
  lemma ToggleStaysWithin<T>(arr: seq<T>, item: T, max: int, options: seq<T>)
    requires AllIn(arr, options) && item in options
    ensures AllIn(MultiToggle(arr, item, max), options)
  {
  }

  /** Adding an item and toggling it again gives back the original selection. */
  lemma ToggleAddThenRemove<T>(arr: seq<T>, item: T, max: int)
    requires item !in arr && !AtCapacity(arr, max)
    ensures MultiToggle(MultiToggle(arr, item, max), item, max) == arr
  {
    RemoveAllAppend(arr, [item], item);
  }

  /** Removing an item and toggling it again restores the same set of selected items
      (the item moves to the end). */
  lemma ToggleRemoveThenAdd<T>(arr: seq<T>, item: T, max: int)
    requires Distinct(arr) && item in arr
    requires max == 0 || |arr| <= max
    ensures multiset(MultiToggle(MultiToggle(arr, item, max), item, max)) == multiset(arr)
  {
    DistinctCountOne(arr, item);
    var removed := MultiToggle(arr, item, max);
    assert |removed| < |arr| by {
      assert |multiset(removed)| == |multiset(arr)| - 1;
    }
  }

  /** A series of toggles, applied left to right: the clicks a user makes on the options. */
  function ToggleSeries<T(==)>(arr: seq<T>, clicks: seq<T>, max: int): seq<T>
    decreases |clicks|
  {
    if clicks == [] then arr
    else ToggleSeries(MultiToggle(arr, clicks[0], max), clicks[1..], max)
  }

  /** However many items are clicked, a selection within a positive cap never grows past it,
      stays duplicate-free, and stays inside the offered options. */
  lemma {:induction false} ToggleSeriesInvariant<T>(arr: seq<T>, clicks: seq<T>, max: int, options: seq<T>)
    requires 0 < max && |arr| <= max && Distinct(arr) && AllIn(arr, options) && AllIn(clicks, options)
    ensures var r := ToggleSeries(arr, clicks, max);
      |r| <= max && Distinct(r) && AllIn(r, options)
    decreases |clicks|
  {
    if clicks != [] {
      var next := MultiToggle(arr, clicks[0], max);
      ToggleRespectsCap(arr, clicks[0], max);
      ToggleKeepsDistinct(arr, clicks[0], max);
      ToggleStaysWithin(arr, clicks[0], max, options);
      assert AllIn(clicks[1..], options);
      ToggleSeriesInvariant(next, clicks[1..], max, options);
    }
  }

  /** At capacity, clicking unselected items any number of times changes nothing. */
  lemma {:induction false} ToggleSeriesAtCapacity<T>(arr: seq<T>, clicks: seq<T>, max: int)
    requires AtCapacity(arr, max)
    requires forall k :: 0 <= k < |clicks| ==> clicks[k] !in arr
    ensures ToggleSeries(arr, clicks, max) == arr
    decreases |clicks|
  {
    if clicks != [] {
      ToggleSeriesAtCapacity(arr, clicks[1..], max);
    }
  }
}
