/** The `Question` renderer (src/App.tsx:271-349), reduced to what it can hand to `onChange`:
    a typed string for text, one of the options for select (the empty placeholder is disabled),
    the toggled selection for multiselect, a scale value for likert and an image value for
    imagepick. */
module Widgets {
  import opened Wrappers
  import opened JsStrings
  import opened Seqs
  import opened Answers
  import opened Schema
  import opened Validation

  /** The likert buttons: `Array.from({ length: max - min + 1 })` mapped to `min + i`; a
      negative length yields no buttons. The scale is every integer from `min` to `max`, in
      increasing order. */
  function LikertScale(min: int, max: int): (r: seq<int>)
    ensures |r| == if max < min then 0 else max - min + 1
    ensures forall i :: 0 <= i < |r| ==> r[i] == min + i
    ensures forall n :: n in r <==> min <= n <= max
  {
    if max < min then []
    else
      var r := seq(max - min + 1, i => min + i);
      forall n | min <= n <= max ensures n in r {
        assert r[n - min] == n;
      }
      r
  }

  /** `onChange(v)` can be called with `v` while the question shows `current`. No input emits
      `undefined`; only multiselect emits an array and only likert a number. */
  predicate Emits(q: Question, current: Answer, v: Answer): (can: bool)
    ensures can ==> !v.Absent? && (v.List? <==> q.kind.Multiselect?) && (v.Num? <==> q.kind.Likert?)
  {
    match q.kind
    case Text(_) => v.Str?
    case Select(options) => v.Str? && v.s in options
    case Multiselect(options, max) =>
      exists k :: 0 <= k < |options| && v == List(MultiToggle(AsArray(current), options[k], max))
    case Likert(min, max) => v.Num? && v.n in LikertScale(min, max)
    case Imagepick(images) => v.Str? && v.s in images
  }

  /** The selection a multiselect question shows respects the question's cap, repeats no
      option and holds only offered options. */
  predicate SelectionOk(options: seq<string>, max: int, v: Answer)
  {
    var sel := AsArray(v);
    |sel| <= max && Distinct(sel) && AllIn(sel, options)
  }

  /** Whatever the multiselect buttons emit keeps the selection within the question's rules. */
  lemma MultiselectEmitsWithinRules(i: nat, current: Answer, v: Answer)
    requires i < Total && QuestionSet[i].kind.Multiselect?
    requires SelectionOk(QuestionSet[i].kind.options, QuestionSet[i].kind.max, current)
    requires Emits(QuestionSet[i], current, v)
    ensures v.List? && SelectionOk(QuestionSet[i].kind.options, QuestionSet[i].kind.max, v)
  {
    var q := QuestionSet[i];
    EntryWellFormed(i);
    var k :| 0 <= k < |q.kind.options| && v == List(MultiToggle(AsArray(current), q.kind.options[k], q.kind.max));
    var arr := AsArray(current);
    ToggleKeepsDistinct(arr, q.kind.options[k], q.kind.max);
    ToggleRespectsCap(arr, q.kind.options[k], q.kind.max);
    ToggleStaysWithin(arr, q.kind.options[k], q.kind.max, q.kind.options);
  }

  /** The likert buttons only emit values inside the question's scale. */
  lemma LikertEmitsInRange(q: Question, current: Answer, v: Answer)
    requires q.kind.Likert? && Emits(q, current, v)
    ensures v.Num? && q.kind.min <= v.n <= q.kind.max
  {
  }

  /** On the schema, a value picked from a select, imagepick or likert question always validates:
      only the text and multiselect inputs can produce a rejected answer. */
  lemma PickedChoiceValidates(i: nat, current: Answer, v: Answer)
    requires i < Total && Emits(QuestionSet[i], current, v)
    requires QuestionSet[i].kind.Select? || QuestionSet[i].kind.Imagepick? || QuestionSet[i].kind.Likert?
    ensures ValidateAnswer(QuestionSet[i], v) == None
  {
    var q := QuestionSet[i];
    EntryWellFormed(i);
    if q.kind.Select? {
      var k :| 0 <= k < |q.kind.options| && q.kind.options[k] == v.s;
    } else if q.kind.Imagepick? {
      var k :| 0 <= k < |q.kind.images| && q.kind.images[k] == v.s;
    }
  }
}
