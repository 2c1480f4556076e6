/** `validateAnswer` (src/App.tsx:27-40): the presence rule for required questions, then the
    minimum-length rule for text questions. The first failing rule decides the message;
    `None` stands for the `null` that means "valid". */
module Validation {
  import opened Wrappers
  import opened JsStrings
  import opened Answers
  import opened Schema

  /** `requiredError` (src/App.tsx:19). */
  const RequiredError: string := "Este campo es obligatorio"

  /** `Mínimo ${minLen} caracteres`: never the required-field message. */
  function MinLenError(minLen: int): (m: string)
    ensures m != RequiredError
  {
    var m := "Mínimo " + Decimal(minLen) + " caracteres";
    assert m[0] != RequiredError[0];
    m
  }

  /** The minimum-length message names its minimum unambiguously. */
  lemma MinLenErrorInjective(m: int, n: int)
    requires MinLenError(m) == MinLenError(n)
    ensures m == n
  {
    var k := |"Mínimo "|;
    assert Decimal(m) == MinLenError(m)[k..|MinLenError(m)| - |" caracteres"|];
    assert Decimal(n) == MinLenError(n)[k..|MinLenError(n)| - |" caracteres"|];
    DecimalInjective(m, n);
  }

  /** The presence rule: for this kind of question the value does not count as an answer.
      Absent never counts; a text, select or imagepick answer must have a non-whitespace
      character once coerced to a string; a multiselect answer must be a non-empty array;
      a likert answer must be a number (any number: there is no range check). */
  predicate Missing(kind: Kind, v: Answer)
  {
    || v.Absent?
    || match kind
       case Text(_) => AllSpace(Stringify(v))
       case Select(_) => AllSpace(Stringify(v))
       case Imagepick(_) => AllSpace(Stringify(v))
       case Multiselect(_, _) => AsArray(v) == []
       case Likert(_, _) => !v.Num?
  }

  /** The minimum-length rule: a text question with a non-zero `minLen` whose trimmed value
      (absent read as "") is shorter, counted in UTF-16 code units as `.length` counts. It
      applies whether or not the question is required. */
  predicate TooShort(kind: Kind, v: Answer)
  {
    kind.Text? && kind.minLen != 0 && Utf16Length(Trim(Stringify(v))) < kind.minLen
  }

  /** `validateAnswer`: the required-field message exactly when a required question's answer is
      missing; otherwise the minimum-length message exactly when a text answer is too short;
      otherwise valid. */
  function ValidateAnswer(q: Question, v: Answer): (r: Option<string>)
    ensures r == Some(RequiredError) <==> q.required && Missing(q.kind, v)
    ensures q.kind.Text? && r == Some(MinLenError(q.kind.minLen)) <==>
      !(q.required && Missing(q.kind, v)) && TooShort(q.kind, v)
    ensures r == None <==> !(q.required && Missing(q.kind, v)) && !TooShort(q.kind, v)
    ensures !q.required && !q.kind.Text? ==> r == None
  {
    var presenceFails :=
      || v.Absent?
      || (q.kind.Text? && |Trim(Stringify(v))| == 0)
      || (q.kind.Select? && Trim(Stringify(v)) == "")
      || (q.kind.Multiselect? && |AsArray(v)| == 0)
      || (q.kind.Imagepick? && Trim(Stringify(v)) == "")
      || (q.kind.Likert? && !v.Num?);
    assert presenceFails <==> Missing(q.kind, v);
    if q.required && presenceFails then Some(RequiredError)
    else if q.kind.Text? && q.kind.minLen != 0 && Utf16Length(Trim(Stringify(v))) < q.kind.minLen then
      Some(MinLenError(q.kind.minLen))
    else None
  }

  /** A text answer with visible content at least `minLen` code units long passes. */
  lemma TextAnswerAccepted(q: Question, s: string)
    requires q.kind.Text? && !AllSpace(s) && Utf16Length(Trim(s)) >= q.kind.minLen
    ensures ValidateAnswer(q, Str(s)) == None
  {
  }

  /** Five emoji: five characters, but ten UTF-16 code units. */
  const FiveEmoji: string := "\U{1F600}\U{1F600}\U{1F600}\U{1F600}\U{1F600}"

  lemma FiveEmojiMeasures()
    ensures |FiveEmoji| == 5 && Trim(FiveEmoji) == FiveEmoji && Utf16Length(FiveEmoji) == 10
  {
    assert NoSpace(FiveEmoji);
    TrimNoSpace(FiveEmoji);
    assert Utf16Length(FiveEmoji[4..]) == 2;
    assert Utf16Length(FiveEmoji[3..]) == 4;
    assert Utf16Length(FiveEmoji[2..]) == 6;
    assert Utf16Length(FiveEmoji[1..]) == 8;
  }

  /** Five emoji meet the ten-unit minimum of "proposito": the rule counts as `.length` does,
      not characters. */
  lemma AstralCharactersCountTwice()
    ensures QuestionSet[7].id == "proposito" && QuestionSet[7].kind == Text(10)
    ensures |FiveEmoji| == 5 && ValidateAnswer(QuestionSet[7], Str(FiveEmoji)) == None
  {
    FiveEmojiMeasures();
    TextAnswerAccepted(QuestionSet[7], FiveEmoji);
  }

  /** Any number passes a likert question, in range or not. */
  lemma LikertAcceptsAnyNumber(q: Question, n: int)
    requires q.kind.Likert?
    ensures ValidateAnswer(q, Num(n)) == None
  {
  }

  /** A number coerced to a string is never blank, so it passes the presence rule of a text,
      select or imagepick question. */
  lemma NumberIsPresent(q: Question, n: int)
    requires q.kind.Text? || q.kind.Select? || q.kind.Imagepick?
    ensures !Missing(q.kind, Num(n))
  {
  }

  /** An array given to a multiselect question is present exactly when it is non-empty;
      anything else is missing there. */
  lemma MultiselectPresence(q: Question, v: Answer)
    requires q.kind.Multiselect? && q.required
    ensures ValidateAnswer(q, v) == None <==> v.List? && v.items != []
  {
  }
}
