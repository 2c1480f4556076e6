/** `QUESTION_SET` (src/App.tsx:43-77): the fixed, ordered questionnaire. Each entry is a tagged
    union on its `type`, so a select question cannot lack options and a likert question cannot
    lack its bounds. Labels and image URLs are presentation and are not kept. */
module Schema {
  import opened JsStrings
  import opened Seqs

  datatype Kind =
    | Text(minLen: nat)                               // minLen 0: no minimum
    | Select(options: seq<string>)
    | Multiselect(options: seq<string>, max: int)     // max 0: no cap
    | Likert(min: int, max: int)
    | Imagepick(images: seq<string>)                  // the `value` of each image

  datatype Question = Question(id: string, required: bool, kind: Kind)

  /** The option lists of the choice questions, in the order they appear. */
  const Topics: seq<string> := ["Astrología", "Tarot", "Meditación", "Numerología", "Energía y sanación"]
  const ReadingFrequency: seq<string> := ["Nunca", "A veces", "Con frecuencia", "Todos los días"]
  const RelationshipValues: seq<string> := ["Lealtad", "Libertad", "Pasión", "Estabilidad", "Crecimiento personal"]
  const RelationshipStatus: seq<string> := ["Sí", "No", "Prefiero no responder"]
  const Scenes: seq<string> := ["astros", "tarot", "meditacion", "energia"]
  const Emotions: seq<string> := ["Alegría", "Ansiedad", "Calma", "Curiosidad", "Pasión"]
  const Cycles: seq<string> := ["Sí, claramente", "A veces", "No lo noto"]
  const Beliefs: seq<string> := ["Ninguna", "Cristianismo", "Budismo", "Hinduismo", "Otro"]
  const Surroundings: seq<string> := ["Entornos tranquilos", "Entornos activos", "En soledad", "En compañía"]
  const Expression: seq<string> := ["Arte", "Escritura", "Música", "Movimiento corporal", "Diálogo"]

  const QuestionSet: seq<Question> := [
    Question("nombre", true, Text(2)),
    Question("fecha_nacimiento", true, Text(0)),
    Question("hora_nacimiento", false, Text(0)),
    Question("lugar_nacimiento", true, Text(0)),
    Question("tema_interes", true, Multiselect(Topics, 3)),
    Question("lecturas", true, Select(ReadingFrequency)),
    Question("auto_percepcion", true, Likert(1, 5)),
    Question("proposito", true, Text(10)),
    Question("relaciones_valor", true, Multiselect(RelationshipValues, 2)),
    Question("relaciones_estado", true, Select(RelationshipStatus)),
    Question("vocacion", true, Text(0)),
    Question("trabajo_sentido", true, Likert(1, 5)),
    Question("escenario_vital", true, Imagepick(Scenes)),
    Question("emociones", true, Multiselect(Emotions, 3)),
    Question("gestion_emociones", true, Likert(1, 5)),
    Question("ciclos", true, Select(Cycles)),
    Question("epoca_significativa", false, Text(0)),
    Question("creencias", false, Select(Beliefs)),
    Question("espiritualidad", true, Likert(1, 5)),
    Question("fortalezas", true, Text(0)),
    Question("desafios", true, Text(0)),
    Question("energia_entorno", true, Select(Surroundings)),
    Question("expresion", true, Multiselect(Expression, 2)),
    Question("bienestar", true, Likert(1, 5)),
    Question("energia_personal", true, Likert(1, 5)),
    Question("curiosidad", true, Text(0)),
    Question("futuro", false, Text(0)),
    Question("mensaje", false, Text(0))
  ]

  /** Number of wizard steps. */
  const Total: nat := |QuestionSet|

  /** Every choice offered has something visible in it. */
  predicate Visible(choices: seq<string>)
  {
    forall k :: 0 <= k < |choices| ==> !AllSpace(choices[k])
  }

  /** The shape constraints a schema author is trusted to respect. */
  predicate WellFormed(q: Question)
  {
    match q.kind
    case Text(_) => true
    case Select(options) => ChoiceList(options)
    case Multiselect(options, max) => 0 < max <= |options| && Distinct(options)
    case Likert(min, max) => min < max
    case Imagepick(images) => ChoiceList(images)
  }

  lemma SchemaSize()
    ensures Total == 28
  {
  }

  /** The id of question `i` is not reused by any later question. */
  predicate IdUnusedLater(i: nat)
    requires i < Total
  {
    forall j :: i < j < Total ==> QuestionSet[i].id != QuestionSet[j].id
  }

  /** Ids are a key: no two questions share one. The pairs are checked in five blocks of
      under a hundred pairs each, so that no single proof compares all 378 pairs of ids. */
  lemma IdsDistinct()
    ensures forall i, j :: 0 <= i < j < Total ==> QuestionSet[i].id != QuestionSet[j].id
  {
    IdsUnusedLater0To2();
    IdsUnusedLater2To5();
    IdsUnusedLater5To9();
    IdsUnusedLater9To15();
    IdsUnusedLater15To28();
    forall i, j | 0 <= i < j < Total ensures QuestionSet[i].id != QuestionSet[j].id {
      assert IdUnusedLater(i);
    }
  }

  /** The blocks of `IdsDistinct`: the ids of questions `lo` to `hi - 1` are not reused later. */
  lemma IdsUnusedLater0To2()
    ensures forall i | 0 <= i < 2 :: IdUnusedLater(i)
  {
  }

  lemma IdsUnusedLater2To5()
    ensures forall i | 2 <= i < 5 :: IdUnusedLater(i)
  {
  }

  lemma IdsUnusedLater5To9()
    ensures forall i | 5 <= i < 9 :: IdUnusedLater(i)
  {
  }

  lemma IdsUnusedLater9To15()
    ensures forall i | 9 <= i < 15 :: IdUnusedLater(i)
  {
  }

  lemma IdsUnusedLater15To28()
    ensures forall i | 15 <= i < 28 :: IdUnusedLater(i)
  {
  }

  /** A choice whose first character is not whitespace is visible. */
  lemma VisibleByFirstChar(choices: seq<string>)
    requires forall k :: 0 <= k < |choices| ==> choices[k] != [] && !IsSpace(choices[k][0])
    ensures Visible(choices)
  {
  }

  /** Every entry respects the shape constraints. */
  lemma SchemaWellFormed()
    ensures forall i :: 0 <= i < Total ==> WellFormed(QuestionSet[i])
  {
    forall i | 0 <= i < Total ensures WellFormed(QuestionSet[i]) {
      EntryWellFormed(i);
    }
  }

  /** A list of choices for a select or imagepick question: at least one choice, no choice
      twice, every choice visible. */
  predicate ChoiceList(choices: seq<string>)
  {
    choices != [] && Distinct(choices) && Visible(choices)
  }

  /** The option lists of the select and imagepick questions are choice lists (in two halves,
      to keep each proof small). */
  lemma SingleChoiceListsWellFormed()
    ensures ChoiceList(ReadingFrequency) && ChoiceList(RelationshipStatus) && ChoiceList(Scenes)
    ensures ChoiceList(Cycles) && ChoiceList(Beliefs) && ChoiceList(Surroundings)
  {
    EarlyChoiceListsWellFormed();
    LateChoiceListsWellFormed();
  }

  lemma EarlyChoiceListsWellFormed()
    ensures ChoiceList(ReadingFrequency) && ChoiceList(RelationshipStatus) && ChoiceList(Scenes)
  {
    VisibleByFirstChar(ReadingFrequency);
    VisibleByFirstChar(RelationshipStatus);
    VisibleByFirstChar(Scenes);
  }

  lemma LateChoiceListsWellFormed()
    ensures ChoiceList(Cycles) && ChoiceList(Beliefs) && ChoiceList(Surroundings)
  {
    VisibleByFirstChar(Cycles);
    VisibleByFirstChar(Beliefs);
    VisibleByFirstChar(Surroundings);
  }

  /** The option lists of the multiselect questions repeat no option. */
  lemma MultiChoiceListsDistinct()
    ensures Distinct(Topics) && Distinct(RelationshipValues) && Distinct(Emotions) && Distinct(Expression)
  {
  }

  lemma EntryWellFormed(i: nat)
    requires i < Total
    ensures WellFormed(QuestionSet[i])
  {
    SingleChoiceListsWellFormed();
    MultiChoiceListsDistinct();
    if i < 14 {
      FirstHalfWellFormed(i);
    } else {
      SecondHalfWellFormed(i);
    }
  }

  lemma FirstHalfWellFormed(i: nat)
    requires i < 14
    requires ChoiceList(ReadingFrequency) && ChoiceList(RelationshipStatus) && ChoiceList(Scenes)
    requires Distinct(Topics) && Distinct(RelationshipValues) && Distinct(Emotions)
    ensures WellFormed(QuestionSet[i])
  {
  }

  lemma SecondHalfWellFormed(i: nat)
    requires 14 <= i < Total
    requires ChoiceList(Cycles) && ChoiceList(Beliefs) && ChoiceList(Surroundings)
    requires Distinct(Expression)
    ensures WellFormed(QuestionSet[i])
  {
  }

  /** The concrete caps and scales: multiselects allow 3, 2, 3, 2 of five options; every
      likert scale runs from 1 to 5. */
  lemma SchemaBounds()
    ensures forall i :: 0 <= i < Total && QuestionSet[i].kind.Multiselect? ==>
      |QuestionSet[i].kind.options| == 5 && QuestionSet[i].kind.max in {2, 3}
    ensures forall i :: 0 <= i < Total && QuestionSet[i].kind.Likert? ==>
      QuestionSet[i].kind.min == 1 && QuestionSet[i].kind.max == 5
  {
  }
}
