/** `generateAstroAdvice` (src/App.tsx:82-94): the mock report shown after unlocking. Its text is
    fixed apart from two bullets that echo the birth date and the name. */
module Report {
  import opened Answers

  datatype Advice = Advice(summary: string, bullets: seq<string>, tips: seq<string>)

  const Summary: string :=
    "Con base en tus respuestas y datos de nacimiento, vemos que tu signo solar tiene un rol clave en tu camino de vida."
  const Tips: seq<string> := [
    "Explorá cómo la luna influye en tus emociones diarias.",
    "Prestá atención a tus relaciones, que parecen centrales en tu carta."
  ]

  /** JavaScript truthiness of a stored answer: undefined, "" and 0 are falsy; every array,
      even an empty one, is truthy. */
  predicate Truthy(v: Answer)
  {
    match v
    case Absent => false
    case Str(s) => s != ""
    case Num(n) => n != 0
    case List(_) => true
  }

  /** `${answers[key] || "—"}`: the answer as a string, or a dash when it is falsy. */
  function Shown(answers: map<string, Answer>, key: string): string
  {
    var v := Get(answers, key);
    if Truthy(v) then Stringify(v) else "—"
  }

  /** The report for a set of answers: a fixed summary and tips, and two bullets that show the
      birth date and the name as given (a dash for one left empty). */
  function GenerateAstroAdvice(answers: map<string, Answer>): (r: Advice)
    ensures r.summary == Summary && r.tips == Tips && |r.bullets| == 2
    ensures forall s :: Get(answers, "fecha_nacimiento") == Str(s) && s != "" ==>
      r.bullets[0] == "Fecha de nacimiento: " + s
    ensures Get(answers, "fecha_nacimiento") == Absent ==> r.bullets[0] == "Fecha de nacimiento: —"
    ensures forall s :: Get(answers, "nombre") == Str(s) && s != "" ==> r.bullets[1] == "Nombre: " + s
    ensures Get(answers, "nombre") == Absent ==> r.bullets[1] == "Nombre: —"
  {
    Advice(Summary,
      ["Fecha de nacimiento: " + Shown(answers, "fecha_nacimiento"), "Nombre: " + Shown(answers, "nombre")],
      Tips)
  }

  /** The report reads only the name and the birth date: answers that agree on those two give
      the same report. */
  lemma AdviceDependsOnNameAndDate(a: map<string, Answer>, b: map<string, Answer>)
    requires Get(a, "nombre") == Get(b, "nombre")
    requires Get(a, "fecha_nacimiento") == Get(b, "fecha_nacimiento")
    ensures GenerateAstroAdvice(a) == GenerateAstroAdvice(b)
  {
  }
}
