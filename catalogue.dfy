/** The records the core passes around: degree programmes from the
    university's open-data catalogue, the website identifier of a programme,
    curricula, and the lecture, subject and exam records of the timetable
    service. */
module Catalogue {
  import opened DateTime

  /** A degree programme, one row of the open-data catalogue. The packages
      `unibo_integ` and `unibo` each declare this struct with the same fields. */
  datatype Course = Course(
    annoAccademico: string,
    immatricolabile: string,
    codice: int,
    descrizione: string,
    url: string,
    campus: string,
    ambiti: string,
    tipologia: string,
    durataAnni: int,
    internazionale: bool,
    internazionaleTitolo: string,
    internazionaleLingua: string,
    lingue: string,
    accesso: string,
    sedeDidattica: string)

  /** Go's zero `Course`, what indexing a map with an absent key yields. */
  const ZeroCourse := Course("", "", 0, "", "", "", "", "", 0, false, "", "", "", "", "")

  /** The `<category>/<slug>` pair that names a programme's website
      (`CourseId` in `unibo_integ` and `unibo`, `CourseWebsiteId` in the
      open-data file). */
  datatype CourseId = CourseId(tipologia: string, id: string)

  /** A curriculum of one year of a programme; Go compares it field by field,
      so it can key a map. */
  datatype Curriculum = Curriculum(selected: bool, value: string, labelText: string)

  /** The curriculum a request without `curr` stands for: Go's zero value. */
  const NoCurriculum := Curriculum(false, "", "")

  /** Go's time values are always normalised; `Instant` carries that. */
  type Instant = t: Time | Valid(t) witness Time(1, 1, 1, 0, 0, 0)

  datatype Classroom = Classroom(resourceDesc: string)

  /** A lecture of the timetable service. */
  datatype Event = Event(
    codModulo: string,
    title: string,
    teacher: string,
    cfu: int,
    interval: string,
    start: Instant,
    end: Instant,
    classrooms: seq<Classroom>)

  /** A subject of a timetable, as offered for filtering. */
  datatype SimpleSubject = SimpleSubject(code: string, name: string)

  /** An exam session of the exams service. */
  datatype Exam = Exam(
    subjectName: string,
    subjectCode: string,
    teacher: string,
    date: Instant,
    location: string,
    examType: string)

  /** A resource of a CKAN open-data package. */
  datatype Resource = Resource(
    frequency: string,
    url: string,
    id: string,
    packageId: string,
    lastMod: string,
    alias: string)

  /** The name a subject is sorted by. */
  function SubjectName(s: SimpleSubject): string {
    s.name
  }
}
