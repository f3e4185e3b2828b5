/** The value types shared by the service, the session and the view. */
module Types {

  datatype Option<+T> = None | Some(value: T)

  datatype Result<+T, +E> = Ok(value: T) | Err(error: E)

  /** The two question kinds; `Label` is the string value the enum carries. */
  datatype QuestionType = PilihanGanda | Essay {
    function Label(): (s: string)
      ensures s != []
    {
      match this
      case PilihanGanda => "Pilihan Ganda"
      case Essay => "Essay"
    }
  }

  /**
   * The generation request filled in by the teacher: subject (`mapel`),
   * level (`jenjang`), the optional grade (`kelas`, absent for levels
   * without sub-grades), question kind, count and topic (`materi`).
   */
  datatype FormData = FormData(
    mapel: string,
    jenjang: string,
    kelas: Option<string>,
    tipeSoal: QuestionType,
    jumlahSoal: int,
    materi: string)

  datatype PartType = TextPart | ImagePart

  /** One piece of a generated question set: text, or an image data URI. */
  datatype SoalPart = SoalPart(kind: PartType, data: string)
}
