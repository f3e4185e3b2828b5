/**
 * The page component: the flattening of generated parts into the text sent
 * for the answer key, the theme toggle, and the session state that the two
 * handlers update.
 */
module App {
  import opened Types
  import opened GeminiService

  // ---------------------------------------------------------------------
  // soalToString
  // ---------------------------------------------------------------------

  /** The placeholder that stands for an image in flattened text. */
  const ImagePlaceholder := "[GAMBAR]"

  /** What one part contributes to the flattened text. */
  function PartText(p: SoalPart): string
  {
    if p.kind == ImagePart then ImagePlaceholder else p.data
  }

  /** `soalToString`: the parts' texts joined in order, images as `[GAMBAR]`. */
  function SoalToString(soal: seq<SoalPart>): string
  {
    if soal == [] then [] else PartText(soal[0]) + SoalToString(soal[1..])
  }

  /** The data of every part joined in order, with no placeholder. */
  function JoinedData(soal: seq<SoalPart>): string
  {
    if soal == [] then [] else soal[0].data + JoinedData(soal[1..])
  }

  /** Flattening distributes over concatenation of part lists. */
  lemma {:induction false} SoalToStringAppend(a: seq<SoalPart>, b: seq<SoalPart>)
    ensures SoalToString(a + b) == SoalToString(a) + SoalToString(b)
  {
    if a == [] {
      assert a + b == b;
    } else {
      assert (a + b)[1..] == a[1..] + b;
      SoalToStringAppend(a[1..], b);
    }
  }

  /** A list of text parts only flattens to the plain concatenation of their data. */
  lemma {:induction false} SoalToStringOfText(soal: seq<SoalPart>)
    requires forall p :: p in soal ==> p.kind == TextPart
    ensures SoalToString(soal) == JoinedData(soal)
  {
    if soal != [] {
      assert soal[0] in soal;
      assert forall p :: p in soal[1..] ==> p in soal;
      SoalToStringOfText(soal[1..]);
    }
  }

  // ---------------------------------------------------------------------
  // Theme
  // ---------------------------------------------------------------------

  datatype Theme = Light | Dark

  /** The updater passed to `setTheme` by `toggleTheme`. */
  function Toggled(t: Theme): (r: Theme)
    ensures r != t
  {
    if t == Light then Dark else Light
  }

  /** Toggling twice gives back the theme one started with. */
  lemma ToggleTwice(t: Theme)
    ensures Toggled(Toggled(t)) == t
  {
  }

  // ---------------------------------------------------------------------
  // The session
  // ---------------------------------------------------------------------

  /** The message set when the key is asked for before any questions exist. */
  const NoQuestionsError := "Silakan generate soal terlebih dahulu."

  /** A request sent to the text model: questions for a form, or a key for flattened questions. */
  datatype Sent = AskQuestions(form: FormData) | AskKey(mapel: string, questions: string)

  /**
   * The page's state. `requests` is a ghost record of every request sent
   * to the text model, in order, so that a handler can be said to send none.
   */
  class Session {
    var theme: Theme
    var formDataCache: Option<FormData>
    var generatedSoal: Option<seq<SoalPart>>
    var kunciJawaban: string
    var isLoadingSoal: bool
    var isLoadingKunci: bool
    var error: Option<string>
    ghost var requests: seq<Sent>

    /** Form data is cached exactly when generated questions are held. */
    ghost predicate Valid()
      reads this
    {
      formDataCache.None? <==> generatedSoal.None?
    }

    /** `canShowKunci`: questions exist (an empty list counts) and no key is shown yet. */
    predicate CanShowKunci()
      reads this
    {
      generatedSoal.Some? && kunciJawaban == []
    }

    /** The initial state; the starting theme comes from storage or the system setting. */
    constructor (initialTheme: Theme)
      ensures Valid()
      ensures theme == initialTheme
      ensures formDataCache.None? && generatedSoal.None? && kunciJawaban == []
      ensures !isLoadingSoal && !isLoadingKunci && error.None?
      ensures requests == []
    {
      theme := initialTheme;
      formDataCache, generatedSoal, kunciJawaban := None, None, [];
      isLoadingSoal, isLoadingKunci, error := false, false, None;
      requests := [];
    }

    /** `toggleTheme`: the theme flips and nothing else changes. */
    method ToggleTheme()
      modifies this`theme
      ensures theme == Toggled(old(theme))
    {
      theme := Toggled(theme);
    }

    /** The synchronous start of `handleGenerateSoal`: loading, everything cleared. */
    method BeginGenerate()
      modifies this`isLoadingSoal, this`error, this`generatedSoal, this`kunciJawaban, this`formDataCache
      ensures Valid()
      ensures isLoadingSoal && error.None?
      ensures generatedSoal.None? && kunciJawaban == [] && formDataCache.None?
    {
      isLoadingSoal := true;
      error := None;
      generatedSoal := None;
      kunciJawaban := [];
      formDataCache := None;
    }

    /**
     * The awaited end of `handleGenerateSoal`: the parts and the form data
     * stored together, or the thrown message; loading ends either way.
     */
    method CompleteGenerate(f: FormData, result: Result<seq<SoalPart>, string>)
      requires generatedSoal.None? && formDataCache.None? && kunciJawaban == []
      modifies this`isLoadingSoal, this`error, this`generatedSoal, this`formDataCache
      ensures Valid() && !isLoadingSoal
      ensures result.Ok? ==> generatedSoal == Some(result.value) && formDataCache == Some(f) && error == old(error)
      ensures result.Err? ==> generatedSoal.None? && formDataCache.None? && error == Some(result.error)
    {
      if result.Ok? {
        generatedSoal := Some(result.value);
        formDataCache := Some(f);
      } else {
        error := Some(result.error);
      }
      isLoadingSoal := false;
    }

    /**
     * `handleGenerateSoal`: clear the session, ask for questions, then
     * store the parts together with the form data, or the thrown message.
     * The ghost `outcome` names what the service call settled to.
     */
    method HandleGenerateSoal(f: FormData, model: TextModel, image: ImageModel)
      returns (ghost outcome: Result<seq<SoalPart>, string>)
      modifies this
      ensures outcome == Questions(f, model, image)
      ensures Valid() && !isLoadingSoal && kunciJawaban == []
      ensures theme == old(theme) && isLoadingKunci == old(isLoadingKunci)
      ensures requests == old(requests) + [AskQuestions(f)]
      ensures outcome.Ok? ==>
        generatedSoal == Some(outcome.value) && formDataCache == Some(f) && error.None? && CanShowKunci()
      ensures outcome.Err? ==>
        generatedSoal.None? && formDataCache.None? && error == Some(GenerateQuestionsError)
    {
      BeginGenerate();
      requests := requests + [AskQuestions(f)];
      var result := GenerateQuestions(f, model, image);
      CompleteGenerate(f, result);
      outcome := result;
    }

    /**
     * `handleShowKunci`: without cached questions only the error is set;
     * otherwise the key is cleared, requested for the flattened questions,
     * and stored, or the thrown message is. The questions and the form data
     * are never touched.
     */
    method HandleShowKunci(model: TextModel)
      modifies this
      ensures generatedSoal == old(generatedSoal) && formDataCache == old(formDataCache)
      ensures theme == old(theme) && isLoadingSoal == old(isLoadingSoal)
      ensures old(Valid()) ==> Valid()
      ensures old(formDataCache.None? || generatedSoal.None?) ==>
        && error == Some(NoQuestionsError)
        && kunciJawaban == old(kunciJawaban)
        && isLoadingKunci == old(isLoadingKunci)
        && requests == old(requests)
      ensures old(formDataCache.Some? && generatedSoal.Some?) ==>
        var questions := SoalToString(old(generatedSoal).value);
        var key := GenerateAnswerKey(old(formDataCache).value, questions, model);
        && !isLoadingKunci
        && requests == old(requests) + [AskKey(old(formDataCache).value.mapel, questions)]
        && (key.Ok? ==> kunciJawaban == key.value && error.None?)
        && (key.Ok? ==> (CanShowKunci() <==> key.value == []))
        && (key.Err? ==> kunciJawaban == [] && error == Some(GenerateAnswerKeyError))
    {
      if formDataCache.None? || generatedSoal.None? {
        error := Some(NoQuestionsError);
        return;
      }
      isLoadingKunci := true;
      error := None;
      kunciJawaban := [];
      var f := formDataCache.value;
      var soalAsString := SoalToString(generatedSoal.value);
      requests := requests + [AskKey(f.mapel, soalAsString)];
      var result := GenerateAnswerKey(f, soalAsString, model);
      if result.Ok? {
        kunciJawaban := result.value;
      } else {
        error := Some(result.error);
      }
      isLoadingKunci := false;
    }
  }
}
