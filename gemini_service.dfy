/**
 * The question service: `generateQuestions` (prompt, completion, `**`
 * removal, directive scan, image slots, tagging and filtering),
 * `generateImageFromPrompt` and `generateAnswerKey`. The hosted text and
 * image models are oracles passed in as functions.
 */
module GeminiService {
  import opened Types
  import opened JsText
  import opened Directives
  import opened Prompts

  // ---------------------------------------------------------------------
  // Removing `**`
  // ---------------------------------------------------------------------

  /** `replace(/[*][*]/g, '')`: every `**` pair, taken left to right, removed. */
  function StripBold(s: string): string
    decreases |s|
  {
    if |s| < 2 then s
    else if s[0] == '*' && s[1] == '*' then StripBold(s[2..])
    else [s[0]] + StripBold(s[1..])
  }

  /** `s` has no two adjacent asterisks. */
  predicate NoBold(s: string)
  {
    forall i :: 0 <= i < |s| - 1 ==> !(s[i] == '*' && s[i + 1] == '*')
  }

  /** `s` with every asterisk dropped: what the removal must leave untouched. */
  function Unstarred(s: string): string
  {
    if s == [] then []
    else (if s[0] == '*' then [] else [s[0]]) + Unstarred(s[1..])
  }

  /** A first character that is not `*` survives in first place. */
  lemma StripBoldHead(s: string)
    requires s != [] && s[0] != '*'
    ensures StripBold(s) != [] && StripBold(s)[0] == s[0]
  {
  }

  /** After the removal no `**` is left, even where removals bring two stars together. */
  lemma {:induction false} StripBoldRemovesBold(s: string)
    ensures NoBold(StripBold(s))
    decreases |s|
  {
    if |s| >= 2 {
      if s[0] == '*' && s[1] == '*' {
        StripBoldRemovesBold(s[2..]);
      } else {
        var tail := s[1..];
        StripBoldRemovesBold(tail);
        if s[0] == '*' {
          StripBoldHead(tail);
        }
        var r := [s[0]] + StripBold(tail);
        assert forall i :: 1 <= i < |r| ==> r[i] == StripBold(tail)[i - 1];
      }
    }
  }

  /** Every character other than `*` survives, in order. */
  lemma {:induction false} StripBoldKeepsOthers(s: string)
    ensures Unstarred(StripBold(s)) == Unstarred(s)
    decreases |s|
  {
    if |s| >= 2 {
      if s[0] == '*' && s[1] == '*' {
        StripBoldKeepsOthers(s[2..]);
        assert s[1..][1..] == s[2..];
      } else {
        StripBoldKeepsOthers(s[1..]);
        assert ([s[0]] + StripBold(s[1..]))[1..] == StripBold(s[1..]);
      }
    }
  }

  /** Text without `**` is left as it is. */
  lemma {:induction false} StripBoldKeepsPlain(s: string)
    requires NoBold(s)
    ensures StripBold(s) == s
    decreases |s|
  {
    if |s| >= 2 {
      var tail := s[1..];
      assert NoBold(tail) by {
        forall i | 0 <= i < |tail| - 1
          ensures !(tail[i] == '*' && tail[i + 1] == '*')
        {
          assert tail[i] == s[i + 1] && tail[i + 1] == s[i + 2];
        }
      }
      StripBoldKeepsPlain(tail);
      assert [s[0]] + tail == s;
    }
  }

  /** `k` asterisks in a row. */
  function Stars(k: nat): string
  {
    if k == 0 then [] else ['*'] + Stars(k - 1)
  }

  /** A run of asterisks loses its pairs: an odd run keeps one star, an even run none. */
  lemma {:induction false} StripBoldStars(k: nat)
    ensures StripBold(Stars(k)) == Stars(k % 2)
  {
    if k >= 2 {
      assert Stars(k)[2..] == Stars(k - 2) by {
        assert Stars(k)[1..] == Stars(k - 1);
      }
      StripBoldStars(k - 2);
    }
  }

  /**
   * A character other than `*` separates the removal: pairs never straddle
   * it, and it survives in place.
   */
  lemma {:induction false} StripBoldSplit(a: string, c: char, b: string)
    requires c != '*'
    ensures StripBold(a + [c] + b) == StripBold(a) + [c] + StripBold(b)
    decreases |a|
  {
    var s := a + [c] + b;
    if a == [] {
      assert s == [c] + b;
      if b != [] {
        assert s[1..] == b;
      }
    } else if |a| == 1 {
      assert s[1..] == [c] + b;
      StripBoldSplit([], c, b);
      assert [] + [c] + b == [c] + b;
    } else if a[0] == '*' && a[1] == '*' {
      assert s[2..] == a[2..] + [c] + b;
      StripBoldSplit(a[2..], c, b);
    } else {
      assert s[1..] == a[1..] + [c] + b;
      StripBoldSplit(a[1..], c, b);
    }
  }

  /** Removing `**` twice is removing it once. */
  lemma StripBoldIdempotent(s: string)
    ensures StripBold(StripBold(s)) == StripBold(s)
  {
    StripBoldRemovesBold(s);
    StripBoldKeepsPlain(StripBold(s));
  }

  /**
   * The temperatures of the two requests (0.7 for questions, 0.3 for the
   * key), kept as names since the model does not compute with them.
   */
  datatype Temperature = QuestionTemperature | AnswerKeyTemperature

  /** What is sent to the text model: instruction, contents and temperature. */
  datatype TextRequest = TextRequest(systemInstruction: seq<Segment>, contents: seq<Segment>, temperature: Temperature)

  /** What the text model gives back: the reply text, or a thrown error. */
  datatype Completion = Completed(text: string) | Failed

  /** The hosted text model, as an oracle. */
  type TextModel = TextRequest -> Completion

  /** The hosted image model, as an oracle: base64 PNG bytes, or a thrown error. */
  type ImageModel = seq<Segment> -> Option<string>

  function QuestionRequest(f: FormData): TextRequest
  {
    TextRequest(SystemInstruction(f), QuestionPrompt(f), QuestionTemperature)
  }

  /**
   * The placeholder example in the question prompt's rules is written with
   * the same keyword the directive scan of that language looks for.
   */
  lemma PromptExampleUsesOpener(f: FormData)
    ensures Contains(Render(QuestionPrompt(f)), Opener(IsEnglish(f.mapel)))
  {
    var english := IsEnglish(f.mapel);
    var segs := QuestionPrompt(f);
    var example := Fixed(if english then EnExample else IdExample);
    assert segs[9] == example;
    ExampleOpens(english);
    SegmentRendered(segs, example);
    ContainsPrefix(Render(segs), SegmentText(example), Opener(english));
  }

  /** The placeholder example of each language starts with that language's opener. */
  lemma ExampleOpens(english: bool)
    ensures StartsWith(WordingText(if english then EnExample else IdExample), Opener(english))
  {
    if english {
      assert WordingText(EnExample)[..7] == "[IMAGE:";
    } else {
      assert WordingText(IdExample)[..8] == "[GAMBAR:";
    }
  }

  // ---------------------------------------------------------------------
  // Image slots
  // ---------------------------------------------------------------------

  const PngDataUri := "data:image/png;base64,"

  /**
   * `generateImageFromPrompt`: a data URI of the first generated image, or
   * `''` when the image model throws; it never throws itself.
   */
  function GenerateImage(image: ImageModel, description: string): (r: string)
    ensures image(EnhancedPrompt(description)).None? <==> r == ""
    ensures image(EnhancedPrompt(description)).Some? ==>
      StartsWith(r, PngDataUri) && r[|PngDataUri|..] == image(EnhancedPrompt(description)).value
  {
    match image(EnhancedPrompt(description))
    case Some(bytes) => PngDataUri + bytes
    case None => ""
  }

  /** What one scanned token becomes: its text, or the resolved image of its description. */
  function Slot(image: ImageModel, tok: Token): string
  {
    match tok
    case Text(s) => s
    case Directive(_, d) => GenerateImage(image, d)
  }

  /** `Promise.all(parts)`: every slot resolved, in place. */
  function Resolve(image: ImageModel, toks: seq<Token>): (slots: seq<string>)
    ensures |slots| == |toks|
    ensures forall i :: 0 <= i < |toks| ==> slots[i] == Slot(image, toks[i])
  {
    if toks == [] then [] else [Slot(image, toks[0])] + Resolve(image, toks[1..])
  }

  // ---------------------------------------------------------------------
  // Tagging and filtering
  // ---------------------------------------------------------------------

  const ImageMarker := "data:image"

  /** The `map`: a slot beginning with `data:image` is an image part, any other a text part. */
  function Classify(s: string): (p: SoalPart)
    ensures p.data == s
    ensures p.kind == ImagePart <==> StartsWith(s, ImageMarker)
  {
    if StartsWith(s, ImageMarker) then SoalPart(ImagePart, s) else SoalPart(TextPart, s)
  }

  /** The `map` followed by `filter(part => part.data.trim() !== '')`. */
  function Assemble(slots: seq<string>): (parts: seq<SoalPart>)
    ensures |parts| <= |slots|
    ensures forall p :: p in parts ==> p.data in slots && !IsBlank(p.data) && p == Classify(p.data)
  {
    if slots == [] then []
    else (if IsBlank(slots[0]) then [] else [Classify(slots[0])]) + Assemble(slots[1..])
  }

  /** Tagging and filtering work slot by slot, so they distribute over concatenation. */
  lemma {:induction false} AssembleAppend(a: seq<string>, b: seq<string>)
    ensures Assemble(a + b) == Assemble(a) + Assemble(b)
  {
    if a != [] {
      assert (a + b)[1..] == a[1..] + b;
      AssembleAppend(a[1..], b);
    } else {
      assert a + b == b;
    }
  }

  /** No non-blank slot is lost. */
  lemma {:induction false} AssembleKeeps(slots: seq<string>, s: string)
    requires s in slots && !IsBlank(s)
    ensures Classify(s) in Assemble(slots)
  {
    if slots[0] != s {
      AssembleKeeps(slots[1..], s);
    }
  }

  /** When no slot is blank, every slot becomes a part, in place. */
  lemma {:induction false} AssembleNoBlank(slots: seq<string>)
    requires forall s :: s in slots ==> !IsBlank(s)
    ensures |Assemble(slots)| == |slots|
    ensures forall i :: 0 <= i < |slots| ==> Assemble(slots)[i] == Classify(slots[i])
  {
    if slots != [] {
      var rest := slots[1..];
      assert forall s :: s in rest ==> s in slots;
      AssembleNoBlank(rest);
      assert slots[0] in slots;
      assert Assemble(slots) == [Classify(slots[0])] + Assemble(rest);
      forall i | 1 <= i < |slots|
        ensures Assemble(slots)[i] == Classify(slots[i])
      {
        assert slots[i] == rest[i - 1];
      }
    }
  }

  // ---------------------------------------------------------------------
  // generateQuestions
  // ---------------------------------------------------------------------

  const GenerateQuestionsError := "Gagal membuat soal. Silakan coba lagi."

  /** The parts made from a completion whose `**` were already removed. */
  function PartsOf(image: ImageModel, t: string, open: string): seq<SoalPart>
  {
    Assemble(Resolve(image, Tokens(t, open, 0)))
  }

  /** What `generateQuestions` resolves to, or the message it throws. */
  function Questions(f: FormData, model: TextModel, image: ImageModel): Result<seq<SoalPart>, string>
  {
    match model(QuestionRequest(f))
    case Failed => Err(GenerateQuestionsError)
    case Completed(text) => Ok(PartsOf(image, StripBold(text), Opener(IsEnglish(f.mapel))))
  }

  /**
   * `generateQuestions`: request the completion, remove `**`, run the
   * directive scan, resolve the image slots and tag and filter the parts.
   */
  method GenerateQuestions(f: FormData, model: TextModel, image: ImageModel)
    returns (r: Result<seq<SoalPart>, string>)
    ensures r == Questions(f, model, image)
    ensures r.Err? ==> r.error == GenerateQuestionsError
  {
    var isEnglish := IsEnglish(f.mapel);
    var response := model(QuestionRequest(f));
    if response.Failed? {
      return Err(GenerateQuestionsError);
    }
    var textContent := StripBold(response.text);
    var parts := Scan(textContent, Opener(isEnglish));
    var processedParts := Resolve(image, parts);
    return Ok(Assemble(processedParts));
  }

  /** The call fails exactly when the completion fails, and then with the fixed message. */
  lemma QuestionsFailure(f: FormData, model: TextModel, image: ImageModel)
    ensures Questions(f, model, image).Err? <==> model(QuestionRequest(f)).Failed?
    ensures Questions(f, model, image).Err? ==> Questions(f, model, image).error == GenerateQuestionsError
  {
  }

  /**
   * Every returned part is non-blank, and it is an image part exactly when
   * its data begins with `data:image`; its data is the text of a text token
   * or the resolved image of a directive of the stripped completion.
   */
  lemma QuestionsParts(f: FormData, model: TextModel, image: ImageModel)
    requires Questions(f, model, image).Ok?
    ensures var t, open := StripBold(model(QuestionRequest(f)).text), Opener(IsEnglish(f.mapel));
      forall p :: p in Questions(f, model, image).value ==>
        && !IsBlank(p.data)
        && (p.kind == ImagePart <==> StartsWith(p.data, ImageMarker))
        && exists tok :: tok in Tokens(t, open, 0) && p.data == Slot(image, tok)
  {
    var t, open := StripBold(model(QuestionRequest(f)).text), Opener(IsEnglish(f.mapel));
    var toks := Tokens(t, open, 0);
    var slots := Resolve(image, toks);
    forall p | p in Questions(f, model, image).value
      ensures exists tok :: tok in toks && p.data == Slot(image, tok)
    {
      var i :| 0 <= i < |slots| && slots[i] == p.data;
      assert toks[i] in toks;
    }
  }

  /**
   * When every image fails and no text stretch begins with `data:image`,
   * only text parts come back, each a non-blank text stretch between
   * directives, so no directive survives in them.
   */
  lemma QuestionsWhenImagesFail(f: FormData, model: TextModel, image: ImageModel)
    requires Questions(f, model, image).Ok?
    requires var t, open := StripBold(model(QuestionRequest(f)).text), Opener(IsEnglish(f.mapel));
      forall tok :: tok in Tokens(t, open, 0) && tok.Directive? ==> image(EnhancedPrompt(tok.desc)).None?
    requires var t, open := StripBold(model(QuestionRequest(f)).text), Opener(IsEnglish(f.mapel));
      forall tok :: tok in Tokens(t, open, 0) && tok.Text? ==> !StartsWith(tok.text, ImageMarker)
    ensures var open := Opener(IsEnglish(f.mapel));
      forall p :: p in Questions(f, model, image).value ==>
        p.kind == TextPart && NoDirectiveIn(p.data, open)
  {
    var t, open := StripBold(model(QuestionRequest(f)).text), Opener(IsEnglish(f.mapel));
    var toks := Tokens(t, open, 0);
    QuestionsParts(f, model, image);
    TokensWellFormed(t, open, 0);
    forall p | p in Questions(f, model, image).value
      ensures p.kind == TextPart && NoDirectiveIn(p.data, open)
    {
      var tok :| tok in toks && p.data == Slot(image, tok);
      assert WellFormedToken(tok, open);
    }
  }

  /**
   * A completion with no directive in it gives one text part holding the
   * whole stripped text (or an image part when it begins with
   * `data:image`), or nothing when it is blank.
   */
  lemma QuestionsWithoutDirectives(f: FormData, model: TextModel, image: ImageModel)
    requires model(QuestionRequest(f)).Completed?
    requires NoDirectiveIn(StripBold(model(QuestionRequest(f)).text), Opener(IsEnglish(f.mapel)))
    ensures var t := StripBold(model(QuestionRequest(f)).text);
      Questions(f, model, image) == Ok(if IsBlank(t) then [] else [Classify(t)])
  {
    var t, open := StripBold(model(QuestionRequest(f)).text), Opener(IsEnglish(f.mapel));
    assert NextMatch(t, open, 0).None?;
    assert Questions(f, model, image) == Ok(Assemble(Resolve(image, Tokens(t, open, 0))));
    if t != [] {
      assert Tokens(t, open, 0) == [Text(t)] by {
        assert t[0..] == t;
      }
      var toks: seq<Token>, slots: seq<string> := [Text(t)], [t];
      assert toks[1..] == [] && slots[1..] == [];
      assert Resolve(image, [Text(t)]) == [t];
      assert Assemble(slots) == (if IsBlank(t) then [] else [Classify(t)]) + Assemble([]);
      assert Assemble(Resolve(image, toks)) == (if IsBlank(t) then [] else [Classify(t)]);
    } else {
      assert Tokens(t, open, 0) == [];
      assert IsBlank(t);
    }
  }

  // ---------------------------------------------------------------------
  // generateAnswerKey
  // ---------------------------------------------------------------------

  const GenerateAnswerKeyError := "Gagal membuat kunci jawaban. Silakan coba lagi."

  function AnswerKeyRequest(mapel: string, questions: string): TextRequest
  {
    TextRequest(AnswerKeyInstruction(mapel), AnswerKeyPrompt(mapel, questions), AnswerKeyTemperature)
  }

  /**
   * `generateAnswerKey`: the completion with `**` removed, or the fixed
   * message when the completion fails.
   */
  function GenerateAnswerKey(f: FormData, questions: string, model: TextModel): (r: Result<string, string>)
    ensures r.Err? <==> model(AnswerKeyRequest(f.mapel, questions)).Failed?
    ensures r.Err? ==> r.error == GenerateAnswerKeyError
    ensures r.Ok? ==> r.value == StripBold(model(AnswerKeyRequest(f.mapel, questions)).text)
    ensures r.Ok? ==> (NoBold(r.value)
      && Unstarred(r.value) == Unstarred(model(AnswerKeyRequest(f.mapel, questions)).text))
  {
    match model(AnswerKeyRequest(f.mapel, questions))
    case Failed => Err(GenerateAnswerKeyError)
    case Completed(text) =>
      StripBoldRemovesBold(text);
      StripBoldKeepsOthers(text);
      Ok(StripBold(text))
  }
}
