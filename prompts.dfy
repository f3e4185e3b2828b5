/**
 * The request templates of the question service. A template is a sequence
 * of segments: fixed wording, or a field filled in from the request. The
 * fixed wording is named by a `Wording` constant and spelled out by
 * `WordingText`; `Render` writes a template out as the string that is sent.
 */
module Prompts {
  import opened Types
  import opened JsText

  /** The stretches of fixed wording in the templates. */
  datatype Wording =
    | EnTeacher | EnStudents
    | IdTeacher | IdExperienced | IdStop
    | EnCreate | Space | EnQuestionsAbout | EnLevelLead | EnRulesLead | EnExample | EnRulesTail
    | IdCreate | IdSoal | IdAbout | IdLevelLead | IdRulesLead | IdExample | IdRulesTail
    | EnKeyAssistant | IdKeyAssistant | EnKeyLead | IdKeyLead
    | EnQuestionsOpen | EnQuestionsClose | IdQuestionsOpen | IdQuestionsClose
    | ImagePreamble

  function WordingText(w: Wording): string
  {
    match w
    case EnTeacher => "You are an experienced English teacher in Indonesia, an expert in designing assessments for "
    case EnStudents => " students."
    case IdTeacher => "Anda adalah seorang guru "
    case IdExperienced => " di Indonesia yang berpengalaman dalam membuat soal untuk siswa "
    case IdStop => "."
    case EnCreate => "Create "
    case Space => " "
    case EnQuestionsAbout => " questions about \""
    case EnLevelLead =>
      "\".\n- The questions should promote Higher-Order Thinking Skills (HOTS), requiring analysis, evaluation, or creation, not just recalling facts.\n"
      + "- The questions should be suitable for "
    case EnRulesLead =>
      " students in Indonesia.\n"
      + "- If relevant, include a descriptive placeholder for 1-2 images, like this: \""
    case EnExample => "[IMAGE: A diagram of the human heart]"
    case EnRulesTail =>
      "\".\n"
      + "- For Multiple Choice questions, provide 4 options (A, B, C, D).\n"
      + "- Format: Use plain text with clear numbering. Do not use markdown (like **).\n"
      + "- IMPORTANT: Do not include the answer key."
    case IdCreate => "Buat "
    case IdSoal => " soal "
    case IdAbout => " tentang \""
    case IdLevelLead =>
      "\".\n- Buatlah soal yang mendorong Berpikir Tingkat Tinggi (HOTS), yang memerlukan analisis, evaluasi, atau kreasi, bukan hanya mengingat fakta.\n"
      + "- Soal harus cocok untuk siswa "
    case IdRulesLead =>
      " di Indonesia.\n"
      + "- Jika relevan, sertakan placeholder deskriptif untuk 1-2 gambar, contoh: \""
    case IdExample => "[GAMBAR: Infografis piramida makanan]"
    case IdRulesTail =>
      "\".\n"
      + "- Untuk Pilihan Ganda, berikan 4 opsi (A, B, C, D).\n"
      + "- Format: Gunakan teks biasa dengan penomoran yang jelas. Jangan gunakan markdown (seperti **).\n"
      + "- PENTING: Jangan sertakan kunci jawaban."
    case EnKeyAssistant =>
      "You are an expert teaching assistant, skilled at providing clear and logical answer keys with explanations in English."
    case IdKeyAssistant =>
      "Anda adalah seorang asisten guru yang ahli dalam memberikan kunci jawaban beserta penjelasan yang logis."
    case EnKeyLead =>
      "Provide the answer key for the following questions. For each question, give the correct answer and a brief explanation. Do not use markdown."
    case IdKeyLead =>
      "Berikan kunci jawaban untuk soal-soal berikut. Untuk setiap nomor, berikan jawaban yang benar dan penjelasan singkat. Jangan gunakan markdown."
    case EnQuestionsOpen => "\n\n--- QUESTIONS ---\n"
    case EnQuestionsClose => "\n--- END ---"
    case IdQuestionsOpen => "\n\n--- SOAL ---\n"
    case IdQuestionsClose => "\n--- AKHIR ---"
    case ImagePreamble =>
      "A clear, simple, educational illustration for a school textbook, in a clean vector art style. The image should be simple enough for a student to understand easily. Subject of the image: "
  }

  /** One piece of a template literal: fixed wording or an interpolated value. */
  datatype Segment = Fixed(w: Wording) | Field(value: string)

  function SegmentText(s: Segment): string
  {
    match s
    case Fixed(w) => WordingText(w)
    case Field(v) => v
  }

  /** The template written out. */
  function Render(segs: seq<Segment>): string
  {
    if segs == [] then [] else SegmentText(segs[0]) + Render(segs[1..])
  }

  // ---------------------------------------------------------------------
  // The templates
  // ---------------------------------------------------------------------

  /** `mapel === 'Bahasa Inggris'` picks the English variant of every template. */
  predicate IsEnglish(mapel: string)
  {
    mapel == "Bahasa Inggris"
  }

  /** `kelas` is truthy: present and not the empty string. */
  predicate HasKelas(f: FormData)
  {
    f.kelas.Some? && f.kelas.value != []
  }

  /** `jenjangDetail`: the level, followed by ` kelas <grade>` when a grade is given. */
  function LevelDetail(f: FormData): (r: string)
    ensures StartsWith(r, f.jenjang)
    ensures HasKelas(f) <==> r != f.jenjang
    ensures HasKelas(f) ==> EndsWith(r, " kelas " + f.kelas.value)
    ensures HasKelas(f) ==> |r| == |f.jenjang| + 7 + |f.kelas.value|
  {
    if HasKelas(f) then f.jenjang + " kelas " + f.kelas.value else f.jenjang
  }

  /** The system instruction of the question request. */
  function SystemInstruction(f: FormData): seq<Segment>
  {
    if IsEnglish(f.mapel) then [Fixed(EnTeacher), Field(LevelDetail(f)), Fixed(EnStudents)]
    else [Fixed(IdTeacher), Field(f.mapel), Fixed(IdExperienced), Field(LevelDetail(f)), Fixed(IdStop)]
  }

  /** The question prompt: count, kind, topic in quotes, level, and the fixed rules. */
  function QuestionPrompt(f: FormData): seq<Segment>
  {
    var n, tipe := Field(IntToString(f.jumlahSoal)), Field(f.tipeSoal.Label());
    var materi, level := Field(f.materi), Field(LevelDetail(f));
    if IsEnglish(f.mapel) then
      [Fixed(EnCreate), n, Fixed(Space), tipe, Fixed(EnQuestionsAbout), materi, Fixed(EnLevelLead), level,
       Fixed(EnRulesLead), Fixed(EnExample), Fixed(EnRulesTail)]
    else
      [Fixed(IdCreate), n, Fixed(IdSoal), tipe, Fixed(IdAbout), materi, Fixed(IdLevelLead), level,
       Fixed(IdRulesLead), Fixed(IdExample), Fixed(IdRulesTail)]
  }

  /** The system instruction of the answer-key request. */
  function AnswerKeyInstruction(mapel: string): seq<Segment>
  {
    if IsEnglish(mapel) then [Fixed(EnKeyAssistant)] else [Fixed(IdKeyAssistant)]
  }

  /** The delimiters around the questions in the answer-key prompt. */
  function KeyDelimiters(english: bool): (Wording, Wording)
  {
    if english then (EnQuestionsOpen, EnQuestionsClose) else (IdQuestionsOpen, IdQuestionsClose)
  }

  /** The answer-key prompt: the instruction, then the questions between the delimiters. */
  function AnswerKeyPrompt(mapel: string, questions: string): seq<Segment>
  {
    var english := IsEnglish(mapel);
    var (open, close) := KeyDelimiters(english);
    [Fixed(if english then EnKeyLead else IdKeyLead), Fixed(open), Field(questions), Fixed(close)]
  }

  /** `enhancedPrompt` of `generateImageFromPrompt`. */
  function EnhancedPrompt(description: string): seq<Segment>
  {
    [Fixed(ImagePreamble), Field(description)]
  }

  // ---------------------------------------------------------------------
  // What the templates promise
  // ---------------------------------------------------------------------

  /**
   * Each request is in English exactly when the subject is `Bahasa
   * Inggris`: its instruction and its prompt open with English wording.
   */
  lemma TemplatesLanguage(f: FormData, questions: string)
    ensures IsEnglish(f.mapel) <==> SystemInstruction(f)[0] == Fixed(EnTeacher)
    ensures IsEnglish(f.mapel) <==> QuestionPrompt(f)[0] == Fixed(EnCreate)
    ensures IsEnglish(f.mapel) <==> AnswerKeyInstruction(f.mapel) == [Fixed(EnKeyAssistant)]
    ensures IsEnglish(f.mapel) <==> AnswerKeyPrompt(f.mapel, questions)[0] == Fixed(EnKeyLead)
    ensures !IsEnglish(f.mapel) <==> QuestionPrompt(f)[0] == Fixed(IdCreate)
  {
  }

  /** `s.includes(sub)`. */
  predicate Contains(s: string, sub: string)
    decreases |s|
  {
    StartsWith(s, sub) || (s != [] && Contains(s[1..], sub))
  }

  /** Text put in front keeps an occurrence. */
  lemma {:induction false} ContainsAfter(pre: string, s: string, sub: string)
    requires Contains(s, sub)
    ensures Contains(pre + s, sub)
    decreases |pre|
  {
    if pre == [] {
      assert pre + s == s;
    } else {
      assert (pre + s)[1..] == pre[1..] + s;
      ContainsAfter(pre[1..], s, sub);
    }
  }

  /** `sub` occurs in `pre + sub + post`. */
  lemma ContainsMiddle(pre: string, sub: string, post: string)
    ensures Contains(pre + sub + post, sub)
  {
    assert StartsWith(sub + post, sub) by {
      assert (sub + post)[..|sub|] == sub;
    }
    ContainsAfter(pre, sub + post, sub);
    assert pre + sub + post == pre + (sub + post);
  }

  /** Every segment's text occurs, verbatim, in the written-out template. */
  lemma {:induction false} SegmentRendered(segs: seq<Segment>, x: Segment)
    requires x in segs
    ensures Contains(Render(segs), SegmentText(x))
  {
    var rest := Render(segs[1..]);
    if segs[0] == x {
      ContainsMiddle([], SegmentText(x), rest);
      assert [] + SegmentText(x) + rest == Render(segs);
    } else {
      assert x in segs[1..];
      SegmentRendered(segs[1..], x);
      ContainsAfter(SegmentText(segs[0]), rest, SegmentText(x));
    }
  }

  /** An occurrence of `sub` is an occurrence of each of its prefixes. */
  lemma {:induction false} ContainsPrefix(s: string, sub: string, pre: string)
    requires Contains(s, sub) && StartsWith(sub, pre)
    ensures Contains(s, pre)
    decreases |s|
  {
    if StartsWith(s, sub) {
      assert s[..|pre|] == sub[..|pre|];
    } else {
      ContainsPrefix(s[1..], sub, pre);
    }
  }

  /** The question prompt embeds the count, the kind, the topic and the level text. */
  lemma QuestionPromptFields(f: FormData)
    ensures var p := Render(QuestionPrompt(f));
      && Contains(p, IntToString(f.jumlahSoal))
      && Contains(p, f.tipeSoal.Label())
      && Contains(p, f.materi)
      && Contains(p, LevelDetail(f))
  {
    var segs := QuestionPrompt(f);
    SegmentRendered(segs, segs[1]);
    SegmentRendered(segs, segs[3]);
    SegmentRendered(segs, segs[5]);
    SegmentRendered(segs, segs[7]);
  }

  /**
   * The system instruction embeds the level text, and in the Indonesian
   * variant also the subject.
   */
  lemma SystemInstructionFields(f: FormData)
    ensures Contains(Render(SystemInstruction(f)), LevelDetail(f))
    ensures !IsEnglish(f.mapel) ==> Contains(Render(SystemInstruction(f)), f.mapel)
  {
    var segs := SystemInstruction(f);
    if IsEnglish(f.mapel) {
      SegmentRendered(segs, segs[1]);
    } else {
      SegmentRendered(segs, segs[1]);
      SegmentRendered(segs, segs[3]);
    }
  }

  /** The head of the written-out answer-key prompt, up to the questions. */
  function KeyHead(english: bool): string
  {
    WordingText(if english then EnKeyLead else IdKeyLead) + WordingText(KeyDelimiters(english).0)
  }

  /** The tail of the written-out answer-key prompt, after the questions. */
  function KeyTail(english: bool): string
  {
    WordingText(KeyDelimiters(english).1)
  }

  /** What lies between `head` and `tail` when `p` starts with the one and ends with the other. */
  function Between(p: string, head: string, tail: string): (r: Option<string>)
    ensures r.Some? <==> |head| + |tail| <= |p| && StartsWith(p, head) && EndsWith(p, tail)
    ensures r.Some? ==> p == head + r.value + tail
  {
    if |head| + |tail| <= |p| && p[..|head|] == head && p[|p| - |tail|..] == tail
    then
      var mid := p[|head|..|p| - |tail|];
      assert p == p[..|head|] + mid + p[|p| - |tail|..];
      Some(mid)
    else None
  }

  /** Reads the questions back out of a written-out answer-key prompt. */
  function QuestionsInKeyPrompt(p: string, english: bool): (r: Option<string>)
    ensures r.Some? ==> p == KeyHead(english) + r.value + KeyTail(english)
  {
    Between(p, KeyHead(english), KeyTail(english))
  }

  lemma BetweenRoundTrip(head: string, mid: string, tail: string)
    ensures Between(head + mid + tail, head, tail) == Some(mid)
  {
    var p := head + mid + tail;
    assert p[..|head|] == head;
    assert p[|p| - |tail|..] == tail;
    assert p[|head|..|p| - |tail|] == mid;
  }

  lemma RenderCons(a: Segment, rest: seq<Segment>)
    ensures Render([a] + rest) == SegmentText(a) + Render(rest)
  {
    assert ([a] + rest)[1..] == rest;
  }

  lemma RenderFour(a: Segment, b: Segment, c: Segment, d: Segment)
    ensures Render([a, b, c, d]) == SegmentText(a) + SegmentText(b) + SegmentText(c) + SegmentText(d)
  {
    assert [a, b, c, d] == [a] + ([b] + ([c] + ([d] + [])));
    RenderCons(d, []);
    RenderCons(c, [d] + []);
    RenderCons(b, [c] + ([d] + []));
    RenderCons(a, [b] + ([c] + ([d] + [])));
  }

  /**
   * The questions are embedded verbatim between the delimiters: they can
   * be read back out of the written-out prompt.
   */
  lemma AnswerKeyPromptRoundTrip(mapel: string, questions: string)
    ensures QuestionsInKeyPrompt(Render(AnswerKeyPrompt(mapel, questions)), IsEnglish(mapel)) == Some(questions)
  {
    var english := IsEnglish(mapel);
    var (open, close) := KeyDelimiters(english);
    var lead := if english then EnKeyLead else IdKeyLead;
    RenderFour(Fixed(lead), Fixed(open), Field(questions), Fixed(close));
    assert Render(AnswerKeyPrompt(mapel, questions)) == KeyHead(english) + questions + KeyTail(english);
    BetweenRoundTrip(KeyHead(english), questions, KeyTail(english));
  }
}
