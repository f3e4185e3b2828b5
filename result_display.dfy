/**
 * The result panel: the text placed on the clipboard for the generated
 * questions, and which view `renderContent` chooses for given props.
 */
module ResultDisplay {
  import opened Types
  import App

  // ---------------------------------------------------------------------
  // soalToStringForCopy
  // ---------------------------------------------------------------------

  /**
   * `soalToStringForCopy`: the parts' texts joined, images as `[GAMBAR]`.
   * Written here as a join that grows at the end, so that its agreement
   * with the page's flattener is a statement about two definitions.
   */
  function SoalToStringForCopy(soal: seq<SoalPart>): string
  {
    if soal == [] then []
    else SoalToStringForCopy(soal[..|soal| - 1]) + App.PartText(soal[|soal| - 1])
  }

  /** The copied text is the text sent for the answer key, on every list of parts. */
  lemma {:induction false} CopyTextAgrees(soal: seq<SoalPart>)
    ensures SoalToStringForCopy(soal) == App.SoalToString(soal)
    decreases |soal|
  {
    if soal != [] {
      var init, last := soal[..|soal| - 1], soal[|soal| - 1];
      CopyTextAgrees(init);
      App.SoalToStringAppend(init, [last]);
      assert init + [last] == soal;
      assert App.SoalToString([last]) == App.PartText(last) by {
        assert [last][1..] == [];
      }
    }
  }

  /** The summed length of the data of the text parts. */
  function TextLength(soal: seq<SoalPart>): nat
  {
    if soal == [] then 0
    else (if soal[0].kind == TextPart then |soal[0].data| else 0) + TextLength(soal[1..])
  }

  /** The number of image parts. */
  function ImageCount(soal: seq<SoalPart>): nat
  {
    if soal == [] then 0
    else (if soal[0].kind == ImagePart then 1 else 0) + ImageCount(soal[1..])
  }

  /** The copied text has each text part's data and eight characters per image. */
  lemma {:induction false} CopyTextLength(soal: seq<SoalPart>)
    ensures |SoalToStringForCopy(soal)| == TextLength(soal) + 8 * ImageCount(soal)
  {
    CopyTextAgrees(soal);
    FlatLength(soal);
  }

  lemma {:induction false} FlatLength(soal: seq<SoalPart>)
    ensures |App.SoalToString(soal)| == TextLength(soal) + 8 * ImageCount(soal)
  {
    if soal != [] {
      FlatLength(soal[1..]);
    }
  }

  // ---------------------------------------------------------------------
  // renderContent
  // ---------------------------------------------------------------------

  /** The component's props. */
  datatype Props = Props(
    soal: Option<seq<SoalPart>>,
    kunci: string,
    isLoadingSoal: bool,
    isLoadingKunci: bool,
    error: Option<string>)

  /** `if (error)`: an error is shown when it is present and not empty. */
  predicate ShowsError(p: Props)
  {
    p.error.Some? && p.error.value != []
  }

  /** What one part of the questions card becomes. */
  datatype Rendered = Span(text: string) | Img(src: string) | Nothing

  /** The views `renderContent` chooses among. */
  datatype View =
    | Loading
    | ErrorAlert(message: string)
    | Placeholder
    | Results(parts: seq<Rendered>, keySpinner: bool, keyCard: Option<string>)

  /** One part: text is always shown, an image only when it has data. */
  function RenderPart(p: SoalPart): (r: Rendered)
    ensures r.Nothing? <==> p.kind == ImagePart && |p.data| == 0
    ensures !r.Nothing? ==> (r.Span? <==> p.kind == TextPart)
    ensures r.Span? ==> r.text == p.data
    ensures r.Img? ==> r.src == p.data
  {
    if p.kind.TextPart? then Span(p.data)
    else if p.data != [] then Img(p.data)
    else Nothing
  }

  /** The `soal.map` of the questions card. */
  function RenderParts(soal: seq<SoalPart>): (r: seq<Rendered>)
    ensures |r| == |soal|
    ensures forall i :: 0 <= i < |soal| ==> r[i] == RenderPart(soal[i])
  {
    if soal == [] then [] else [RenderPart(soal[0])] + RenderParts(soal[1..])
  }

  /** The props the page passes to the result panel. */
  function PropsOf(s: App.Session): Props
    reads s
  {
    Props(s.generatedSoal, s.kunciJawaban, s.isLoadingSoal, s.isLoadingKunci, s.error)
  }

  /**
   * `canShowKunci` enables the key button. When nothing is loading and no
   * error is shown, it holds exactly when the panel shows results without
   * a key card.
   */
  lemma KeyButtonMatchesView(s: App.Session)
    requires !s.isLoadingSoal && !ShowsError(PropsOf(s))
    ensures s.CanShowKunci() <==> RenderContent(PropsOf(s)).Results? && RenderContent(PropsOf(s)).keyCard.None?
  {
  }

  /** `renderContent`: loading first, then the error, then the placeholder, then the results. */
  function RenderContent(p: Props): (v: View)
    ensures p.isLoadingSoal ==> v == Loading
    ensures !p.isLoadingSoal && ShowsError(p) ==> v == ErrorAlert(p.error.value)
    ensures !p.isLoadingSoal && !ShowsError(p) && p.soal.None? ==> v == Placeholder
    ensures v.Results? <==> !p.isLoadingSoal && !ShowsError(p) && p.soal.Some?
    ensures v.Results? ==> v.parts == RenderParts(p.soal.value)
    ensures v.Results? ==> (v.keySpinner <==> p.isLoadingKunci)
    ensures v.Results? ==> (v.keyCard.Some? <==> p.kunci != []) && (v.keyCard.Some? ==> v.keyCard.value == p.kunci)
  {
    if p.isLoadingSoal then Loading
    else if ShowsError(p) then ErrorAlert(p.error.value)
    else if p.soal.None? then Placeholder
    else Results(RenderParts(p.soal.value), p.isLoadingKunci, if p.kunci != [] then Some(p.kunci) else None)
  }
}
