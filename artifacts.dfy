/**
 * The artifact resolver (`findArcanumPdf`). A path is one of three shapes
 * under the PDF folder: `m_arcanum_N.pdf` / `f_arcanum_N.pdf`,
 * `arcanum_N.pdf` and `default.pdf`. Whether a file exists is a predicate
 * the caller passes in; the folder itself is not modelled.
 */
module Artifacts {

  /** How the arcanum number is written into a file name: a number, or `NaN`
      in JavaScript when the day field held no digits. */
  datatype Label = Num(n: int) | NotANumber

  datatype PdfPath =
    | Gendered(male: bool, arcanum: Label)   // prefix `m_` when male, `f_` otherwise
    | Generic(arcanum: Label)
    | DefaultPdf

  /** The lookup order: the gendered file, the generic file, the default file. */
  function Candidates(arcanum: Label, male: bool): (cs: seq<PdfPath>)
    ensures |cs| == 3 && cs[2] == DefaultPdf
  {
    [Gendered(male, arcanum), Generic(arcanum), DefaultPdf]
  }

  /** Where a fallback chain stops: at the first candidate that exists, or at
      the last one, which is taken unchecked, when none before it does. */
  function FirstExistingIndex(cs: seq<PdfPath>, fileExists: PdfPath -> bool): (k: nat)
    requires |cs| >= 1
    ensures k < |cs|
    ensures k < |cs| - 1 ==> fileExists(cs[k])
    ensures forall j :: 0 <= j < k ==> !fileExists(cs[j])
  {
    if |cs| == 1 || fileExists(cs[0]) then 0
    else
      var k := FirstExistingIndex(cs[1..], fileExists);
      assert forall j :: 1 <= j < 1 + k ==> cs[j] == cs[1..][j - 1];
      1 + k
  }

  /** The candidate a fallback chain resolves to: one of the candidates, existing
      unless it is the last, with every candidate before it missing. */
  function FirstExisting(cs: seq<PdfPath>, fileExists: PdfPath -> bool): (p: PdfPath)
    requires |cs| >= 1
    ensures p in cs
    ensures p != cs[|cs| - 1] ==> fileExists(p)
    ensures exists k :: 0 <= k < |cs| && cs[k] == p && forall j :: 0 <= j < k ==> !fileExists(cs[j])
  {
    var k := FirstExistingIndex(cs, fileExists);
    assert cs[k] in cs;
    cs[k]
  }

  /** `findArcanumPdf`, the same in both versions: gendered, then generic, then
      `default.pdf` returned without its own existence check. */
  function FindArcanumPdf(arcanum: Label, male: bool, fileExists: PdfPath -> bool): (p: PdfPath)
    ensures p == FirstExisting(Candidates(arcanum, male), fileExists)
  {
    var gendered := Gendered(male, arcanum);
    if fileExists(gendered) then gendered
    else
      var generic := Generic(arcanum);
      var cs := Candidates(arcanum, male);
      assert cs[1..] == [generic, DefaultPdf];
      if fileExists(generic) then
        assert FirstExistingIndex(cs, fileExists) == 1 + FirstExistingIndex(cs[1..], fileExists) == 1;
        generic
      else
        assert cs[1..][1..] == [DefaultPdf];
        assert FirstExistingIndex(cs, fileExists) == 1 + FirstExistingIndex(cs[1..], fileExists) == 2;
        DefaultPdf
  }

  /** The resolved file exists exactly when one of the three candidates does,
      and a candidate is passed over only when it is missing. */
  lemma FallbackOrder(arcanum: Label, male: bool, fileExists: PdfPath -> bool)
    ensures var p := FindArcanumPdf(arcanum, male, fileExists);
      && (fileExists(p) <==> fileExists(Gendered(male, arcanum)) || fileExists(Generic(arcanum)) || fileExists(DefaultPdf))
      && (p == Gendered(male, arcanum) <==> fileExists(Gendered(male, arcanum)))
      && (p == Generic(arcanum) <==> !fileExists(Gendered(male, arcanum)) && fileExists(Generic(arcanum)))
      && (p == DefaultPdf <==> !fileExists(Gendered(male, arcanum)) && !fileExists(Generic(arcanum)))
  {
    var cs := Candidates(arcanum, male);
    assert cs[1..] == [Generic(arcanum), DefaultPdf];
    assert cs[1..][1..] == [DefaultPdf];
  }
}
