/**
 * The cover images of the invitation: a fixed table of image entries, each
 * rendered as a `section` whose class list ends with the entry's spacing
 * classes. The spacing is the four optional spacing fields, each defaulting
 * to the empty string, joined by single spaces and trimmed.
 */
module MainContent {
  import opened Wrappers
  import Text
  import Decimal

  /**
   * One entry of the image table: its path, the four spacing fields the
   * renderer destructures, and any other keys the entry happens to carry.
   */
  datatype ImageEntry = ImageEntry(
    src: string,
    paddingTop: Option<string>,
    paddingBottom: Option<string>,
    marginTop: Option<string>,
    marginBottom: Option<string>,
    otherKeys: map<string, string>)

  /** A destructuring default: an absent field reads as the empty string. */
  function OrEmpty(v: Option<string>): string {
    match v
    case Some(x) => x
    case None => ""
  }

  /** The spacing template before trimming. */
  function SpacingTemplate(e: ImageEntry): string {
    OrEmpty(e.paddingTop) + " " + OrEmpty(e.paddingBottom) + " "
    + OrEmpty(e.marginTop) + " " + OrEmpty(e.marginBottom)
  }

  /** `sectionSpacing`: the template, trimmed. */
  function SectionSpacing(e: ImageEntry): string {
    Text.Trim(SpacingTemplate(e))
  }

  /**
   * The spacing has no whitespace at either end, is one stretch of the
   * template, and is empty exactly when each of the four fields is absent or
   * whitespace only.
   */
  lemma SpacingShape(e: ImageEntry)
    ensures SectionSpacing(e) == "" <==>
      Text.AllWhitespace(OrEmpty(e.paddingTop)) && Text.AllWhitespace(OrEmpty(e.paddingBottom))
      && Text.AllWhitespace(OrEmpty(e.marginTop)) && Text.AllWhitespace(OrEmpty(e.marginBottom))
    ensures SectionSpacing(e) != "" ==>
      !Text.IsJsWhitespace(SectionSpacing(e)[0])
      && !Text.IsJsWhitespace(SectionSpacing(e)[|SectionSpacing(e)| - 1])
    ensures exists i :: Text.TrimmedAt(SpacingTemplate(e), SectionSpacing(e), i)
  {
    var pt, pb, mt, mb := OrEmpty(e.paddingTop), OrEmpty(e.paddingBottom), OrEmpty(e.marginTop), OrEmpty(e.marginBottom);
    assert Text.AllWhitespace(" ");
    Text.WhitespaceJoin(pt, " ");
    Text.WhitespaceJoin(pt + " ", pb);
    Text.WhitespaceJoin(pt + " " + pb, " ");
    Text.WhitespaceJoin(pt + " " + pb + " ", mt);
    Text.WhitespaceJoin(pt + " " + pb + " " + mt, " ");
    Text.WhitespaceJoin(pt + " " + pb + " " + mt + " ", mb);
    Text.TrimSpec(SpacingTemplate(e));
  }

  /** The image table, in display order. */
  const Images: seq<ImageEntry> := [Main1, Main2, Main3, Main4, Main5, Main6]

  const Main1 := ImageEntry("/main_1.png", None, None, None, None, map[])
  const Main2 := ImageEntry("/main_2.png", Some("pt-6 bg-white"), None, None, None, map[])
  const Main3 := ImageEntry("/main_3.png", Some("bg-white"), None, None, Some("pb-16 bg-white"), map[])
  const Main4 := ImageEntry("/main_4.png", Some("pt-6 bg-white"), None, None, Some("pb-16 bg-white"), map[])
  const Main5 := ImageEntry("/main_5.png", Some("pt-6 bg-white"), None, None, Some("pb-16"), map[])
  /** The last entry spells one key `paadingTop`. */
  const Main6 := ImageEntry("/main_6.png", None, None, None, Some("pb-24 "), map["paadingTop" := "pt-6"])

  /**
   * The spacing of every entry. The first has none; the last keeps only its
   * bottom margin, without the trailing blank, because the misspelled key is
   * never read as `paddingTop`.
   */
  lemma TableSpacings()
    ensures SectionSpacing(Main1) == ""
    ensures SectionSpacing(Main2) == "pt-6 bg-white"
    ensures SectionSpacing(Main3) == "bg-white   pb-16 bg-white"
    ensures SectionSpacing(Main4) == "pt-6 bg-white   pb-16 bg-white"
    ensures SectionSpacing(Main5) == "pt-6 bg-white   pb-16"
    ensures SectionSpacing(Main6) == "pb-24"
    ensures "paadingTop" in Main6.otherKeys && Main6.paddingTop == None
  {
    Main1Spacing();
    Main2Spacing();
    Main3Spacing();
    Main4Spacing();
    Main5Spacing();
    Main6Spacing();
  }

  lemma Main1Spacing()
    ensures SectionSpacing(Main1) == ""
  {
    assert Text.AllWhitespace("") && Text.AllWhitespace("   ");
    assert SpacingTemplate(Main1) == "" + "" + "   ";
    Text.TrimOf("", "", "   ");
  }

  lemma Main2Spacing()
    ensures SectionSpacing(Main2) == "pt-6 bg-white"
  {
    assert Text.AllWhitespace("") && Text.AllWhitespace("   ");
    assert SpacingTemplate(Main2) == "" + "pt-6 bg-white" + "   ";
    Text.TrimOf("", "pt-6 bg-white", "   ");
  }

  lemma Main3Spacing()
    ensures SectionSpacing(Main3) == "bg-white   pb-16 bg-white"
  {
    assert Text.AllWhitespace("") && Text.AllWhitespace("");
    assert SpacingTemplate(Main3) == "" + "bg-white   pb-16 bg-white" + "";
    Text.TrimOf("", "bg-white   pb-16 bg-white", "");
  }

  lemma Main4Spacing()
    ensures SectionSpacing(Main4) == "pt-6 bg-white   pb-16 bg-white"
  {
    assert Text.AllWhitespace("") && Text.AllWhitespace("");
    assert SpacingTemplate(Main4) == "" + "pt-6 bg-white   pb-16 bg-white" + "";
    Text.TrimOf("", "pt-6 bg-white   pb-16 bg-white", "");
  }

  lemma Main5Spacing()
    ensures SectionSpacing(Main5) == "pt-6 bg-white   pb-16"
  {
    assert Text.AllWhitespace("") && Text.AllWhitespace("");
    assert SpacingTemplate(Main5) == "" + "pt-6 bg-white   pb-16" + "";
    Text.TrimOf("", "pt-6 bg-white   pb-16", "");
  }

  lemma Main6Spacing()
    ensures SectionSpacing(Main6) == "pb-24"
  {
    assert Text.AllWhitespace("   ") && Text.AllWhitespace(" ");
    assert SpacingTemplate(Main6) == "   " + "pb-24" + " ";
    Text.TrimOf("   ", "pb-24", " ");
  }

  /** What one entry renders: a `section` keyed by the image path. */
  datatype SectionView = SectionView(key: string, className: string, src: string, alt: string, delayTenths: nat)

  /** The fixed classes in front of the spacing. */
  const LayoutClasses := "flex items-center justify-center "

  /** The alternative text names the image by its 1-based position. */
  const AltPrefix := "청첩장 이미지 "

  /** The alternative text of the image at 0-based position `idx`. */
  function AltText(idx: nat): string {
    AltPrefix + Decimal.NatToString(idx + 1)
  }

  function RenderSection(e: ImageEntry, idx: nat): SectionView {
    SectionView(e.src, LayoutClasses + SectionSpacing(e), e.src, AltText(idx), idx)
  }

  /** `images.map`: one section per entry, in table order; the reveal delay grows by a tenth of a second per entry. */
  function Render(images: seq<ImageEntry>): (sections: seq<SectionView>)
    ensures |sections| == |images|
    ensures forall i :: 0 <= i < |images| ==>
      sections[i].key == images[i].src && sections[i].src == images[i].src
      && sections[i].className == LayoutClasses + SectionSpacing(images[i])
      && sections[i].alt == AltText(i) && sections[i].delayTenths == i
  {
    seq(|images|, i requires 0 <= i < |images| => RenderSection(images[i], i))
  }

  /** Every image gets its own alternative text, however long the table. */
  lemma AltTextsDistinct(i: nat, j: nat)
    ensures AltText(i) == AltText(j) ==> i == j
  {
    Decimal.NatToStringInjective(i + 1, j + 1);
    SamePrefix(AltPrefix, Decimal.NatToString(i + 1), Decimal.NatToString(j + 1));
  }

  /** Texts that share a prefix are equal only when the rest is. */
  lemma SamePrefix(p: string, a: string, b: string)
    ensures p + a == p + b ==> a == b
  {
    assert (p + a)[|p|..] == a && (p + b)[|p|..] == b;
  }

  /** The image paths differ from one another in their digit. */
  lemma SourcesDistinct()
    ensures forall i, j :: 0 <= i < j < |Images| ==> Images[i].src != Images[j].src
  {
    var digits := [Main1.src[6], Main2.src[6], Main3.src[6], Main4.src[6], Main5.src[6], Main6.src[6]];
    assert digits == "123456";
    forall i, j | 0 <= i < j < |Images| ensures Images[i].src != Images[j].src {
      assert Images[i].src[6] == digits[i] && Images[j].src[6] == digits[j];
    }
  }

  /** The table renders six sections, in table order, whose keys are distinct. */
  lemma TableRendersDistinctKeys()
    ensures |Render(Images)| == 6
    ensures forall i :: 0 <= i < 6 ==> Render(Images)[i].key == Images[i].src
    ensures forall i, j :: 0 <= i < j < 6 ==> Render(Images)[i].key != Render(Images)[j].key
  {
    SourcesDistinct();
  }
}
