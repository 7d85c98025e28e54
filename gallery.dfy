/**
 * The photo gallery: twenty numbered photos, a grid that shows the first six
 * until expanded, and a full-screen dialog opened on one photo.
 */
module Gallery {
  import opened Wrappers
  import Decimal

  const ImageCount: nat := 20
  const CollapsedCount: nat := 6
  const PathPrefix: string := "/gallery/gallery_"
  const PathSuffix: string := ".jpeg"

  /** The path of the photo at 0-based position `i`: photos are numbered from 1. */
  function ImagePath(i: nat): string {
    PathPrefix + Decimal.NatToString(i + 1) + PathSuffix
  }

  /** The number in a photo path reads back as the photo's 1-based number. */
  lemma ImagePathNumber(i: nat)
    ensures var p := ImagePath(i);
            |p| > |PathPrefix| + |PathSuffix|
            && p[..|PathPrefix|] == PathPrefix && p[|p| - |PathSuffix|..] == PathSuffix
            && Decimal.ReadsAs(p[|PathPrefix|..|p| - |PathSuffix|], i + 1)
  {
    var d := Decimal.NatToString(i + 1);
    var p := ImagePath(i);
    assert p[|PathPrefix|..|p| - |PathSuffix|] == d;
    Decimal.NatToStringRoundTrip(i + 1);
  }

  /** Different positions have different paths, so the paths can key the grid's items. */
  lemma ImagePathsDistinct(i: nat, j: nat)
    requires i != j
    ensures ImagePath(i) != ImagePath(j)
  {
    ImagePathNumber(i);
    ImagePathNumber(j);
  }

  /** `images`: the twenty photo paths in order. */
  function Images(): (images: seq<string>)
    ensures |images| == ImageCount
    ensures forall i :: 0 <= i < |images| ==> images[i] == ImagePath(i)
  {
    seq(ImageCount, i requires 0 <= i => ImagePath(i))
  }

  /** `visibleImages`: every photo when expanded, otherwise the first six; always a prefix of `images`. */
  function VisibleImages(isExpanded: bool): (visible: seq<string>)
    ensures |visible| == if isExpanded then ImageCount else CollapsedCount
    ensures visible == Images()[..|visible|]
  {
    if isExpanded then Images() else Images()[..CollapsedCount]
  }

  /** No photo appears twice in the grid. */
  lemma VisibleImagesDistinct(isExpanded: bool)
    ensures forall i, j :: 0 <= i < j < |VisibleImages(isExpanded)| ==> VisibleImages(isExpanded)[i] != VisibleImages(isExpanded)[j]
  {
    forall i, j | 0 <= i < j < |VisibleImages(isExpanded)|
      ensures VisibleImages(isExpanded)[i] != VisibleImages(isExpanded)[j]
    {
      ImagePathsDistinct(i, j);
    }
  }

  /** The text of the expand button: "show fewer photos" when expanded, "show more photos" when not. */
  function ToggleLabel(isExpanded: bool): string {
    if isExpanded then "사진 접기" else "사진 더 보기"
  }

  /** The button's text tells the two states apart. */
  lemma ToggleLabelTellsState(a: bool, b: bool)
    ensures ToggleLabel(a) == ToggleLabel(b) <==> a == b
  {
    assert "사진 접기"[3] != "사진 더 보기"[3];
  }

  /** The `GalleryGrid` component's state: whether the grid is expanded and which photo the dialog shows. */
  class GalleryState {
    var isExpanded: bool
    var activeIndex: Option<int>

    constructor ()
      ensures !isExpanded && activeIndex == None
    {
      isExpanded := false;
      activeIndex := None;
    }

    /** The dialog is open exactly while a photo is active. */
    function DialogOpen(): bool
      reads this
    {
      activeIndex != None
    }

    /** `toggleExpand`: flips the grid and leaves the dialog alone, so two toggles restore it. */
    method ToggleExpand()
      modifies this
      ensures isExpanded == !old(isExpanded) && activeIndex == old(activeIndex)
    {
      isExpanded := !isExpanded;
    }

    /** `openModal(index)`. */
    method OpenModal(index: int)
      modifies this
      ensures DialogOpen() && activeIndex == Some(index) && isExpanded == old(isExpanded)
    {
      activeIndex := Some(index);
    }

    /** `closeModal`. */
    method CloseModal()
      modifies this
      ensures !DialogOpen() && activeIndex == None && isExpanded == old(isExpanded)
    {
      activeIndex := None;
    }

    /** A click on grid position `i` opens the dialog on that same photo of the full list. */
    method ClickGridImage(i: nat)
      requires i < |VisibleImages(isExpanded)|
      modifies this
      ensures DialogOpen() && activeIndex == Some(i) && isExpanded == old(isExpanded)
      ensures Images()[activeIndex.value] == VisibleImages(isExpanded)[i]
    {
      OpenModal(i);
    }

    /** The dialog's `onOpenChange`: a request to close closes it; a request to open changes nothing. */
    method OnOpenChange(open: bool)
      modifies this
      ensures !open ==> !DialogOpen() && activeIndex == None
      ensures open ==> DialogOpen() == old(DialogOpen()) && activeIndex == old(activeIndex)
      ensures isExpanded == old(isExpanded)
    {
      if !open {
        CloseModal();
      }
    }

    /** The slider's `slideChanged`: the active photo follows the slider's position. */
    method SlideChanged(rel: int)
      modifies this
      ensures DialogOpen() && activeIndex == Some(rel) && isExpanded == old(isExpanded)
    {
      activeIndex := Some(rel);
    }
  }
}
