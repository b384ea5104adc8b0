/** The state of the PDF viewer component and its event handlers. Every handler
    is one sequential state transition; browser inputs (the current selection,
    the comment prompt, the container's bounding rectangle, drag coordinates,
    the parsed page input) and the caller-chosen ids are parameters. */
module Viewer {
  import opened AnnotationModel
  import opened JsText

  class PdfViewer {
    /** The page count once the document has loaded. */
    var numPages: Option<nat>
    var annotations: seq<Annotation>
    var selectedText: string
    var showSignaturePad: bool
    var currentPage: int
    /** The ids that have a drag handle (a React ref) in the side table. */
    var nodeRefs: set<string>

    /** Every width is positive (the resize ratio divides by it), every
        signature has a drag handle, and the page is at least 1. */
    ghost predicate Valid()
      reads this
    {
      && WidthsPositive(annotations)
      && SignatureIds(annotations) <= nodeRefs
      && currentPage >= 1
    }

    constructor ()
      ensures Valid()
      ensures numPages == None && annotations == [] && selectedText == ""
      ensures !showSignaturePad && currentPage == 1 && nodeRefs == {}
    {
      numPages := None;
      annotations := [];
      selectedText := "";
      showSignaturePad := false;
      currentPage := 1;
      nodeRefs := {};
    }

    /** The document reports its page count. */
    method DocumentLoaded(n: nat)
      requires Valid()
      modifies this`numPages
      ensures Valid() && numPages == Some(n)
    {
      numPages := Some(n);
    }

    /** Mouse-up over the page: `selection` is the selection's text, or None
        when the browser has no selection. A blank selection changes nothing;
        otherwise the trimmed text, which is not empty, becomes the selected text. */
    method HandleTextSelection(selection: Option<string>)
      requires Valid()
      modifies this`selectedText
      ensures Valid()
      ensures selection.Some? && Trim(selection.value) != ""
        ==> selectedText == Trim(selection.value) && selectedText != ""
      ensures selection.None? || AllWhitespace(selection.value) ==> selectedText == old(selectedText)
    {
      if selection.Some? && Trim(selection.value) != "" {
        selectedText := Trim(selection.value);
      } else if selection.Some? {
        TrimEmptyIffBlank(selection.value);
      }
    }

    /** A toolbar button turns the selected text into a highlight, underline or
        comment. `ranges` is the selection's range count (None: no selection);
        `comment` is what the comment prompt returned (None: cancelled) and is
        asked for only when `kind` is Comment. Nothing happens when there is no
        selected text, no range, or the prompt gave nothing. */
    method AddAnnotation(kind: TextKind, id: string, ranges: Option<nat>, comment: Option<string>)
      requires Valid()
      modifies this`annotations, this`selectedText
      ensures Valid()
      ensures
        var added := old(selectedText) != "" && ranges.Some? && ranges.value != 0
                     && (kind == Comment ==> Truthy(comment));
        if !added then
          annotations == old(annotations) && selectedText == old(selectedText)
        else
          && |annotations| == |old(annotations)| + 1
          && annotations[..|old(annotations)|] == old(annotations)
          && var a := annotations[|old(annotations)|];
          && a.id == id && a.kind == kind && a.text == Some(old(selectedText))
          && a.signatureDataUrl == None
          && a.x == 0.0 && a.y == 0.0 && a.width == DefaultWidth && a.height == DefaultHeight
          && a.pageNumber == currentPage
          && selectedText == ""
    {
      if selectedText == "" {
        return;
      }
      if ranges.None? || ranges.value == 0 {
        return;
      }
      if kind == Comment && !Truthy(comment) {
        return;
      }
      var a := Annotation(id, kind, Some(selectedText), None, 0.0, 0.0, DefaultWidth, DefaultHeight, currentPage);
      annotations := annotations + [a];
      selectedText := "";
      assert annotations[..|annotations| - 1] == old(annotations);
    }

    /** The Add Signature button opens the drawing pad. */
    method OpenSignaturePad()
      requires Valid()
      modifies this`showSignaturePad
      ensures Valid() && showSignaturePad
    {
      showSignaturePad := true;
    }

    /** The drawing pad is closed without a signature. */
    method CloseSignaturePad()
      requires Valid()
      modifies this`showSignaturePad
      ensures Valid() && !showSignaturePad
    {
      showSignaturePad := false;
    }

    /** The drawing pad hands over a signature image. It is placed centred
        horizontally in the container and a third of the container's height
        above the overlays' origin (stored negated), or at (100, -200) when the
        container is not mounted; it gets the default size, the current page
        and a drag handle, and the pad closes. */
    method AddSignature(dataUrl: string, id: string, container: Option<Rect>)
      requires Valid()
      modifies this`annotations, this`nodeRefs, this`showSignaturePad
      ensures Valid()
      ensures |annotations| == |old(annotations)| + 1
      ensures annotations[..|old(annotations)|] == old(annotations)
      ensures var a := annotations[|old(annotations)|];
        && a.id == id && a.kind == Signature && a.signatureDataUrl == Some(dataUrl) && a.text == None
        && a.width == DefaultWidth && a.height == DefaultHeight && a.pageNumber == currentPage
        && (container.Some? ==> a.x + a.width / 2.0 == container.value.width / 2.0
                                && a.y == -(container.value.height / 3.0))
        && (container.None? ==> a.x == FallbackX && a.y == -FallbackY)
      ensures nodeRefs == old(nodeRefs) + {id}
      ensures !showSignaturePad
    {
      var x, y := FallbackX, FallbackY;
      if container.Some? {
        x := container.value.width / 2.0 - 75.0;
        y := container.value.height / 3.0;
      }
      var a := Annotation(id, Signature, None, Some(dataUrl), x, -y, DefaultWidth, DefaultHeight, currentPage);
      nodeRefs := nodeRefs + {id};
      SignatureIdsSnoc(annotations, a);
      annotations := annotations + [a];
      showSignaturePad := false;
      assert annotations[..|annotations| - 1] == old(annotations);
    }

    /** A drag ends at (x, y): the records with this id move there; an unknown
        id changes nothing. */
    method UpdateSignaturePosition(id: string, x: real, y: real)
      requires Valid()
      modifies this`annotations
      ensures Valid()
      ensures annotations == MoveById(old(annotations), id, x, y)
      ensures id !in Ids(old(annotations)) ==> annotations == old(annotations)
    {
      UpdatesKeepInvariant(annotations, id, x, y, 0.0, 0.0);
      if id !in Ids(annotations) {
        MoveUnknownId(annotations, id, x, y);
      }
      annotations := MoveById(annotations, id, x, y);
    }

    /** The size slider sets width `width` (the slider's range is 50 to 500).
        The height follows from the first record with this id, keeping its
        height-to-width ratio up to rounding; an unknown id changes nothing. */
    method UpdateSignatureSize(id: string, width: real)
      requires Valid()
      requires width > 0.0
      modifies this`annotations
      ensures Valid()
      ensures match FindById(old(annotations), id)
        case None => annotations == old(annotations)
        case Some(a) => annotations == ResizeById(old(annotations), id, width, ResizedHeight(a, width) as real)
    {
      var found := FindById(annotations, id);
      if found.None? {
        return;
      }
      var newHeight := ResizedHeight(found.value, width);
      UpdatesKeepInvariant(annotations, id, 0.0, 0.0, width, newHeight as real);
      annotations := ResizeById(annotations, id, width, newHeight as real);
    }

    /** The Center-on-Page button of the listed record `ann`: when the container
        is mounted, the records with its id move to x = containerWidth/2 -
        ann.width/2, y = 100; otherwise nothing happens. */
    method CenterOnPage(ann: Annotation, container: Option<Rect>)
      requires Valid()
      modifies this`annotations
      ensures Valid()
      ensures container.None? ==> annotations == old(annotations)
      ensures container.Some? ==>
        annotations == MoveById(old(annotations), ann.id, container.value.width / 2.0 - ann.width / 2.0, CenterY)
    {
      if container.Some? {
        UpdateSignaturePosition(ann.id, container.value.width / 2.0 - ann.width / 2.0, CenterY);
      }
    }

    /** The Remove button: the records with this id go, in one step with
        their drag handle. */
    method Remove(id: string)
      requires Valid()
      modifies this`annotations, this`nodeRefs
      ensures Valid()
      ensures annotations == RemoveById(old(annotations), id)
      ensures nodeRefs == old(nodeRefs) - {id}
    {
      annotations := RemoveById(annotations, id);
      nodeRefs := nodeRefs - {id};
    }

    /** The page input changed; `parsed` is parseInt of its value (None: NaN). */
    method PageInput(parsed: Option<int>)
      requires Valid()
      modifies this`currentPage
      ensures Valid()
      ensures currentPage == ClampPage(parsed, numPages)
    {
      currentPage := ClampPage(parsed, numPages);
    }

    /** The annotations listed under "Annotations on Page": those of the
        current page. */
    function Listed(): (r: seq<Annotation>)
      reads this
      ensures forall a :: a in r <==> a in annotations && a.pageNumber == currentPage
    {
      OnPage(annotations, currentPage)
    }

    /** Gives each signature of `items` that lacks a drag handle one, in order. */
    method AddHandles(items: seq<Annotation>)
      modifies this`nodeRefs
      ensures nodeRefs == old(nodeRefs) + SignatureIds(items)
    {
      var i := 0;
      while i < |items|
        invariant 0 <= i <= |items|
        invariant nodeRefs == old(nodeRefs) + SignatureIds(items[..i])
      {
        var a := items[i];
        SignatureIdsPrefix(items, i);
        if a.kind == Signature && a.id !in nodeRefs {
          nodeRefs := nodeRefs + {a.id};
        }
        i := i + 1;
      }
      assert items[..i] == items;
    }

    /** The effect that runs after every change of the list: each signature
        without a drag handle gets one. */
    method SyncRefs()
      modifies this`nodeRefs
      ensures nodeRefs == old(nodeRefs) + SignatureIds(annotations)
      ensures SignatureIds(annotations) <= old(nodeRefs) ==> nodeRefs == old(nodeRefs)
      ensures SignatureIds(annotations) <= nodeRefs
      ensures WidthsPositive(annotations) && currentPage >= 1 ==> Valid()
    {
      AddHandles(annotations);
    }

    /** The overlays drawn over the page: the signatures of the current page,
        in list order. Drawing gives any of them that lacks a drag handle one,
        so every drawn overlay has a handle. */
    method RenderSignatureOverlays() returns (drawn: seq<Annotation>)
      modifies this`nodeRefs
      ensures drawn == SignaturesOnPage(annotations, currentPage)
      ensures nodeRefs == old(nodeRefs) + SignatureIds(drawn)
      ensures forall a :: a in drawn ==> a.id in nodeRefs
      ensures SignatureIds(annotations) <= old(nodeRefs) ==> nodeRefs == old(nodeRefs)
      ensures WidthsPositive(annotations) && currentPage >= 1 && SignatureIds(annotations) <= old(nodeRefs) ==> Valid()
    {
      drawn := SignaturesOnPage(annotations, currentPage);
      AddHandles(drawn);
      OverlayHandles(annotations, currentPage, old(nodeRefs), nodeRefs);
    }
  }
}
