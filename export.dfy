/** The export button: capture the page container as an image, put it on an A4
    page, draw every signature image and comment text on top in list order,
    and save. The jsPDF document is modelled as the log of calls made on it;
    html2canvas and jsPDF's image decoding are represented by their results. */
module Export {
  import opened AnnotationModel

  /** The captured container: the PNG data URL of the canvas and its pixel
      size, as jsPDF's getImageProperties reports it. */
  datatype Raster = Raster(dataUrl: string, width: nat, height: nat)

  /** The calls made on the jsPDF document. */
  datatype Command =
    | AddImage(imageData: string, format: string, x: real, y: real, width: real, height: real)
    | SetFont(family: string, style: string)
    | SetFontSize(size: int)
    | Text(text: string, x: real, y: real)
    | Save(fileName: string)

  /** What the user is told: "No PDF container found!", the success alert or
      the failure alert. */
  datatype Outcome = NoContainer | Exported | Failed

  const FileName: string := "annotated-document.pdf"

  /** The width of jsPDF's A4 portrait page in millimetres: 595.28 points at
      72 points per 25.4 mm. */
  const PageWidth: real := 595.28 * 25.4 / 72.0

  /** JavaScript's `v || fallback` on a number: zero is replaced, so the
      result is one of the two and is zero only when both are. */
  function Or(v: real, fallback: real): (r: real)
    ensures r == v || r == fallback
    ensures v != 0.0 ==> r == v
    ensures r == 0.0 <==> v == 0.0 && fallback == 0.0
  {
    if v == 0.0 then fallback else v
  }

  /** html2canvas delivered an image jsPDF can read. A canvas with no pixels
      yields an empty data URL, on which jsPDF throws. */
  predicate Captured(capture: Option<Raster>) {
    capture.Some? && capture.value.width > 0 && capture.value.height > 0
  }

  /** The captured page drawn at the top left, as wide as the page, its height
      scaled by the same factor as its width. */
  function BaseImage(r: Raster): (c: Command)
    requires r.width > 0
    ensures c.AddImage? && c.imageData == r.dataUrl && c.format == "PNG"
    ensures c.x == 0.0 && c.y == 0.0 && c.width == PageWidth
    ensures c.height * r.width as real == r.height as real * PageWidth
  {
    AddImage(r.dataUrl, "PNG", 0.0, 0.0, PageWidth, (r.height as real * PageWidth) / r.width as real)
  }

  /** The base image keeps the aspect ratio of the capture. */
  lemma BaseImageKeepsAspect(r: Raster)
    requires r.width > 0
    ensures BaseImage(r).height / BaseImage(r).width == r.height as real / r.width as real
  {
    var w, h := r.width as real, r.height as real;
    calc {
      BaseImage(r).height / BaseImage(r).width;
      (h * PageWidth / w) / PageWidth;
      { assert PageWidth != 0.0; }
      h / w;
    }
  }

  predicate DrawsImage(a: Annotation) {
    a.kind == Signature && Truthy(a.signatureDataUrl)
  }

  predicate DrawsText(a: Annotation) {
    a.kind == Comment && Truthy(a.text)
  }

  /** A signature with an image is drawn at its position and size (zero
      fields default to 50, 100, 40, 30). */
  function ImageCalls(a: Annotation): seq<Command> {
    if DrawsImage(a) then
      [AddImage(a.signatureDataUrl.value, "PNG", Or(a.x, 50.0), Or(a.y, 100.0), Or(a.width, 40.0), Or(a.height, 30.0))]
    else []
  }

  /** A comment with text is written in 10-point Helvetica at its position
      (zero fields default to 10, 10). */
  function TextCalls(a: Annotation): seq<Command> {
    if DrawsText(a) then
      [SetFont("Helvetica", "normal"), SetFontSize(10), Text(a.text.value, Or(a.x, 10.0), Or(a.y, 10.0))]
    else []
  }

  /** The calls one annotation makes: its image, then its text; an annotation
      that has neither makes no call, and none of them saves. */
  function Emitted(a: Annotation): (r: seq<Command>)
    ensures r == [] <==> !DrawsImage(a) && !DrawsText(a)
    ensures |r| == (if DrawsImage(a) then 1 else 0) + (if DrawsText(a) then 3 else 0)
    ensures forall c :: c in r ==> !c.Save?
  {
    ImageCalls(a) + TextCalls(a)
  }

  /** A signature with an image makes exactly one image call, with its own
      data URL; each non-zero field (a negative y included) is kept and each
      zero field takes its default. */
  lemma SignatureDraw(a: Annotation)
    requires DrawsImage(a)
    ensures |Emitted(a)| == 1 && Emitted(a)[0].AddImage?
    ensures var c := Emitted(a)[0];
      && c.imageData == a.signatureDataUrl.value && c.format == "PNG"
      && (a.x != 0.0 ==> c.x == a.x) && (a.x == 0.0 ==> c.x == 50.0)
      && (a.y != 0.0 ==> c.y == a.y) && (a.y == 0.0 ==> c.y == 100.0)
      && (a.width != 0.0 ==> c.width == a.width) && (a.width == 0.0 ==> c.width == 40.0)
      && (a.height != 0.0 ==> c.height == a.height) && (a.height == 0.0 ==> c.height == 30.0)
  {
  }

  /** A comment with text sets 10-point Helvetica and writes its text once, at
      its position or at 10 for a zero coordinate; a comment with empty text
      makes no call. */
  lemma CommentDraw(a: Annotation)
    requires a.kind == Comment
    ensures !Truthy(a.text) ==> Emitted(a) == []
    ensures Truthy(a.text) ==>
      && |Emitted(a)| == 3
      && Emitted(a)[..2] == [SetFont("Helvetica", "normal"), SetFontSize(10)]
      && Emitted(a)[2].Text? && Emitted(a)[2].text == a.text.value
      && Emitted(a)[2].x == (if a.x != 0.0 then a.x else 10.0)
      && Emitted(a)[2].y == (if a.y != 0.0 then a.y else 10.0)
  {
  }

  /** jsPDF's addImage throws on this annotation's image. */
  predicate Throws(a: Annotation, decodes: string -> bool) {
    DrawsImage(a) && !decodes(a.signatureDataUrl.value)
  }

  /** The calls made by the loop over the annotations, and whether it ran to
      the end: the first annotation whose image cannot be decoded stops it. */
  datatype Run = Run(commands: seq<Command>, completed: bool)

  function DrawLoop(anns: seq<Annotation>, decodes: string -> bool): (r: Run)
    ensures r.completed <==> forall a :: a in anns ==> !Throws(a, decodes)
  {
    if anns == [] then Run([], true)
    else
      var init, a := anns[..|anns| - 1], anns[|anns| - 1];
      var prev := DrawLoop(init, decodes);
      assert anns == init + [a];
      if !prev.completed then prev
      else if Throws(a, decodes) then Run(prev.commands, false)
      else Run(prev.commands + Emitted(a), true)
  }

  /** One more annotation: the loop either was already stopped, stops at it,
      or makes its calls. */
  lemma DrawLoopSnoc(anns: seq<Annotation>, i: nat, decodes: string -> bool)
    requires i < |anns|
    ensures var prev := DrawLoop(anns[..i], decodes);
      DrawLoop(anns[..i + 1], decodes) ==
        if !prev.completed then prev
        else if Throws(anns[i], decodes) then Run(prev.commands, false)
        else Run(prev.commands + Emitted(anns[i]), true)
  {
    assert anns[..i + 1][..i] == anns[..i];
  }

  /** Reference definition: all annotations' calls, one annotation after the other. */
  function Emissions(anns: seq<Annotation>): seq<Command> {
    if anns == [] then [] else Emitted(anns[0]) + Emissions(anns[1..])
  }

  lemma {:induction false} EmissionsAppend(a: seq<Annotation>, b: seq<Annotation>)
    ensures Emissions(a + b) == Emissions(a) + Emissions(b)
  {
    if a == [] {
      assert a + b == b;
    } else {
      assert (a + b)[1..] == a[1..] + b;
      EmissionsAppend(a[1..], b);
    }
  }

  /** When the loop completes it has made every annotation's calls in list
      order, and it never saves. */
  lemma {:induction false} DrawLoopSpec(anns: seq<Annotation>, decodes: string -> bool)
    ensures DrawLoop(anns, decodes).completed ==> DrawLoop(anns, decodes).commands == Emissions(anns)
    ensures forall c :: c in DrawLoop(anns, decodes).commands ==> !c.Save?
  {
    if anns != [] {
      var init, a := anns[..|anns| - 1], anns[|anns| - 1];
      assert anns == init + [a];
      DrawLoopSpec(init, decodes);
      EmissionsAppend(init, [a]);
      assert Emissions([a]) == Emitted(a);
    }
  }

  /** Once the loop has been stopped, the remaining annotations change nothing. */
  lemma {:induction false} DrawLoopStopped(anns: seq<Annotation>, i: nat, decodes: string -> bool)
    requires i <= |anns| && !DrawLoop(anns[..i], decodes).completed
    ensures DrawLoop(anns, decodes) == DrawLoop(anns[..i], decodes)
    decreases |anns| - i
  {
    if i < |anns| {
      assert anns[..|anns| - 1][..i] == anns[..i];
      DrawLoopStopped(anns[..|anns| - 1], i, decodes);
    } else {
      assert anns[..i] == anns;
    }
  }

  /** Annotations that draw nothing — highlights, underlines, signatures
      without an image, comments without text — leave the document as it is. */
  lemma {:induction false} EmissionsSilent(anns: seq<Annotation>)
    requires forall a :: a in anns ==> !DrawsImage(a) && !DrawsText(a)
    ensures Emissions(anns) == []
  {
    if anns != [] {
      assert anns[0] in anns;
      EmissionsSilent(anns[1..]);
    }
  }

  function ImageDraws(cmds: seq<Command>): nat {
    if cmds == [] then 0 else (if cmds[0].AddImage? then 1 else 0) + ImageDraws(cmds[1..])
  }

  function TextDraws(cmds: seq<Command>): nat {
    if cmds == [] then 0 else (if cmds[0].Text? then 1 else 0) + TextDraws(cmds[1..])
  }

  lemma {:induction false} DrawsAppend(a: seq<Command>, b: seq<Command>)
    ensures ImageDraws(a + b) == ImageDraws(a) + ImageDraws(b)
    ensures TextDraws(a + b) == TextDraws(a) + TextDraws(b)
    ensures Save(FileName) in a + b <==> Save(FileName) in a || Save(FileName) in b
  {
    if a == [] {
      assert a + b == b;
    } else {
      assert (a + b)[1..] == a[1..] + b;
      DrawsAppend(a[1..], b);
    }
  }

  /** One image call per signature with an image, one text call per comment
      with text, and no save among them. */
  lemma {:induction false} EmissionCounts(anns: seq<Annotation>)
    ensures ImageDraws(Emissions(anns)) == |Filter(anns, DrawsImage)|
    ensures TextDraws(Emissions(anns)) == |Filter(anns, DrawsText)|
    ensures Save(FileName) !in Emissions(anns)
  {
    if anns != [] {
      EmissionCounts(anns[1..]);
      DrawsAppend(Emitted(anns[0]), Emissions(anns[1..]));
      var img, txt := ImageCalls(anns[0]), TextCalls(anns[0]);
      DrawsAppend(img, txt);
      if txt != [] {
        assert ImageDraws(txt[2..]) == 0 && TextDraws(txt[2..]) == 1;
        assert ImageDraws(txt[1..]) == 0 && TextDraws(txt[1..]) == 1;
      }
    }
  }

  /** The forEach over the annotations, on the document log `doc`: each
      annotation's calls are appended in list order until addImage throws,
      which ends the loop (`completed` false). */
  method DrawAnnotations(doc: seq<Command>, annotations: seq<Annotation>, decodes: string -> bool)
    returns (pdf: seq<Command>, completed: bool)
    ensures pdf == doc + DrawLoop(annotations, decodes).commands
    ensures completed == DrawLoop(annotations, decodes).completed
  {
    pdf := doc;
    completed := true;
    var i := 0;
    while i < |annotations| && completed
      invariant 0 <= i <= |annotations|
      invariant pdf == doc + DrawLoop(annotations[..i], decodes).commands
      invariant completed == DrawLoop(annotations[..i], decodes).completed
      decreases |annotations| - i
    {
      var a := annotations[i];
      ghost var before, prev := pdf, DrawLoop(annotations[..i], decodes);
      DrawLoopSnoc(annotations, i, decodes);
      if a.kind == Signature && Truthy(a.signatureDataUrl) {
        if decodes(a.signatureDataUrl.value) {
          pdf := pdf + [AddImage(a.signatureDataUrl.value, "PNG", Or(a.x, 50.0), Or(a.y, 100.0), Or(a.width, 40.0), Or(a.height, 30.0))];
        } else {
          completed := false;
        }
      }
      if completed && a.kind == Comment && Truthy(a.text) {
        pdf := pdf + [SetFont("Helvetica", "normal"), SetFontSize(10), Text(a.text.value, Or(a.x, 10.0), Or(a.y, 10.0))];
      }
      if completed {
        assert pdf == before + Emitted(a);
        assert pdf == doc + (prev.commands + Emitted(a));
      }
      i := i + 1;
    }
    if completed {
      assert annotations[..i] == annotations;
    } else {
      DrawLoopStopped(annotations, i, decodes);
    }
  }

  /** The click handler. `mounted` says whether the container ref is set;
      `capture` is what html2canvas delivered (None: it threw); `decodes` says
      which image data URLs jsPDF's addImage accepts; `saves` says whether
      pdf.save completes (false: it throws). Returns the alert shown and the
      calls on the document that completed. */
  method HandleExport(mounted: bool, capture: Option<Raster>, annotations: seq<Annotation>,
                      decodes: string -> bool, saves: bool)
    returns (outcome: Outcome, pdf: seq<Command>)
    ensures !mounted ==> outcome == NoContainer && pdf == []
    ensures mounted && !Captured(capture) ==> outcome == Failed && pdf == []
    ensures mounted && Captured(capture) ==>
      var run := DrawLoop(annotations, decodes);
      && pdf == [BaseImage(capture.value)] + run.commands + (if run.completed && saves then [Save(FileName)] else [])
      && outcome == (if run.completed && saves then Exported else Failed)
    ensures outcome == Exported <==>
      mounted && Captured(capture) && saves && forall a :: a in annotations ==> !Throws(a, decodes)
    ensures outcome == Exported ==> pdf == [BaseImage(capture.value)] + Emissions(annotations) + [Save(FileName)]
    ensures Save(FileName) in pdf <==> outcome == Exported
  {
    if !mounted {
      return NoContainer, [];
    }
    if !Captured(capture) {
      return Failed, [];
    }
    var raster := capture.value;
    var ok;
    pdf, ok := DrawAnnotations([BaseImage(raster)], annotations, decodes);
    assert pdf[1..] == DrawLoop(annotations, decodes).commands;
    DrawLoopSpec(annotations, decodes);
    EmissionCounts(annotations);
    var run := DrawLoop(annotations, decodes);
    if ok && saves {
      pdf := pdf + [Save(FileName)];
      outcome := Exported;
    } else {
      outcome := Failed;
    }
    assert Save(FileName) !in [BaseImage(raster)];
    DrawsAppend([BaseImage(raster)], run.commands);
    DrawsAppend([BaseImage(raster)] + run.commands, if ok && saves then [Save(FileName)] else []);
  }
}
