/**
 * OCR selection and cropping (src/yolo_crop_ocr_pipeline.py): the Document AI
 * record that never raises, the YOLO crop that always takes the first box,
 * the two Vision passes that keep the longer text, and the way Vision's two
 * detections are combined into one text.
 *
 * Document AI, YOLO and Vision are given values: the outcome of
 * `process_document`, the detected boxes, and Vision's response per path.
 * Whether OpenCV can decode a file, the decoded image's size, and whether a
 * write to a path succeeds are given as well.
 */
module YoloCrop {
  import opened Wrappers
  import opened Text
  import opened DocumentAi
  import opened Files

  // ---------------------------------------------------------------- run_enhanced_ocr

  /** The dictionary `run_enhanced_ocr` returns. */
  datatype OcrRecord = OcrRecord(
    ocrText: string,
    confidence: real,
    documentType: string,
    extractedFields: Fields,
    ocrMethod: string,
    textBlocks: seq<string>,
    pageCount: nat)

  const DocumentAiMethod := "document_ai"
  const UnavailableMethod := "document_ai_unavailable"

  /** The fixed record returned whenever Document AI is not used. */
  const Unavailable := OcrRecord("", 0.0, "unknown", map[], UnavailableMethod, [], 0)

  /**
   * `run_enhanced_ocr`: with the processor available and enabled and an
   * outcome without an error, the text, its document type and fields, and the
   * processor's confidence, blocks and page count; otherwise the fixed
   * "unavailable" record. No confidence threshold applies.
   */
  function RunEnhancedOcr(enabled: bool, outcome: ProcessOutcome, ex: Extractors): (r: OcrRecord)
    ensures r.ocrMethod == DocumentAiMethod <==> enabled && outcome.Processed?
    ensures r.ocrMethod == DocumentAiMethod ==>
      && r.ocrText == outcome.fullText
      && r.documentType == GetDocumentType(outcome.fullText).Name()
      && r.extractedFields == FieldsByType(outcome.fullText, ex)
      && r.confidence == outcome.confidence
      && r.textBlocks == outcome.ocrData.textBlocks
      && r.pageCount == outcome.pages
    ensures r.ocrMethod != DocumentAiMethod ==> r == Unavailable
  {
    if enabled && outcome.Processed? then
      var text := outcome.fullText;
      OcrRecord(text, outcome.confidence, GetDocumentType(text).Name(), FieldsByType(text, ex),
                DocumentAiMethod, outcome.ocrData.textBlocks, outcome.pages)
    else
      Unavailable
  }

  /**
   * The fields of a Document AI record are those of the type it reports:
   * a passport record carries the specific fields, an Emirates ID record the
   * Emirates ID fields, a certificate record the certificate fields.
   */
  lemma RecordFieldsFollowType(enabled: bool, outcome: ProcessOutcome, ex: Extractors)
    requires RunEnhancedOcr(enabled, outcome, ex).ocrMethod == DocumentAiMethod
    ensures var r := RunEnhancedOcr(enabled, outcome, ex);
      && (r.documentType == "passport" ==> r.extractedFields == ex.specific(r.ocrText))
      && (r.documentType == "emirates_id" ==>
            r.extractedFields == EmiratesIdFields(r.ocrText, ex.emiratesIdText(r.ocrText)))
      && (r.documentType in {"attestation_certificate", "certificate"} ==>
            r.extractedFields == CertificateFields(r.ocrText, ex.certificateText(r.ocrText)))
  {
    FieldsByTypeFacts(outcome.fullText, ex);
  }

  // ---------------------------------------------------------------- run_yolo_crop

  /** A detected box: its corners and, when the detection carries one, its class name. */
  datatype Box = Box(x1: int, y1: int, x2: int, y2: int, className: Option<string>)

  /** The saved crop: where it was written and the region cut out. */
  datatype Crop = Crop(path: string, x1: int, y1: int, x2: int, y2: int)

  function CropPath(imagePath: string, outputDir: string): string
  {
    PathJoin(outputDir, SplitExt(Basename(imagePath)).0 + "_cropped.jpg")
  }

  /** The length of the Python slice `[lo:hi]` of a dimension of size `n`. */
  function SliceLength(lo: int, hi: int, n: nat): (r: nat)
    ensures r <= n
    ensures 0 <= lo <= hi <= n ==> r == hi - lo
  {
    var a := ClampIndex(lo, n);
    var b := ClampIndex(hi, n);
    if a < b then b - a else 0
  }

  /** `image[y1:y2, x1:x2]` of an image `height` rows high and `width` columns wide has no pixel. */
  predicate EmptyCrop(b: Box, height: nat, width: nat)
  {
    SliceLength(b.y1, b.y2, height) == 0 || SliceLength(b.x1, b.x2, width) == 0
  }

  /**
   * What `run_yolo_crop` returns: an error for an unreadable image or no
   * boxes, the error `cv2.imwrite` raises on an empty region, else the first
   * box cut out and its path, whether or not the write reported success.
   */
  function ExpectedCrop(imagePath: string, outputDir: string, readable: bool, height: nat, width: nat,
                        boxes: seq<Box>): (r: Result<Crop>)
    ensures r.Ok? <==> readable && boxes != [] && !EmptyCrop(boxes[0], height, width)
    ensures r.Ok? ==> r.value == Crop(CropPath(imagePath, outputDir), boxes[0].x1, boxes[0].y1, boxes[0].x2, boxes[0].y2)
  {
    if !readable then Err("Could not read image")
    else if boxes == [] then Err("No objects detected in image")
    else if EmptyCrop(boxes[0], height, width) then Err("imwrite: empty image")
    else Ok(Crop(CropPath(imagePath, outputDir), boxes[0].x1, boxes[0].y1, boxes[0].x2, boxes[0].y2))
  }

  /** The class names of the boxes that have one, in order. */
  function ClassNames(boxes: seq<Box>): (names: seq<string>)
    ensures forall n :: n in names <==> exists b :: b in boxes && b.className == Some(n)
  {
    if boxes == [] then []
    else
      var rest := ClassNames(boxes[1..]);
      assert forall b :: b in boxes <==> b == boxes[0] || b in boxes[1..];
      match boxes[0].className
      case Some(n) => [n] + rest
      case None => rest
  }

  predicate IsAttestationLabel(name: string)
  {
    Contains(Lower(name), "attestation")
  }

  /**
   * `run_yolo_crop`: collects the boxes' class names and whether one of them
   * names an attestation label (which only changes what is logged), then
   * writes the first box's region to `{output_dir}/{stem}_cropped.jpg`. The
   * decoded image is `height` by `width`. The return value of `cv2.imwrite`
   * is not looked at: a write that fails (`writes` false for the path, as
   * for a missing output directory) still returns the path, and no file is
   * created there.
   */
  method RunYoloCrop(fs: FileStore, imagePath: string, outputDir: string, decodable: string -> bool,
                     height: nat, width: nat, writes: string -> bool, boxes: seq<Box>)
    returns (r: Result<Crop>, attestationLabel: bool)
    modifies fs
    ensures r == ExpectedCrop(imagePath, outputDir, imagePath in old(fs.files) && decodable(imagePath), height, width, boxes)
    ensures r.Ok? && writes(r.value.path) ==> fs.files == old(fs.files) + {r.value.path}
    ensures r.Err? || !writes(r.value.path) ==> fs.files == old(fs.files)
    ensures r.Ok? ==>
      (attestationLabel <==> exists b :: b in boxes && b.className.Some? && IsAttestationLabel(b.className.value))
  {
    attestationLabel := false;
    if !(imagePath in fs.files && decodable(imagePath)) {
      r := Err("Could not read image");
      return;
    }
    if boxes == [] {
      r := Err("No objects detected in image");
      return;
    }
    var detected: seq<string> := [];
    for i := 0 to |boxes|
      invariant detected == ClassNames(boxes[..i])
      invariant fs.files == old(fs.files)
    {
      assert boxes[..i + 1] == boxes[..i] + [boxes[i]];
      ClassNamesConcat(boxes[..i], [boxes[i]]);
      if boxes[i].className.Some? {
        detected := detected + [boxes[i].className.value];
      }
    }
    assert boxes[..|boxes|] == boxes;
    attestationLabel := exists n :: n in detected && IsAttestationLabel(n);
    if EmptyCrop(boxes[0], height, width) {
      r := Err("imwrite: empty image");
      return;
    }
    var path := CropPath(imagePath, outputDir);
    if writes(path) {
      fs.Write(path);
    }
    r := Ok(Crop(path, boxes[0].x1, boxes[0].y1, boxes[0].x2, boxes[0].y2));
  }

  lemma {:induction false} ClassNamesConcat(a: seq<Box>, b: seq<Box>)
    ensures ClassNames(a + b) == ClassNames(a) + ClassNames(b)
    decreases |a|
  {
    if a == [] {
      assert a + b == b;
    } else {
      assert (a + b)[0] == a[0] && (a + b)[1..] == a[1..] + b;
      ClassNamesConcat(a[1..], b);
    }
  }

  /** The crop never depends on the boxes after the first, nor on any class name. */
  lemma CropIgnoresLabels(imagePath: string, outputDir: string, readable: bool, height: nat, width: nat,
                          boxes: seq<Box>, name: Option<string>)
    requires boxes != []
    ensures ExpectedCrop(imagePath, outputDir, readable, height, width, boxes)
         == ExpectedCrop(imagePath, outputDir, readable, height, width, [boxes[0].(className := name)])
  {
  }

  /**
   * A first box of zero width or height inside the image cuts out nothing,
   * and writing that raises; a box inside the image with both sides positive
   * is cut out.
   */
  lemma CropNeedsArea(imagePath: string, outputDir: string, height: nat, width: nat, boxes: seq<Box>)
    requires boxes != []
    requires 0 <= boxes[0].x1 <= boxes[0].x2 <= width && 0 <= boxes[0].y1 <= boxes[0].y2 <= height
    ensures ExpectedCrop(imagePath, outputDir, true, height, width, boxes).Ok?
        <==> boxes[0].x1 < boxes[0].x2 && boxes[0].y1 < boxes[0].y2
  {
  }

  /** The crop is written inside the output directory under the image's stem plus "_cropped.jpg". */
  lemma CropFileName(imagePath: string, outputDir: string)
    ensures Basename(CropPath(imagePath, outputDir)) == SplitExt(Basename(imagePath)).0 + "_cropped.jpg"
  {
    var stem := SplitExt(Basename(imagePath)).0;
    BasenameHasNoSlash(imagePath);
    assert forall i :: 0 <= i < |stem| ==> stem[i] == Basename(imagePath)[i];
    BasenameOfJoin(outputDir, stem + "_cropped.jpg");
  }

  // ---------------------------------------------------------------- _perform_ocr

  /** What Vision answers for one image: the document text, the plain detections' descriptions, the first annotation's corners and the labels. */
  datatype VisionResponse = VisionResponse(docText: string, annotations: seq<string>, vertices: seq<(int, int)>, labels: seq<string>)

  /** The dictionary `_perform_ocr` returns. */
  datatype OcrPass = OcrPass(ocrText: string, angle: seq<(int, int)>, labels: seq<string>)

  predicate NonEmpty(s: string) { s != [] }

  /** The descriptions of every detection after the first (the first is the whole text), empty ones dropped, space-joined. */
  function AdditionalText(annotations: seq<string>): string
    requires annotations != []
  {
    Join(" ", Filter(annotations[1..], NonEmpty))
  }

  /**
   * The text `_perform_ocr` combines: the document text, followed by a space
   * and the additional text when that is non-empty and not already part of
   * the document text.
   */
  function CombineText(docText: string, annotations: seq<string>): (r: string)
    ensures docText <= r
    ensures annotations == [] ==> r == docText
    ensures annotations != [] ==>
      (r != docText <==> AdditionalText(annotations) != "" && !Contains(docText, AdditionalText(annotations)))
    ensures annotations != [] && r != docText ==> r == docText + " " + AdditionalText(annotations)
  {
    if annotations == [] then docText
    else
      var extra := AdditionalText(annotations);
      if extra != "" && !Contains(docText, extra) then docText + " " + extra else docText
  }

  /** Whatever the detections add ends up in the combined text. */
  lemma CombinedContainsAdditional(docText: string, annotations: seq<string>)
    requires annotations != []
    ensures Contains(CombineText(docText, annotations), AdditionalText(annotations))
  {
    var extra := AdditionalText(annotations);
    var r := CombineText(docText, annotations);
    if r == docText {
      if extra == "" {
        assert extra <= r;
      }
    } else {
      ContainsAt(r, extra, |docText| + 1);
    }
  }

  /** Combining the same detections into an already combined text changes nothing. */
  lemma CombineTextIdempotent(docText: string, annotations: seq<string>)
    ensures CombineText(CombineText(docText, annotations), annotations) == CombineText(docText, annotations)
  {
    if annotations != [] {
      CombinedContainsAdditional(docText, annotations);
    }
  }

  /** `_perform_ocr`: opening a missing file raises; otherwise Vision's answer for the path, combined. */
  function PerformOcr(files: set<string>, path: string, vision: string -> Result<VisionResponse>): (r: Result<OcrPass>)
    ensures path !in files ==> r.Err?
    ensures r.Ok? ==>
      && vision(path).Ok?
      && r.value.ocrText == CombineText(vision(path).value.docText, vision(path).value.annotations)
  {
    if path !in files then Err("No such file or directory")
    else
      match vision(path)
      case Err(e) => Err(e)
      case Ok(v) => Ok(OcrPass(CombineText(v.docText, v.annotations), v.vertices, v.labels))
  }

  // ---------------------------------------------------------------- preprocessing and the two passes

  function PreprocessedPath(imagePath: string): string
  {
    SplitExt(imagePath).0 + "_preprocessed.jpg"
  }

  /**
   * `preprocess_image_for_ocr` as a function of the files: an image OpenCV
   * cannot read is returned as it is; otherwise the thresholded copy is
   * written next to it and its path returned. The return value of
   * `cv2.imwrite` is not looked at: when the write fails the path is still
   * returned and no file is created there.
   */
  function Preprocess(files: set<string>, imagePath: string, decodable: string -> bool, writes: string -> bool)
    : (r: (string, set<string>))
    ensures r.0 != imagePath <==> imagePath in files && decodable(imagePath)
    ensures r.0 != imagePath ==> r.0 == PreprocessedPath(imagePath)
    ensures r.0 != imagePath && writes(r.0) ==> r.1 == files + {r.0}
    ensures r.0 == imagePath || !writes(r.0) ==> r.1 == files
  {
    if imagePath in files && decodable(imagePath) then
      var path := PreprocessedPath(imagePath);
      PreprocessedPathDiffers(imagePath);
      (path, if writes(path) then files + {path} else files)
    else
      (imagePath, files)
  }

  /** The preprocessed copy never has the image's own path. */
  lemma PreprocessedPathDiffers(imagePath: string)
    ensures PreprocessedPath(imagePath) != imagePath
  {
    var (stem, ext) := SplitExt(imagePath);
    assert PreprocessedPath(imagePath)[|stem|] == '_';
  }

  method PreprocessImageForOcr(fs: FileStore, imagePath: string, decodable: string -> bool, writes: string -> bool)
    returns (path: string)
    modifies fs
    ensures (path, fs.files) == Preprocess(old(fs.files), imagePath, decodable, writes)
  {
    if !(imagePath in fs.files && decodable(imagePath)) {
      return imagePath;
    }
    path := PreprocessedPath(imagePath);
    if writes(path) {
      fs.Write(path);
    }
  }

  /** Lines 186-187 as written: remove the path preprocessing returned, if it exists, even when it is the image itself. */
  function CleanupAsWritten(files: set<string>, preprocessed: string): set<string>
  {
    if preprocessed in files then files - {preprocessed} else files
  }

  /** The intended cleanup: remove the preprocessed copy, never the image that was read. */
  function Cleanup(files: set<string>, imagePath: string, preprocessed: string): (r: set<string>)
    ensures imagePath in files ==> imagePath in r
    ensures r == files - ({preprocessed} - {imagePath})
  {
    if preprocessed != imagePath && preprocessed in files then files - {preprocessed} else files
  }

  /** The second pass runs when the first text is under 100 characters or the path mentions a passport. */
  predicate NeedsSecondPass(firstText: string, imagePath: string)
  {
    |firstText| < 100 || Contains(Lower(imagePath), "passport")
  }

  /**
   * `run_google_vision_ocr` with the intended cleanup: the first pass; when a
   * second pass is needed, the pass over the preprocessed image, kept only if
   * its text is strictly longer. An exception in either pass propagates.
   * The result and the files afterwards.
   */
  function VisionOcr(files: set<string>, imagePath: string, decodable: string -> bool, writes: string -> bool,
                     vision: string -> Result<VisionResponse>): (Result<OcrPass>, set<string>)
  {
    match PerformOcr(files, imagePath, vision)
    case Err(e) => (Err(e), files)
    case Ok(first) =>
      if !NeedsSecondPass(first.ocrText, imagePath) then (Ok(first), files)
      else
        var (preprocessed, written) := Preprocess(files, imagePath, decodable, writes);
        match PerformOcr(written, preprocessed, vision)
        case Err(e) => (Err(e), written)
        case Ok(enhanced) =>
          var kept := if |enhanced.ocrText| > |first.ocrText| then enhanced else first;
          (Ok(kept), Cleanup(written, imagePath, preprocessed))
  }

  method RunGoogleVisionOcr(fs: FileStore, imagePath: string, decodable: string -> bool, writes: string -> bool,
                            vision: string -> Result<VisionResponse>) returns (r: Result<OcrPass>)
    modifies fs
    ensures (r, fs.files) == VisionOcr(old(fs.files), imagePath, decodable, writes, vision)
  {
    r := PerformOcr(fs.files, imagePath, vision);
    if r.Err? {
      return;
    }
    if NeedsSecondPass(r.value.ocrText, imagePath) {
      var preprocessed := PreprocessImageForOcr(fs, imagePath, decodable, writes);
      var enhanced := PerformOcr(fs.files, preprocessed, vision);
      if enhanced.Err? {
        r := enhanced;
        return;
      }
      if |enhanced.value.ocrText| > |r.value.ocrText| {
        r := enhanced;
      }
      if preprocessed != imagePath && preprocessed in fs.files {
        fs.Remove(preprocessed);
      }
    }
  }

  /**
   * The two passes never lose text: a successful result is the first pass
   * when no second pass is needed, and otherwise the longer of the two
   * passes, the first on a tie.
   */
  lemma VisionOcrKeepsLonger(files: set<string>, imagePath: string, decodable: string -> bool, writes: string -> bool,
                             vision: string -> Result<VisionResponse>)
    requires VisionOcr(files, imagePath, decodable, writes, vision).0.Ok?
    ensures PerformOcr(files, imagePath, vision).Ok?
    ensures var first := PerformOcr(files, imagePath, vision).value;
      var r := VisionOcr(files, imagePath, decodable, writes, vision).0.value;
      && |r.ocrText| >= |first.ocrText|
      && (!NeedsSecondPass(first.ocrText, imagePath) ==> r == first)
      && (r != first ==> NeedsSecondPass(first.ocrText, imagePath) && |r.ocrText| > |first.ocrText|)
  {
  }

  /**
   * The two passes leave the files as they found them, except that a file at
   * the preprocessed path is gone afterwards; the image itself is never removed.
   */
  lemma VisionOcrKeepsImage(files: set<string>, imagePath: string, decodable: string -> bool, writes: string -> bool,
                            vision: string -> Result<VisionResponse>)
    requires imagePath in files
    ensures var after := VisionOcr(files, imagePath, decodable, writes, vision).1;
      imagePath in after
    ensures var (r, after) := VisionOcr(files, imagePath, decodable, writes, vision);
      r.Ok? ==> after == files - {PreprocessedPath(imagePath)} || after == files
  {
    PreprocessedPathDiffers(imagePath);
  }

  /** Whatever the outcome, the only file the two passes may create or remove is the preprocessed copy. */
  lemma VisionOcrFileEffect(files: set<string>, imagePath: string, decodable: string -> bool, writes: string -> bool,
                            vision: string -> Result<VisionResponse>)
    ensures var after := VisionOcr(files, imagePath, decodable, writes, vision).1;
      files - {PreprocessedPath(imagePath)} <= after <= files + {PreprocessedPath(imagePath)}
  {
  }

  /**
   * The write of the thresholded copy is not checked: when it fails and no
   * file was at that path, the second pass opens a missing file and the whole
   * call raises, although the first pass had succeeded.
   */
  lemma FailedPreprocessWriteRaises(files: set<string>, imagePath: string, decodable: string -> bool,
                                    writes: string -> bool, vision: string -> Result<VisionResponse>)
    requires imagePath in files && decodable(imagePath)
    requires PreprocessedPath(imagePath) !in files && !writes(PreprocessedPath(imagePath))
    requires PerformOcr(files, imagePath, vision).Ok?
    requires NeedsSecondPass(PerformOcr(files, imagePath, vision).value.ocrText, imagePath)
    ensures VisionOcr(files, imagePath, decodable, writes, vision).0.Err?
  {
  }

  /**
   * As written, the cleanup removes the input image itself when OpenCV could
   * not decode it: preprocessing then hands back the image's own path, the
   * second pass runs on it (an empty first text is under 100 characters), and
   * `os.remove` deletes it. The intended cleanup keeps it.
   */
  lemma AsWrittenCleanupRemovesImage()
    ensures var files := {"scan.gif"};
      var vision := (p: string) => Ok(VisionResponse("", [], [], []));
      var undecodable := (p: string) => false;
      var writable := (p: string) => true;
      var first := PerformOcr(files, "scan.gif", vision);
      var (preprocessed, written) := Preprocess(files, "scan.gif", undecodable, writable);
      && first.Ok? && NeedsSecondPass(first.value.ocrText, "scan.gif")
      && preprocessed == "scan.gif"
      && PerformOcr(written, preprocessed, vision).Ok?
      && CleanupAsWritten(written, preprocessed) == {}
      && Cleanup(written, "scan.gif", preprocessed) == {"scan.gif"}
  {
  }
}
