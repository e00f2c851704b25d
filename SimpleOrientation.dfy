/**
 * Orientation by text length (src/simple_text_orientation_detector.py): the
 * image is read by Google Vision as it is and turned by 90, 180 and 270
 * degrees, each turned copy in a temporary file removed afterwards; the
 * angle whose text is longest wins, the earliest one on a tie. A rotated
 * copy is written only for 90, 180 or 270 degrees.
 *
 * OpenCV's reading and writing, the temporary file names and Vision's
 * answers are given; the two OCR passes on each file are those of
 * `YoloCrop.RunGoogleVisionOcr`.
 */
module SimpleOrientation {
  import opened Wrappers
  import opened Text
  import opened Files
  import opened YoloCrop

  /** The angles tried, in order. */
  const Angles: seq<nat> := [0, 90, 180, 270]

  // ---------------------------------------------------------------- choosing the angle

  /**
   * The loop's best index and best length after the lengths `lens`: it
   * starts at index 0 with length 0 and moves only to a strictly longer text.
   */
  function Best(lens: seq<nat>): (r: (nat, nat))
    ensures r.0 == 0 || r.0 < |lens|
    decreases |lens|
  {
    if lens == [] then (0, 0)
    else
      var prev := Best(lens[..|lens| - 1]);
      if lens[|lens| - 1] > prev.1 then (|lens| - 1, lens[|lens| - 1]) else prev
  }

  /** `k` holds a longest length, and every earlier length is shorter. */
  predicate FirstLongest(lens: seq<nat>, k: nat)
  {
    && k < |lens|
    && (forall j :: 0 <= j < |lens| ==> lens[j] <= lens[k])
    && (forall j :: 0 <= j < k ==> lens[j] < lens[k])
  }

  /** The loop keeps the first of the longest texts; with all lengths 0 that is the first angle. */
  lemma {:induction false} BestIsFirstLongest(lens: seq<nat>)
    requires lens != []
    ensures FirstLongest(lens, Best(lens).0) && Best(lens).1 == lens[Best(lens).0]
    decreases |lens|
  {
    if |lens| > 1 {
      var init := lens[..|lens| - 1];
      BestIsFirstLongest(init);
      assert forall j :: 0 <= j < |init| ==> init[j] == lens[j];
    }
  }

  /** There is only one first longest index. */
  lemma FirstLongestUnique(lens: seq<nat>, k: nat, k': nat)
    requires FirstLongest(lens, k) && FirstLongest(lens, k')
    ensures k == k'
  {
    assert lens[k] == lens[k'];
  }

  // ---------------------------------------------------------------- the result

  /** The dictionary `detect_text_orientation_simple` returns. */
  datatype Orientation = Orientation(
    rotationNeeded: bool,
    rotationAngle: nat,
    confidence: real,
    reason: string,
    detectedTextLength: nat)

  /** The result for an unreadable image or a raised exception. */
  function Failed(reason: string): (o: Orientation)
    ensures !o.rotationNeeded && o.rotationAngle == 0 && o.confidence == 0.0 && o.detectedTextLength == 0
  {
    Orientation(false, 0, 0.0, reason, 0)
  }

  /** The result for the best angle and its text length; the confidence is that length. */
  function Reported(angle: nat, textLength: nat): (o: Orientation)
    ensures o.rotationNeeded <==> angle != 0
    ensures o.rotationAngle == angle && o.detectedTextLength == textLength
    ensures o.confidence == textLength as real
  {
    var reason := if angle != 0
      then "Google Vision OCR detected more text at " + NatToString(angle) + "° rotation"
      else "Text appears correctly oriented";
    Orientation(angle != 0, angle, textLength as real, reason, textLength)
  }

  // ---------------------------------------------------------------- the scan

  /** The file read for the `i`-th angle: the image itself, or the temporary file for a turned copy. */
  function AnglePath(imagePath: string, temps: seq<string>, i: nat): string
    requires |temps| == 3 && i < 4
  {
    if Angles[i] == 0 then imagePath else temps[i - 1]
  }

  /**
   * One iteration: the turned copy is written to its temporary file, Vision
   * reads it (both passes), and the temporary file is removed whether or not
   * the OCR raised. The result is the text length, or the error raised.
   */
  function Step(files: set<string>, imagePath: string, temps: seq<string>, decodable: string -> bool, writes: string -> bool,
                vision: string -> Result<VisionResponse>, i: nat): (r: (Result<nat>, set<string>))
    requires |temps| == 3 && i < 4
  {
    var path := AnglePath(imagePath, temps, i);
    var before := if Angles[i] == 0 then files else files + {path};
    var (res, after) := VisionOcr(before, path, decodable, writes, vision);
    var cleaned := if Angles[i] != 0 && path in after then after - {path} else after;
    match res
    case Err(e) => (Err(e), cleaned)
    case Ok(pass) => (Ok(|pass.ocrText|), cleaned)
  }

  /** The first `k` iterations: their text lengths, or the first error, and the files afterwards. */
  function Scan(files: set<string>, imagePath: string, temps: seq<string>, decodable: string -> bool, writes: string -> bool,
                vision: string -> Result<VisionResponse>, k: nat): (r: (Result<seq<nat>>, set<string>))
    requires |temps| == 3 && k <= 4
    ensures r.0.Ok? ==> |r.0.value| == k
  {
    if k == 0 then (Ok([]), files)
    else
      var (prev, files') := Scan(files, imagePath, temps, decodable, writes, vision, k - 1);
      match prev
      case Err(e) => (Err(e), files')
      case Ok(lens) =>
        var (res, files'') := Step(files', imagePath, temps, decodable, writes, vision, k - 1);
        match res
        case Err(e) => (Err(e), files'')
        case Ok(n) => (Ok(lens + [n]), files'')
  }

  /** `detect_text_orientation_simple` as a function of the files. */
  function DetectSimple(files: set<string>, imagePath: string, temps: seq<string>, decodable: string -> bool, writes: string -> bool,
                        vision: string -> Result<VisionResponse>): (r: (Orientation, set<string>))
    requires |temps| == 3
    ensures r.0.rotationNeeded <==> r.0.rotationAngle != 0
    ensures r.0.rotationAngle in Angles
    ensures r.0.confidence == r.0.detectedTextLength as real
    ensures !(imagePath in files && decodable(imagePath)) ==> r == (Failed("Failed to read image"), files)
  {
    if !(imagePath in files && decodable(imagePath)) then (Failed("Failed to read image"), files)
    else
      match Scan(files, imagePath, temps, decodable, writes, vision, 4)
      case (Err(e), after) => (Failed("Error: " + e), after)
      case (Ok(lens), after) =>
        var (k, n) := Best(lens);
        (Reported(Angles[k], n), after)
  }

  /** `detect_text_orientation_simple`. `temps` are the names the temporary files receive. */
  method DetectTextOrientationSimple(fs: FileStore, imagePath: string, temps: seq<string>, decodable: string -> bool, writes: string -> bool,
                                     vision: string -> Result<VisionResponse>) returns (o: Orientation)
    requires |temps| == 3
    modifies fs
    ensures (o, fs.files) == DetectSimple(old(fs.files), imagePath, temps, decodable, writes, vision)
  {
    if !(imagePath in fs.files && decodable(imagePath)) {
      return Failed("Failed to read image");
    }
    var bestAngle, bestTextLen := 0, 0;
    ghost var lens: seq<nat> := [];
    var i := 0;
    while i < 4
      invariant 0 <= i <= 4 && |lens| == i
      invariant Scan(old(fs.files), imagePath, temps, decodable, writes, vision, i) == (Ok(lens), fs.files)
      invariant Best(lens).0 < 4 && bestAngle == Angles[Best(lens).0] && bestTextLen == Best(lens).1
    {
      var angle := Angles[i];
      var tempPath := AnglePath(imagePath, temps, i);
      if angle != 0 {
        fs.Write(tempPath);
      }
      var ocr := RunGoogleVisionOcr(fs, tempPath, decodable, writes, vision);
      if angle != 0 && tempPath in fs.files {
        fs.Remove(tempPath);
      }
      if ocr.Err? {
        ScanStopsAtError(old(fs.files), imagePath, temps, decodable, writes, vision, i + 1, 4);
        return Failed("Error: " + ocr.error);
      }
      var textLen := |ocr.value.ocrText|;
      if textLen > bestTextLen {
        bestTextLen := textLen;
        bestAngle := angle;
      }
      assert (lens + [textLen])[..i] == lens;
      lens := lens + [textLen];
      i := i + 1;
    }
    o := Reported(bestAngle, bestTextLen);
  }

  /** Once an iteration raises, the later ones do not run. */
  lemma {:induction false} ScanStopsAtError(files: set<string>, imagePath: string, temps: seq<string>,
                                            decodable: string -> bool, writes: string -> bool, vision: string -> Result<VisionResponse>, k: nat, k': nat)
    requires |temps| == 3 && k <= k' <= 4
    requires Scan(files, imagePath, temps, decodable, writes, vision, k).0.Err?
    ensures Scan(files, imagePath, temps, decodable, writes, vision, k') == Scan(files, imagePath, temps, decodable, writes, vision, k)
    decreases k' - k
  {
    if k < k' {
      ScanStopsAtError(files, imagePath, temps, decodable, writes, vision, k, k' - 1);
    }
  }

  /** A successful scan reports the first angle whose text is longest. */
  lemma DetectSimplePicksFirstLongest(files: set<string>, imagePath: string, temps: seq<string>,
                                      decodable: string -> bool, writes: string -> bool, vision: string -> Result<VisionResponse>)
    requires |temps| == 3 && imagePath in files && decodable(imagePath)
    requires Scan(files, imagePath, temps, decodable, writes, vision, 4).0.Ok?
    ensures var lens := Scan(files, imagePath, temps, decodable, writes, vision, 4).0.value;
      var o := DetectSimple(files, imagePath, temps, decodable, writes, vision).0;
      exists k: nat :: FirstLongest(lens, k) && Angles[k] == o.rotationAngle && lens[k] == o.detectedTextLength
  {
    var lens := Scan(files, imagePath, temps, decodable, writes, vision, 4).0.value;
    BestIsFirstLongest(lens);
  }

  // ---------------------------------------------------------------- temporary files

  /**
   * The temporary names are new files, other than the image, and none is the
   * preprocessed copy of the image or of a temporary file, nor has one as its
   * own preprocessed copy.
   */
  predicate FreshTemps(files: set<string>, imagePath: string, temps: seq<string>)
  {
    && |temps| == 3
    && PreprocessedPath(imagePath) !in temps
    && forall i :: 0 <= i < 3 ==>
      && temps[i] !in files && temps[i] != imagePath
      && PreprocessedPath(temps[i]) != imagePath
      && PreprocessedPath(temps[i]) !in temps
  }

  /** Each iteration keeps the image and leaves no temporary file behind. */
  lemma StepKeepsImage(files: set<string>, imagePath: string, temps: seq<string>, decodable: string -> bool, writes: string -> bool,
                       vision: string -> Result<VisionResponse>, i: nat)
    requires FreshTemps({}, imagePath, temps) && i < 4
    requires imagePath in files && forall j :: 0 <= j < 3 ==> temps[j] !in files
    ensures var after := Step(files, imagePath, temps, decodable, writes, vision, i).1;
      imagePath in after && forall j :: 0 <= j < 3 ==> temps[j] !in after
  {
    var path := AnglePath(imagePath, temps, i);
    var before := if Angles[i] == 0 then files else files + {path};
    VisionOcrFileEffect(before, path, decodable, writes, vision);
    PreprocessedPathDiffers(imagePath);
    assert PreprocessedPath(path) != imagePath;
    assert PreprocessedPath(path) !in temps;
  }

  /** The scan never removes the image, and every temporary file is gone afterwards, even after an error. */
  lemma {:induction false} ScanKeepsImage(files: set<string>, imagePath: string, temps: seq<string>,
                                          decodable: string -> bool, writes: string -> bool, vision: string -> Result<VisionResponse>, k: nat)
    requires FreshTemps(files, imagePath, temps) && imagePath in files && k <= 4
    ensures var after := Scan(files, imagePath, temps, decodable, writes, vision, k).1;
      imagePath in after && forall j :: 0 <= j < 3 ==> temps[j] !in after
  {
    if k > 0 {
      ScanKeepsImage(files, imagePath, temps, decodable, writes, vision, k - 1);
      var (prev, files') := Scan(files, imagePath, temps, decodable, writes, vision, k - 1);
      if prev.Ok? {
        assert FreshTemps({}, imagePath, temps);
        StepKeepsImage(files', imagePath, temps, decodable, writes, vision, k - 1);
      }
    }
  }

  // ---------------------------------------------------------------- rotating

  /** The angles `rotate_image_simple` accepts. */
  const AllowedAngles: set<int> := {90, 180, 270}

  /** The input path without its extension, then `_rotated_<angle>deg`, then the extension. */
  function SimpleRotatedPath(imagePath: string, angle: int): (r: string)
    ensures |r| > |imagePath|
    ensures SplitExt(imagePath).0 <= r
  {
    var (stem, ext) := SplitExt(imagePath);
    stem + "_rotated_" + IntToString(angle) + "deg" + ext
  }

  /**
   * `rotate_image_simple` as written: the result of `cv2.imwrite` is not
   * looked at, so a write that reports failure still returns the new path.
   */
  function RotateImageSimpleAsWritten(files: set<string>, imagePath: string, angle: int, decodable: string -> bool,
                                      write: WriteOutcome): (r: (string, set<string>))
  {
    if !(imagePath in files && decodable(imagePath)) || angle !in AllowedAngles then (imagePath, files)
    else
      match write
      case Saved => (SimpleRotatedPath(imagePath, angle), files + {SimpleRotatedPath(imagePath, angle)})
      case NotSaved => (SimpleRotatedPath(imagePath, angle), files)
      case WriteRaised => (imagePath, files)
  }

  /** As written, a write that fails without raising hands back a path where no file exists. */
  lemma AsWrittenReturnsMissingFile(files: set<string>, imagePath: string, angle: int, decodable: string -> bool)
    requires imagePath in files && decodable(imagePath) && angle in AllowedAngles
    requires SimpleRotatedPath(imagePath, angle) !in files
    ensures var (path, after) := RotateImageSimpleAsWritten(files, imagePath, angle, decodable, NotSaved);
      path != imagePath && path !in after
  {
  }

  /**
   * `rotate_image_simple` with every failure returning the original path: an
   * unreadable image, an angle other than 90, 180 and 270, and a failed or
   * raising write.
   */
  function RotateImageSimple(files: set<string>, imagePath: string, angle: int, decodable: string -> bool,
                             write: WriteOutcome): (r: (string, set<string>))
    ensures r.0 != imagePath <==> imagePath in files && decodable(imagePath) && angle in AllowedAngles && write == Saved
    ensures r.0 != imagePath ==> r.0 == SimpleRotatedPath(imagePath, angle) && r.1 == files + {r.0}
    ensures r.0 == imagePath ==> r.1 == files
  {
    if !(imagePath in files && decodable(imagePath)) || angle !in AllowedAngles then (imagePath, files)
    else
      match write
      case Saved => (SimpleRotatedPath(imagePath, angle), files + {SimpleRotatedPath(imagePath, angle)})
      case NotSaved => (imagePath, files)
      case WriteRaised => (imagePath, files)
  }

  /** The corrected rotation always hands back a file that exists when the image did. */
  lemma RotatedFileExists(files: set<string>, imagePath: string, angle: int, decodable: string -> bool,
                          write: WriteOutcome)
    requires imagePath in files
    ensures var (path, after) := RotateImageSimple(files, imagePath, angle, decodable, write);
      path in after && files <= after
  {
  }

  // ---------------------------------------------------------------- the whole step

  /** `auto_rotate_image_simple` as a function of the files. */
  function AutoRotate(files: set<string>, imagePath: string, temps: seq<string>, decodable: string -> bool, writes: string -> bool,
                      vision: string -> Result<VisionResponse>, write: WriteOutcome): (r: (string, set<string>))
    requires |temps| == 3
  {
    var (o, after) := DetectSimple(files, imagePath, temps, decodable, writes, vision);
    if o.rotationNeeded && o.rotationAngle > 0 then RotateImageSimple(after, imagePath, o.rotationAngle, decodable, write)
    else (imagePath, after)
  }

  /** `auto_rotate_image_simple`. */
  method AutoRotateImageSimple(fs: FileStore, imagePath: string, temps: seq<string>, decodable: string -> bool, writes: string -> bool,
                               vision: string -> Result<VisionResponse>, write: WriteOutcome) returns (path: string)
    requires |temps| == 3
    modifies fs
    ensures (path, fs.files) == AutoRotate(old(fs.files), imagePath, temps, decodable, writes, vision, write)
  {
    var o := DetectTextOrientationSimple(fs, imagePath, temps, decodable, writes, vision);
    if o.rotationNeeded && o.rotationAngle > 0 {
      path := RotateImageSimple(fs.files, imagePath, o.rotationAngle, decodable, write).0;
      if path != imagePath {
        fs.Write(path);
      }
    } else {
      path := imagePath;
    }
  }

  /**
   * The image is turned exactly when detection asks for it, by the detected
   * angle; the angle test is implied by `rotation_needed`; and the returned
   * path names a file whenever the image was one.
   */
  lemma AutoRotateFacts(files: set<string>, imagePath: string, temps: seq<string>, decodable: string -> bool, writes: string -> bool,
                        vision: string -> Result<VisionResponse>, write: WriteOutcome)
    requires FreshTemps(files, imagePath, temps)
    ensures var (o, after) := DetectSimple(files, imagePath, temps, decodable, writes, vision);
      var (path, final) := AutoRotate(files, imagePath, temps, decodable, writes, vision, write);
      && (o.rotationNeeded ==> o.rotationAngle > 0)
      && (path != imagePath ==> o.rotationNeeded && path == SimpleRotatedPath(imagePath, o.rotationAngle))
      && (!o.rotationNeeded ==> path == imagePath && final == after)
      && (imagePath in files ==> path in final)
  {
    var (o, after) := DetectSimple(files, imagePath, temps, decodable, writes, vision);
    if imagePath in files {
      ScanKeepsImage(files, imagePath, temps, decodable, writes, vision, 4);
      if decodable(imagePath) {
        assert imagePath in after;
      }
    }
  }
}
