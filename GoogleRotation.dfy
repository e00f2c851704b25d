/**
 * Orientation correction with Gemini (src/google_ai_rotation.py): only a
 * whitelist of page classes is checked; Gemini's reply is stripped of a
 * markdown fence and parsed as JSON; every failure becomes a reply carrying
 * an "error" entry; the page is rotated only when the reply asks for a
 * non-zero angle, and the rotated image is written next to the original.
 *
 * Reading and encoding the file, Gemini itself, the JSON parser and OpenCV's
 * read and write are given values and functions; the pixel rotation is not
 * modelled, only the size of the image it writes.
 */
module GoogleRotation {
  import opened Wrappers
  import opened Text

  /** The page classes whose orientation is checked. */
  const RotatableClasses: set<string> := {"passport_1", "passport_2", "personal_photo", "certificate"}

  // ---------------------------------------------------------------- JSON replies

  /**
   * A value of the parsed reply. `Compound` is a list or an object and keeps
   * only whether it is empty; floating-point numbers are not modelled.
   */
  datatype Json = Null | Bool(b: bool) | Int(i: int) | Str(s: string) | Compound(nonEmpty: bool)

  /** The parsed reply: a JSON object. */
  type Reply = map<string, Json>

  /** Python's truth value of a JSON value. */
  predicate Truthy(v: Json)
  {
    match v
    case Null => false
    case Bool(b) => b
    case Int(i) => i != 0
    case Str(s) => s != []
    case Compound(nonEmpty) => nonEmpty
  }

  /** Python's `v == 0`: only the integer 0 and `False` compare equal to it. */
  predicate EqualsZero(v: Json)
  {
    v == Int(0) || v == Bool(false)
  }

  /** `reply.get(key, default)`. */
  function Get(reply: Reply, key: string, default: Json): (v: Json)
    ensures key !in reply ==> v == default
    ensures key in reply ==> v == reply[key]
  {
    if key in reply then reply[key] else default
  }

  /** The reply returned in place of Gemini's when a step fails. */
  function ErrorReply(message: string): (r: Reply)
    ensures "error" in r && r["error"] == Str(message)
    ensures !Truthy(Get(r, "rotation_needed", Bool(false)))
    ensures EqualsZero(Get(r, "rotation_angle", Int(0)))
  {
    map["rotation_needed" := Bool(false), "rotation_angle" := Int(0), "error" := Str(message)]
  }

  // ---------------------------------------------------------------- fence stripping

  const JsonFence := "```json"
  const Fence := "```"

  /**
   * Removes a markdown code fence around the reply: text starting with
   * "```json" loses every "```json" and then every "```"; text starting with
   * "```" loses every "```"; either is then trimmed. Other text is unchanged.
   */
  function StripFences(content: string): (r: string)
    ensures !(Fence <= content) ==> r == content
    ensures Fence <= content ==> |r| < |content| && (r == [] || (!IsSpace(r[0]) && !IsSpace(r[|r| - 1])))
  {
    if JsonFence <= content then StripJsonFence(content)
    else if Fence <= content then StripFence(content)
    else content
  }

  /** The "```json" case: every "```json" and then every "```" deleted, then trimmed. */
  function StripJsonFence(content: string): (r: string)
    requires JsonFence <= content
    ensures Fence <= content && |r| < |content|
  {
    JsonFenceShrinks(content);
    Strip(ReplaceAll(ReplaceAll(content, JsonFence, ""), Fence, ""))
  }

  /** The "```" case: every "```" deleted, then trimmed. */
  function StripFence(content: string): (r: string)
    requires Fence <= content
    ensures |r| < |content|
  {
    ReplaceAllShrinks(content, Fence);
    Strip(ReplaceAll(content, Fence, ""))
  }

  /** Text opening with "```json" opens with "```", and deleting both fences makes it shorter. */
  lemma JsonFenceShrinks(content: string)
    requires JsonFence <= content
    ensures Fence <= content
    ensures |ReplaceAll(ReplaceAll(content, JsonFence, ""), Fence, "")| < |content|
  {
    assert Fence == JsonFence[..3];
    ReplaceAllShrinks(content, JsonFence);
  }

  /** Deleting a pattern that starts the text makes the text shorter. */
  lemma ReplaceAllShrinks(s: string, pat: string)
    requires pat != [] && pat <= s
    ensures |ReplaceAll(s, pat, "")| < |s|
  {
    assert ReplaceAll(s, pat, "") == ReplaceAll(s[|pat|..], pat, "");
  }

  /** Text without a backtick passes through a fence deletion unchanged. */
  lemma {:induction false} ReplaceAllSkipsPlainText(body: string, tail: string, pat: string)
    requires pat != [] && pat[0] == '`'
    requires forall i :: 0 <= i < |body| ==> body[i] != '`'
    ensures ReplaceAll(body + tail, pat, "") == body + ReplaceAll(tail, pat, "")
    decreases |body|
  {
    if body != [] {
      assert (body + tail)[0] == body[0] != pat[0];
      assert (body + tail)[1..] == body[1..] + tail;
      ReplaceAllSkipsPlainText(body[1..], tail, pat);
    } else {
      assert body + tail == tail;
    }
  }

  /** A fenced block tagged "json" yields the trimmed text inside the fence. */
  lemma TaggedBlockYieldsBody(body: string)
    requires forall i :: 0 <= i < |body| ==> body[i] != '`'
    ensures StripFences(JsonFence + body + Fence) == Strip(body)
  {
    var tagged := JsonFence + body + Fence;
    assert JsonFence <= tagged && tagged[|JsonFence|..] == body + Fence;
    ReplaceAllSkipsPlainText(body, Fence, JsonFence);
    ContainedChars(Fence, JsonFence);
    assert ReplaceAll(tagged, JsonFence, "") == body + Fence;
    ClosingFenceRemoved(body);
  }

  /** An untagged fenced block yields the trimmed text inside the fence. */
  lemma PlainBlockYieldsBody(body: string)
    requires forall i :: 0 <= i < |body| ==> body[i] != '`'
    requires !("json" <= body)
    ensures StripFences(Fence + body + Fence) == Strip(body)
  {
    var plain := Fence + body + Fence;
    assert |body| >= 4 ==> plain[3..7] == body[..4];
    assert |body| < 4 ==> plain[3 + |body|] == '`' != JsonFence[3 + |body|];
    assert |body| >= 4 ==> body[..4] != "json" && JsonFence[3..7] == "json";
    assert !(JsonFence <= plain);
    assert Fence <= plain && plain[|Fence|..] == body + Fence;
    ClosingFenceRemoved(body);
    assert ReplaceAll(plain, Fence, "") == body;
  }

  lemma ClosingFenceRemoved(body: string)
    requires forall i :: 0 <= i < |body| ==> body[i] != '`'
    ensures ReplaceAll(body + Fence, Fence, "") == body
  {
    ReplaceAllSkipsPlainText(body, Fence, Fence);
    assert Fence <= Fence && Fence[|Fence|..] == [];
    assert body + [] == body;
  }

  // ---------------------------------------------------------------- detection

  /** The three prompts: passport text, face of a personal photo, certificate text. */
  datatype Prompt = PassportPrompt | PhotoPrompt | CertificatePrompt

  /** The prompt asked for a page class, or None for a class without one. */
  function PromptFor(docClass: string): (r: Option<Prompt>)
    ensures r.Some? <==> docClass in RotatableClasses
  {
    if docClass == "passport_1" || docClass == "passport_2" then Some(PassportPrompt)
    else if docClass == "personal_photo" then Some(PhotoPrompt)
    else if docClass == "certificate" then Some(CertificatePrompt)
    else None
  }

  /**
   * What the detection depends on: the base64 text of the image (None when
   * reading the file fails), Gemini's reply text for a prompt and an image
   * (Err when the call raises) and the JSON parser (Err with the parser's
   * message when the text is not JSON).
   */
  datatype Gemini = Gemini(
    encoded: Option<string>,
    generate: (Prompt, string) -> Result<string>,
    parse: string -> Result<Reply>)

  /** `detect_orientation_with_gemini`. */
  function DetectOrientation(docClass: string, g: Gemini): (r: Reply)
    ensures g.encoded.None? || g.encoded == Some("") ==> r == ErrorReply("Failed to encode image")
    ensures g.encoded.Some? && g.encoded.value != "" && docClass !in RotatableClasses
      ==> r == ErrorReply("Unknown document type")
    ensures "error" !in r ==>
      && g.encoded.Some? && docClass in RotatableClasses
      && var text := g.generate(PromptFor(docClass).value, g.encoded.value);
      && text.Ok?
      && var parsed := g.parse(StripFences(Strip(text.value)));
      && parsed.Ok? && r == parsed.value
  {
    match g.encoded
    case None => ErrorReply("Failed to encode image")
    case Some(data) =>
      if data == "" then ErrorReply("Failed to encode image")
      else
        match PromptFor(docClass)
        case None => ErrorReply("Unknown document type")
        case Some(prompt) =>
          match g.generate(prompt, data)
          case Err(message) => ErrorReply(message)
          case Ok(text) =>
            match g.parse(StripFences(Strip(text)))
            case Err(message) => ErrorReply("JSON parse error: " + message)
            case Ok(reply) => reply
  }

  // ---------------------------------------------------------------- rotation

  /** `f"{angle}"`, or None when the angle is not a number and negating it raises. */
  function AngleText(angle: Json): (r: Option<string>)
    ensures r.Some? <==> angle.Int? || angle.Bool?
  {
    match angle
    case Int(i) => Some(IntToString(i))
    case Bool(b) => Some(if b then "True" else "False")
    case _ => None
  }

  /** Where the rotated image is written: the path without its extension, then `_rotated_<angle>deg.jpg`. */
  function RotatedPath(imagePath: string, angleText: string): (r: string)
    ensures SplitExt(imagePath).0 <= r
  {
    SplitExt(imagePath).0 + "_rotated_" + angleText + "deg.jpg"
  }

  /** The rotated image never overwrites the original. */
  lemma RotatedPathDiffers(imagePath: string, angleText: string)
    ensures RotatedPath(imagePath, angleText) != imagePath
  {
    var (stem, ext) := SplitExt(imagePath);
    var r := RotatedPath(imagePath, angleText);
    assert r[|stem|] == '_';
    assert |imagePath| > |stem| ==> imagePath[|stem|] == ext[0] == '.';
  }

  /** Width and height of the rotated image: swapped for a quarter turn. */
  function RotatedSize(width: nat, height: nat, angle: Json): (r: (nat, nat))
    ensures r.0 * r.1 == width * height
    ensures r == (width, height) || r == (height, width)
  {
    if angle == Int(90) || angle == Int(270) then (height, width) else (width, height)
  }

  /** Turning the size twice by the same angle restores it. */
  lemma RotatedSizeTwice(width: nat, height: nat, angle: Json)
    ensures var (w, h) := RotatedSize(width, height, angle); RotatedSize(w, h, angle) == (width, height)
    ensures RotatedSize(width, height, angle) != (width, height) ==> angle == Int(90) || angle == Int(270)
  {
  }

  /** OpenCV's view of the file: unreadable, or an image of that size. */
  datatype ImageInfo = Unreadable | Image(width: nat, height: nat)

  /** The result of `rotate_image`: the returned path, and the size of the image written, if any. */
  datatype Rotation = Rotation(path: string, written: Option<(nat, nat)>)

  /**
   * `rotate_image`. `saved` is what `cv2.imwrite` reports; an exception it
   * raises has the same effect as a failed write.
   */
  function RotateImage(imagePath: string, angle: Json, image: ImageInfo, saved: bool): (r: Rotation)
    ensures r.written.Some? <==> r.path != imagePath
    ensures r.path != imagePath <==> image.Image? && AngleText(angle).Some? && saved
    ensures r.path != imagePath ==>
      && r.path == RotatedPath(imagePath, AngleText(angle).value)
      && r.written == Some(RotatedSize(image.width, image.height, angle))
  {
    match image
    case Unreadable => Rotation(imagePath, None)
    case Image(width, height) =>
      match AngleText(angle)
      case None => Rotation(imagePath, None)
      case Some(text) =>
        if saved then
          RotatedPathDiffers(imagePath, text);
          Rotation(RotatedPath(imagePath, text), Some(RotatedSize(width, height, angle)))
        else Rotation(imagePath, None)
  }

  /** The reply asks for a rotation: no error, a true `rotation_needed` and a non-zero `rotation_angle`. */
  predicate AsksRotation(reply: Reply)
  {
    && "error" !in reply
    && Truthy(Get(reply, "rotation_needed", Bool(false)))
    && !EqualsZero(Get(reply, "rotation_angle", Int(0)))
  }

  /** `rotate_image_if_needed_google_ai`. */
  function RotateImageIfNeeded(imagePath: string, docClass: string, g: Gemini, image: ImageInfo, saved: bool): (r: string)
    ensures docClass !in RotatableClasses ==> r == imagePath
    ensures r != imagePath <==>
      && docClass in RotatableClasses
      && AsksRotation(DetectOrientation(docClass, g))
      && RotateImage(imagePath, DetectOrientation(docClass, g)["rotation_angle"], image, saved).path != imagePath
  {
    if docClass !in RotatableClasses then imagePath
    else
      var reply := DetectOrientation(docClass, g);
      if "error" in reply then imagePath
      else if !Truthy(Get(reply, "rotation_needed", Bool(false))) then imagePath
      else
        var angle := Get(reply, "rotation_angle", Int(0));
        if EqualsZero(angle) then imagePath
        else RotateImage(imagePath, angle, image, saved).path
  }

  /**
   * The page is left as it is whenever detection fails, and otherwise the
   * rotated file is the only other possible answer.
   */
  lemma RotateIfNeededOutcomes(imagePath: string, docClass: string, g: Gemini, image: ImageInfo, saved: bool)
    ensures var r := RotateImageIfNeeded(imagePath, docClass, g, image, saved);
      && (g.encoded.None? || g.encoded == Some("") ==> r == imagePath)
      && (forall m :: g.encoded.Some? && docClass in RotatableClasses && g.generate(PromptFor(docClass).value, g.encoded.value) == Err(m) ==> r == imagePath)
      && (r != imagePath ==> exists t :: r == RotatedPath(imagePath, t) && AngleText(DetectOrientation(docClass, g)["rotation_angle"]) == Some(t))
  {
  }

  /** A class outside the whitelist is never sent to Gemini: the answer does not depend on it. */
  lemma OtherClassesIgnoreGemini(imagePath: string, docClass: string, g: Gemini, g': Gemini, image: ImageInfo, saved: bool)
    requires docClass !in RotatableClasses
    ensures RotateImageIfNeeded(imagePath, docClass, g, image, saved) == RotateImageIfNeeded(imagePath, docClass, g', Unreadable, false)
  {
  }

  /** A reply asking for a quarter turn of a readable image that is saved gives the rotated path. */
  lemma QuarterTurnRotates(imagePath: string, docClass: string, g: Gemini, width: nat, height: nat)
    requires docClass in RotatableClasses
    requires DetectOrientation(docClass, g) == map["rotation_needed" := Bool(true), "rotation_angle" := Int(90)]
    ensures RotateImageIfNeeded(imagePath, docClass, g, Image(width, height), true) == RotatedPath(imagePath, "90")
  {
    var reply := DetectOrientation(docClass, g);
    QuarterTurnAsks();
    NinetyText();
    assert AngleText(reply["rotation_angle"]) == Some("90");
  }

  lemma QuarterTurnAsks()
    ensures var reply: Reply := map["rotation_needed" := Bool(true), "rotation_angle" := Int(90)];
      AsksRotation(reply) && reply["rotation_angle"] == Int(90)
  {
  }

  lemma NinetyText()
    ensures IntToString(90) == "90"
  {
    assert NatToString(90) == NatToString(9) + [DigitChar(0)];
  }
}
