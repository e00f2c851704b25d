/**
 * The batch steps of the main pipeline (src/main_pipeline.py): classifying
 * pages, relabelling a misclassified attestation page, rotating the pages
 * that may need it, running OCR on each page, filling the per-document slots
 * handed to Gemini, naming the saved artifacts, and reading the sender and
 * requested service out of the saved e-mail body.
 *
 * Each page is a record the steps update in place, as the pipeline updates
 * its dictionaries. The classifier, the rotator, the cropper, Document AI
 * and Gemini are given functions of their input.
 */
module Pipeline {
  import opened Wrappers
  import opened Text
  import opened DocumentAi
  import opened YoloCrop

  // ---------------------------------------------------------------- page records

  /** The contents of a page record at one moment. */
  datatype PageData = PageData(
    path: string,
    pageLabel: string,
    filename: string,
    croppedPath: Option<string>,
    fullPagePath: Option<string>,
    ocrText: string,
    extractedFields: Fields,
    documentType: string,
    confidence: real)

  /**
   * A page's dictionary. The OCR entries start at the values the later steps
   * read when they are missing: empty text and no fields.
   */
  class PageRecord {
    var path: string
    var pageLabel: string
    var filename: string
    var croppedPath: Option<string>
    var fullPagePath: Option<string>
    var ocrText: string
    var extractedFields: Fields
    var documentType: string
    var confidence: real

    constructor(path: string, pageLabel: string)
      ensures Data() == NewPage(path, pageLabel)
    {
      this.path := path;
      this.pageLabel := pageLabel;
      this.filename := Basename(path);
      this.croppedPath := None;
      this.fullPagePath := None;
      this.ocrText := "";
      this.extractedFields := map[];
      this.documentType := "unknown";
      this.confidence := 0.0;
    }

    function Data(): PageData
      reads this
    {
      PageData(path, pageLabel, filename, croppedPath, fullPagePath, ocrText, extractedFields, documentType, confidence)
    }

    /** The relabelling loop's body for this page. */
    method Retarget()
      modifies this
      ensures Data() == Retargeted(old(Data()))
    {
      if pageLabel in ReclassifiableLabels {
        pageLabel := AttestationLabel;
      }
    }

    /** The rotation loop's body for this page. */
    method Rotate(rotate: string -> Result<string>)
      modifies this
      ensures Data() == old(Data()).(path := RotatedPath(old(Data()), rotate))
    {
      if pageLabel in RotationCheckTypes {
        match rotate(path)
        case Ok(rotatedPath) =>
          if rotatedPath != path {
            path := rotatedPath;
          }
        case Err(_) =>
      }
    }

    /** The OCR loop's body for this page: whether the page is kept. */
    method Ocr(e: Engines) returns (kept: bool)
      modifies this
      ensures kept == OcrPage(old(Data()), e).Some?
      ensures Data() == AfterOcr(old(Data()), e)
    {
      match e.crop(path)
      case Err(_) =>
        kept := false;
      case Ok(cropped) =>
        if cropped != "" {
          croppedPath := Some(cropped);
        }
        var ocrPath := OcrInputPath(Data());
        var record := e.read(ocrPath);
        ocrText := record.ocrText;
        extractedFields := record.extractedFields;
        documentType := record.documentType;
        confidence := record.confidence;
        kept := true;
    }
  }

  function NewPage(path: string, pageLabel: string): PageData
  {
    PageData(path, pageLabel, Basename(path), None, None, "", map[], "unknown", 0.0)
  }

  function DataOf(pages: seq<PageRecord>): (ds: seq<PageData>)
    reads set p | p in pages
    ensures |ds| == |pages| && forall i :: 0 <= i < |pages| ==> ds[i] == pages[i].Data()
  {
    seq(|pages|, i reads set p | p in pages requires 0 <= i < |pages| => pages[i].Data())
  }

  /** No record appears twice in the batch. */
  predicate Distinct(pages: seq<PageRecord>)
  {
    forall i, j :: 0 <= i < j < |pages| ==> pages[i] != pages[j]
  }

  function Labels(ds: seq<PageData>): (ls: seq<string>)
    ensures |ls| == |ds| && forall i :: 0 <= i < |ds| ==> ls[i] == ds[i].pageLabel
  {
    seq(|ds|, i requires 0 <= i < |ds| => ds[i].pageLabel)
  }

  function Paths(ds: seq<PageData>): (ps: seq<string>)
    ensures |ps| == |ds| && forall i :: 0 <= i < |ds| ==> ps[i] == ds[i].path
  {
    seq(|ds|, i requires 0 <= i < |ds| => ds[i].path)
  }

  // ---------------------------------------------------------------- classification

  /** The records classification creates: one per path the classifier labels, in order. */
  function Classified(paths: seq<string>, classify: string -> Result<string>): seq<PageData>
  {
    if paths == [] then []
    else
      (match classify(paths[0])
       case Ok(pageLabel) => [NewPage(paths[0], pageLabel)]
       case Err(_) => [])
      + Classified(paths[1..], classify)
  }

  /** The paths the classifier labels rather than raising on. */
  function LabelledBy(classify: string -> Result<string>): string -> bool
  {
    path => classify(path).Ok?
  }

  lemma PathsConcat(a: seq<PageData>, b: seq<PageData>)
    ensures Paths(a + b) == Paths(a) + Paths(b)
  {
  }

  /** Classification keeps, in order, exactly the paths the classifier did not raise on. */
  lemma {:induction false} ClassifiedKeepsOrder(paths: seq<string>, classify: string -> Result<string>)
    ensures Paths(Classified(paths, classify)) == Filter(paths, LabelledBy(classify))
    decreases |paths|
  {
    if paths != [] {
      ClassifiedPathsHead(paths, classify);
      FilterHead(paths, LabelledBy(classify));
      ClassifiedKeepsOrder(paths[1..], classify);
    }
  }

  lemma FilterHead(xs: seq<string>, p: string -> bool)
    requires xs != []
    ensures Filter(xs, p) == (if p(xs[0]) then [xs[0]] else []) + Filter(xs[1..], p)
  {
  }

  lemma ClassifiedPathsHead(paths: seq<string>, classify: string -> Result<string>)
    requires paths != []
    ensures Paths(Classified(paths, classify))
      == (if LabelledBy(classify)(paths[0]) then [paths[0]] else []) + Paths(Classified(paths[1..], classify))
  {
    var first := if classify(paths[0]).Ok? then [NewPage(paths[0], classify(paths[0]).value)] else [];
    var head := if LabelledBy(classify)(paths[0]) then [paths[0]] else [];
    assert Paths(first) == head by {
      if classify(paths[0]).Ok? {
        assert |Paths(first)| == 1 && Paths(first)[0] == paths[0];
      } else {
        assert |Paths(first)| == 0;
      }
    }
    assert Classified(paths, classify) == first + Classified(paths[1..], classify);
    PathsConcat(first, Classified(paths[1..], classify));
  }

  lemma {:induction false} ClassifiedConcat(a: seq<string>, b: seq<string>, classify: string -> Result<string>)
    ensures Classified(a + b, classify) == Classified(a, classify) + Classified(b, classify)
    decreases |a|
  {
    if a != [] {
      assert (a + b)[1..] == a[1..] + b;
      ClassifiedConcat(a[1..], b, classify);
    } else {
      assert a + b == b;
    }
  }

  /**
   * A record as classification creates it from `classify`: the label is the one
   * the classifier gave its path, and every other entry is at its default.
   */
  predicate CreatedBy(classify: string -> Result<string>, d: PageData)
  {
    classify(d.path) == Ok(d.pageLabel) && d == NewPage(d.path, d.pageLabel)
  }

  /** Each created record carries the label the classifier gave its path and nothing else. */
  lemma {:induction false} ClassifiedLabels(paths: seq<string>, classify: string -> Result<string>)
    ensures forall d :: d in Classified(paths, classify) ==> CreatedBy(classify, d)
    decreases |paths|
  {
    if paths != [] {
      var first := if classify(paths[0]).Ok? then [NewPage(paths[0], classify(paths[0]).value)] else [];
      var rest := Classified(paths[1..], classify);
      ClassifiedLabels(paths[1..], classify);
      assert forall d :: d in first ==> CreatedBy(classify, d);
      assert Classified(paths, classify) == first + rest;
    }
  }

  /** `classify_images`, first loop: a new record for each path the classifier labels. */
  method ClassifyPages(paths: seq<string>, classify: string -> Result<string>) returns (pages: seq<PageRecord>)
    ensures Distinct(pages) && forall p :: p in pages ==> fresh(p)
    ensures DataOf(pages) == Classified(paths, classify)
  {
    pages := [];
    for i := 0 to |paths|
      invariant Distinct(pages) && forall p :: p in pages ==> fresh(p)
      invariant DataOf(pages) == Classified(paths[..i], classify)
    {
      ClassifiedStep(paths, i, classify);
      match classify(paths[i])
      case Ok(pageLabel) =>
        var page := new PageRecord(paths[i], pageLabel);
        DataOfAppend(pages, page);
        pages := pages + [page];
      case Err(_) =>
    }
    assert paths[..|paths|] == paths;
  }

  lemma DataOfAppend(pages: seq<PageRecord>, page: PageRecord)
    ensures DataOf(pages + [page]) == DataOf(pages) + [page.Data()]
  {
  }

  /** One more path extends the classified records by that path's record, if any. */
  lemma ClassifiedStep(paths: seq<string>, i: nat, classify: string -> Result<string>)
    requires i < |paths|
    ensures Classified(paths[..i + 1], classify) == Classified(paths[..i], classify) +
      (match classify(paths[i])
       case Ok(pageLabel) => [NewPage(paths[i], pageLabel)]
       case Err(_) => [])
  {
    assert paths[..i + 1] == paths[..i] + [paths[i]];
    ClassifiedConcat(paths[..i], [paths[i]], classify);
    assert [paths[i]][1..] == [];
  }

  // ---------------------------------------------------------------- relabelling

  const ReclassifiableLabels: set<string> := {"emirates_id", "emirates_id_2", "unknown"}
  const AttestationLabels: set<string> := {"certificate_attestation", "attestation_label"}
  const AttestationLabel := "attestation_label"

  /** A certificate page is present and no attestation page is. */
  predicate NeedsRelabel(ds: seq<PageData>)
  {
    (exists d :: d in ds && d.pageLabel == "certificate") &&
    !(exists d :: d in ds && d.pageLabel in AttestationLabels)
  }

  /**
   * The batch after relabelling: when a certificate has no attestation page,
   * every Emirates ID or unknown page becomes an attestation label.
   */
  function Relabel(ds: seq<PageData>): (r: seq<PageData>)
    ensures |r| == |ds|
    ensures forall i :: 0 <= i < |ds| ==> r[i] == ds[i].(pageLabel := r[i].pageLabel)
    ensures forall i :: 0 <= i < |ds| ==>
      (r[i].pageLabel != ds[i].pageLabel <==> NeedsRelabel(ds) && ds[i].pageLabel in ReclassifiableLabels)
    ensures forall i :: 0 <= i < |ds| && r[i].pageLabel != ds[i].pageLabel ==> r[i].pageLabel == AttestationLabel
  {
    if NeedsRelabel(ds) then seq(|ds|, i requires 0 <= i < |ds| => Retargeted(ds[i])) else ds
  }

  function Retargeted(d: PageData): PageData
  {
    if d.pageLabel in ReclassifiableLabels then d.(pageLabel := AttestationLabel) else d
  }

  /** Relabelling a relabelled batch changes nothing. */
  lemma RelabelIdempotent(ds: seq<PageData>)
    ensures Relabel(Relabel(ds)) == Relabel(ds)
  {
    var r := Relabel(ds);
    if NeedsRelabel(ds) && exists i :: 0 <= i < |ds| && ds[i].pageLabel in ReclassifiableLabels {
      var i :| 0 <= i < |ds| && ds[i].pageLabel in ReclassifiableLabels;
      assert r[i] in r && r[i].pageLabel in AttestationLabels;
    } else if NeedsRelabel(ds) {
      assert r == ds;
    }
  }

  /** `classify_images`, relabelling: rewrites the labels in place; nothing else changes. */
  method ReconcileLabels(pages: seq<PageRecord>)
    requires Distinct(pages)
    modifies set p | p in pages
    ensures DataOf(pages) == Relabel(old(DataOf(pages)))
  {
    ghost var before := DataOf(pages);
    if NeedsRelabel(DataOf(pages)) {
      for i := 0 to |pages|
        invariant forall j :: 0 <= j < i ==> pages[j].Data() == Retargeted(before[j])
        invariant forall j :: i <= j < |pages| ==> pages[j].Data() == before[j]
      {
        pages[i].Retarget();
      }
    }
  }

  // ---------------------------------------------------------------- rotation

  const RotationCheckTypes: set<string> := {"passport_1", "passport_2", "personal_photo", "certificate"}

  /** The page's path after the rotation loop: the rotator's path for a whitelisted label, unless it raised. */
  function RotatedPath(d: PageData, rotate: string -> Result<string>): string
  {
    if d.pageLabel in RotationCheckTypes then
      match rotate(d.path)
      case Ok(p) => if p != d.path then p else d.path
      case Err(_) => d.path
    else d.path
  }

  /**
   * A path changes only for a whitelisted label, and only to the different
   * path the rotator returned; for any other label the rotator's answer does
   * not matter.
   */
  lemma RotationOnlyWhitelisted(d: PageData, rotate: string -> Result<string>, other: string -> Result<string>)
    ensures RotatedPath(d, rotate) != d.path ==> d.pageLabel in RotationCheckTypes && rotate(d.path) == Ok(RotatedPath(d, rotate))
    ensures d.pageLabel !in RotationCheckTypes ==> RotatedPath(d, rotate) == RotatedPath(d, other) == d.path
  {
  }

  function Rotated(ds: seq<PageData>, rotate: string -> Result<string>): (r: seq<PageData>)
    ensures |r| == |ds| && forall i :: 0 <= i < |ds| ==> r[i] == ds[i].(path := RotatedPath(ds[i], rotate))
  {
    seq(|ds|, i requires 0 <= i < |ds| => ds[i].(path := RotatedPath(ds[i], rotate)))
  }

  /** `classify_images`, rotation loop: updates whitelisted pages' paths in place. */
  method RotatePages(pages: seq<PageRecord>, rotate: string -> Result<string>)
    requires Distinct(pages)
    modifies set p | p in pages
    ensures DataOf(pages) == Rotated(old(DataOf(pages)), rotate)
  {
    ghost var before := DataOf(pages);
    for i := 0 to |pages|
      invariant forall j :: 0 <= j < i ==> pages[j].Data() == Rotated(before, rotate)[j]
      invariant forall j :: i <= j < |pages| ==> pages[j].Data() == before[j]
    {
      pages[i].Rotate(rotate);
    }
  }

  /** `classify_images`: classify, relabel, then rotate. */
  method ClassifyImages(paths: seq<string>, classify: string -> Result<string>, rotate: string -> Result<string>)
    returns (pages: seq<PageRecord>)
    ensures Distinct(pages)
    ensures DataOf(pages) == Rotated(Relabel(Classified(paths, classify)), rotate)
  {
    pages := ClassifyPages(paths, classify);
    ReconcileLabels(pages);
    RotatePages(pages, rotate);
  }

  // ---------------------------------------------------------------- OCR

  /**
   * The engines of the OCR step: the cropper (its path, or the error it
   * raised) and the reader that turns an image path into an OCR record.
   */
  datatype Engines = Engines(
    crop: string -> Result<string>,
    read: string -> OcrRecord)

  /**
   * The engines `perform_ocr` runs: the given cropper, and `run_enhanced_ocr`
   * over the given Document AI processor and field extractors as the reader.
   */
  function PipelineEngines(crop: string -> Result<string>, documentAiEnabled: bool,
                           documentAi: string -> ProcessOutcome, extractors: Extractors): Engines
  {
    Engines(crop, p => RunEnhancedOcr(documentAiEnabled, documentAi(p), extractors))
  }

  /** Python's `a or b` on optional strings: a missing or empty value is false. */
  predicate Truthy(s: Option<string>)
  {
    s.Some? && s.value != ""
  }

  /** The image OCR reads: the cropped path if set, else the full-page path if set, else the page's path. */
  function OcrInputPath(d: PageData): (p: string)
    ensures Truthy(d.croppedPath) ==> p == d.croppedPath.value
    ensures !Truthy(d.croppedPath) && Truthy(d.fullPagePath) ==> p == d.fullPagePath.value
    ensures !Truthy(d.croppedPath) && !Truthy(d.fullPagePath) ==> p == d.path
  {
    if Truthy(d.croppedPath) then d.croppedPath.value
    else if Truthy(d.fullPagePath) then d.fullPagePath.value
    else d.path
  }

  /** One page through `perform_ocr`: None when cropping raised, else the updated page. */
  function OcrPage(d: PageData, e: Engines): Option<PageData>
  {
    match e.crop(d.path)
    case Err(_) => None
    case Ok(c) =>
      var cropped := if c != "" then d.(croppedPath := Some(c)) else d;
      var r := e.read(OcrInputPath(cropped));
      Some(cropped.(ocrText := r.ocrText, extractedFields := r.extractedFields,
                    documentType := r.documentType, confidence := r.confidence))
  }

  /**
   * A page that was cropped is read from its crop, and its OCR entries are
   * the Document AI record of that image; its path, label and file name stay.
   */
  lemma OcrReadsCrop(d: PageData, crop: string -> Result<string>, documentAiEnabled: bool,
                     documentAi: string -> ProcessOutcome, extractors: Extractors)
    requires crop(d.path).Ok? && crop(d.path).value != ""
    ensures OcrPage(d, PipelineEngines(crop, documentAiEnabled, documentAi, extractors)).Some?
    ensures var n := OcrPage(d, PipelineEngines(crop, documentAiEnabled, documentAi, extractors)).value;
      var r := RunEnhancedOcr(documentAiEnabled, documentAi(crop(d.path).value), extractors);
      && n.croppedPath == Some(crop(d.path).value)
      && n.ocrText == r.ocrText && n.extractedFields == r.extractedFields
      && n.documentType == r.documentType && n.confidence == r.confidence
      && n.path == d.path && n.pageLabel == d.pageLabel && n.filename == d.filename
  {
  }

  function AfterOcr(d: PageData, e: Engines): PageData
  {
    match OcrPage(d, e)
    case Some(n) => n
    case None => d
  }

  /** The elements of `xs` whose flag is set, in order. */
  function Select<T>(xs: seq<T>, keep: seq<bool>): (r: seq<T>)
    requires |keep| == |xs|
    ensures |r| <= |xs|
    ensures forall x :: x in r ==> x in xs
  {
    if xs == [] then []
    else
      var n := |xs| - 1;
      Select(xs[..n], keep[..n]) + (if keep[n] then [xs[n]] else [])
  }

  function Survivors(ds: seq<PageData>, e: Engines): (keep: seq<bool>)
    ensures |keep| == |ds| && forall i :: 0 <= i < |ds| ==> keep[i] == OcrPage(ds[i], e).Some?
  {
    seq(|ds|, i requires 0 <= i < |ds| => OcrPage(ds[i], e).Some?)
  }

  /**
   * `perform_ocr`: updates every page whose crop succeeded and returns those
   * pages, in order; a page whose crop raised is left as it was and dropped.
   */
  method PerformOcr(pages: seq<PageRecord>, e: Engines) returns (processed: seq<PageRecord>)
    requires Distinct(pages)
    modifies set p | p in pages
    ensures processed == Select(pages, Survivors(old(DataOf(pages)), e))
    ensures forall i :: 0 <= i < |pages| ==> pages[i].Data() == AfterOcr(old(pages[i].Data()), e)
  {
    ghost var before := DataOf(pages);
    processed := [];
    for i := 0 to |pages|
      invariant processed == Select(pages[..i], Survivors(before, e)[..i])
      invariant forall j :: 0 <= j < i ==> pages[j].Data() == AfterOcr(before[j], e)
      invariant forall j :: i <= j < |pages| ==> pages[j].Data() == before[j]
    {
      SelectStep(pages, Survivors(before, e), i);
      var kept := pages[i].Ocr(e);
      if kept {
        processed := processed + [pages[i]];
      }
    }
    assert pages[..|pages|] == pages;
    assert Survivors(before, e)[..|pages|] == Survivors(before, e);
  }

  lemma SelectStep<T>(xs: seq<T>, keep: seq<bool>, i: nat)
    requires |keep| == |xs| && i < |xs|
    ensures Select(xs[..i + 1], keep[..i + 1]) == Select(xs[..i], keep[..i]) + (if keep[i] then [xs[i]] else [])
  {
    assert xs[..i + 1][..i] == xs[..i];
    assert keep[..i + 1][..i] == keep[..i];
  }

  /** In a batch of distinct records, a record is kept exactly when its flag is set. */
  lemma {:induction false} SelectMembers<T>(xs: seq<T>, keep: seq<bool>, x: T)
    requires |keep| == |xs|
    requires forall i, j :: 0 <= i < j < |xs| ==> xs[i] != xs[j]
    ensures x in Select(xs, keep) <==> exists i :: 0 <= i < |xs| && xs[i] == x && keep[i]
    decreases |xs|
  {
    if xs != [] {
      var n := |xs| - 1;
      SelectMembers(xs[..n], keep[..n], x);
      if x in Select(xs, keep) && x !in Select(xs[..n], keep[..n]) {
        assert x == xs[n] && keep[n];
      }
    }
  }

  // ---------------------------------------------------------------- Gemini slots

  /** The per-document texts `gemini_structuring` hands to Gemini. */
  datatype Slot = Passport1 | Passport2 | EmiratesId1 | EmiratesId2 | EmployeeInfo | CertificateSlot

  /** The key of `google_metadata` a slot's fields go under. */
  function MetadataKey(s: Slot): string
  {
    match s
    case Passport1 => "passport_1_fields"
    case Passport2 => "passport_2_fields"
    case EmiratesId1 => "emirates_id_fields"
    case EmiratesId2 => "emirates_id_2_fields"
    case EmployeeInfo => "employee_info_fields"
    case CertificateSlot => "certificate_fields"
  }

  /**
   * The slot a page writes: its own label's slot; certificate and attestation
   * pages share one, and an attestation page writes it only when its text is
   * non-empty.
   */
  function SlotOf(d: PageData): Option<Slot>
  {
    if d.pageLabel == "passport_1" then Some(Passport1)
    else if d.pageLabel == "passport_2" then Some(Passport2)
    else if d.pageLabel == "emirates_id" then Some(EmiratesId1)
    else if d.pageLabel == "emirates_id_2" then Some(EmiratesId2)
    else if d.pageLabel == "employee_info_form" then Some(EmployeeInfo)
    else if d.pageLabel == "certificate" then Some(CertificateSlot)
    else if d.pageLabel in AttestationLabels && d.ocrText != "" then Some(CertificateSlot)
    else None
  }

  datatype Slots = Slots(
    passport1: string, passport2: string, emiratesId: string, emiratesId2: string,
    employeeInfo: string, certificate: string, metadata: map<string, Fields>)
  {
    function Text(s: Slot): string
    {
      match s
      case Passport1 => passport1
      case Passport2 => passport2
      case EmiratesId1 => emiratesId
      case EmiratesId2 => emiratesId2
      case EmployeeInfo => employeeInfo
      case CertificateSlot => certificate
    }

    function WithText(s: Slot, t: string): (r: Slots)
      ensures r.Text(s) == t && r.metadata == metadata
      ensures forall o :: o != s ==> r.Text(o) == Text(o)
    {
      match s
      case Passport1 => this.(passport1 := t)
      case Passport2 => this.(passport2 := t)
      case EmiratesId1 => this.(emiratesId := t)
      case EmiratesId2 => this.(emiratesId2 := t)
      case EmployeeInfo => this.(employeeInfo := t)
      case CertificateSlot => this.(certificate := t)
    }
  }

  const EmptySlots := Slots("", "", "", "", "", "", map[])

  /** One page of the slot loop: its text into its slot, and its fields into the metadata when there are any. */
  function Fill(st: Slots, d: PageData): Slots
  {
    match SlotOf(d)
    case None => st
    case Some(s) =>
      var written := st.WithText(s, d.ocrText);
      if d.extractedFields != map[] then written.(metadata := written.metadata[MetadataKey(s) := d.extractedFields])
      else written
  }

  /** The slots after the loop has seen every page of `ds`. */
  function SlotsAfter(ds: seq<PageData>): Slots
  {
    if ds == [] then EmptySlots else Fill(SlotsAfter(ds[..|ds| - 1]), ds[|ds| - 1])
  }

  /** The last page that writes slot `s`. */
  function LastWriter(ds: seq<PageData>, s: Slot): (r: Option<nat>)
    ensures r.Some? ==>
      && r.value < |ds| && SlotOf(ds[r.value]) == Some(s)
      && forall j :: r.value < j < |ds| ==> SlotOf(ds[j]) != Some(s)
    ensures r.None? ==> forall j :: 0 <= j < |ds| ==> SlotOf(ds[j]) != Some(s)
  {
    if ds == [] then None
    else if SlotOf(ds[|ds| - 1]) == Some(s) then Some(|ds| - 1)
    else
      var init := ds[..|ds| - 1];
      assert forall j :: 0 <= j < |init| ==> init[j] == ds[j];
      LastWriter(init, s)
  }

  /** The last page that writes slot `s` and has extracted fields. */
  function LastFieldsWriter(ds: seq<PageData>, s: Slot): (r: Option<nat>)
    ensures r.Some? ==>
      && r.value < |ds| && SlotOf(ds[r.value]) == Some(s) && ds[r.value].extractedFields != map[]
      && forall j :: r.value < j < |ds| ==> !(SlotOf(ds[j]) == Some(s) && ds[j].extractedFields != map[])
    ensures r.None? ==> forall j :: 0 <= j < |ds| ==> !(SlotOf(ds[j]) == Some(s) && ds[j].extractedFields != map[])
  {
    if ds == [] then None
    else if SlotOf(ds[|ds| - 1]) == Some(s) && ds[|ds| - 1].extractedFields != map[] then Some(|ds| - 1)
    else
      var init := ds[..|ds| - 1];
      assert forall j :: 0 <= j < |init| ==> init[j] == ds[j];
      LastFieldsWriter(init, s)
  }

  /** Last writer wins: each slot holds the text of the last page writing it, or "" when none does. */
  lemma {:induction false} LastWriterWins(ds: seq<PageData>, s: Slot)
    ensures SlotsAfter(ds).Text(s) == match LastWriter(ds, s) case Some(i) => ds[i].ocrText case None => ""
    decreases |ds|
  {
    if ds != [] {
      var n := |ds| - 1;
      LastWriterWins(ds[..n], s);
      if SlotOf(ds[n]) != Some(s) {
        assert LastWriter(ds, s) == LastWriter(ds[..n], s);
      }
    }
  }

  lemma MetadataKeyInjective(s: Slot, o: Slot)
    ensures MetadataKey(s) == MetadataKey(o) ==> s == o
  {
  }

  /**
   * A slot's metadata entry holds the fields of the last page that writes the
   * slot with non-empty fields, and is absent when there is no such page; no
   * other key is ever written.
   */
  lemma {:induction false} MetadataFromLastWriter(ds: seq<PageData>, s: Slot)
    ensures MetadataKey(s) in SlotsAfter(ds).metadata <==> LastFieldsWriter(ds, s).Some?
    ensures LastFieldsWriter(ds, s).Some? ==>
      SlotsAfter(ds).metadata[MetadataKey(s)] == ds[LastFieldsWriter(ds, s).value].extractedFields
    ensures forall k :: k in SlotsAfter(ds).metadata ==> exists o :: k == MetadataKey(o)
    decreases |ds|
  {
    if ds != [] {
      var n := |ds| - 1;
      MetadataFromLastWriter(ds[..n], s);
      match SlotOf(ds[n])
      case None =>
      case Some(o) =>
        MetadataKeyInjective(s, o);
        if !(o == s && ds[n].extractedFields != map[]) {
          assert LastFieldsWriter(ds, s) == LastFieldsWriter(ds[..n], s);
        }
    }
  }

  /** `gemini_structuring`, slot loop. */
  method FillSlots(pages: seq<PageRecord>) returns (slots: Slots)
    ensures slots == SlotsAfter(DataOf(pages))
  {
    slots := EmptySlots;
    for i := 0 to |pages|
      invariant slots == SlotsAfter(DataOf(pages)[..i])
    {
      assert DataOf(pages)[..i + 1][..i] == DataOf(pages)[..i];
      var page := pages[i].Data();
      match SlotOf(page)
      case None =>
      case Some(s) =>
        slots := slots.WithText(s, page.ocrText);
        if page.extractedFields != map[] {
          slots := slots.(metadata := slots.metadata[MetadataKey(s) := page.extractedFields]);
        }
    }
    assert DataOf(pages)[..|pages|] == DataOf(pages);
  }

  // ---------------------------------------------------------------- the final record

  /**
   * What `structure_with_gemini` returns: the structured record (None when it
   * is not a dictionary) and, when it returns a pair, Gemini's raw response.
   */
  datatype GeminiReply = GeminiReply(structured: Option<Fields>, response: Option<string>)

  const RequestedServiceKey := "Requested Service"
  const ServiceNeededKey := "Service Needed"

  /**
   * The record `gemini_structuring` returns: Gemini's record with the
   * requested service and the service needed written into it, and the raw
   * response or "". Writing into anything but a dictionary raises.
   */
  function FinalRecord(reply: GeminiReply, requestedService: string, serviceNeeded: string): (r: Result<(Fields, string)>)
    ensures r.Ok? <==> reply.structured.Some?
    ensures r.Ok? ==>
      && r.value.0.Keys == reply.structured.value.Keys + {RequestedServiceKey, ServiceNeededKey}
      && r.value.0[ServiceNeededKey] == serviceNeeded
      && r.value.0[RequestedServiceKey] == requestedService
      && (forall k :: k in reply.structured.value && k !in {RequestedServiceKey, ServiceNeededKey} ==>
            r.value.0[k] == reply.structured.value[k])
      && r.value.1 == reply.response.GetOr("")
  {
    match reply.structured
    case None => Err("object does not support item assignment")
    case Some(record) =>
      Ok((record[RequestedServiceKey := requestedService][ServiceNeededKey := serviceNeeded], reply.response.GetOr("")))
  }

  /** `", ".join` of the page labels, in order. */
  function LabelList(ds: seq<PageData>): string
  {
    Join(", ", Labels(ds))
  }

  /** `gemini_structuring`: fill the slots, ask Gemini, and write the services into its record. */
  method GeminiStructuring(pages: seq<PageRecord>, structure: (Slots, string) -> GeminiReply,
                           requestedService: string, serviceNeeded: string)
    returns (r: Result<(Fields, string)>)
    ensures r == FinalRecord(structure(SlotsAfter(DataOf(pages)), LabelList(DataOf(pages))), requestedService, serviceNeeded)
  {
    var slots := FillSlots(pages);
    var reply := structure(slots, LabelList(DataOf(pages)));
    r := FinalRecord(reply, requestedService, serviceNeeded);
  }

  // ---------------------------------------------------------------- artifact names

  const FullNameKey := "Full Name"

  function FullName(record: Fields): string
  {
    if FullNameKey in record then record[FullNameKey] else ""
  }

  /**
   * The name the saved files start with: the first word of the full name, or
   * "Unknown" when there is none; a name of only whitespace has no first word
   * and raises.
   */
  function DisplayName(record: Fields): (r: Result<string>)
  {
    var name := FullName(record);
    if name == "" then Ok("Unknown")
    else
      var words := Split(name);
      if words == [] then Err("list index out of range") else Ok(words[0])
  }

  /**
   * The display name is "Unknown" exactly for a missing or empty name, fails
   * exactly for a non-empty name of whitespace only, and is otherwise a
   * non-empty run of non-whitespace characters.
   */
  lemma DisplayNameFacts(record: Fields)
    ensures DisplayName(record).Err? <==>
      FullName(record) != "" && forall i :: 0 <= i < |FullName(record)| ==> IsSpace(FullName(record)[i])
    ensures FullName(record) == "" ==> DisplayName(record) == Ok("Unknown")
    ensures DisplayName(record).Ok? && FullName(record) != "" ==>
      var n := DisplayName(record).value;
      n != "" && forall i :: 0 <= i < |n| ==> !IsSpace(n[i])
  {
    TokensEmpty(FullName(record), NotSpace);
    TokensAreRuns(FullName(record), NotSpace);
  }

  function DetailsFileName(name: string): string
  {
    name + "_COMPLETE_DETAILS.txt"
  }

  function ArtifactBase(name: string, pageLabel: string): string
  {
    name + "_" + pageLabel
  }

  /**
   * Pages with different labels get different artifact names, and no page's
   * image is saved under the details file's name.
   */
  lemma ArtifactNamesDistinct(name: string, a: string, b: string)
    ensures ArtifactBase(name, a) == ArtifactBase(name, b) ==> a == b
    ensures DetailsFileName(name) != ArtifactBase(name, a) + ".jpg"
  {
    if ArtifactBase(name, a) == ArtifactBase(name, b) {
      assert a == ArtifactBase(name, a)[|name| + 1..];
    }
    var d := DetailsFileName(name);
    var j := ArtifactBase(name, a) + ".jpg";
    assert d[|d| - 1] == 't' && j[|j| - 1] == 'g';
  }

  // ---------------------------------------------------------------- the e-mail body

  /** `"".join(lines)`. */
  function Concat(lines: seq<string>): string
  {
    if lines == [] then "" else lines[0] + Concat(lines[1..])
  }

  const SenderPrefix := "sender:"

  /** The sender address and the body text read from the saved e-mail body, given its lines. */
  datatype EmailHeader = EmailHeader(senderEmail: string, emailText: string)

  predicate IsSenderLine(line: string)
  {
    SenderPrefix <= Lower(Strip(line))
  }

  /**
   * A first line starting with "sender:" in any case gives the sender, the
   * stripped text after its colon, and is left out of the body; otherwise
   * the body is every line.
   */
  function ParseEmailBody(lines: seq<string>): EmailHeader
  {
    if lines == [] then EmailHeader("", "")
    else
      var first := Strip(lines[0]);
      if IsSenderLine(lines[0]) then EmailHeader(Strip(first[|SenderPrefix|..]), Concat(lines[1..]))
      else EmailHeader("", Concat(lines))
  }

  predicate NotColon(c: char) { c != ':' }

  /**
   * On a sender line the first colon is the one ending "sender:", so the text
   * after the prefix is what `split(":", 1)[1]` gives.
   */
  lemma SenderIsAfterFirstColon(line: string)
    requires IsSenderLine(line)
    ensures var first := Strip(line);
      PrefixRun(first, NotColon) == |SenderPrefix| - 1 && first[|SenderPrefix|..] == first[PrefixRun(first, NotColon) + 1..]
  {
    var first := Strip(line);
    assert forall i :: 0 <= i < |SenderPrefix| ==> LowerChar(first[i]) == SenderPrefix[i];
    PrefixRunUpTo(first, NotColon, |SenderPrefix| - 1);
  }

  lemma PrefixRunUpTo(s: string, p: char -> bool, n: nat)
    requires n < |s| && !p(s[n]) && forall i :: 0 <= i < n ==> p(s[i])
    ensures PrefixRun(s, p) == n
    decreases n
  {
    if n > 0 {
      PrefixRunUpTo(s[1..], p, n - 1);
    }
  }

  /**
   * Nothing of the file is lost but the sender line: the whole text is the
   * dropped line followed by the body, and the line is dropped exactly when
   * it names a sender.
   */
  lemma ParseEmailBodyKeepsText(lines: seq<string>)
    ensures var h := ParseEmailBody(lines);
      Concat(lines) == (if lines != [] && IsSenderLine(lines[0]) then lines[0] else "") + h.emailText
    ensures var h := ParseEmailBody(lines);
      h.senderEmail == "" || (lines != [] && IsSenderLine(lines[0]))
  {
  }

  // ---------------------------------------------------------------- service needed

  const ServiceNeededLabel := "service needed"

  /** "service needed" in any case, then ':' or '-', starting at `i`. */
  predicate ServiceLabelAt(text: string, i: nat)
  {
    i + |ServiceNeededLabel| + 1 <= |text|
    && Lower(text[i..i + |ServiceNeededLabel|]) == ServiceNeededLabel
    && text[i + |ServiceNeededLabel|] in {':', '-'}
  }

  predicate NotNewline(c: char) { c != '\n' }

  /**
   * `(?i)service needed[:\-]\s*(.+)` matched at `i`, the group stripped. The
   * whitespace run is taken whole when a character follows it (which is not a
   * line break, so `.+` matches the rest of that line); when the whitespace
   * runs to the end, the match can only give back whitespace to `.+`, so the
   * group is whitespace, stripped to "", and there is no match if all of it
   * is line breaks.
   */
  function ServiceAt(text: string, i: nat): (r: Option<string>)
    requires i <= |text|
  {
    if !ServiceLabelAt(text, i) then None
    else
      var j := i + |ServiceNeededLabel| + 1;
      var k := SkipSpaces(text, j);
      if k < |text| then Some(Strip(LineAt(text, k)))
      else if SomeNotNewline(text[j..k]) then Some("")
      else None
  }

  /** The position after the whitespace run that starts at `j`. */
  function SkipSpaces(text: string, j: nat): (k: nat)
    requires j <= |text|
    ensures j <= k <= |text|
  {
    j + PrefixRun(text[j..], IsSpace)
  }

  /** The rest of the line that starts at `k`. */
  function LineAt(text: string, k: nat): (line: string)
    requires k <= |text|
  {
    text[k..][..PrefixRun(text[k..], NotNewline)]
  }

  /** The given-back whitespace holds something other than a line break. */
  predicate SomeNotNewline(s: string)
  {
    exists m :: 0 <= m < |s| && s[m] != '\n'
  }

  /** `re.search`: the first position where the pattern matches. */
  function FindService(text: string, i: nat): Option<string>
    requires i <= |text|
    decreases |text| - i
  {
    match ServiceAt(text, i)
    case Some(v) => Some(v)
    case None => if i < |text| then FindService(text, i + 1) else None
  }

  /** The service needed, or "N/A" when the e-mail does not name one. */
  function ServiceNeeded(emailText: string): string
  {
    FindService(emailText, 0).GetOr("N/A")
  }

  predicate OneTrimmedLine(v: string)
  {
    (v == [] || (!IsSpace(v[0]) && !IsSpace(v[|v| - 1]))) && forall c :: c in v ==> c != '\n'
  }

  /** A named service is one line of text with no surrounding whitespace. */
  lemma {:induction false} FoundServiceShape(text: string, i: nat)
    requires i <= |text|
    ensures FindService(text, i).Some? ==> OneTrimmedLine(FindService(text, i).value)
    decreases |text| - i
  {
    if ServiceAt(text, i).Some? {
      ServiceAtShape(text, i);
    } else if i < |text| {
      FoundServiceShape(text, i + 1);
    }
  }

  lemma ServiceAtShape(text: string, i: nat)
    requires i <= |text| && ServiceAt(text, i).Some?
    ensures OneTrimmedLine(ServiceAt(text, i).value)
  {
    var k := SkipSpaces(text, i + |ServiceNeededLabel| + 1);
    if k < |text| {
      LineHasNoBreak(text, k);
      StrippedLineShape(LineAt(text, k));
    }
  }

  lemma LineHasNoBreak(text: string, k: nat)
    requires k <= |text|
    ensures forall c :: c in LineAt(text, k) ==> c != '\n'
  {
    var s := text[k..];
    var n := PrefixRun(s, NotNewline);
    assert forall m :: 0 <= m < n ==> s[..n][m] == s[m];
  }

  lemma StrippedLineShape(line: string)
    requires forall c :: c in line ==> c != '\n'
    ensures OneTrimmedLine(Strip(line))
  {
    StripIsInfix(line);
  }

  /** Stripping keeps a contiguous part of the text. */
  lemma StripIsInfix(s: string)
    ensures forall c :: c in Strip(s) ==> c in s
  {
    var l := LStrip(s);
    assert forall c :: c in RStrip(l) ==> c in l;
    assert forall c :: c in l ==> c in s;
  }

  /**
   * The first label decides: the service is the rest of the line after the
   * whitespace that follows the label, stripped; "" when only whitespace
   * follows the label and some of it is not a line break; and "N/A" when
   * nothing but line breaks follows it.
   */
  lemma ServiceNeededAtFirstLabel(t: string, i: nat)
    requires i <= |t| && ServiceLabelAt(t, i)
    requires forall p :: 0 <= p < i ==> !ServiceLabelAt(t, p)
    ensures var j := i + |ServiceNeededLabel| + 1;
      var k := SkipSpaces(t, j);
      ServiceNeeded(t) == if k < |t| then Strip(LineAt(t, k))
                          else if SomeNotNewline(t[j..]) then "" else "N/A"
  {
    FindSkipsNonLabels(t, 0, i);
    var j := i + |ServiceNeededLabel| + 1;
    var k := SkipSpaces(t, j);
    if k == |t| {
      assert t[j..k] == t[j..];
      if !SomeNotNewline(t[j..]) {
        NoLabelAfter(t, i);
        FindWithoutLabel(t, i + 1);
      }
    }
  }

  /** An e-mail without the label names no service. */
  lemma ServiceNeededWithoutLabel(t: string)
    requires forall p :: 0 <= p <= |t| ==> !ServiceLabelAt(t, p)
    ensures ServiceNeeded(t) == "N/A"
  {
    FindWithoutLabel(t, 0);
  }

  lemma {:induction false} FindSkipsNonLabels(t: string, i0: nat, i: nat)
    requires i0 <= i <= |t|
    requires forall p :: i0 <= p < i ==> !ServiceLabelAt(t, p)
    ensures FindService(t, i0) == FindService(t, i)
    decreases i - i0
  {
    if i0 < i {
      FindSkipsNonLabels(t, i0 + 1, i);
    }
  }

  lemma {:induction false} FindWithoutLabel(t: string, i: nat)
    requires i <= |t|
    requires forall p :: i <= p <= |t| ==> !ServiceLabelAt(t, p)
    ensures FindService(t, i) == None
    decreases |t| - i
  {
    if i < |t| {
      FindWithoutLabel(t, i + 1);
    }
  }

  /** No label starts inside a label, nor in the whitespace that runs from it to the end. */
  lemma NoLabelAfter(t: string, i: nat)
    requires ServiceLabelAt(t, i)
    requires SkipSpaces(t, i + |ServiceNeededLabel| + 1) == |t|
    ensures forall p :: i < p <= |t| ==> !ServiceLabelAt(t, p)
  {
    var n := |ServiceNeededLabel|;
    var j := i + n + 1;
    LabelLetters();
    forall p | i < p <= |t|
      ensures !ServiceLabelAt(t, p)
    {
      LabelStartsWithS(t, p);
      if p < i + n {
        assert LowerChar(t[p]) == Lower(t[i..i + n])[p - i];
      } else if j <= p < |t| {
        assert t[p] == t[j..][p - j];
      }
    }
  }

  lemma LabelStartsWithS(t: string, p: nat)
    ensures ServiceLabelAt(t, p) ==> p < |t| && LowerChar(t[p]) == 's'
  {
    if ServiceLabelAt(t, p) {
      assert Lower(t[p..p + |ServiceNeededLabel|])[0] == ServiceNeededLabel[0];
    }
  }

  lemma LabelLetters()
    ensures |ServiceNeededLabel| == 14 && ServiceNeededLabel[0] == 's'
    ensures forall m :: 1 <= m < |ServiceNeededLabel| ==> ServiceNeededLabel[m] != 's'
  {
  }

  /** A label at the very end with only a space after it names the empty service, not "N/A". */
  lemma TrailingLabelNamesEmptyService()
    ensures ServiceNeeded("Service Needed: ") == ""
  {
    var t := "Service Needed: ";
    TrailingRequestPieces(t);
    LabelAtStart(t);
    SpaceRun();
    assert SkipSpaces(t, 15) == 16;
    assert SomeNotNewline(t[15..16]);
  }

  lemma TrailingRequestPieces(t: string)
    requires t == "Service Needed: "
    ensures |t| == 16 && Lower(t[..14]) == ServiceNeededLabel && t[14] == ':' && t[15..] == " " && t[15] == ' '
  {
    assert t[..14] == "Service Needed";
    assert Lower("Service Needed") == ServiceNeededLabel;
  }

  lemma SpaceRun()
    ensures PrefixRun(" ", IsSpace) == 1
  {
  }

  /** The service on the label's line is read up to the line break. */
  lemma ServiceReadToLineEnd()
    ensures ServiceNeeded("Service needed- Visa\nThanks") == "Visa"
  {
    var t := "Service needed- Visa\nThanks";
    VisaRequestPieces(t);
    LabelAtStart(t);
    VisaSpaces(t[15..]);
    assert SkipSpaces(t, 15) == 16;
    VisaLine(t[16..]);
    assert LineAt(t, 16) == "Visa";
    VisaStripped("Visa");
  }

  lemma VisaRequestPieces(t: string)
    requires t == "Service needed- Visa\nThanks"
    ensures |t| == 27 && Lower(t[..14]) == ServiceNeededLabel && t[14] == '-'
    ensures t[15..] == " Visa\nThanks" && t[16..] == "Visa\nThanks"
  {
    assert t[..14] == "Service needed";
    assert Lower("Service needed") == ServiceNeededLabel;
  }

  lemma VisaSpaces(s: string)
    requires s == " Visa\nThanks"
    ensures PrefixRun(s, IsSpace) == 1
  {
    assert IsSpace(s[0]) && !IsSpace(s[1]);
    PrefixRunUpTo(s, IsSpace, 1);
  }

  lemma VisaLine(s: string)
    requires s == "Visa\nThanks"
    ensures s[..PrefixRun(s, NotNewline)] == "Visa"
  {
    PrefixRunUpTo(s, NotNewline, 4);
  }

  lemma VisaStripped(s: string)
    requires s == "Visa"
    ensures Strip(s) == s
  {
    StripTrimmed(s);
  }

  lemma LabelAtStart(t: string)
    requires |t| >= 15 && Lower(t[..14]) == ServiceNeededLabel && t[14] in {':', '-'}
    ensures ServiceLabelAt(t, 0)
  {
    assert t[0..14] == t[..14];
  }

  // ---------------------------------------------------------------- sender name

  predicate LocalChar(c: char) { IsAlpha(c) || c == '.' || c == '_' }

  predicate DomainChar(c: char) { IsAlpha(c) || IsAsciiDigit(c) || c == '.' || c == '-' }

  predicate NameSeparator(c: char) { c == '.' || c == '_' }

  /**
   * `^[A-Za-z._]+@[A-Za-z0-9.-]+$` on a stripped address: letters, dots and
   * underscores, one '@', then letters, digits, dots and dashes.
   */
  predicate IsSimpleAddress(address: string)
  {
    var n := PrefixRun(address, LocalChar);
    0 < n < |address| - 1 && address[n] == '@' && forall i :: n < i < |address| ==> DomainChar(address[i])
  }

  /** The part before the first '@'. */
  function LocalPart(address: string): string
  {
    address[..PrefixRun(address, c => c != '@')]
  }

  function CapitalizeAll(parts: seq<string>): (r: seq<string>)
    ensures |r| == |parts| && forall i :: 0 <= i < |parts| ==> r[i] == Capitalize(parts[i])
  {
    seq(|parts|, i requires 0 <= i < |parts| => Capitalize(parts[i]))
  }

  /**
   * The sender's name: for a simple address whose local part splits at dots
   * and underscores into alphabetic pieces, the pieces capitalised and joined
   * by spaces; otherwise "".
   */
  function SenderName(address: string): string
  {
    if address != "" && IsSimpleAddress(address) then
      var parts := SplitOn(LocalPart(address), NameSeparator);
      if forall i :: 0 <= i < |parts| ==> AllAlpha(parts[i]) then Join(" ", CapitalizeAll(parts)) else ""
    else ""
  }

  function SeparatorsToSpaces(s: string): (r: string)
    ensures |r| == |s|
  {
    seq(|s|, i requires 0 <= i < |s| => if NameSeparator(s[i]) then ' ' else s[i])
  }

  /** A name, lowered, spells the address's local part with its dots and underscores read as spaces. */
  lemma SenderNameSpellsLocalPart(address: string)
    requires SenderName(address) != ""
    ensures Lower(SenderName(address)) == Lower(SeparatorsToSpaces(LocalPart(address)))
  {
    var parts := SplitOn(LocalPart(address), NameSeparator);
    LowerJoinCapitalized(parts);
    JoinSplitOn(LocalPart(address));
  }

  lemma {:induction false} LowerJoinCapitalized(parts: seq<string>)
    ensures Lower(Join(" ", CapitalizeAll(parts))) == Lower(Join(" ", parts))
    decreases |parts|
  {
    if |parts| == 1 {
      LowerCapitalize(parts[0]);
    } else if |parts| > 1 {
      LowerJoinCapitalized(parts[1..]);
      assert CapitalizeAll(parts)[1..] == CapitalizeAll(parts[1..]);
      LowerCapitalize(parts[0]);
      LowerConcat(Capitalize(parts[0]) + " ", Join(" ", CapitalizeAll(parts[1..])));
      LowerConcat(Capitalize(parts[0]), " ");
      LowerConcat(parts[0] + " ", Join(" ", parts[1..]));
      LowerConcat(parts[0], " ");
    }
  }

  lemma LowerCapitalize(s: string)
    ensures Lower(Capitalize(s)) == Lower(s)
  {
  }

  lemma {:induction false} JoinSplitOn(s: string)
    ensures Join(" ", SplitOn(s, NameSeparator)) == SeparatorsToSpaces(s)
    decreases |s|
  {
    var pieces := SplitOn(s, NameSeparator);
    SplitOnFirst(s, NameSeparator);
    if |pieces| > 1 {
      var n := |pieces[0]|;
      JoinSplitOn(s[n + 1..]);
      JoinSplitOnStep(s, n, SplitOn(s[n + 1..], NameSeparator));
    } else {
      SeparatorsToSpacesNone(s);
    }
  }

  lemma JoinSplitOnStep(s: string, n: nat, rest: seq<string>)
    requires n < |s| && NameSeparator(s[n]) && forall i :: 0 <= i < n ==> !NameSeparator(s[i])
    requires rest != [] && Join(" ", rest) == SeparatorsToSpaces(s[n + 1..])
    ensures Join(" ", [s[..n]] + rest) == SeparatorsToSpaces(s)
  {
    JoinCons(" ", s[..n], rest);
    SeparatorsToSpacesAt(s, n);
  }

  lemma SeparatorsToSpacesNone(s: string)
    requires forall i :: 0 <= i < |s| ==> !NameSeparator(s[i])
    ensures SeparatorsToSpaces(s) == s
  {
  }

  lemma SeparatorsToSpacesAt(s: string, n: nat)
    requires n < |s| && NameSeparator(s[n]) && forall i :: 0 <= i < n ==> !NameSeparator(s[i])
    ensures SeparatorsToSpaces(s) == s[..n] + " " + SeparatorsToSpaces(s[n + 1..])
  {
    var t := SeparatorsToSpaces(s[n + 1..]);
    forall i | 0 <= i < |s|
      ensures SeparatorsToSpaces(s)[i] == (s[..n] + " " + t)[i]
    {
      if i > n {
        assert t[i - n - 1] == SeparatorsToSpaces(s)[i];
      }
    }
  }
}
