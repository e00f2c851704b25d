# MOHRE_AI document intake — a Dafny model

MOHRE_AI turns an applicant's e-mail into one structured record. It pulls
unseen messages from an IMAP inbox into one folder per subject and classifies
every page image (passport, Emirates ID, certificate, attestation label, ...).
It reconciles a missing attestation page, straightens rotated pages, crops the
document and runs OCR (Document AI, with a Google Vision path beside it). It
then extracts and validates the attestation and certificate numbers, detects
the requested MOHRE service and merges everything into one record for the
Gemini structuring step.

This project models the decision logic of that pipeline. It has one Dafny
module per core source file:

- `Attestation`: Arabic-Indic digit normalisation, cleaning and validation of the two attestation numbers, and candidate numbers found in OCR text.
- `DocumentAi`: document-type detection, the certificate number patterns with their Emirates ID exclusions and barcode fallback, Emirates ID fields, layout text slicing and the Document AI versus Vision comparison.
- `Pipeline`: the orchestration in `main_pipeline.py`. Page records are objects whose label and path change in place. The module covers classification, attestation reconciliation, rotation, OCR, slot filling for Gemini, output naming and e-mail body parsing.
- `ServiceDetector`: the scraped service list, the keyword matcher and the service-selection order.
- `GoogleRotation` and `SimpleOrientation`: the two orientation correctors.
- `YoloCrop`: the crop, the OCR record and the Vision pass with its temporary files.
- `EmailParser`: folder names, IMAP search criteria and the fallback search, the per-message visit, and the cleanup of old download folders.

The supporting modules are:

- `Wrappers`: `Option` and `Result`.
- `Text`: the Python string built-ins the source uses, such as `lower`, `strip`, `split`, `join`, `in`, `replace`, `\w+` tokens, `os.path.splitext`, `os.path.basename` and `str(int)`.
- `Patterns`: the fixed-shape regular expressions, written as greedy scanners.
- `Files`: a set of existing file paths.

External engines are parameters of the operations that call them. These are
the ResNet classifier, YOLO, Document AI, Vision, Gemini, OpenCV decoding and
writing, the MOHRE web page, IMAP and the clock.

Four behaviours of the code are easy to misread, and the model keeps them as written:

- `run_enhanced_ocr` has no confidence threshold and no Vision fallback. It returns the Document AI result or an "unavailable" record. The program's own test tests/test_ocr_fallback.py:38-58 expects the Google Vision text when Document AI is disabled; the code as written returns the "unavailable" record instead.
- `run_yolo_crop` always crops the first detected box. Whether some box is an attestation label changes only what is logged.
- Attestation reconciliation relabels every page labelled `emirates_id`, `emirates_id_2` or `unknown`, not only one page.
- Attestation number 1 is accepted even when it is absent from the OCR text. A leading-zero artifact is only logged.

## Model

| member | source | states |
|---|---|---|
| Attestation.NormalizeChar | src/attestation_utils.py:25-28 | an Arabic-Indic digit maps to the ASCII digit of the same value; every other character is unchanged |
| Attestation.Normalized | src/attestation_utils.py:30-33 | normalised text has the same length, and each position is the normalised character |
| Attestation.ReplaceOneChar | src/attestation_utils.py:33 | `str.replace` of one character by another keeps the length and swaps exactly that character |
| Attestation.NormalizeOcrText | src/attestation_utils.py:30-33 | the ten-step replace loop computes exactly the character-wise normalisation |
| Attestation.NormalizedIsCanonical | src/attestation_utils.py:30-33 | normalised text has no Arabic-Indic digit left, and normalising twice changes nothing |
| Attestation.NormalizedAgrees | src/attestation_utils.py:25-33 | a number in Arabic-Indic digits and the same number in Western digits normalise to the same Western string |
| Attestation.StripLeadingZeros | src/attestation_utils.py:54 | the result is a suffix of the input, only zeros were removed, and it does not start with '0' |
| Attestation.CleanAttestationNumber | src/attestation_utils.py:50-69 | None for a missing, empty or "null" value; otherwise Some exactly when the zero-stripped value is all digits with a length inside the window, and then it is that stripped value |
| Attestation.AllZerosRejected | src/attestation_utils.py:54-59 | a value made only of zeros is rejected, because stripping leaves the empty string, which is not a digit string |
| Attestation.CleanIdempotent | src/attestation_utils.py:50-69 | a cleaned number cleans to itself |
| Attestation.ValidatedNumber2 | src/attestation_utils.py:94-113 | number 2 is rejected exactly when it fails cleaning, or when it is absent from the normalised text and starts with 784 |
| Attestation.ValidateAttestationNumbers | src/attestation_utils.py:72-115 | the result has exactly the two number keys; number 1 is the cleaned 5-15 digit value, whether or not it occurs in the text, and number 2 follows ValidatedNumber2 |
| Attestation.LongCandidates | src/attestation_utils.py:134-140 | a token is a long candidate iff it is a whole `\w` word of 10-15 digits not starting with 784 |
| Attestation.SevenCandidates | src/attestation_utils.py:137-141 | a token is a seven-digit candidate iff it is a whole `\w` word of 7 digits not starting with 784 |
| Attestation.ExtractAttestationNumbersFromOcr | src/attestation_utils.py:130-143 | an error exactly for empty text; otherwise both lists hold exactly the qualifying whole-word numbers |
| Attestation.CandidatesInTextOrder | src/attestation_utils.py:134-141 | candidates of two texts joined by a separator are the first text's candidates followed by the second's |
| Attestation.LoneRunCandidates | src/attestation_utils.py:134-141 | a lone digit run is a candidate exactly when its length fits and it does not start with 784 |
| Attestation.SuggestAttestationNumbers | src/attestation_utils.py:156-171 | an error exactly for empty text; otherwise each suggestion is the first candidate of its list, or None when the list is empty |
| Attestation.SuggestedNumber2Survives | src/attestation_utils.py:94-109 | a suggested number 2 that does not start with '0' passes ValidatedNumber2 against any text |
| DocumentAi.GetDocumentType | src/document_ai_processor.py:643-661 | passport iff a passport keyword occurs in the lower-cased text, then Emirates ID, attestation, certificate, in that priority, else unknown |
| DocumentAi.DocumentTypeIgnoresCase | src/document_ai_processor.py:643 | the type of a text equals the type of its lower-cased form |
| DocumentAi.PassportExactlyWhenWordPresent | src/document_ai_processor.py:645-647 | the type is passport iff "passport" occurs in the lower-cased text |
| DocumentAi.AppendingKeepsPriority | src/document_ai_processor.py:643-661 | appending text never moves the type to a lower-priority one |
| DocumentAi.FirstAccepted | src/document_ai_processor.py:413-429 | the chosen match is a match that no rejection rule hits, and there is none iff every match is rejected |
| DocumentAi.BarcodeFallback | src/document_ai_processor.py:459-479 | the fallback answer is an unrejected match of the barcode patterns |
| DocumentAi.FirstAcceptedMatch | src/document_ai_processor.py:413-429 | the loop over one pattern's matches returns FirstAccepted of those matches |
| DocumentAi.FirstAcceptedOver | src/document_ai_processor.py:410-431 | the loop over a pattern list returns FirstAccepted over all their matches in order |
| DocumentAi.FallbackOver | src/document_ai_processor.py:459-479 | the barcode loop stops at the first pattern with any match, accepted or not |
| DocumentAi.ExtractCertificateNumbers | src/document_ai_processor.py:380-479 | the two number fields are the application or prominent number, the barcode fallback, and nothing else |
| DocumentAi.CertificateNumbersShape | src/document_ai_processor.py:381-479 | number 1 is always 12 ASCII digits and number 2 always 7 |
| DocumentAi.EmiratesIdMatchLength | src/document_ai_processor.py:401-402 | every Emirates ID pattern match has at least 14 characters |
| DocumentAi.IdentityMatchSlash | src/document_ai_processor.py:405-406 | every identity pattern match has '/' after its third character |
| DocumentAi.OnlyPrefixRuleRejects | src/document_ai_processor.py:414-425 | for the 7- and 12-digit captures only the 784 prefix rule can reject; the Emirates ID and identity containment tests never fire |
| DocumentAi.HasOfficialStamp | src/document_ai_processor.py:555-561 | the stamp flag is set iff a stamp keyword occurs in the lower-cased text |
| DocumentAi.ExtractCertificateFields | src/document_ai_processor.py:365-563 | the certificate fields are the number fields, the stamp flag and the free-text fields |
| DocumentAi.CertificateFieldsFacts | src/document_ai_processor.py:410-561 | the stamp is "Yes" iff a stamp keyword occurs and "No" otherwise; each number key is present iff its number was found, and then it is 12 or 7 ASCII digits not starting with 784; free-text values are kept under their keys |
| DocumentAi.ExtractEmiratesIdFields | src/document_ai_processor.py:574-591 | the loop over the ID patterns computes `EmiratesIdFields`, whose promises `EmiratesIdFieldsFacts` states |
| DocumentAi.EmiratesIdShapeLemma | src/document_ai_processor.py:583-591 | a recognised Emirates ID number carries exactly 14 digits plus separators |
| DocumentAi.EmiratesIdFieldsFacts | src/document_ai_processor.py:583-591 | the ID key is present iff an ID pattern matches, and then it holds 14 ASCII digits starting with 784 |
| DocumentAi.FieldsByTypeFacts | src/document_ai_processor.py:663-683 | passports, Emirates IDs and certificates each get their own extractor; an unknown type gets the union of all three, with Emirates ID fields overriding certificate fields and those overriding passport fields |
| DocumentAi.ExtractFieldsByDocumentType | src/document_ai_processor.py:663-683 | the method returns the fields of the dispatching function |
| DocumentAi.ClampIndex | src/document_ai_processor.py:147 | Python's slice-index clamping, including negative indices counted from the end |
| DocumentAi.PySlice | src/document_ai_processor.py:147 | a Python slice is the Dafny slice for in-range indices and empty when the bounds cross |
| DocumentAi.GetTextFromLayout | src/document_ai_processor.py:138-149 | the concatenation loop returns the text of the segments, and "" with no segments |
| DocumentAi.ContiguousSegments | src/document_ai_processor.py:143-149 | back-to-back segments give the single slice from the first start to the last end |
| DocumentAi.NegativeStartTakesSuffix | src/document_ai_processor.py:147 | a negative start index takes a suffix of the text |
| DocumentAi.IsBetterThanVision | src/document_ai_processor.py:175-208 | never better after an error; always better above 0.9 confidence; otherwise better iff the text is 20% longer or finds a keyword Vision missed |
| DocumentAi.SameTextNeedsConfidence | src/document_ai_processor.py:184-208 | with the same text as Vision, Document AI wins iff its confidence exceeds 0.9 |
| DocumentAi.BetterIsMonotoneInConfidence | src/document_ai_processor.py:184-187 | raising the confidence never turns a better result into a worse one |
| DocumentAi.GetStructuredResult | src/document_ai_processor.py:151-173 | a processing failure gives a failed result with the same error; otherwise the result carries the text, confidence (twice), the OCR data's text blocks, the page count and the whole OCR data (`_document_ai_ocr_data`), and its type is the constant "document_ai_processed"; no fields are extracted |
| Pipeline.PageRecord.constructor | src/main_pipeline.py:89-93 | a new page record holds the path, the label and the file's base name |
| Pipeline.PageRecord.Retarget | src/main_pipeline.py:103-104 | relabels the page as an attestation label and changes nothing else |
| Pipeline.PageRecord.Rotate | src/main_pipeline.py:110-113 | replaces the path with the rotated one and changes nothing else |
| Pipeline.PageRecord.Ocr | src/main_pipeline.py:128-137 | the page is kept iff the OCR step succeeds, and its fields become the OCR outcome |
| Pipeline.ClassifiedKeepsOrder | src/main_pipeline.py:86-96 | the classified pages are, in order, the input paths the classifier accepted |
| Pipeline.ClassifiedLabels | src/main_pipeline.py:86-93 | every classified page carries the label the classifier returned for its path |
| Pipeline.ClassifyPages | src/main_pipeline.py:85-96 | the loop creates distinct fresh records whose data is the classified list |
| Pipeline.Relabel | src/main_pipeline.py:98-105 | only labels change; they change exactly on the eligible pages when a certificate is present and no attestation page is; a changed label is the attestation label |
| Pipeline.RelabelIdempotent | src/main_pipeline.py:98-105 | reconciling twice is the same as reconciling once |
| Pipeline.ReconcileLabels | src/main_pipeline.py:98-105 | the in-place loop leaves the records equal to Relabel of their old data |
| Pipeline.RotationOnlyWhitelisted | src/main_pipeline.py:107-118 | a path changes only for a whitelisted label and only to the rotator's answer; other labels never consult the rotator |
| Pipeline.RotatePages | src/main_pipeline.py:107-118 | the in-place loop applies the rotation rule to every record |
| Pipeline.ClassifyImages | src/main_pipeline.py:83-120 | the records are the classified pages, reconciled and then rotated |
| Pipeline.OcrInputPath | src/main_pipeline.py:131 | OCR reads the crop if there is one, else the full-page path, else the page path |
| Pipeline.OcrReadsCrop | src/main_pipeline.py:128-136 | with the engines `perform_ocr` runs, a successful crop is the image `run_enhanced_ocr` reads, and the text, fields, type and confidence of that record are what the page keeps |
| Pipeline.PerformOcr | src/main_pipeline.py:123-141 | for any cropper and reader, the processed list is the records whose crop succeeded, in order, and every record was updated in place with what the reader returned |
| Pipeline.SelectMembers | src/main_pipeline.py:126-140 | a record is processed iff it is an input record whose OCR succeeded |
| Pipeline.LastWriterWins | src/main_pipeline.py:153-184 | each OCR slot holds the text of the last page routed to it, or "" when there is none |
| Pipeline.MetadataFromLastWriter | src/main_pipeline.py:153-184 | a metadata key is present iff some page routed to that slot had fields, and then it holds the last such page's fields |
| Pipeline.FillSlots | src/main_pipeline.py:146-184 | the routing loop computes `SlotsAfter`, whose promises `LastWriterWins` and `MetadataFromLastWriter` state |
| Pipeline.FinalRecord | src/main_pipeline.py:198-208 | a structured reply gives the record with both service keys set; a missing one is an error |
| Pipeline.GeminiStructuring | src/main_pipeline.py:144-208 | the result is FinalRecord of Gemini's reply to the filled slots and the joined labels |
| Pipeline.DisplayNameFacts | src/main_pipeline.py:215-216 | an empty name gives "Unknown"; a whitespace-only name fails, as `split()[0]` does; otherwise the first word |
| Pipeline.ArtifactNamesDistinct | src/main_pipeline.py:217-232 | artifact bases of different labels differ and never clash with the details file |
| Pipeline.SenderIsAfterFirstColon | src/main_pipeline.py:276-278 | the sender is the stripped text after the first colon of a "sender:" first line |
| Pipeline.ParseEmailBodyKeepsText | src/main_pipeline.py:275-282 | the body is all lines, or all but a sender line, joined |
| Pipeline.FoundServiceShape | src/main_pipeline.py:283-285 | a found service is one stripped line |
| Pipeline.ServiceNeededAtFirstLabel | src/main_pipeline.py:283-285 | at the first "service needed" label (any case) followed by ':' or '-': the rest of the line after the whitespace that follows, stripped; "" when only whitespace that is not all line breaks follows; "N/A" when only line breaks follow |
| Pipeline.ServiceNeededWithoutLabel | src/main_pipeline.py:283-285 | with no label anywhere the service is "N/A" |
| Pipeline.TrailingLabelNamesEmptyService | src/main_pipeline.py:283-285 | example: the input "Service Needed: " yields the empty service, not "N/A", as the regex backtracks |
| Pipeline.ServiceReadToLineEnd | src/main_pipeline.py:283-285 | example: "Service needed- Visa", a line break and "Thanks" yield "Visa", read up to the line break |
| Pipeline.SenderNameSpellsLocalPart | src/main_pipeline.py:286-290 | the sender name spells the address's local part, with '.' and '_' as spaces, up to case |
| ServiceDetector.SortedSet | src/service_detector.py:127 | the result is strictly sorted and has exactly the members of the input |
| ServiceDetector.SortedUnique | src/service_detector.py:127 | two strictly sorted lists with the same members are equal |
| ServiceDetector.Scraped | src/service_detector.py:117-120 | a name is scraped iff it is a stripped link text that is non-empty, has at most 8 words and does not mention "services" |
| ServiceDetector.FetchMohreServices | src/service_detector.py:106-127 | the method returns the fetched-services function |
| ServiceDetector.FetchedServicesFacts | src/service_detector.py:117-127 | the list is sorted, duplicate-free and without empty names; when the page gave any kept link, a name is listed iff it is a kept, stripped link text; otherwise iff it is a non-empty name of the local list |
| ServiceDetector.Score | src/service_detector.py:142 | the score is non-negative, and positive iff the service shares a word with the text |
| ServiceDetector.SimpleKeywordMatch | src/service_detector.py:130-147 | the loop returns `KeywordMatch`, whose promises `KeywordMatchFacts` states |
| ServiceDetector.FirstMaxSpec | src/service_detector.py:143-145 | the scan returns the first index of maximal score |
| ServiceDetector.ScannedIsFirstMax | src/service_detector.py:138-145 | the loop's best service is the first service of maximal score |
| ServiceDetector.KeywordMatchFacts | src/service_detector.py:134-147 | "Unknown Service" iff no service shares a word with the text; otherwise the first service of highest score |
| ServiceDetector.FirstOfTwoWins | src/service_detector.py:143-145 | on equal scores the earlier service wins |
| ServiceDetector.CancelWorkPermitExample | tests/test_service_detector.py:7-11 | the cancellation e-mail of the test maps to "Work Permit Cancellation" |
| ServiceDetector.ChosenServices | src/service_detector.py:166 | given services first, then the fetched list, then the defaults; never empty |
| ServiceDetector.DetectService | src/service_detector.py:166-185 | a non-empty Gemini answer is returned stripped; otherwise the keyword match over the chosen services |
| GoogleRotation.ErrorReply | src/google_ai_rotation.py:134-136 | an error reply carries the message and asks for no rotation |
| GoogleRotation.StripFences | src/google_ai_rotation.py:119-123 | text without a fence is unchanged; fenced text loses its fences and its outer whitespace |
| GoogleRotation.TaggedBlockYieldsBody | src/google_ai_rotation.py:120-121 | a ```json block yields its stripped body |
| GoogleRotation.PlainBlockYieldsBody | src/google_ai_rotation.py:122-123 | a plain ``` block yields its stripped body |
| GoogleRotation.PromptFor | src/google_ai_rotation.py:49-101 | there is a prompt exactly for the rotatable classes |
| GoogleRotation.DetectOrientation | src/google_ai_rotation.py:39-136 | an unencodable image or an unsupported class gives an error reply; otherwise the parsed reply |
| GoogleRotation.RotatedPath | src/google_ai_rotation.py:176-177 | the rotated path extends the original path without its extension |
| GoogleRotation.RotatedPathDiffers | src/google_ai_rotation.py:176-177 | the rotated path never equals the original |
| GoogleRotation.RotatedSize | src/google_ai_rotation.py:162-165 | rotation keeps the area and either keeps or swaps the sides |
| GoogleRotation.RotatedSizeTwice | src/google_ai_rotation.py:162-165 | rotating twice by the same angle restores the size; sides swap only for 90 and 270 |
| GoogleRotation.RotateImage | src/google_ai_rotation.py:143-190 | a new file is written iff the path changes, which happens iff the image decodes, the angle has a text and the write succeeds |
| GoogleRotation.RotateImageIfNeeded | src/google_ai_rotation.py:192-227 | other classes keep their path; the path changes iff Gemini asks for a non-zero rotation and RotateImage succeeds |
| GoogleRotation.RotateIfNeededOutcomes | src/google_ai_rotation.py:204-227 | the result is the original path or the rotated path for Gemini's angle |
| GoogleRotation.OtherClassesIgnoreGemini | src/google_ai_rotation.py:198-200 | for a non-rotatable class neither Gemini nor the image matters |
| GoogleRotation.QuarterTurnRotates | src/google_ai_rotation.py:215-227 | a 90-degree request on a readable image gives the "_rotated_90" path |
| SimpleOrientation.BestIsFirstLongest | src/simple_text_orientation_detector.py:43-67 | the chosen angle is the first of maximal text length |
| SimpleOrientation.FirstLongestUnique | src/simple_text_orientation_detector.py:65-67 | there is only one first-longest index |
| SimpleOrientation.Failed | src/simple_text_orientation_detector.py:26-34 | a failure reports no rotation, angle 0 and zero confidence |
| SimpleOrientation.Reported | src/simple_text_orientation_detector.py:72-86 | rotation is needed iff the angle is non-zero, and the confidence is the text length |
| SimpleOrientation.DetectSimple | src/simple_text_orientation_detector.py:12-95 | the angle is one of 0, 90, 180 and 270; an unreadable image fails without touching files |
| SimpleOrientation.DetectTextOrientationSimple | src/simple_text_orientation_detector.py:12-95 | the loop with its temporary files computes DetectSimple |
| SimpleOrientation.ScanStopsAtError | src/simple_text_orientation_detector.py:61-70 | after a Vision error no further angle is tried |
| SimpleOrientation.DetectSimplePicksFirstLongest | src/simple_text_orientation_detector.py:43-86 | on success the reported angle is the first with the longest text |
| SimpleOrientation.ScanKeepsImage | src/simple_text_orientation_detector.py:46-70 | the scan never removes the image, and no temporary file remains afterwards, even after a Vision error |
| SimpleOrientation.SimpleRotatedPath | src/simple_text_orientation_detector.py:122-124 | the rotated path extends the original stem and is longer than the original |
| SimpleOrientation.AsWrittenReturnsMissingFile | src/simple_text_orientation_detector.py:126-129 | as written, a failed write still returns a new rotated path that is not in the file store |
| SimpleOrientation.RotateImageSimple | src/simple_text_orientation_detector.py:108-133 | corrected: the path changes iff the image reads, the angle is allowed and the write succeeds; the new file is then added |
| SimpleOrientation.RotatedFileExists | src/simple_text_orientation_detector.py:126-129 | corrected: the returned path always exists afterwards, and no file was lost |
| SimpleOrientation.AutoRotateImageSimple | src/simple_text_orientation_detector.py:136-153 | corrected: the method computes AutoRotate: detection, then the corrected rotation only when it is needed |
| SimpleOrientation.AutoRotateFacts | src/simple_text_orientation_detector.py:140-153 | corrected: a needed rotation has a positive angle; a changed path is the rotation of the detected angle; with no rotation needed the path and files stay as detection left them; the returned path exists |
| YoloCrop.RunEnhancedOcr | src/yolo_crop_ocr_pipeline.py:30-80 | the Document AI method iff it is enabled and processing succeeds; otherwise the unavailable record |
| YoloCrop.RecordFieldsFollowType | src/yolo_crop_ocr_pipeline.py:48-50 | the record's fields are the fields of its detected document type |
| YoloCrop.ClassNames | src/yolo_crop_ocr_pipeline.py:121-127 | a name is listed iff some box carries it |
| YoloCrop.RunYoloCrop | src/yolo_crop_ocr_pipeline.py:107-162 | the crop path of the first box is returned iff the image reads, there is a box and its region is not empty (writing an empty region raises); the file store grows by that file only, and only when the write succeeds, as the write's result is not checked |
| YoloCrop.CropNeedsArea | src/yolo_crop_ocr_pipeline.py:141-162 | a first box inside the image is cut out iff both its sides are positive |
| YoloCrop.CropIgnoresLabels | src/yolo_crop_ocr_pipeline.py:129-145 | the class names of the boxes do not affect the crop |
| YoloCrop.CropFileName | src/yolo_crop_ocr_pipeline.py:158-160 | the crop is named `<stem>_cropped.jpg` |
| YoloCrop.CombineText | src/yolo_crop_ocr_pipeline.py:208-214 | the combined text extends the document text, by the additional annotations when they are not already in it |
| YoloCrop.CombinedContainsAdditional | src/yolo_crop_ocr_pipeline.py:210-214 | the combined text always contains the additional annotations |
| YoloCrop.CombineTextIdempotent | src/yolo_crop_ocr_pipeline.py:208-214 | combining twice adds nothing |
| YoloCrop.PerformOcr | src/yolo_crop_ocr_pipeline.py:191-232 | a missing file is an error; otherwise the Vision text and annotations are combined |
| YoloCrop.Preprocess | src/yolo_crop_ocr_pipeline.py:82-105 | the original path, with the files unchanged, iff the image does not read; otherwise the preprocessed path, whose file is added only when the unchecked write succeeds |
| YoloCrop.PreprocessedPathDiffers | src/yolo_crop_ocr_pipeline.py:102 | the preprocessed path never equals the original |
| YoloCrop.PreprocessImageForOcr | src/yolo_crop_ocr_pipeline.py:82-105 | the method computes Preprocess, a failed write included |
| YoloCrop.Cleanup | src/yolo_crop_ocr_pipeline.py:185-187 | corrected: only a distinct preprocessed file is removed, and the original image survives |
| YoloCrop.RunGoogleVisionOcr | src/yolo_crop_ocr_pipeline.py:164-189 | corrected: the method computes VisionOcr, whose cleanup never removes the image itself |
| YoloCrop.VisionOcrKeepsLonger | src/yolo_crop_ocr_pipeline.py:173-183 | the second pass replaces the text only when it is longer |
| YoloCrop.VisionOcrKeepsImage | src/yolo_crop_ocr_pipeline.py:170-189 | corrected: the original image survives the Vision pass |
| YoloCrop.FailedPreprocessWriteRaises | src/yolo_crop_ocr_pipeline.py:102-105 | a failed write of the preprocessed copy makes the second pass open a missing file, so the call raises |
| YoloCrop.VisionOcrFileEffect | src/yolo_crop_ocr_pipeline.py:170-189 | the Vision pass changes the file store at most by the preprocessed file |
| YoloCrop.AsWrittenCleanupRemovesImage | src/yolo_crop_ocr_pipeline.py:185-187 | as written, an undecodable image with empty Vision text is deleted |
| EmailParser.CleanFilenameFacts | src/email_parser.py:21-22 | the result keeps only allowed characters, in their order, with trailing whitespace removed |
| EmailParser.CleanFilenameSubsequence | src/email_parser.py:22 | the cleaned name is a subsequence of the original |
| EmailParser.CleanFilenameIdempotent | src/email_parser.py:22 | cleaning twice is cleaning once |
| EmailParser.SubjectFolder | src/email_parser.py:113 | the folder name is never empty |
| EmailParser.SubjectFolderIsClean | src/email_parser.py:113 | folder names are already clean |
| EmailParser.DateText | src/email_parser.py:74 | `%d-%b-%Y` gives 11 characters with the month abbreviation between dashes |
| EmailParser.DateTextRoundTrip | src/email_parser.py:74 | the date text parses back to the date |
| EmailParser.CriteriaCases | src/email_parser.py:69-77 | the four flag combinations give "(UNSEEN SINCE ...)", "(UNSEEN)", "(SINCE ...)" and "ALL" |
| EmailParser.CriteriaAllOnlyUnfiltered | src/email_parser.py:77 | "ALL" is searched iff neither filter is asked for |
| EmailParser.SearchCriteria | src/email_parser.py:69-77 | the criteria-building method computes Criteria for today's date |
| EmailParser.FetchVisitFacts | src/email_parser.py:80-103 | a failed search processes nothing; the UNSEEN-only retry happens only after an empty dated unseen search; it never falls back to ALL |
| EmailParser.FetchVisitFolders | src/email_parser.py:104-117 | the run stores, in id order and then reply order, the messages before the first whose Subject header is missing or does not decode, each under its non-empty, already clean subject folder; the run ends by raising exactly when such a message exists, and that message is the next one |
| EmailParser.StoreFacts | src/email_parser.py:104-117 | the stored messages are the longest prefix whose subjects decode, each under its subject folder; the run ends early iff a message follows that prefix, and its subject does not decode |
| EmailParser.StoreAbortedStays | src/email_parser.py:110-112 | once a subject has raised, later messages store nothing |
| EmailParser.MessagesFromTupleParts | src/email_parser.py:104-108 | every message the loop meets comes from a tuple part of its own id's fetch reply |
| EmailParser.IdWithoutTupleSkipped | src/email_parser.py:105-108 | an id whose reply has no tuple part stores nothing and does not stop the run |
| EmailParser.FetchAndStoreEmails | src/email_parser.py:64-121 | the method computes FetchVisit: the searches made, the messages stored and whether a subject raised |
| EmailParser.SearchMailbox | src/email_parser.py:69-96 | the criteria searched, with the "UNSEEN" retry exactly when the dated search finds nothing, and the ids IdsToProcess gives |
| EmailParser.ProcessEmails | src/email_parser.py:104-117 | the loop over the ids stores what Store gives for their messages, returning as soon as a subject raises |
| EmailParser.StoreReply | src/email_parser.py:106-117 | the loop over one reply's parts stores its tuple parts in order after the earlier messages, skips other parts, and stops at a subject that raises |
| EmailParser.Surviving | src/email_parser.py:124-132 | a folder survives iff it is not a directory older than the cutoff, and survivors are unchanged |
| EmailParser.SurvivingIdempotent | src/email_parser.py:123-132 | a second cleanup at the same cutoff removes nothing |
| EmailParser.LaterCutoffRemovesMore | src/email_parser.py:124-130 | a later cutoff keeps a subset of the folders |
| EmailParser.Downloads.CleanupOldFiles | src/email_parser.py:123-132 | the download folders after the call are the survivors of the cutoff `now - days * 86400` |

## Left out

- External engines are parameters rather than models: ResNet, YOLO, Document AI, Google Vision, Gemini, OpenCV decoding, rotation and writing, the MOHRE web page, IMAP and the clock. The model decides only what the code does with their answers.
- Pixel work is left out: thresholding, denoising, rotation and cropping of pixel data. An image is a path plus, where a branch depends on it, whether it decodes and its size; whether a write to a path succeeds is given per path.
- Exceptions from engines are modelled as `Result` values. Logging, `print` and timing are left out.
- Three groups of regular-expression extractors in `document_ai_processor.py` are `Extractors` function values rather than models: the whole of `extract_specific_fields` (names, nationality, dates, and its UID, Identity_Number, Residence_Number, EID_Number and Passport Number patterns); the free-text part of `extract_certificate_fields` (degree, institution, issuing authority, dates and grade); and the free-text part of `extract_emirates_id_fields` (name, nationality and dates). Modelled exactly are the certificate's application, prominent and barcode number patterns with their Emirates ID and identity exclusions, the official-stamp test, and the Emirates ID number patterns of `extract_emirates_id_fields`.
- Character classes cover ASCII and the Arabic-Indic digits U+0660..U+0669. Other Unicode letters and digits, and case folding beyond ASCII, are not modelled.
- GoogleRotation.DetectOrientation: Gemini's reply is a string-keyed map. A JSON reply that is not an object, and JSON floats, are not modelled.
- ServiceDetector.FetchMohreServices: scraping is all-or-nothing. An exception mid-loop that leaves a partial list is not modelled, and neither is the case where `requests` or `BeautifulSoup` is missing, which behaves like a failed fetch.
- `main_pipeline.py` `save_results`: the file writes, image compression and the processing log are left out. Only the names it builds are modelled.
- `main_pipeline.py` `main` and `convert_documents`: the loop over subject folders and PDF conversion are I/O. Only the e-mail body parsing inside `main` is modelled.
- `email_parser.py` `download_attachments` and `save_email_body`: MIME walking and file writes are left out. Only the folder a message is stored under is modelled.
- `email_parser.py` message decoding: a message's Subject header is given as decoded text or as a failure (no header, or an unknown charset). A failure is the `TypeError` or `LookupError` of lines 110-112. It ends the run, which the model records as `aborted`. The skipped `logout` and the marking of messages as Seen are IMAP effects and are not modelled.
- `simple_text_orientation_detector.py` `test_simple_orientation_detection` is a manual demo and is not modelled.
- YoloCrop.RunGoogleVisionOcr: uses the corrected `Cleanup`. As written (lines 185-187), an image OpenCV cannot decode is itself removed after the second pass; that half is `CleanupAsWritten`, shown by `AsWrittenCleanupRemovesImage`.
- SimpleOrientation.AutoRotateImageSimple: uses the corrected `RotateImageSimple`. As written, a detected rotation whose write fails returns the rotated path although no file is there; that half is `RotateImageSimpleAsWritten`, shown by `AsWrittenReturnsMissingFile`.
- SimpleOrientation.AutoRotateFacts: "the returned path exists" holds for the corrected rotation only, for the reason just given.
- `run_enhanced_ocr`: the `page_count` default of 1 and the confidence value are carried through unchanged.

## Findings

| source | as written | input that shows it | evidently intended | confidence | as-written member | corrected member |
|---|---|---|---|---|---|---|
| src/yolo_crop_ocr_pipeline.py:89-90,173-187 | when OpenCV cannot decode the image, `preprocess_image_for_ocr` returns the original path, and the cleanup's `os.remove(preprocessed_path)` then deletes the original image | image "scan.gif" that OpenCV cannot decode, Vision returning empty text so the second pass runs | delete the preprocessed file only when it differs from the original | medium, not executed | YoloCrop.AsWrittenCleanupRemovesImage | YoloCrop.VisionOcrKeepsImage |
| src/simple_text_orientation_detector.py:126-129 | `cv2.imwrite`'s False return is ignored, and the rotated path is returned although no file was written | a readable image, angle 90, a failed write | return the original path when the write fails | medium, not executed | SimpleOrientation.AsWrittenReturnsMissingFile | SimpleOrientation.RotatedFileExists |
