/**
 * The decisions the request handlers of backend/server.py take before they
 * call the image model: which requests are refused and with which status,
 * which images are sent, which prompt template is filled and with what
 * (`analyze_hairstyle`, `generate_hairstyle`, `adjust_hairstyle`).
 *
 * A JSON field is either absent, `null` or a string. Python's truthiness of
 * such a value is "a non-empty string", and an f-string renders `None` as
 * "None". Whether the external service is configured (`GCP_PROJECT_ID` is
 * set) is the parameter `configured`.
 */
module Requests {
  import opened Wrappers
  import opened Text
  import ImageKey

  /** One field of the request's JSON object. */
  datatype Field = Absent | Null | Str(s: string)

  /** `if value:` for the value `data.get(...)` returns. */
  predicate Truthy(f: Field) {
    f.Str? && f.s != ""
  }

  /** `f"{value}"` for the value `data.get(...)` returns. */
  function Format(f: Field): string {
    match f
    case Str(s) => s
    case _ => "None"
  }

  const MensLabel: string := "メンズ"
  const LadiesLabel: string := "レディース"

  /**
   * `gender = data.get('gender', 'mens')` followed by
   * `'メンズ' if gender == 'mens' else 'レディース'`.
   */
  function GenderLabel(gender: Field): (shown: string)
    ensures shown == MensLabel <==> gender.Absent? || gender == Str("mens")
    ensures shown == LadiesLabel <==> !(gender.Absent? || gender == Str("mens"))
  {
    var g := if gender.Absent? then Str("mens") else gender;
    if g == Str("mens") then MensLabel else LadiesLabel
  }

  /** Why a request is answered without calling the model. */
  datatype Refusal =
    | FaceRequired      // 400: no `face` key
    | StyleRequired     // 400: neither a preset nor a reference image
    | NotConfigured     // 500: GCP_PROJECT_ID is not set
    | ImageNotText      // 500: an image field is null, so `'base64,' in value` raises
    | UndecodableImage  // 500: base64 decoding raises
    | AdjustmentsNotObject  // 500: `adjustments` is null, so `adjustments.get` raises

  /** The prompt template a handler fills, with the values it interpolates. */
  datatype Prompt =
    | ReferenceWithPreset(presetName: string, preset: string)
    | ReferenceOnly
    | PresetOnly(presetName: string, preset: string, genderLabel: string)
    | Adjustment(adjustmentText: string)

  /** A refusal with its HTTP status, or the images (stripped base64 payloads) and prompt sent on. */
  datatype Reply = Refused(status: int, why: Refusal) | Proceed(images: seq<string>, prompt: Prompt)

  /** The status each handler answers a refusal with. */
  function StatusOf(why: Refusal): int {
    if why == FaceRequired || why == StyleRequired then 400 else 500
  }

  function Refuse(why: Refusal): Reply {
    Refused(StatusOf(why), why)
  }

  /** The payload of a truthy image field, as the handlers strip it. */
  function Payload(f: Field): string
    requires f.Str?
  {
    ImageKey.StripDataUri(f.s)
  }

  /** A truthy-or-not image field that is text and whose payload the decoder accepts. */
  predicate Decodes(f: Field, base64Decode: string -> Option<seq<ImageKey.Byte>>) {
    f.Str? && base64Decode(Payload(f)).Some?
  }

  // ---------------------------------------------------------------------------
  // generate_hairstyle
  // ---------------------------------------------------------------------------

  datatype GenerateRequest = GenerateRequest(face: Field, hairstyle: Field, preset: Field,
                                             presetName: Field, gender: Field)

  /**
   * `generate_hairstyle` up to the call of the image model. The face, and
   * then the reference image when one is sent, are decoded in that order;
   * a decoding failure ends in the handler's catch-all 500.
   */
  function Generate(req: GenerateRequest, configured: bool,
                    base64Decode: string -> Option<seq<ImageKey.Byte>>): (r: Reply)
    ensures r == Refused(400, FaceRequired) <==> req.face.Absent?
    ensures r == Refused(400, StyleRequired) <==>
              !req.face.Absent? && !Truthy(req.preset) && !Truthy(req.hairstyle)
    ensures r == Refused(500, NotConfigured) <==>
              !req.face.Absent? && (Truthy(req.preset) || Truthy(req.hairstyle)) && !configured
    ensures r == Refused(500, ImageNotText) <==>
              req.face.Null? && (Truthy(req.preset) || Truthy(req.hairstyle)) && configured
    ensures r == Refused(500, UndecodableImage) <==>
              req.face.Str? && (Truthy(req.preset) || Truthy(req.hairstyle)) && configured &&
              !(Decodes(req.face, base64Decode) && (Truthy(req.hairstyle) ==> Decodes(req.hairstyle, base64Decode)))
    ensures r.Proceed? <==>
              (Truthy(req.preset) || Truthy(req.hairstyle)) && configured &&
              Decodes(req.face, base64Decode) && (Truthy(req.hairstyle) ==> Decodes(req.hairstyle, base64Decode))
    ensures r.Proceed? ==>
              r.images == [Payload(req.face)] + (if Truthy(req.hairstyle) then [Payload(req.hairstyle)] else [])
    ensures r.Proceed? ==> (r.prompt.ReferenceWithPreset? <==> Truthy(req.hairstyle) && Truthy(req.preset))
    ensures r.Proceed? ==> (r.prompt.ReferenceOnly? <==> Truthy(req.hairstyle) && !Truthy(req.preset))
    ensures r.Proceed? ==> (r.prompt.PresetOnly? <==> !Truthy(req.hairstyle))
    ensures r.Proceed? && r.prompt.ReferenceWithPreset? ==>
              r.prompt == ReferenceWithPreset(Format(req.presetName), req.preset.s)
    ensures r.Proceed? && r.prompt.PresetOnly? ==>
              r.prompt == PresetOnly(Format(req.presetName), req.preset.s, GenderLabel(req.gender))
  {
    if req.face.Absent? then Refuse(FaceRequired)
    else if !Truthy(req.preset) && !Truthy(req.hairstyle) then Refuse(StyleRequired)
    else if !configured then Refuse(NotConfigured)
    else if !req.face.Str? then Refuse(ImageNotText)
    else if base64Decode(Payload(req.face)).None? then Refuse(UndecodableImage)
    else
      var face := Payload(req.face);
      if Truthy(req.hairstyle) then
        if base64Decode(Payload(req.hairstyle)).None? then Refuse(UndecodableImage)
        else
          var prompt := if Truthy(req.preset)
                        then ReferenceWithPreset(Format(req.presetName), req.preset.s)
                        else ReferenceOnly;
          Proceed([face, Payload(req.hairstyle)], prompt)
      else
        Proceed([face], PresetOnly(Format(req.presetName), req.preset.s, GenderLabel(req.gender)))
  }

  /** A request naming neither a preset nor a reference image is refused with 400, configured or not. */
  lemma GenerateNeedsStyle(req: GenerateRequest, configured: bool,
                           base64Decode: string -> Option<seq<ImageKey.Byte>>)
    requires !req.face.Absent? && !Truthy(req.preset) && !Truthy(req.hairstyle)
    ensures Generate(req, configured, base64Decode) == Refused(400, StyleRequired)
  {
  }

  /** A preset-only request with no gender field is rendered for men. */
  lemma GenerateDefaultsToMens(req: GenerateRequest, base64Decode: string -> Option<seq<ImageKey.Byte>>)
    requires Decodes(req.face, base64Decode) && Truthy(req.preset) && !Truthy(req.hairstyle)
    requires req.gender.Absent?
    ensures Generate(req, true, base64Decode) == Proceed([Payload(req.face)],
              PresetOnly(Format(req.presetName), req.preset.s, MensLabel))
  {
  }

  /** A preset-only request without a preset name shows the name as "None", as the f-string does. */
  lemma GenerateMissingPresetName(req: GenerateRequest, base64Decode: string -> Option<seq<ImageKey.Byte>>)
    requires Decodes(req.face, base64Decode) && Truthy(req.preset) && !Truthy(req.hairstyle)
    requires !req.presetName.Str?
    ensures Generate(req, true, base64Decode).prompt.presetName == "None"
  {
  }

  /** A preset-only request whose gender is `null` is rendered for women, unlike an absent one. */
  lemma GenerateNullGenderIsLadies(req: GenerateRequest, base64Decode: string -> Option<seq<ImageKey.Byte>>)
    requires Decodes(req.face, base64Decode) && Truthy(req.preset) && !Truthy(req.hairstyle)
    requires req.gender.Null?
    ensures Generate(req, true, base64Decode).prompt.genderLabel == LadiesLabel
  {
  }

  // ---------------------------------------------------------------------------
  // adjust_hairstyle
  // ---------------------------------------------------------------------------

  datatype Adjustments = Adjustments(length: Field, color: Field, style: Field)

  /** The `adjustments` object: three optional texts. An absent one reads as `{}`, a `null` one as `None`. */
  datatype AdjustRequest = AdjustRequest(face: Field, currentImage: Field, preset: Field,
                                         adjustments: Option<Adjustments>)

  /** The adjustments in the order length, color, style. */
  function AdjustmentValues(adj: Adjustments): seq<Field> {
    [adj.length, adj.color, adj.style]
  }

  /** The strings of the truthy fields, in order. */
  function Selected(fields: seq<Field>): (r: seq<string>)
    decreases |fields|
    ensures |r| <= |fields|
    ensures forall i :: 0 <= i < |r| ==> r[i] != ""
    ensures r == [] <==> forall i :: 0 <= i < |fields| ==> !Truthy(fields[i])
  {
    if fields == [] then []
    else (if Truthy(fields[0]) then [fields[0].s] else []) + Selected(fields[1..])
  }

  const AdjustmentSeparator: string := ", "

  /** `adjustment_text` as a value: the truthy adjustments joined by ", ". */
  function AdjustmentTextOf(adj: Adjustments): string {
    Join(Selected(AdjustmentValues(adj)), AdjustmentSeparator)
  }

  /** The loop-free assembly of `adjustment_text` by appends to `adj_parts`. */
  method AdjustmentText(adj: Adjustments) returns (text: string)
    ensures text == AdjustmentTextOf(adj)
    ensures text == "" <==> !Truthy(adj.length) && !Truthy(adj.color) && !Truthy(adj.style)
    ensures Truthy(adj.length) ==> adj.length.s <= text
    ensures Truthy(adj.length) && Truthy(adj.color) && Truthy(adj.style) ==>
              text == adj.length.s + ", " + adj.color.s + ", " + adj.style.s
  {
    var parts: seq<string> := [];
    if Truthy(adj.length) {
      parts := parts + [adj.length.s];
    }
    if Truthy(adj.color) {
      parts := parts + [adj.color.s];
    }
    if Truthy(adj.style) {
      parts := parts + [adj.style.s];
    }
    var values := AdjustmentValues(adj);
    assert values[1..] == [adj.color, adj.style] && values[1..][1..] == [adj.style];
    assert values[1..][1..][1..] == [];
    var pick := (f: Field) => if Truthy(f) then [f.s] else [];
    assert Selected(values[1..][1..]) == pick(adj.style) + Selected(values[1..][1..][1..]);
    assert Selected(values[1..]) == pick(adj.color) + Selected(values[1..][1..]);
    assert Selected(values) == pick(adj.length) + Selected(values[1..]);
    assert parts == Selected(values);
    if |parts| == 3 {
      var sep := AdjustmentSeparator;
      assert parts[1..] == [adj.color.s, adj.style.s] && parts[1..][1..] == [adj.style.s];
      assert Join(parts[1..][1..], sep) == adj.style.s;
      assert Join(parts[1..], sep) == adj.color.s + sep + adj.style.s;
      assert Join(parts, sep) == adj.length.s + sep + (adj.color.s + sep + adj.style.s);
    }
    text := if parts != [] then Join(parts, AdjustmentSeparator) else "";
  }

  /**
   * The adjustment text splits back into exactly the given adjustments when
   * none of them contains ", ".
   */
  lemma AdjustmentTextSplits(adj: Adjustments)
    requires Selected(AdjustmentValues(adj)) != []
    requires forall i :: 0 <= i < |Selected(AdjustmentValues(adj))| ==>
               !Contains(Selected(AdjustmentValues(adj))[i], AdjustmentSeparator)
    ensures Split(AdjustmentTextOf(adj), AdjustmentSeparator) == Selected(AdjustmentValues(adj))
  {
    SplitJoin(Selected(AdjustmentValues(adj)), AdjustmentSeparator);
  }

  /** `data.get('adjustments', {})` for a request without that key. */
  const NoAdjustments: Adjustments := Adjustments(Absent, Absent, Absent)

  lemma NoAdjustmentsIsEmpty()
    ensures AdjustmentTextOf(NoAdjustments) == ""
  {
  }

  /**
   * `adjust_hairstyle` up to the call of the image model; `preset` is read
   * but not used. The face and then the current image, when one is sent,
   * are decoded before the adjustments are read.
   */
  function Adjust(req: AdjustRequest, configured: bool,
                  base64Decode: string -> Option<seq<ImageKey.Byte>>): (r: Reply)
    ensures r == Refused(400, FaceRequired) <==> req.face.Absent?
    ensures r == Refused(500, NotConfigured) <==> !req.face.Absent? && !configured
    ensures r == Refused(500, ImageNotText) <==> req.face.Null? && configured
    ensures r == Refused(500, UndecodableImage) <==>
              configured && req.face.Str? &&
              !(Decodes(req.face, base64Decode) && (Truthy(req.currentImage) ==> Decodes(req.currentImage, base64Decode)))
    ensures r == Refused(500, AdjustmentsNotObject) <==>
              configured && Decodes(req.face, base64Decode) &&
              (Truthy(req.currentImage) ==> Decodes(req.currentImage, base64Decode)) && req.adjustments.None?
    ensures r.Proceed? <==>
              configured && Decodes(req.face, base64Decode) &&
              (Truthy(req.currentImage) ==> Decodes(req.currentImage, base64Decode)) && req.adjustments.Some?
    ensures r.Proceed? ==> r.prompt == Adjustment(AdjustmentTextOf(req.adjustments.value))
    ensures r.Proceed? ==>
              r.images == [Payload(req.face)] + (if Truthy(req.currentImage) then [Payload(req.currentImage)] else [])
  {
    if req.face.Absent? then Refuse(FaceRequired)
    else if !configured then Refuse(NotConfigured)
    else if !req.face.Str? then Refuse(ImageNotText)
    else if base64Decode(Payload(req.face)).None? then Refuse(UndecodableImage)
    else if Truthy(req.currentImage) && base64Decode(Payload(req.currentImage)).None? then Refuse(UndecodableImage)
    else if req.adjustments.None? then Refuse(AdjustmentsNotObject)
    else
      var current := if Truthy(req.currentImage) then [Payload(req.currentImage)] else [];
      Proceed([Payload(req.face)] + current, Adjustment(AdjustmentTextOf(req.adjustments.value)))
  }

  // ---------------------------------------------------------------------------
  // analyze_hairstyle
  // ---------------------------------------------------------------------------

  /** A refusal, or the analysis id and the face payload sent to the vision model. */
  datatype AnalyzeReply = AnalyzeRefused(status: int, why: Refusal)
                        | AnalyzeProceed(analysisId: string, face: string)

  /**
   * `analyze_hairstyle` up to the call of the vision model. The hash, and so
   * any decoding failure, comes before the configuration check.
   */
  function Analyze(face: Field, configured: bool, base64Decode: string -> Option<seq<ImageKey.Byte>>,
                   sha256Hex: seq<ImageKey.Byte> -> string): (r: AnalyzeReply)
    ensures r == AnalyzeRefused(400, FaceRequired) <==> face.Absent?
    ensures r == AnalyzeRefused(500, ImageNotText) <==> face.Null?
    ensures r == AnalyzeRefused(500, UndecodableImage) <==>
              face.Str? && ImageKey.ImageHash(face.s, base64Decode, sha256Hex).None?
    ensures r == AnalyzeRefused(500, NotConfigured) <==>
              face.Str? && ImageKey.ImageHash(face.s, base64Decode, sha256Hex).Some? && !configured
    ensures r.AnalyzeProceed? <==>
              face.Str? && ImageKey.ImageHash(face.s, base64Decode, sha256Hex).Some? && configured
    ensures r.AnalyzeProceed? ==>
              Some(r.analysisId) == ImageKey.AnalysisId(face.s, base64Decode, sha256Hex) &&
              r.face == Payload(face)
  {
    match face
    case Absent => AnalyzeRefused(400, FaceRequired)
    case Null => AnalyzeRefused(500, ImageNotText)
    case Str(s) =>
      match ImageKey.AnalysisId(s, base64Decode, sha256Hex)
      case None => AnalyzeRefused(500, UndecodableImage)
      case Some(id) =>
        if !configured then AnalyzeRefused(500, NotConfigured)
        else AnalyzeProceed(id, ImageKey.StripDataUri(s))
  }
}
