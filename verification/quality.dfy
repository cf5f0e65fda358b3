/**
 Per-image quality check: an image is blurry when the variance of its
 Laplacian is below the blur threshold and too small when either side is
 below the minimum resolution. The result is a report record whose labels
 the page verdict later searches for "Blurry" and "Too Small".
 */
module Quality {
  import opened Strings
  import opened Settings
  import opened Extraction

  /** What downloading and decoding an image for measurement gave: its size and
      the variance of the Laplacian of its grey-scale version; any exception
      raised before the metrics are computed (a failed download, or an image
      library error on the downloaded bytes), with its message; or bytes the
      decoder returns no image for. */
  datatype Measurement =
    | Measured(width: nat, height: nat, variance: real)
    | Raised(message: string)
    | DecodeFailed

  /** One entry of a page's blur details: the metrics of a measured image, or
      the message of the error that stopped the measurement. */
  datatype QualityReport =
    | Metrics(imageUrl: Url, width: nat, height: nat, blurScore: real, sharpness: string, resolutionCheck: string)
    | ErrorReport(imageUrl: Url, error: string)

  const SharpLabel: string := "Sharp"
  const BlurryLabel: string := "Blurry"
  const SizeOkLabel: string := "OK"
  const TooSmallLabel: string := "Too Small"
  /** The message of the exception raised when the bytes do not decode. */
  const DecodeFailedMessage: string := "Image decoding failed"

  /** The measurement falls short of a quality threshold: the score is below
      the blur threshold, or a side is below the minimum resolution. The
      boundary values themselves pass. */
  predicate Substandard(m: Measurement) {
    m.Measured? && (m.variance < BlurThreshold || m.width < MinWidth || m.height < MinHeight)
  }

  /** The quality report of one image. Any failure becomes an error report
      carrying the message; a measured image gets both labels. */
  function IsBlurry(url: Url, m: Measurement): (r: QualityReport)
    ensures r.imageUrl == url
    ensures r.Metrics? <==> m.Measured?
    ensures r.Metrics? ==> r.width == m.width && r.height == m.height && r.blurScore == m.variance
    ensures m.Raised? ==> r.error == m.message
    ensures m.DecodeFailed? ==> r.error == DecodeFailedMessage
  {
    match m
    case Measured(w, h, v) =>
      Metrics(url, w, h, v,
        if v < BlurThreshold then BlurryLabel else SharpLabel,
        if w < MinWidth || h < MinHeight then TooSmallLabel else SizeOkLabel)
    case Raised(msg) => ErrorReport(url, msg)
    case DecodeFailed => ErrorReport(url, DecodeFailedMessage)
  }

  /** `r.get('sharpness', '')`: the label, or empty for an error report. */
  function SharpnessField(r: QualityReport): string {
    if r.Metrics? then r.sharpness else ""
  }

  /** `r.get('resolution_check', '')`: the label, or empty for an error report. */
  function ResolutionField(r: QualityReport): string {
    if r.Metrics? then r.resolutionCheck else ""
  }

  /** The report makes the page worth reporting: a label mentions "Blurry" or
      "Too Small". */
  predicate Flagged(r: QualityReport) {
    Contains(SharpnessField(r), BlurryLabel) || Contains(ResolutionField(r), TooSmallLabel)
  }

  /** The labels say what the thresholds decide: "Blurry" exactly when the
      score is below the threshold, "Too Small" exactly when a side is below
      the minimum. */
  lemma LabelsMatchThresholds(url: Url, m: Measurement)
    requires m.Measured?
    ensures Contains(SharpnessField(IsBlurry(url, m)), BlurryLabel) <==> m.variance < BlurThreshold
    ensures Contains(ResolutionField(IsBlurry(url, m)), TooSmallLabel) <==> m.width < MinWidth || m.height < MinHeight
  {
    ContainsSelf(BlurryLabel);
    ContainsSelf(TooSmallLabel);
    NotContainsLonger(SharpLabel, BlurryLabel);
    NotContainsLonger(SizeOkLabel, TooSmallLabel);
  }

  /** The text search on the report flags exactly the substandard
      measurements; an error report is never flagged, whatever its message. */
  lemma FlaggedIffSubstandard(url: Url, m: Measurement)
    ensures Flagged(IsBlurry(url, m)) <==> Substandard(m)
  {
    if m.Measured? {
      LabelsMatchThresholds(url, m);
    } else {
      NotContainsLonger("", BlurryLabel);
      NotContainsLonger("", TooSmallLabel);
    }
  }

  /** A full-resolution image exactly at the blur threshold passes both checks. */
  lemma ExampleBoundaryPasses(url: Url)
    ensures !Flagged(IsBlurry(url, Measured(1200, 1200, 100.0)))
  {
    FlaggedIffSubstandard(url, Measured(1200, 1200, 100.0));
  }

  /** One pixel short in height makes an otherwise sharp image too small. */
  lemma ExampleOnePixelShortFlagged(url: Url)
    ensures Flagged(IsBlurry(url, Measured(4000, 1199, 250.0)))
    ensures IsBlurry(url, Measured(4000, 1199, 250.0)).sharpness == SharpLabel
  {
    FlaggedIffSubstandard(url, Measured(4000, 1199, 250.0));
  }
}
