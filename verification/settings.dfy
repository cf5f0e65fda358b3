/**
 The audit script's configuration constants.
 */
module Settings {

  /** Side of the square canvas every fetched image is resized to. */
  const CanvasWidth: nat := 256
  const CanvasHeight: nat := 256
  /** Colour channels of a normalised bitmap (BGR). */
  const Channels: nat := 3

  /** Lower-cased URL substrings that mark a stand-in image. */
  const PlaceholderKeywords: seq<string> := ["placeholder", "small_image", "default_image", "no_image"]
  /** URL substrings whose images never take part in duplicate detection. */
  const ExcludedDomains: seq<string> := ["storage.googleapis.com"]

  const MinWidth: nat := 1200
  const MinHeight: nat := 1200
  /** Laplacian variance below which an image counts as blurry. */
  const BlurThreshold: real := 100.0

  /** Sentinel written in a report field whose category is empty ("none"). */
  const NoneSentinel: string := "Geen"
}
