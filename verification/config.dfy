/** The fixed configuration of the OCR service (ocr_service/ocr_vl/config.py). */
module Config {
  /** Extensions, lower-case and with their dot, that a directory scan keeps. */
  const IMAGE_EXTS: set<string> := {".png", ".jpg", ".jpeg", ".bmp", ".tiff", ".webp"}

  /** Name prefix of the temporary file a downloaded image is written to. */
  const TMP_PREFIX: string := "paddleocr_vl_"

  /** Separator placed between the per-image sections of the merged document. */
  const MERGE_SEPARATOR: string := "\n\n---\n\n"
}
