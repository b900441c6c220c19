/** The gated features and their free-tier limits (src/constants/limits.js). */
module Limits {

  /** The keys of FREE_LIMITS; each names one gated capability. */
  datatype Feature =
    | ImagesToPdf    // IMAGES_TO_PDF
    | PdfToImages    // PDF_TO_IMAGES
    | MergePdfs      // MERGE_PDFS
    | SplitPdfPages  // SPLIT_PDF_PAGES
    | CompressPdf    // COMPRESS_PDF
    | RotatePdf      // ROTATE_PDF
    | DeletePages    // DELETE_PAGES

  /** FREE_LIMITS[feature]. Some are daily operation counts, some per-operation caps. */
  function FreeLimit(f: Feature): nat
  {
    match f
    case ImagesToPdf => 5
    case PdfToImages => 3
    case MergePdfs => 2
    case SplitPdfPages => 5
    case CompressPdf => 3
    case RotatePdf => 3
    case DeletePages => 5
  }

  /** The cap the screens use instead of a free limit when the user is pro. */
  const ProCap: nat := 999
}
