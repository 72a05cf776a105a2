/**
 * A source image as the pipeline meets it. Everything the image library, the
 * file system and the clock would report about one path is recorded here, so
 * that the batch is a deterministic function of these records.
 */
module Sources {
  import opened Wrappers
  import opened Timestamp

  /**
   * How far processing of a file gets: `Image.open` or `exif_transpose` raises;
   * a later step (`convert`, `thumbnail`, `save`) raises; or the save completes.
   */
  datatype Outcome = FailsBeforeNaming | FailsAfterNaming | Succeeds

  datatype SourceFile = SourceFile(
    name: string,                   // final path component, suffix included
    exif: seq<ExifEntry>,           // img.getexif() items (empty when unreadable)
    mtime: Option<Date>,            // modification date, None when stat fails
    now: Date,                      // the clock reading when the file is processed
    mode: string,                   // Pillow image mode, e.g. "RGB", "RGBA", "P"
    exifBlock: Option<seq<bv8>>,    // im.info.get('exif')
    iccProfile: Option<seq<bv8>>,   // im.info.get('icc_profile')
    outcome: Outcome
  )
}
