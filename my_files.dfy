/**
 * The presentation rules of app/MyFiles/page.tsx: the preview chosen from a
 * file name's extension, the truncated display name, and the shading of
 * the cards row by row.
 */
module MyFiles {
  import opened Text

  /** What a card shows: the image itself, or a PDF, WORD or FILE badge. */
  datatype Preview = ImagePreview | PdfBadge | WordBadge | FileBadge

  /** `file.filename.split(".").pop()?.toLowerCase()`. */
  function Extension(filename: string): string {
    ToLower(LastSegment(filename, '.'))
  }

  /** `getFileIcon(file)`. */
  function PreviewOf(filename: string): Preview {
    var ext := Extension(filename);
    if ext in ["jpg", "jpeg", "png", "gif", "bmp"] then ImagePreview
    else if ext == "pdf" then PdfBadge
    else if ext == "docx" || ext == "doc" then WordBadge
    else FileBadge
  }

  /** Lower-casing twice is lower-casing once. */
  lemma ToLowerIdempotent(s: string)
    ensures ToLower(ToLower(s)) == ToLower(s)
  {
  }

  /**
   * The extension is the lower-cased text after the last dot (the whole
   * name when there is none), so the classification ignores letter case:
   * a name and its lower-cased form get the same preview.
   */
  lemma PreviewIgnoresCase(filename: string)
    ensures Extension(ToLower(filename)) == Extension(filename)
    ensures PreviewOf(ToLower(filename)) == PreviewOf(filename)
  {
    LastSegmentToLower(filename);
    ToLowerIdempotent(LastSegment(filename, '.'));
  }

  /** A name ending in `.JPG` (in upper case) still gets the image preview. */
  lemma UpperCaseImage(stem: string)
    ensures PreviewOf(stem + ".JPG") == ImagePreview
  {
    var s := stem + ".JPG";
    assert s == stem + ['.'] + "JPG";
    LastSegmentAfter(stem, '.', "JPG");
    assert LastSegment(s, '.') == "JPG";
    assert ToLower("JPG") == "jpg";
  }

  /** The characters of a name a card shows before truncation. */
  const ShownPrefix: nat := 15

  /** `filename.length > 15 ? filename.substring(0, 15) + "..." + extension : filename`. */
  function DisplayName(filename: string): string {
    if |filename| > ShownPrefix then filename[..ShownPrefix] + "..." + LastSegment(filename, '.') else filename
  }

  /**
   * Short names are shown unchanged; a longer one shows its first 15
   * characters, `...`, and then its own ending after the last dot (not
   * lower-cased; the whole name again when it has no dot).
   */
  lemma DisplayNameRule(filename: string)
    ensures |filename| <= ShownPrefix ==> DisplayName(filename) == filename
    ensures |filename| > ShownPrefix ==>
      var d := DisplayName(filename);
      var tail := |d| - ShownPrefix - 3;
      0 <= tail <= |filename| && d[..ShownPrefix] == filename[..ShownPrefix] && d[ShownPrefix..ShownPrefix + 3] == "..." &&
      d[ShownPrefix + 3..] == filename[|filename| - tail..] && '.' !in d[ShownPrefix + 3..] &&
      (tail < |filename| ==> filename[|filename| - tail - 1] == '.')
  {
    LastSegmentSpec(filename, '.');
    if |filename| > ShownPrefix {
      var d := DisplayName(filename);
      assert d[ShownPrefix + 3..] == LastSegment(filename, '.');
    }
  }

  /** `Math.floor(index / 4) % 2 === 0`: the card gets the light blue background. */
  predicate Shaded(index: nat) {
    (index / 4) % 2 == 0
  }

  /**
   * Shading goes by rows of four: the cards of one row share it, and the
   * next row has the other one.
   */
  lemma ShadingByRows(index: nat)
    ensures Shaded(index) == Shaded(index - index % 4)
    ensures Shaded(index + 4) == !Shaded(index)
  {
    assert (index - index % 4) / 4 == index / 4;
    assert (index + 4) / 4 == index / 4 + 1;
  }
}
