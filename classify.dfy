/**
 * Classification of an incoming asset: `thumbnail` or `origin` from its hash,
 * and `image`, `icon` or `file` from its extension.
 */
module Classify {
  import opened JsStrings

  datatype FileType = Origin | Thumbnail

  datatype FileFormat = Image | Icon | File

  /**
   * getFileType: a hash whose text before the first `_` is `thumbnail`
   * marks a thumbnail; every other hash marks an original upload.
   */
  function GetFileType(hash: string): (t: FileType)
    ensures t == Thumbnail <==> (hash == "thumbnail" || "thumbnail_" <= hash)
  {
    SplitHead(hash, '_', "thumbnail");
    if Split(hash, '_')[0] == "thumbnail" then Thumbnail else Origin
  }

  /** getFileFormat: the lower-cased extension decides the format. */
  function GetFileFormat(ext: string): (f: FileFormat)
    ensures f == Image <==>
      EqualsIgnoreCase(ext, ".jpg") || EqualsIgnoreCase(ext, ".jpeg") ||
      EqualsIgnoreCase(ext, ".png") || EqualsIgnoreCase(ext, ".tif") ||
      EqualsIgnoreCase(ext, ".tiff") || EqualsIgnoreCase(ext, ".exr")
    ensures f == Icon <==> EqualsIgnoreCase(ext, ".svg")
  {
    LowerLiterals(ext);
    var e := ToLower(ext);
    if e == ".jpg" || e == ".jpeg" || e == ".png" || e == ".tif" || e == ".tiff" || e == ".exr" then Image
    else if e == ".svg" then Icon
    else File
  }

  /** Matching a lower-case literal after lower-casing is matching it ignoring case. */
  lemma LowerLiterals(ext: string)
    ensures ToLower(ext) == ".jpg" <==> EqualsIgnoreCase(ext, ".jpg")
    ensures ToLower(ext) == ".jpeg" <==> EqualsIgnoreCase(ext, ".jpeg")
    ensures ToLower(ext) == ".png" <==> EqualsIgnoreCase(ext, ".png")
    ensures ToLower(ext) == ".tif" <==> EqualsIgnoreCase(ext, ".tif")
    ensures ToLower(ext) == ".tiff" <==> EqualsIgnoreCase(ext, ".tiff")
    ensures ToLower(ext) == ".exr" <==> EqualsIgnoreCase(ext, ".exr")
    ensures ToLower(ext) == ".svg" <==> EqualsIgnoreCase(ext, ".svg")
  {
    var lits := [".jpg", ".jpeg", ".png", ".tif", ".tiff", ".exr", ".svg"];
    forall k | 0 <= k < |lits|
      ensures ToLower(ext) == lits[k] <==> EqualsIgnoreCase(ext, lits[k])
    {
      ToLowerOfLower(lits[k]);
      ToLowerEqual(ext, lits[k]);
    }
    assert lits[0] == ".jpg" && lits[1] == ".jpeg" && lits[2] == ".png";
    assert lits[3] == ".tif" && lits[4] == ".tiff" && lits[5] == ".exr" && lits[6] == ".svg";
  }

  /** The format does not depend on the case of the extension's letters. */
  lemma FormatIgnoresCase(a: string, b: string)
    requires EqualsIgnoreCase(a, b)
    ensures GetFileFormat(a) == GetFileFormat(b)
  {
    ToLowerEqual(a, b);
  }

  /**
   * The extensions for which uploadLocalSizes starts an ImageMagick
   * conversion, compared case-sensitively, exactly as its branches write
   * them: only lower-case spellings ever convert.
   */
  predicate ConvertibleAsWritten(ext: string)
    ensures ConvertibleAsWritten(ext) ==> forall i :: 0 <= i < |ext| ==> !IsUpper(ext[i])
  {
    ext == ".jpeg" || ext == ".jpg" || ext == ".png" || ext == ".tiff" || ext == ".tif" || ext == ".exr"
  }

  /**
   * The conversion dispatch with the extension lower-cased first, as
   * getFileFormat does: exactly the image extensions convert.
   */
  predicate Convertible(ext: string)
    ensures Convertible(ext) <==> GetFileFormat(ext) == Image
  {
    ConvertibleAsWritten(ToLower(ext))
  }

  /** Every extension the written dispatch converts is an image extension. */
  lemma ConvertibleAsWrittenIsImage(ext: string)
    requires ConvertibleAsWritten(ext)
    ensures GetFileFormat(ext) == Image && Convertible(ext)
  {
    ToLowerOfLower(ext);
  }

  /**
   * On an extension without upper-case letters the written dispatch and the
   * corrected one agree: the two differ only on upper-case spellings.
   */
  lemma DispatchAgreesOnLowerCase(ext: string)
    requires forall i :: 0 <= i < |ext| ==> !IsUpper(ext[i])
    ensures ConvertibleAsWritten(ext) <==> Convertible(ext)
  {
    ToLowerOfLower(ext);
  }

  /** The written dispatch misses upper-case image extensions such as `.JPG`. */
  lemma UpperCaseImageNotConvertedAsWritten()
    ensures GetFileFormat(".JPG") == Image
    ensures !ConvertibleAsWritten(".JPG")
  {
    assert ToLower(".JPG") == ".jpg";
  }
}
