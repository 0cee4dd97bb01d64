/**
 * Variant planning: the `files` list uploadLocalSizes builds on upload, the
 * paths getDeleteAWS walks on delete, and getStreams, which pairs every
 * planned entry with a read stream of its staged file.
 */
module Plan {
  import opened Wrappers
  import opened JsStrings
  import opened Classify
  import opened Sizes
  import opened Keys

  /** What uploadLocalSizes reads from the staged original besides its size request. */
  datatype Staged = Staged(hash: string, ext: string, mime: string, customPath: Option<string>)

  /** One element of the `files` list: a variant to upload and where it is staged. */
  datatype LocalFile = LocalFile(
    customPath: Option<string>, pathAWS: string, pathLocal: string,
    mime: string, hash: string, ext: string)

  /** One element of getStreams' result; `source` is the local file its read stream opens. */
  datatype StreamRecord = StreamRecord(
    customPath: Option<string>, pathAWS: string, mime: string,
    hash: string, ext: string, source: string)

  /** The planned entry of the variant with role `role` (`original`, `file` or a size name). */
  function Entry(tempDir: string, src: Staged, pathAWS: string, role: string): LocalFile
  {
    LocalFile(src.customPath, pathAWS, LocalPath(tempDir, src.hash, role, src.ext), src.mime, src.hash, src.ext)
  }

  function OriginalEntry(tempDir: string, src: Staged): LocalFile
  {
    Entry(tempDir, src, OriginalPath(src.hash, src.ext), "original")
  }

  function SizeEntry(tempDir: string, src: Staged, size: SizeSpec): LocalFile
  {
    Entry(tempDir, src, SizePath(size.name, src.hash, src.ext), size.name)
  }

  function FileEntry(tempDir: string, src: Staged): LocalFile
  {
    Entry(tempDir, src, FilePath(src.hash, src.ext), "file")
  }

  function SizeEntries(tempDir: string, src: Staged, sizes: seq<SizeSpec>): seq<LocalFile>
  {
    seq(|sizes|, i requires 0 <= i < |sizes| => SizeEntry(tempDir, src, sizes[i]))
  }

  /**
   * The `files` list of uploadLocalSizes for the selected sizes: an image
   * starts with its original, followed, unless it is a thumbnail, by one
   * entry per selected size in catalog order; any other original is one
   * `file/` entry; a non-image thumbnail gets no entry at all.
   */
  function UploadPlan(tempDir: string, src: Staged, selected: seq<SizeSpec>): (files: seq<LocalFile>)
    ensures GetFileFormat(src.ext) == Image ==>
      |files| == 1 + (if GetFileType(src.hash) == Origin then |selected| else 0) &&
      files[0].pathAWS == OriginalPath(src.hash, src.ext) &&
      files[0].pathLocal == LocalPath(tempDir, src.hash, "original", src.ext) &&
      forall i :: 1 <= i < |files| ==>
        files[i].pathAWS == SizePath(selected[i - 1].name, src.hash, src.ext) &&
        files[i].pathLocal == LocalPath(tempDir, src.hash, selected[i - 1].name, src.ext)
    ensures GetFileFormat(src.ext) != Image && GetFileType(src.hash) == Origin ==>
      |files| == 1 && files[0].pathAWS == FilePath(src.hash, src.ext) &&
      files[0].pathLocal == LocalPath(tempDir, src.hash, "file", src.ext)
    ensures GetFileFormat(src.ext) != Image && GetFileType(src.hash) == Thumbnail ==> files == []
    ensures forall f :: f in files ==>
      f.customPath == src.customPath && f.hash == src.hash && f.ext == src.ext && f.mime == src.mime
  {
    if GetFileFormat(src.ext) == Image then
      [OriginalEntry(tempDir, src)] +
      (if GetFileType(src.hash) == Origin then SizeEntries(tempDir, src, selected) else [])
    else if GetFileType(src.hash) == Origin then [FileEntry(tempDir, src)]
    else []
  }

  /**
   * How many size conversions report success: the amount by which the
   * `iterations` countdown goes down. `starts` says whether the extension
   * dispatch launches a conversion at all; a launched conversion succeeds
   * when its target file is among `converted`.
   */
  function ConvertedCount(tempDir: string, src: Staged, sizes: seq<SizeSpec>, converted: set<string>, starts: bool): nat
  {
    if sizes == [] then 0
    else
      ConvertedCount(tempDir, src, sizes[..|sizes| - 1], converted, starts) +
      (if starts && SizeEntry(tempDir, src, sizes[|sizes| - 1]).pathLocal in converted then 1 else 0)
  }

  /** Every size of `sizes` was converted into its staged file. */
  predicate AllConverted(tempDir: string, src: Staged, sizes: seq<SizeSpec>, converted: set<string>)
  {
    forall i :: 0 <= i < |sizes| ==> SizeEntry(tempDir, src, sizes[i]).pathLocal in converted
  }

  /** The countdown reaches zero exactly when every launched conversion succeeded. */
  lemma {:induction false} ConvertedCountAll(tempDir: string, src: Staged, sizes: seq<SizeSpec>, converted: set<string>, starts: bool)
    ensures ConvertedCount(tempDir, src, sizes, converted, starts) <= |sizes|
    ensures ConvertedCount(tempDir, src, sizes, converted, starts) == |sizes| <==>
      (sizes == [] || (starts && AllConverted(tempDir, src, sizes, converted)))
  {
    if sizes != [] {
      var init := sizes[..|sizes| - 1];
      ConvertedCountAll(tempDir, src, init, converted, starts);
      assert forall i :: 0 <= i < |init| ==> init[i] == sizes[i];
      if starts && AllConverted(tempDir, src, init, converted) {
        assert AllConverted(tempDir, src, sizes, converted) <==>
          SizeEntry(tempDir, src, sizes[|sizes| - 1]).pathLocal in converted;
      }
    }
  }

  /**
   * Whether the promise of uploadLocalSizes resolves: at once for an image
   * without size variants and for a non-image original; after the last
   * conversion for an image original with sizes; never for a non-image
   * thumbnail or when a conversion is not launched or fails. That is: the
   * plan is not empty and, for an image original, the countdown of
   * successful conversions reaches the number of sizes.
   */
  predicate Resolves(tempDir: string, src: Staged, selected: seq<SizeSpec>, converted: set<string>)
    ensures Resolves(tempDir, src, selected, converted) <==>
      UploadPlan(tempDir, src, selected) != [] &&
      (GetFileFormat(src.ext) == Image && GetFileType(src.hash) == Origin ==>
        ConvertedCount(tempDir, src, selected, converted, Convertible(src.ext)) == |selected|)
  {
    ConvertedCountAll(tempDir, src, selected, converted, Convertible(src.ext));
    if GetFileFormat(src.ext) == Image then
      GetFileType(src.hash) == Thumbnail || selected == [] ||
      (Convertible(src.ext) && AllConverted(tempDir, src, selected, converted))
    else GetFileType(src.hash) == Origin
  }

  /**
   * For an extension without upper-case letters, resolving under the
   * corrected dispatch is resolving under the dispatch as written.
   */
  lemma ResolvesAsWrittenOnLowerCase(tempDir: string, src: Staged, selected: seq<SizeSpec>, converted: set<string>)
    requires forall i :: 0 <= i < |src.ext| ==> !IsUpper(src.ext[i])
    ensures Resolves(tempDir, src, selected, converted) <==>
      UploadPlan(tempDir, src, selected) != [] &&
      (GetFileFormat(src.ext) == Image && GetFileType(src.hash) == Origin ==>
        ConvertedCount(tempDir, src, selected, converted, ConvertibleAsWritten(src.ext)) == |selected|)
  {
    DispatchAgreesOnLowerCase(src.ext);
  }

  /** One more size: one more entry, and one more success when its conversion succeeds. */
  lemma CountdownStep(tempDir: string, src: Staged, selected: seq<SizeSpec>, i: nat, converted: set<string>, starts: bool)
    requires i < |selected|
    ensures SizeEntries(tempDir, src, selected[..i + 1]) ==
      SizeEntries(tempDir, src, selected[..i]) + [SizeEntry(tempDir, src, selected[i])]
    ensures ConvertedCount(tempDir, src, selected[..i + 1], converted, starts) ==
      ConvertedCount(tempDir, src, selected[..i], converted, starts) +
      (if starts && SizeEntry(tempDir, src, selected[i]).pathLocal in converted then 1 else 0)
  {
    assert selected[..i + 1][..i] == selected[..i];
  }

  /**
   * The size loop of uploadLocalSizes: appends one entry per selected size
   * to `files` and counts down `iterations` once per conversion that is
   * launched and succeeds.
   */
  method CountDownSizes(tempDir: string, src: Staged, files0: seq<LocalFile>, selected: seq<SizeSpec>, converted: set<string>, starts: bool)
    returns (files: seq<LocalFile>, iterations: int)
    ensures files == files0 + SizeEntries(tempDir, src, selected)
    ensures iterations == |selected| - ConvertedCount(tempDir, src, selected, converted, starts)
  {
    files, iterations := files0, |selected|;
    var i := 0;
    while i < |selected|
      invariant 0 <= i <= |selected|
      invariant files == files0 + SizeEntries(tempDir, src, selected[..i])
      invariant iterations == |selected| - ConvertedCount(tempDir, src, selected[..i], converted, starts)
    {
      var entry := SizeEntry(tempDir, src, selected[i]);
      files := files + [entry];
      CountdownStep(tempDir, src, selected, i, converted, starts);
      if starts && entry.pathLocal in converted {
        iterations := iterations - 1;
      }
      i := i + 1;
    }
    assert selected[..i] == selected;
  }

  /**
   * uploadLocalSizes: plans the variants of the staged original and counts
   * down the launched conversions; `None` when its promise never resolves.
   * ImageMagick itself is the opaque step `converted`, the set of staged
   * files it produced.
   */
  method UploadLocalSizes(tempDir: string, src: Staged, userSizes: Option<seq<string>>, catalog: seq<SizeSpec>, converted: set<string>)
    returns (files: Option<seq<LocalFile>>)
    ensures files.Some? <==> Resolves(tempDir, src, ImageSizes(catalog, userSizes), converted)
    ensures files.Some? ==> files.value == UploadPlan(tempDir, src, ImageSizes(catalog, userSizes))
  {
    var fileType := GetFileType(src.hash);
    var fileFormat := GetFileFormat(src.ext);
    var selected := ImageSizes(catalog, userSizes);
    if fileFormat == Image {
      var acc := [OriginalEntry(tempDir, src)];
      if |selected| > 0 && fileType != Thumbnail {
        var iterations;
        acc, iterations := CountDownSizes(tempDir, src, acc, selected, converted, Convertible(src.ext));
        files := if iterations == 0 then Some(acc) else None;
      } else {
        files := Some(acc);
      }
    } else if fileType != Thumbnail {
      files := Some([FileEntry(tempDir, src)]);
    } else {
      files := None;
    }
  }

  /** The record getStreams makes of one planned entry. */
  function StreamOf(f: LocalFile): StreamRecord
  {
    StreamRecord(f.customPath, f.pathAWS, f.mime, f.hash, f.ext, f.pathLocal)
  }

  /**
   * getStreams: one record per planned entry, in order, with every field
   * carried over and a read stream of the entry's staged file.
   */
  method GetStreams(localSizes: seq<LocalFile>) returns (files: seq<StreamRecord>)
    ensures |files| == |localSizes|
    ensures forall i :: 0 <= i < |files| ==>
      files[i].customPath == localSizes[i].customPath && files[i].pathAWS == localSizes[i].pathAWS &&
      files[i].mime == localSizes[i].mime && files[i].hash == localSizes[i].hash &&
      files[i].ext == localSizes[i].ext && files[i].source == localSizes[i].pathLocal
  {
    files := [];
    for k := 0 to |localSizes|
      invariant |files| == k
      invariant forall i :: 0 <= i < k ==> files[i] == StreamOf(localSizes[i])
    {
      var item := localSizes[k];
      files := files + [StreamOf(item)];
    }
  }

  /** The key uploadAWS resolves for one record. */
  function StreamKey(r: StreamRecord): string
  {
    ResolveKey(r.customPath, Some(r.pathAWS), r.hash, r.ext)
  }

  /** The keys uploadAWS resolves for the records of a plan, in order. */
  function PlanKeys(files: seq<LocalFile>): seq<string>
  {
    seq(|files|, i requires 0 <= i < |files| => StreamKey(StreamOf(files[i])))
  }

  /** What getDeleteAWS does: the variant paths it deletes, and whether it gets to the end. */
  datatype DeleteRun = DeleteRun(paths: seq<string>, completes: bool)

  function SizePaths(hash: string, ext: string, sizes: seq<SizeSpec>): seq<string>
  {
    seq(|sizes|, i requires 0 <= i < |sizes| => SizePath(sizes[i].name, hash, ext))
  }

  /**
   * getDeleteAWS's walk: an image deletes its original and then, unless it
   * is a thumbnail, every selected size; any other asset deletes its `file/`
   * variant. `selected` is `None` when the stored metadata is not JSON, and
   * iterating over it then throws after the original is gone.
   */
  function DeletePlan(hash: string, ext: string, selected: Option<seq<SizeSpec>>): (run: DeleteRun)
    ensures |run.paths| >= 1
    ensures !run.completes <==> GetFileFormat(ext) == Image && GetFileType(hash) == Origin && selected.None?
  {
    if GetFileFormat(ext) == Image then
      if GetFileType(hash) == Thumbnail then DeleteRun([OriginalPath(hash, ext)], true)
      else if selected.None? then DeleteRun([OriginalPath(hash, ext)], false)
      else DeleteRun([OriginalPath(hash, ext)] + SizePaths(hash, ext, selected.value), true)
    else DeleteRun([FilePath(hash, ext)], true)
  }

  /** The delete walk as one list: the head variant, then the selected sizes of an image original. */
  lemma DeletePlanShape(hash: string, ext: string, selected: Option<seq<SizeSpec>>)
    ensures DeletePlan(hash, ext, selected).paths ==
      [if GetFileFormat(ext) == Image then OriginalPath(hash, ext) else FilePath(hash, ext)] +
      (if GetFileFormat(ext) == Image && GetFileType(hash) == Origin && selected.Some?
       then SizePaths(hash, ext, selected.value) else [])
  {
  }

  /** The variant the delete walk ends on: the last selected size of an image original, else the head. */
  function LastDeletedPath(hash: string, ext: string, selected: Option<seq<SizeSpec>>): string
  {
    if GetFileFormat(ext) == Image && GetFileType(hash) == Origin && selected.Some? && selected.value != []
    then SizePath(selected.value[|selected.value| - 1].name, hash, ext)
    else if GetFileFormat(ext) == Image then OriginalPath(hash, ext) else FilePath(hash, ext)
  }

  /** The keys deleteAWS resolves for the paths of a delete run. */
  function DeleteKeys(customPath: Option<string>, hash: string, ext: string, paths: seq<string>): seq<string>
  {
    seq(|paths|, i requires 0 <= i < |paths| => ResolveKey(customPath, Some(paths[i]), hash, ext))
  }

  /** The keys of two runs of paths, one after the other. */
  lemma DeleteKeysAppend(customPath: Option<string>, hash: string, ext: string, a: seq<string>, b: seq<string>)
    ensures DeleteKeys(customPath, hash, ext, a + b) == DeleteKeys(customPath, hash, ext, a) + DeleteKeys(customPath, hash, ext, b)
  {
    var whole := DeleteKeys(customPath, hash, ext, a + b);
    var parts := DeleteKeys(customPath, hash, ext, a) + DeleteKeys(customPath, hash, ext, b);
    forall i | 0 <= i < |whole| ensures whole[i] == parts[i] {
      if i < |a| {
        assert (a + b)[i] == a[i];
      } else {
        assert (a + b)[i] == b[i - |a|];
      }
    }
  }

  /**
   * The central invariant: for an image, or for any original, deleting with
   * the custom path and sizes the upload used resolves exactly the keys the
   * upload resolved, in the same order, and runs to the end.
   */
  lemma UploadDeleteKeysAgree(tempDir: string, src: Staged, selected: seq<SizeSpec>)
    requires GetFileFormat(src.ext) == Image || GetFileType(src.hash) == Origin
    ensures DeletePlan(src.hash, src.ext, Some(selected)).completes
    ensures PlanKeys(UploadPlan(tempDir, src, selected)) ==
      DeleteKeys(src.customPath, src.hash, src.ext, DeletePlan(src.hash, src.ext, Some(selected)).paths)
  {
    var files := UploadPlan(tempDir, src, selected);
    var paths := DeletePlan(src.hash, src.ext, Some(selected)).paths;
    assert |files| == |paths|;
    forall i | 0 <= i < |files|
      ensures PlanKeys(files)[i] == DeleteKeys(src.customPath, src.hash, src.ext, paths)[i]
    {
      assert files[i].pathAWS == paths[i];
    }
  }

  /**
   * A non-image thumbnail is never uploaded, yet delete still removes its
   * `file/` key; the store tolerates removing a key it does not hold.
   */
  lemma NonImageThumbnailUploadsNothing(tempDir: string, src: Staged, selected: seq<SizeSpec>, converted: set<string>)
    requires GetFileFormat(src.ext) != Image && GetFileType(src.hash) == Thumbnail
    ensures UploadPlan(tempDir, src, selected) == []
    ensures !Resolves(tempDir, src, selected, converted)
    ensures DeletePlan(src.hash, src.ext, Some(selected)).paths == [FilePath(src.hash, src.ext)]
  {
  }

  /**
   * Every planned variant gets its own key, provided the selected sizes have
   * distinct names and none is called `original`.
   */
  lemma PlanKeysDistinct(tempDir: string, src: Staged, selected: seq<SizeSpec>)
    requires forall i, j :: 0 <= i < j < |selected| ==> selected[i].name != selected[j].name
    requires forall i :: 0 <= i < |selected| ==> selected[i].name != "original"
    ensures forall i, j :: 0 <= i < j < |UploadPlan(tempDir, src, selected)| ==>
      PlanKeys(UploadPlan(tempDir, src, selected))[i] != PlanKeys(UploadPlan(tempDir, src, selected))[j]
  {
    var files := UploadPlan(tempDir, src, selected);
    var keys := PlanKeys(files);
    forall i, j | 0 <= i < j < |files| ensures keys[i] != keys[j] {
      if keys[i] == keys[j] {
        assert files[i].pathAWS != "" && files[j].pathAWS != "";
        ResolveKeyInjective(src.customPath, files[i].pathAWS, files[j].pathAWS, src.hash, src.ext);
        var ni := if i == 0 then "original" else selected[i - 1].name;
        SizePathInjective(ni, selected[j - 1].name, src.hash, src.ext);
        assert false;
      }
    }
  }

  /**
   * A size named `original` resolves to the original's own key, so its
   * resized upload lands on top of the original.
   */
  lemma SizeNamedOriginalCollides(tempDir: string, src: Staged, options: string)
    requires GetFileFormat(src.ext) == Image && GetFileType(src.hash) == Origin
    ensures var keys := PlanKeys(UploadPlan(tempDir, src, [SizeSpec("original", options)]));
      |keys| == 2 && keys[0] == keys[1]
  {
  }

  /** Without a custom path, each key is its variant path. */
  lemma KeysWithoutCustomPath(hash: string, ext: string, paths: seq<string>)
    requires forall i :: 0 <= i < |paths| ==> paths[i] != ""
    ensures DeleteKeys(None, hash, ext, paths) == paths
  {
  }

  lemma ScenarioJpegFacts(catalog: seq<SizeSpec>)
    requires catalog == [SizeSpec("thumb", "-resize 100")]
    ensures GetFileType("a1") == Origin && GetFileFormat(".jpg") == Image
    ensures ImageSizes(catalog, Some(["thumb"])) == catalog
    ensures DeletePlan("a1", ".jpg", Some(catalog)).paths == [OriginalPath("a1", ".jpg"), SizePath("thumb", "a1", ".jpg")]
  {
    assert |"a1"| < |"thumbnail_"|;
    JsStrings.ToLowerOfLower(".jpg");
    assert catalog[0].name in ["thumb"] && catalog[1..] == [];
    assert Filter(catalog, ["thumb"]) == [catalog[0]] + Filter([], ["thumb"]);
    assert SizePaths("a1", ".jpg", catalog) == [SizePath("thumb", "a1", ".jpg")];
  }

  lemma ScenarioJpegPaths()
    ensures OriginalPath("a1", ".jpg") == "original/a1_original.jpg"
    ensures SizePath("thumb", "a1", ".jpg") == "thumb/a1_thumb.jpg"
  {
  }

  /** A JPEG original `a1` with a one-size catalog `thumb` stores two objects. */
  lemma ScenarioJpegWithThumb(tempDir: string, catalog: seq<SizeSpec>)
    requires catalog == [SizeSpec("thumb", "-resize 100")]
    ensures PlanKeys(UploadPlan(tempDir, Staged("a1", ".jpg", "image/jpeg", None), ImageSizes(catalog, Some(["thumb"]))))
      == ["original/a1_original.jpg", "thumb/a1_thumb.jpg"]
  {
    ScenarioJpegFacts(catalog);
    UploadDeleteKeysAgree(tempDir, Staged("a1", ".jpg", "image/jpeg", None), catalog);
    ScenarioJpegPaths();
    KeysWithoutCustomPath("a1", ".jpg", [OriginalPath("a1", ".jpg"), SizePath("thumb", "a1", ".jpg")]);
  }

  lemma ScenarioPdfFormat()
    ensures GetFileType("doc1") == Origin && GetFileFormat(".pdf") == File
  {
    assert |"doc1"| < |"thumbnail_"|;
    JsStrings.ToLowerOfLower(".pdf");
  }

  lemma ScenarioPdfFacts(selected: seq<SizeSpec>)
    ensures GetFileType("doc1") == Origin && GetFileFormat(".pdf") == File
    ensures DeletePlan("doc1", ".pdf", Some(selected)).paths == [FilePath("doc1", ".pdf")]
  {
    ScenarioPdfFormat();
  }

  lemma ScenarioPdfPath()
    ensures FilePath("doc1", ".pdf") == "file/doc1_file.pdf"
  {
  }

  /** A PDF `doc1` stores exactly one object, whatever sizes are selected. */
  lemma ScenarioPdf(tempDir: string, selected: seq<SizeSpec>)
    ensures PlanKeys(UploadPlan(tempDir, Staged("doc1", ".pdf", "application/pdf", None), selected)) == ["file/doc1_file.pdf"]
  {
    ScenarioPdfFacts(selected);
    ScenarioPdfPath();
    UploadDeleteKeysAgree(tempDir, Staged("doc1", ".pdf", "application/pdf", None), selected);
    KeysWithoutCustomPath("doc1", ".pdf", [FilePath("doc1", ".pdf")]);
  }

  /**
   * Conversion dispatch as written: a `.JPG` original with one selected size
   * whose conversion would succeed never counts down, so the plan is never
   * handed on, while the corrected dispatch resolves.
   */
  lemma UpperCaseExtensionStallsAsWritten(tempDir: string, catalog: seq<SizeSpec>)
    requires catalog == [SizeSpec("thumb", "-resize 100")]
    ensures var src := Staged("a1", ".JPG", "image/jpeg", None);
      var converted := {SizeEntry(tempDir, src, catalog[0]).pathLocal};
      GetFileFormat(".JPG") == Image && GetFileType("a1") == Origin &&
      AllConverted(tempDir, src, catalog, converted) &&
      ConvertedCount(tempDir, src, catalog, converted, ConvertibleAsWritten(".JPG")) == 0 &&
      ConvertedCount(tempDir, src, catalog, converted, Convertible(".JPG")) == 1 &&
      Resolves(tempDir, src, catalog, converted)
  {
    var src := Staged("a1", ".JPG", "image/jpeg", None);
    var converted := {SizeEntry(tempDir, src, catalog[0]).pathLocal};
    UpperCaseImageNotConvertedAsWritten();
    assert |"a1"| < |"thumbnail_"|;
    assert catalog[..0] == [];
    assert ConvertedCount(tempDir, src, catalog, converted, false) == 0;
    assert ConvertedCount(tempDir, src, catalog, converted, true) == 1;
  }

  /** With the corrected dispatch, an image original resolves once all its conversions succeeded. */
  lemma ImagesResolveWhenConverted(tempDir: string, src: Staged, selected: seq<SizeSpec>, converted: set<string>)
    requires GetFileFormat(src.ext) == Image
    requires AllConverted(tempDir, src, selected, converted)
    ensures Resolves(tempDir, src, selected, converted)
  {
  }
}
