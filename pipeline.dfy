/**
 * The upload and delete coordinators: the file record the host hands in and
 * the helpers update in place, staging, the upload of every planned variant,
 * and the delete that re-derives the same keys.
 */
module Pipeline {
  import opened Wrappers
  import opened JsStrings
  import opened Classify
  import opened Sizes
  import opened Keys
  import opened Plan
  import opened Store

  /**
   * Upload options as JSON: the record's `path` on upload, its
   * `provider_metadata` on delete. `NotJson` is whatever checkJson rejects.
   */
  datatype Metadata = NotJson | Json(uploadPath: Option<string>, imageSizes: Option<string>)

  /** The plugin configuration the core reads. */
  datatype Config = Config(endpoint: string, bucket: string, tempDir: string, catalog: seq<SizeSpec>)

  /** The record's `custom_path` and `userSizes`. */
  datatype Custom = Custom(customPath: Option<string>, userSizes: Option<seq<string>>)

  /**
   * The record's custom values once JSON options are applied: `upload_path`
   * becomes the custom path and the comma-separated `imageSizes` the
   * requested names; other options leave the record as it was.
   */
  function ApplyMetadata(meta: Metadata, prior: Custom): (c: Custom)
    ensures meta.NotJson? ==> c == prior
    ensures meta.Json? ==> c.customPath == meta.uploadPath
    ensures meta.Json? ==> (c.userSizes.Some? <==> meta.imageSizes.Some? && meta.imageSizes.value != "")
    ensures meta.Json? && c.userSizes.Some? ==>
      |c.userSizes.value| >= 1 && Join(c.userSizes.value, ',') == meta.imageSizes.value &&
      SeparatorFree(c.userSizes.value, ',')
  {
    match meta
    case NotJson => prior
    case Json(uploadPath, imageSizes) => Custom(uploadPath, ParseSizeNames(imageSizes))
  }

  /** The path of the variant the asset's URL points at: its original, or its `file/` variant. */
  function HeadPath(hash: string, ext: string): string
  {
    if GetFileFormat(ext) == Image then OriginalPath(hash, ext) else FilePath(hash, ext)
  }

  /** The role name in the staged file of the head variant. */
  function HeadRole(ext: string): string
  {
    if GetFileFormat(ext) == Image then "original" else "file"
  }

  /** What getDeleteAWS iterates over: the selected sizes, or nothing iterable without JSON metadata. */
  function DeleteSelection(meta: Metadata, catalog: seq<SizeSpec>, userSizes: Option<seq<string>>): Option<seq<SizeSpec>>
  {
    if meta.Json? then Some(ImageSizes(catalog, userSizes)) else None
  }

  /** The `provider_metadata` a record carries after staging: only the stream helper records its options. */
  function RecordedMetadata(useStream: bool, path: Metadata, prior: Metadata): Metadata
  {
    if useStream then path else prior
  }

  /** The file record of one request, as the host builds it and the helpers update it. */
  class Asset {
    const hash: string
    const ext: string
    const mime: string
    /** The request's `path`, which carries the upload options. */
    const path: Metadata
    var customPath: Option<string>
    var userSizes: Option<seq<string>>
    var url: Option<string>
    var pathLocal: Option<string>
    var providerMetadata: Metadata
    var pathAWS: Option<string>

    constructor (hash: string, ext: string, mime: string, path: Metadata, providerMetadata: Metadata)
      ensures this.hash == hash && this.ext == ext && this.mime == mime && this.path == path
      ensures this.providerMetadata == providerMetadata
      ensures customPath == None && userSizes == None && url == None && pathLocal == None && pathAWS == None
    {
      this.hash := hash;
      this.ext := ext;
      this.mime := mime;
      this.path := path;
      this.providerMetadata := providerMetadata;
      customPath, userSizes, url, pathLocal, pathAWS := None, None, None, None, None;
    }

    function CustomValues(): Custom
      reads this
    {
      Custom(customPath, userSizes)
    }

    function StagedView(): Staged
      reads this
    {
      Plan.Staged(hash, ext, mime, customPath)
    }

    /** Copies `upload_path` and the split `imageSizes` onto the record when the options are JSON. */
    method ApplyCustomValues(meta: Metadata)
      modifies this`customPath, this`userSizes
      ensures CustomValues() == ApplyMetadata(meta, old(CustomValues()))
    {
      if meta.Json? {
        customPath := meta.uploadPath;
        userSizes := ParseSizeNames(meta.imageSizes);
      }
    }

    /**
     * uploadLocal: applies the options, writes the buffer to the scratch
     * directory (`writeOk` is whether that write succeeds) and then sets the
     * public URL and the staged path. `provider_metadata` is left as it was.
     */
    method UploadLocal(config: Config, writeOk: bool) returns (ok: bool)
      modifies this
      ensures CustomValues() == ApplyMetadata(path, old(CustomValues()))
      ensures ok == writeOk
      ensures url == if ok then Some(ResolveUrl(BucketEndpoint(config.endpoint, config.bucket), customPath, Some(HeadPath(hash, ext)), hash, ext)) else old(url)
      ensures pathLocal == if ok then Some(LocalPath(config.tempDir, hash, HeadRole(ext), ext)) else old(pathLocal)
      ensures providerMetadata == RecordedMetadata(false, path, old(providerMetadata))
      ensures pathAWS == old(pathAWS)
    {
      var endpoint := BucketEndpoint(config.endpoint, config.bucket);
      ApplyCustomValues(path);
      ok := writeOk;
      if ok {
        if GetFileFormat(ext) == Image {
          var origPathAWS := OriginalPath(hash, ext);
          url := Some(ResolveUrl(endpoint, customPath, Some(origPathAWS), hash, ext));
          pathLocal := Some(LocalPath(config.tempDir, hash, "original", ext));
        } else {
          var origPathAWS := FilePath(hash, ext);
          url := Some(ResolveUrl(endpoint, customPath, Some(origPathAWS), hash, ext));
          pathLocal := Some(LocalPath(config.tempDir, hash, "file", ext));
        }
      }
    }

    /**
     * uploadLocalStream: applies the options, sets the public URL, the staged
     * path and `provider_metadata` (the parsed options), then drains the
     * stream into the scratch directory (`drainOk` is whether that succeeds).
     */
    method UploadLocalStream(config: Config, drainOk: bool) returns (ok: bool)
      modifies this
      ensures CustomValues() == ApplyMetadata(path, old(CustomValues()))
      ensures ok == drainOk
      ensures url == Some(ResolveUrl(BucketEndpoint(config.endpoint, config.bucket), customPath, Some(HeadPath(hash, ext)), hash, ext))
      ensures pathLocal == Some(LocalPath(config.tempDir, hash, HeadRole(ext), ext))
      ensures providerMetadata == RecordedMetadata(true, path, old(providerMetadata))
      ensures pathAWS == old(pathAWS)
    {
      var endpoint := BucketEndpoint(config.endpoint, config.bucket);
      ApplyCustomValues(path);
      if GetFileFormat(ext) == Image {
        var origPathAWS := OriginalPath(hash, ext);
        url := Some(ResolveUrl(endpoint, customPath, Some(origPathAWS), hash, ext));
        pathLocal := Some(LocalPath(config.tempDir, hash, "original", ext));
      } else {
        var origPathAWS := FilePath(hash, ext);
        url := Some(ResolveUrl(endpoint, customPath, Some(origPathAWS), hash, ext));
        pathLocal := Some(LocalPath(config.tempDir, hash, "file", ext));
      }
      providerMetadata := path;
      ok := drainOk;
    }

    /** deleteAWS: removes the key the record currently resolves to. */
    method DeleteAWS(bucket: Bucket)
      modifies bucket
      ensures bucket.objects == old(bucket.objects) - {ResolveKey(customPath, pathAWS, hash, ext)}
    {
      var key := ResolveKey(customPath, pathAWS, hash, ext);
      bucket.DeleteObject(key);
    }

    /**
     * The size loop of getDeleteAWS: points the record at each size variant
     * in turn and deletes the key it then resolves to.
     */
    method DeleteSizes(bucket: Bucket, sizes: seq<SizeSpec>)
      modifies this`pathAWS, bucket
      ensures bucket.objects == RemoveAll(old(bucket.objects), DeleteKeys(customPath, hash, ext, SizePaths(hash, ext, sizes)))
      ensures pathAWS == if sizes == [] then old(pathAWS) else Some(SizePath(sizes[|sizes| - 1].name, hash, ext))
    {
      ghost var keys := DeleteKeys(customPath, hash, ext, SizePaths(hash, ext, sizes));
      var i := 0;
      while i < |sizes|
        invariant 0 <= i <= |sizes|
        invariant bucket.objects == RemoveAll(old(bucket.objects), keys[..i])
        invariant pathAWS == if i == 0 then old(pathAWS) else Some(SizePath(sizes[i - 1].name, hash, ext))
      {
        pathAWS := Some(SizePath(sizes[i].name, hash, ext));
        assert keys[i] == ResolveKey(customPath, pathAWS, hash, ext);
        RemoveAllStep(old(bucket.objects), keys, i);
        DeleteAWS(bucket);
        i := i + 1;
      }
      assert keys[..i] == keys;
    }

    /**
     * The deletes of getDeleteAWS once the options are applied: the head
     * variant, then, for an image original, every selected size. `selected`
     * is `None` when the stored options are not JSON; an image original then
     * stops after its head variant.
     */
    method DeleteVariants(bucket: Bucket, selected: Option<seq<SizeSpec>>) returns (completed: bool)
      modifies this`pathAWS, bucket
      ensures var run := DeletePlan(hash, ext, selected);
        completed == run.completes &&
        bucket.objects == RemoveAll(old(bucket.objects), DeleteKeys(customPath, hash, ext, run.paths)) &&
        pathAWS == Some(LastDeletedPath(hash, ext, selected))
    {
      var fileType := GetFileType(hash);
      var fileFormat := GetFileFormat(ext);
      DeletePlanShape(hash, ext, selected);
      var head := if fileFormat == Image then OriginalPath(hash, ext) else FilePath(hash, ext);
      pathAWS := Some(head);
      DeleteAWS(bucket);
      ghost var headKeys := DeleteKeys(customPath, hash, ext, [head]);
      assert bucket.objects == RemoveAll(old(bucket.objects), headKeys) by {
        assert headKeys[..0] == [];
      }
      completed := true;
      if fileFormat == Image && fileType != Thumbnail {
        if selected.None? {
          return false;
        }
        var sizes := selected.value;
        DeleteSizes(bucket, sizes);
        DeleteKeysAppend(customPath, hash, ext, [head], SizePaths(hash, ext, sizes));
        RemoveAllAppend(old(bucket.objects), headKeys, DeleteKeys(customPath, hash, ext, SizePaths(hash, ext, sizes)));
      }
    }

    /**
     * getDeleteAWS: applies the stored options, then deletes the original
     * and every selected size of an image (only the original of a
     * thumbnail), or the `file/` variant of anything else. Without JSON
     * options an image original stops after its original, where iterating
     * over the missing size list throws; `completed` is false then.
     */
    method GetDeleteAWS(bucket: Bucket, catalog: seq<SizeSpec>) returns (completed: bool)
      modifies this, bucket
      ensures CustomValues() == ApplyMetadata(providerMetadata, old(CustomValues()))
      ensures var run := DeletePlan(hash, ext, DeleteSelection(providerMetadata, catalog, userSizes));
        completed == run.completes &&
        bucket.objects == RemoveAll(old(bucket.objects), DeleteKeys(customPath, hash, ext, run.paths)) &&
        pathAWS == Some(LastDeletedPath(hash, ext, DeleteSelection(providerMetadata, catalog, userSizes)))
      ensures url == old(url) && pathLocal == old(pathLocal) && providerMetadata == old(providerMetadata)
    {
      var userImageSizes: Option<seq<SizeSpec>> := None;
      if providerMetadata.Json? {
        ApplyCustomValues(providerMetadata);
        userImageSizes := Some(ImageSizes(catalog, userSizes));
      }
      completed := DeleteVariants(bucket, userImageSizes);
    }
  }

  /** The puts uploadAWS performs for a list of records: each body read from its staged file. */
  function Puts(files: seq<StreamRecord>, contentOf: string -> seq<bv8>): seq<Put>
  {
    seq(|files|, i requires 0 <= i < |files| => Put(StreamKey(files[i]), StoredObject(contentOf(files[i].source), files[i].mime)))
  }

  /**
   * uploadAWS: stores every record under its resolved key with its mime
   * type, and collects the locations the store answers with.
   */
  method UploadAWS(bucket: Bucket, files: seq<StreamRecord>, contentOf: string -> seq<bv8>) returns (locations: seq<string>)
    modifies bucket
    ensures bucket.objects == PutAll(old(bucket.objects), Puts(files, contentOf))
    ensures |locations| == |files|
    ensures forall i :: 0 <= i < |files| ==> locations[i] == bucket.baseUrl + "/" + StreamKey(files[i])
  {
    locations := [];
    var puts := Puts(files, contentOf);
    for i := 0 to |files|
      invariant bucket.objects == PutAll(old(bucket.objects), puts[..i])
      invariant |locations| == i
      invariant forall j :: 0 <= j < i ==> locations[j] == bucket.baseUrl + "/" + puts[j].key
    {
      var file := files[i];
      var key := StreamKey(file);
      assert puts[i] == Put(key, StoredObject(contentOf(file.source), file.mime));
      var location := bucket.Upload(key, StoredObject(contentOf(file.source), file.mime));
      PutAllStep(old(bucket.objects), puts, i);
      locations := locations + [location];
    }
    assert puts[..|files|] == puts;
  }

  /** The records getStreams makes of a plan. */
  function StreamsOf(files: seq<LocalFile>): seq<StreamRecord>
  {
    seq(|files|, i requires 0 <= i < |files| => StreamOf(files[i]))
  }

  /** The puts of a whole upload: none unless the planning step hands its list on. */
  function UploadPuts(config: Config, src: Staged, userSizes: Option<seq<string>>, converted: set<string>, contentOf: string -> seq<bv8>): seq<Put>
  {
    var selected := ImageSizes(config.catalog, userSizes);
    if Resolves(config.tempDir, src, selected, converted) then
      Puts(StreamsOf(UploadPlan(config.tempDir, src, selected)), contentOf)
    else []
  }

  /**
   * The staging step of uploadLogic: the stream helper when the request
   * carries a stream, the buffer helper otherwise.
   */
  method Stage(asset: Asset, config: Config, useStream: bool, stagingOk: bool) returns (ok: bool)
    modifies asset
    ensures ok == stagingOk
    ensures asset.CustomValues() == ApplyMetadata(asset.path, old(asset.CustomValues()))
    ensures asset.providerMetadata == RecordedMetadata(useStream, asset.path, old(asset.providerMetadata))
    ensures useStream || stagingOk ==>
      asset.url == Some(ResolveUrl(BucketEndpoint(config.endpoint, config.bucket), asset.customPath,
        Some(HeadPath(asset.hash, asset.ext)), asset.hash, asset.ext))
    ensures !(useStream || stagingOk) ==> asset.url == old(asset.url)
    ensures useStream || stagingOk ==>
      asset.pathLocal == Some(LocalPath(config.tempDir, asset.hash, HeadRole(asset.ext), asset.ext))
    ensures !(useStream || stagingOk) ==> asset.pathLocal == old(asset.pathLocal)
    ensures asset.pathAWS == old(asset.pathAWS)
  {
    if useStream {
      ok := asset.UploadLocalStream(config, stagingOk);
    } else {
      ok := asset.UploadLocal(config, stagingOk);
    }
  }

  /**
   * What uploadLogic does with a staged original: plans and converts the
   * variants, pairs them with read streams and uploads them. `stored` says
   * whether the planning step handed its list on; the first location is
   * that of the head variant.
   */
  method UploadStaged(bucket: Bucket, config: Config, src: Staged, userSizes: Option<seq<string>>,
    converted: set<string>, contentOf: string -> seq<bv8>)
    returns (stored: bool, locations: seq<string>)
    modifies bucket
    ensures stored == Resolves(config.tempDir, src, ImageSizes(config.catalog, userSizes), converted)
    ensures bucket.objects == PutAll(old(bucket.objects), UploadPuts(config, src, userSizes, converted, contentOf))
    ensures |locations| == |UploadPuts(config, src, userSizes, converted, contentOf)|
    ensures forall i :: 0 <= i < |locations| ==>
      locations[i] == bucket.baseUrl + "/" + UploadPuts(config, src, userSizes, converted, contentOf)[i].key
    ensures stored ==>
      locations[0] == bucket.baseUrl + "/" + ResolveKey(src.customPath, Some(HeadPath(src.hash, src.ext)), src.hash, src.ext)
  {
    var localSizes := UploadLocalSizes(config.tempDir, src, userSizes, config.catalog, converted);
    if localSizes.None? {
      assert UploadPuts(config, src, userSizes, converted, contentOf) == [];
      return false, [];
    }
    var plan := localSizes.value;
    var streams := GetStreams(plan);
    assert streams == StreamsOf(plan);
    UploadPutsOfPlan(config, src, userSizes, converted, contentOf);
    ghost var puts := Puts(streams, contentOf);
    assert UploadPuts(config, src, userSizes, converted, contentOf) == puts;
    locations := UploadAWS(bucket, streams, contentOf);
    stored := true;
    forall i | 0 <= i < |locations|
      ensures locations[i] == bucket.baseUrl + "/" + puts[i].key
    {
      assert puts[i].key == StreamKey(streams[i]);
    }
  }

  /** Once the planning step resolves, the puts are those of the plan, and the first is the head variant's. */
  lemma UploadPutsOfPlan(config: Config, src: Staged, userSizes: Option<seq<string>>,
    converted: set<string>, contentOf: string -> seq<bv8>)
    requires Resolves(config.tempDir, src, ImageSizes(config.catalog, userSizes), converted)
    ensures var puts := UploadPuts(config, src, userSizes, converted, contentOf);
      puts == Puts(StreamsOf(UploadPlan(config.tempDir, src, ImageSizes(config.catalog, userSizes))), contentOf) &&
      |puts| >= 1 && puts[0].key == ResolveKey(src.customPath, Some(HeadPath(src.hash, src.ext)), src.hash, src.ext)
  {
    var selected := ImageSizes(config.catalog, userSizes);
    var plan := UploadPlan(config.tempDir, src, selected);
    var streams := StreamsOf(plan);
    var puts := UploadPuts(config, src, userSizes, converted, contentOf);
    assert puts == Puts(streams, contentOf);
    assert plan != [];
    assert plan[0] in plan;
    assert plan[0].pathAWS == HeadPath(src.hash, src.ext);
    assert streams[0] == StreamOf(plan[0]);
    assert puts[0].key == StreamKey(streams[0]);
  }

  /**
   * uploadLogic: stages the source, then plans, converts and uploads the
   * variants. The URL the host sees was set while staging; it is the
   * location the store reports for the first variant.
   */
  method UploadLogic(
    asset: Asset, bucket: Bucket, config: Config, useStream: bool, stagingOk: bool,
    converted: set<string>, contentOf: string -> seq<bv8>)
    returns (stored: bool, locations: seq<string>)
    modifies asset, bucket
    ensures asset.CustomValues() == ApplyMetadata(asset.path, old(asset.CustomValues()))
    ensures asset.providerMetadata == RecordedMetadata(useStream, asset.path, old(asset.providerMetadata))
    ensures useStream || stagingOk ==>
      asset.url == Some(ResolveUrl(BucketEndpoint(config.endpoint, config.bucket), asset.customPath,
        Some(HeadPath(asset.hash, asset.ext)), asset.hash, asset.ext))
    ensures !(useStream || stagingOk) ==> asset.url == old(asset.url)
    ensures useStream || stagingOk ==>
      asset.pathLocal == Some(LocalPath(config.tempDir, asset.hash, HeadRole(asset.ext), asset.ext))
    ensures !(useStream || stagingOk) ==> asset.pathLocal == old(asset.pathLocal)
    ensures asset.pathAWS == old(asset.pathAWS)
    ensures stored == (stagingOk && Resolves(config.tempDir, asset.StagedView(), ImageSizes(config.catalog, asset.userSizes), converted))
    ensures bucket.objects == if stagingOk
      then PutAll(old(bucket.objects), UploadPuts(config, asset.StagedView(), asset.userSizes, converted, contentOf))
      else old(bucket.objects)
    ensures !stored ==> locations == []
    ensures stored ==> |locations| == |UploadPuts(config, asset.StagedView(), asset.userSizes, converted, contentOf)|
    ensures stored ==> forall i :: 0 <= i < |locations| ==>
      locations[i] == bucket.baseUrl + "/" + UploadPuts(config, asset.StagedView(), asset.userSizes, converted, contentOf)[i].key
    ensures stored && bucket.baseUrl == BucketEndpoint(config.endpoint, config.bucket) ==>
      |locations| >= 1 && asset.url == Some(locations[0])
  {
    var ok := Stage(asset, config, useStream, stagingOk);
    if !ok {
      return false, [];
    }
    stored, locations := UploadStaged(bucket, config, asset.StagedView(), asset.userSizes, converted, contentOf);
  }

  /**
   * Upload followed by delete leaves none of the uploaded objects behind,
   * when the delete sees the JSON options the upload applied, or, without
   * JSON options, the same custom path and no requested sizes.
   */
  lemma UploadThenDeleteLeavesNothing(
    config: Config, hash: string, ext: string, mime: string, meta: Metadata,
    uploadPrior: Custom, deletePrior: Custom, converted: set<string>,
    contentOf: string -> seq<bv8>, store: map<string, StoredObject>)
    requires meta.Json? || (uploadPrior.customPath == deletePrior.customPath && uploadPrior.userSizes.None?)
    ensures var up := ApplyMetadata(meta, uploadPrior);
      var del := ApplyMetadata(meta, deletePrior);
      var puts := UploadPuts(config, Plan.Staged(hash, ext, mime, up.customPath), up.userSizes, converted, contentOf);
      var keys := DeleteKeys(del.customPath, hash, ext, DeletePlan(hash, ext, DeleteSelection(meta, config.catalog, del.userSizes)).paths);
      forall i :: 0 <= i < |puts| ==> puts[i].key !in RemoveAll(PutAll(store, puts), keys)
  {
    var up := ApplyMetadata(meta, uploadPrior);
    var del := ApplyMetadata(meta, deletePrior);
    var src := Plan.Staged(hash, ext, mime, up.customPath);
    var puts := UploadPuts(config, src, up.userSizes, converted, contentOf);
    var keys := DeleteKeys(del.customPath, hash, ext, DeletePlan(hash, ext, DeleteSelection(meta, config.catalog, del.userSizes)).paths);
    if puts != [] {
      assert del.customPath == up.customPath;
      if meta.Json? {
        assert del.userSizes == up.userSizes;
        JsonDeleteCoversUpload(config, src, up.userSizes, converted, contentOf);
      } else {
        PlainDeleteCoversUpload(config, src, converted, contentOf);
      }
    }
    UploadThenRemove(store, puts, keys);
  }

  /** With the options the upload used, the delete walk resolves every uploaded key. */
  lemma JsonDeleteCoversUpload(config: Config, src: Staged, userSizes: Option<seq<string>>,
    converted: set<string>, contentOf: string -> seq<bv8>)
    ensures var puts := UploadPuts(config, src, userSizes, converted, contentOf);
      var keys := DeleteKeys(src.customPath, src.hash, src.ext, DeletePlan(src.hash, src.ext, Some(ImageSizes(config.catalog, userSizes))).paths);
      forall i :: 0 <= i < |puts| ==> puts[i].key in keys
  {
    var selected := ImageSizes(config.catalog, userSizes);
    var puts := UploadPuts(config, src, userSizes, converted, contentOf);
    if puts != [] {
      UploadDeleteKeysAgree(config.tempDir, src, selected);
      var plan := UploadPlan(config.tempDir, src, selected);
      var keys := PlanKeys(plan);
      assert puts == Puts(StreamsOf(plan), contentOf);
      forall i | 0 <= i < |puts| ensures puts[i].key in keys {
        assert puts[i].key == keys[i];
      }
    }
  }

  /** With no sizes requested, the one uploaded key is the one key the delete walk without options resolves. */
  lemma PlainDeleteCoversUpload(config: Config, src: Staged, converted: set<string>, contentOf: string -> seq<bv8>)
    ensures var puts := UploadPuts(config, src, None, converted, contentOf);
      var keys := DeleteKeys(src.customPath, src.hash, src.ext, DeletePlan(src.hash, src.ext, None).paths);
      forall i :: 0 <= i < |puts| ==> puts[i].key in keys
  {
    var puts := UploadPuts(config, src, None, converted, contentOf);
    if puts != [] {
      assert ImageSizes(config.catalog, None) == [];
      UploadPutsOfPlan(config, src, None, converted, contentOf);
      assert |UploadPlan(config.tempDir, src, [])| == 1;
      var keys := DeleteKeys(src.customPath, src.hash, src.ext, DeletePlan(src.hash, src.ext, None).paths);
      assert DeletePlan(src.hash, src.ext, None).paths[0] == HeadPath(src.hash, src.ext);
      assert keys[0] == puts[0].key;
    }
  }

  /**
   * A buffer upload does not record its options in `provider_metadata`, so
   * a later delete of an asset uploaded under a custom path resolves its key
   * without the custom path, and the uploaded object survives the delete.
   */
  lemma BufferUploadLeavesObject(config: Config, hash: string, ext: string, mime: string, uploadPath: string,
    converted: set<string>, contentOf: string -> seq<bv8>, store: map<string, StoredObject>)
    requires uploadPath != ""
    requires GetFileFormat(ext) == Image || GetFileType(hash) == Origin
    ensures var meta := Json(Some(uploadPath), None);
      var up := ApplyMetadata(meta, Custom(None, None));
      var recorded := RecordedMetadata(false, meta, NotJson);
      var del := ApplyMetadata(recorded, Custom(None, None));
      var puts := UploadPuts(config, Plan.Staged(hash, ext, mime, up.customPath), up.userSizes, converted, contentOf);
      var keys := DeleteKeys(del.customPath, hash, ext, DeletePlan(hash, ext, DeleteSelection(recorded, config.catalog, del.userSizes)).paths);
      |puts| == 1 && puts[0].key == uploadPath + "/" + HeadPath(hash, ext) &&
      puts[0].key in RemoveAll(PutAll(store, puts), keys)
  {
    var meta := Json(Some(uploadPath), None);
    assert ApplyMetadata(meta, Custom(None, None)) == Custom(Some(uploadPath), None);
    assert RecordedMetadata(false, meta, NotJson) == NotJson;
    assert ApplyMetadata(NotJson, Custom(None, None)) == Custom(None, None);
    assert DeleteSelection(NotJson, config.catalog, None) == None;
    var puts := UploadPuts(config, Plan.Staged(hash, ext, mime, Some(uploadPath)), None, converted, contentOf);
    CustomHeadPut(config, hash, ext, mime, uploadPath, converted, contentOf);
    var keys := DeleteKeys(None, hash, ext, DeletePlan(hash, ext, None).paths);
    PlainHeadDelete(hash, ext);
    assert |puts[0].key| > |HeadPath(hash, ext)|;
    PutAllEffect(store, puts);
    assert puts[0].key in PutKeys(puts);
    RemoveAllIsSubtraction(PutAll(store, puts), keys);
  }

  /** The one put of an upload under a custom path with no sizes requested. */
  lemma CustomHeadPut(config: Config, hash: string, ext: string, mime: string, uploadPath: string,
    converted: set<string>, contentOf: string -> seq<bv8>)
    requires uploadPath != ""
    requires GetFileFormat(ext) == Image || GetFileType(hash) == Origin
    ensures var puts := UploadPuts(config, Plan.Staged(hash, ext, mime, Some(uploadPath)), None, converted, contentOf);
      |puts| == 1 && puts[0].key == uploadPath + "/" + HeadPath(hash, ext)
  {
    var src := Plan.Staged(hash, ext, mime, Some(uploadPath));
    var puts := UploadPuts(config, src, None, converted, contentOf);
    var plan := UploadPlan(config.tempDir, src, []);
    assert ImageSizes(config.catalog, None) == [];
    assert Resolves(config.tempDir, src, [], converted);
    assert |plan| == 1 && plan[0].pathAWS == HeadPath(hash, ext) && plan[0].customPath == Some(uploadPath);
    assert puts == Puts(StreamsOf(plan), contentOf);
    assert StreamsOf(plan)[0] == StreamOf(plan[0]);
    assert |HeadPath(hash, ext)| > 0;
    assert puts[0].key == StreamKey(StreamOf(plan[0]));
    assert StreamKey(StreamOf(plan[0])) == ResolveKey(Some(uploadPath), Some(HeadPath(hash, ext)), hash, ext);
  }

  /** Without options, a delete resolves the head variant's path as its only key. */
  lemma PlainHeadDelete(hash: string, ext: string)
    ensures DeleteKeys(None, hash, ext, DeletePlan(hash, ext, None).paths) == [HeadPath(hash, ext)]
  {
    var keys := DeleteKeys(None, hash, ext, DeletePlan(hash, ext, None).paths);
    assert DeletePlan(hash, ext, None).paths == [HeadPath(hash, ext)];
    assert keys[0] == ResolveKey(None, Some(HeadPath(hash, ext)), hash, ext);
  }

  /**
   * The round trip on the record and the bucket: a stream upload with JSON
   * options through uploadLogic, then getDeleteAWS on the same record.
   * Every key the upload planned is gone afterwards, the delete runs to the
   * end, and keys neither planned nor walked by the delete are untouched.
   */
  method UploadThenDelete(asset: Asset, bucket: Bucket, config: Config, drainOk: bool,
    converted: set<string>, contentOf: string -> seq<bv8>)
    returns (stored: bool, completed: bool)
    requires asset.path.Json?
    modifies asset, bucket
    ensures stored == (drainOk && Resolves(config.tempDir, asset.StagedView(), ImageSizes(config.catalog, asset.userSizes), converted))
    ensures completed
    ensures var puts := UploadPuts(config, asset.StagedView(), asset.userSizes, converted, contentOf);
      forall i :: 0 <= i < |puts| ==> puts[i].key !in bucket.objects
    ensures var puts := UploadPuts(config, asset.StagedView(), asset.userSizes, converted, contentOf);
      var keys := DeleteKeys(asset.customPath, asset.hash, asset.ext,
        DeletePlan(asset.hash, asset.ext, Some(ImageSizes(config.catalog, asset.userSizes))).paths);
      forall k :: k !in keys && k !in PutKeys(puts) ==>
        (k in bucket.objects <==> k in old(bucket.objects)) &&
        (k in bucket.objects ==> bucket.objects[k] == old(bucket.objects)[k])
  {
    var locations;
    stored, locations := UploadLogic(asset, bucket, config, true, drainOk, converted, contentOf);
    ghost var custom := asset.CustomValues();
    ghost var puts := UploadPuts(config, asset.StagedView(), asset.userSizes, converted, contentOf);
    ghost var staged := bucket.objects;
    assert staged == if drainOk then PutAll(old(bucket.objects), puts) else old(bucket.objects);
    completed := asset.GetDeleteAWS(bucket, config.catalog);
    assert asset.CustomValues() == custom;
    ghost var keys := DeleteKeys(asset.customPath, asset.hash, asset.ext,
      DeletePlan(asset.hash, asset.ext, Some(ImageSizes(config.catalog, asset.userSizes))).paths);
    assert bucket.objects == RemoveAll(staged, keys);
    JsonDeleteCoversUpload(config, asset.StagedView(), asset.userSizes, converted, contentOf);
    if drainOk {
      UploadThenRemove(old(bucket.objects), puts, keys);
    } else {
      RemoveAllIsSubtraction(staged, keys);
    }
  }
}
