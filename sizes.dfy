/**
 * The configured size catalog and the selection of the sizes a request
 * asks for (imageSizesfunc), with the comma-separated request field.
 */
module Sizes {
  import opened Wrappers
  import opened JsStrings

  /** One catalog entry: its unique name and the ImageMagick options of the resize. */
  datatype SizeSpec = SizeSpec(name: string, options: string)

  /**
   * The requested size names: `imageSizes.split(',')` when the metadata
   * field is a non-empty text, `undefined` otherwise.
   */
  function ParseSizeNames(imageSizes: Option<string>): (names: Option<seq<string>>)
    ensures names.None? <==> (imageSizes.None? || imageSizes.value == "")
    ensures names.Some? ==>
      |names.value| >= 1 && Join(names.value, ',') == imageSizes.value && SeparatorFree(names.value, ',')
  {
    if imageSizes.Some? && imageSizes.value != "" then
      JoinSplit(imageSizes.value, ',');
      Some(Split(imageSizes.value, ','))
    else None
  }

  /** `catalog.filter(item => names.includes(item.name))`. */
  function Filter(catalog: seq<SizeSpec>, names: seq<string>): seq<SizeSpec>
  {
    if catalog == [] then []
    else (if catalog[0].name in names then [catalog[0]] else []) + Filter(catalog[1..], names)
  }

  /**
   * imageSizesfunc: the catalog entries whose names the request lists, or
   * nothing without a list; never more sizes than the catalog has.
   * ImageSizesSelects pins the selection exactly.
   */
  function ImageSizes(catalog: seq<SizeSpec>, userSizes: Option<seq<string>>): (r: seq<SizeSpec>)
    ensures |r| <= |catalog|
  {
    if userSizes.None? then []
    else
      FilterBounded(catalog, userSizes.value);
      Filter(catalog, userSizes.value)
  }

  /** `xs` is `ys` with some elements left out, the rest kept in order. */
  predicate IsSubsequence<T(==)>(xs: seq<T>, ys: seq<T>)
    decreases |ys|
  {
    xs == [] || (ys != [] && ((xs[0] == ys[0] && IsSubsequence(xs[1..], ys[1..])) || IsSubsequence(xs, ys[1..])))
  }

  /**
   * No request list selects nothing; a list selects a subsequence of the
   * catalog holding every copy of each requested entry and nothing else.
   */
  lemma ImageSizesSelects(catalog: seq<SizeSpec>, userSizes: Option<seq<string>>)
    ensures userSizes.None? ==> ImageSizes(catalog, userSizes) == []
    ensures userSizes.Some? ==> IsSubsequence(ImageSizes(catalog, userSizes), catalog)
    ensures userSizes.Some? ==>
      forall s :: multiset(ImageSizes(catalog, userSizes))[s] == if s.name in userSizes.value then multiset(catalog)[s] else 0
  {
    if userSizes.Some? {
      FilterInOrder(catalog, userSizes.value);
      FilterCounts(catalog, userSizes.value);
    }
  }

  /** The filter keeps catalog order. */
  lemma {:induction false} FilterInOrder(catalog: seq<SizeSpec>, names: seq<string>)
    ensures IsSubsequence(Filter(catalog, names), catalog)
  {
    if catalog != [] {
      var rest := Filter(catalog[1..], names);
      FilterInOrder(catalog[1..], names);
      if catalog[0].name in names {
        assert Filter(catalog, names) == [catalog[0]] + rest;
        assert Filter(catalog, names)[1..] == rest;
      } else {
        assert Filter(catalog, names) == rest;
      }
    }
  }

  /** The filter keeps every copy of each requested entry and nothing else. */
  lemma {:induction false} FilterCounts(catalog: seq<SizeSpec>, names: seq<string>)
    ensures forall s :: multiset(Filter(catalog, names))[s] == if s.name in names then multiset(catalog)[s] else 0
  {
    if catalog != [] {
      var head := if catalog[0].name in names then [catalog[0]] else [];
      var rest := Filter(catalog[1..], names);
      FilterCounts(catalog[1..], names);
      assert catalog == [catalog[0]] + catalog[1..];
      assert multiset(catalog) == multiset{catalog[0]} + multiset(catalog[1..]);
      assert multiset(Filter(catalog, names)) == multiset(head) + multiset(rest);
    }
  }

  /**
   * The selection depends only on which catalog names are requested: the
   * order of the request list and names unknown to the catalog change nothing.
   */
  lemma {:induction false} ImageSizesOnlyCatalogNames(catalog: seq<SizeSpec>, u: seq<string>, v: seq<string>)
    requires forall i :: 0 <= i < |catalog| ==> (catalog[i].name in u <==> catalog[i].name in v)
    ensures ImageSizes(catalog, Some(u)) == ImageSizes(catalog, Some(v))
  {
    if catalog != [] {
      ImageSizesOnlyCatalogNames(catalog[1..], u, v);
      assert catalog[0].name in u <==> catalog[0].name in v;
    }
  }

  /** Requesting extra names the catalog does not know selects the same sizes. */
  lemma UnknownNamesIgnored(catalog: seq<SizeSpec>, u: seq<string>, extra: seq<string>)
    requires forall i :: 0 <= i < |catalog| ==> catalog[i].name !in extra
    ensures ImageSizes(catalog, Some(u + extra)) == ImageSizes(catalog, Some(u))
  {
    ImageSizesOnlyCatalogNames(catalog, u + extra, u);
  }

  /** At most the whole catalog is selected. */
  lemma {:induction false} FilterBounded(catalog: seq<SizeSpec>, names: seq<string>)
    ensures |Filter(catalog, names)| <= |catalog|
  {
    if catalog != [] {
      FilterBounded(catalog[1..], names);
    }
  }
}
