/** ImageCache: images by url, loaded once and kept. The Java class keeps the
    map in a static field; here it is one object. Building an image (from the
    resources, the network or a file) is the parameter `load`, which gives
    None where the Java constructor throws. */
module ImageCache {
  import opened Wrappers
  import opened JavaText

  /** An image as the cache sees it: the url it was made from. */
  datatype Image = Image(url: string)

  const MAX_CACHE_SIZE: nat := 50
  const PLACEHOLDER_URL: string := "https://via.placeholder.com/400x250?text=No+Image"

  /** Every entry of the old map is still there with the same image. */
  predicate Extends(before: map<string, Image>, after: map<string, Image>) {
    forall k :: k in before ==> k in after && after[k] == before[k]
  }

  /** The bound getImage keeps: at most 50 entries, or 51 when the placeholder
      was added to a full cache. */
  predicate Bounded(cache: map<string, Image>) {
    |cache| <= MAX_CACHE_SIZE || (|cache| == MAX_CACHE_SIZE + 1 && PLACEHOLDER_URL in cache)
  }

  lemma InsertFresh(m: map<string, Image>, k: string, v: Image)
    requires k !in m
    ensures |m[k := v]| == |m| + 1
  {
    assert m[k := v].Keys == m.Keys + {k};
  }

  /** The cache with the placeholder entry present. */
  function WithPlaceholder(cache: map<string, Image>): map<string, Image> {
    if PLACEHOLDER_URL in cache then cache else cache[PLACEHOLDER_URL := Image(PLACEHOLDER_URL)]
  }

  /** loadImage over what was loaded so far: `load(url)` is the image built
      from the url, or None when building it throws. On None the catch branch
      calls getPlaceholder, which puts the placeholder entry into the cache
      before getImage looks at the size. */
  function Loaded(cache: map<string, Image>, url: string, load: string -> Option<Image>)
    : (Image, map<string, Image>)
  {
    match load(url)
    case Some(image) => (image, cache)
    case None => var c := WithPlaceholder(cache); (c[PLACEHOLDER_URL], c)
  }

  /** What one getImage call returns and leaves behind. */
  function Lookup(cache: map<string, Image>, url: Option<string>, load: string -> Option<Image>)
    : (Image, map<string, Image>)
  {
    if url.None? || IsBlank(url.value) then
      var c := WithPlaceholder(cache);
      (c[PLACEHOLDER_URL], c)
    else if url.value in cache then (cache[url.value], cache)
    else
      var (image, c) := Loaded(cache, url.value, load);
      (image, if |c| < MAX_CACHE_SIZE then c[url.value := image] else c)
  }

  /** getImage keeps the bound and never overwrites or evicts; a hit changes
      nothing; a missing or blank url yields the placeholder; a miss yields the
      loaded image, or the placeholder entry (added to the cache if missing)
      when loading throws, and stores it under the url exactly when fewer than
      50 entries are held after that; asking again for a url that got stored
      changes nothing. */
  lemma LookupSpec(cache: map<string, Image>, url: Option<string>, load: string -> Option<Image>)
    requires Bounded(cache)
    ensures var (image, after) := Lookup(cache, url, load);
      && Bounded(after)
      && Extends(cache, after)
      && |after| <= MAX_CACHE_SIZE + 1
      && (url.None? || IsBlank(url.value) ==>
            && PLACEHOLDER_URL in after && image == after[PLACEHOLDER_URL]
            && (PLACEHOLDER_URL !in cache ==> image == Image(PLACEHOLDER_URL))
            && after == WithPlaceholder(cache))
      && (url.Some? && !IsBlank(url.value) ==>
            && (url.value in cache ==> after == cache && image == cache[url.value])
            && (url.value !in cache && load(url.value).Some? ==>
                  && image == load(url.value).value
                  && (url.value in after <==> |cache| < MAX_CACHE_SIZE)
                  && |after| == |cache| + (if |cache| < MAX_CACHE_SIZE then 1 else 0))
            && (url.value !in cache && load(url.value).None? ==>
                  var c := WithPlaceholder(cache);
                  && PLACEHOLDER_URL in after && image == after[PLACEHOLDER_URL]
                  && (url.value in after <==> |c| < MAX_CACHE_SIZE || url.value == PLACEHOLDER_URL)
                  && |after| == |cache| + (if PLACEHOLDER_URL in cache then 0 else 1)
                                        + (if |c| < MAX_CACHE_SIZE && url.value != PLACEHOLDER_URL then 1 else 0)))
      && (url.Some? && url.value in after ==> Lookup(after, url, load).1 == after)
  {
    if url.None? || IsBlank(url.value) {
      if PLACEHOLDER_URL !in cache {
        InsertFresh(cache, PLACEHOLDER_URL, Image(PLACEHOLDER_URL));
      }
    } else if url.value !in cache {
      if load(url.value).Some? {
        if |cache| < MAX_CACHE_SIZE {
          InsertFresh(cache, url.value, load(url.value).value);
        }
      } else {
        var c := WithPlaceholder(cache);
        if PLACEHOLDER_URL !in cache {
          InsertFresh(cache, PLACEHOLDER_URL, Image(PLACEHOLDER_URL));
        }
        if |c| < MAX_CACHE_SIZE && url.value != PLACEHOLDER_URL {
          InsertFresh(c, url.value, c[PLACEHOLDER_URL]);
        }
      }
    }
  }

  /** The miss that fails to load on a cache of 10 entries without the
      placeholder ends with 12: the placeholder and the url. */
  lemma FailedLoadAddsPlaceholder(cache: map<string, Image>, url: string, load: string -> Option<Image>)
    requires |cache| == 10 && PLACEHOLDER_URL !in cache
    requires !IsBlank(url) && url !in cache && url != PLACEHOLDER_URL && load(url).None?
    ensures var (image, after) := Lookup(cache, Some(url), load);
      && image == Image(PLACEHOLDER_URL)
      && |after| == 12 && PLACEHOLDER_URL in after && url in after
  {
    LookupSpec(cache, Some(url), load);
  }

  /** The miss that fails to load on a cache of 49 entries without the
      placeholder fills the cache with the placeholder, so the url is not kept. */
  lemma FailedLoadFillsCache(cache: map<string, Image>, url: string, load: string -> Option<Image>)
    requires |cache| == 49 && PLACEHOLDER_URL !in cache
    requires !IsBlank(url) && url !in cache && url != PLACEHOLDER_URL && load(url).None?
    ensures var (image, after) := Lookup(cache, Some(url), load);
      && image == Image(PLACEHOLDER_URL)
      && |after| == 50 && url !in after
  {
    LookupSpec(cache, Some(url), load);
  }

  class Cache {
    var cache: map<string, Image>

    ghost predicate Valid()
      reads this
    {
      Bounded(cache)
    }

    constructor ()
      ensures cache == map[] && Valid()
    {
      cache := map[];
    }

    /** getPlaceholder: adds the placeholder entry if it is missing, whatever
        the size, and returns it. */
    method GetPlaceholder() returns (image: Image)
      requires Valid()
      modifies this
      ensures Valid()
      ensures cache == WithPlaceholder(old(cache)) && image == cache[PLACEHOLDER_URL]
    {
      if PLACEHOLDER_URL !in cache {
        InsertFresh(cache, PLACEHOLDER_URL, Image(PLACEHOLDER_URL));
        cache := cache[PLACEHOLDER_URL := Image(PLACEHOLDER_URL)];
      }
      image := cache[PLACEHOLDER_URL];
    }

    /** loadImage: the image built from the url, or the placeholder through
        getPlaceholder when building it throws. */
    method LoadImage(url: string, load: string -> Option<Image>) returns (image: Image)
      requires Valid()
      modifies this
      ensures Valid()
      ensures (image, cache) == Loaded(old(cache), url, load)
      ensures load(url).Some? ==> image == load(url).value && cache == old(cache)
      ensures load(url).None? ==> cache == WithPlaceholder(old(cache)) && image == cache[PLACEHOLDER_URL]
    {
      match load(url)
      case Some(loaded) =>
        image := loaded;
      case None =>
        image := GetPlaceholder();
    }

    /** getImage: one Lookup step. */
    method GetImage(url: Option<string>, load: string -> Option<Image>) returns (image: Image)
      requires Valid()
      modifies this
      ensures Valid()
      ensures (image, cache) == Lookup(old(cache), url, load)
    {
      LookupSpec(cache, url, load);
      if url.None? || IsBlank(url.value) {
        image := GetPlaceholder();
        return;
      }
      var u := url.value;
      if u in cache {
        return cache[u];
      }
      image := LoadImage(u, load);
      if |cache| < MAX_CACHE_SIZE {
        cache := cache[u := image];
      }
    }

    /** clearCache. */
    method ClearCache()
      modifies this
      ensures cache == map[] && Valid()
    {
      cache := map[];
    }

    /** getCacheSize: the number of entries, never more than 51. */
    method GetCacheSize() returns (n: int)
      requires Valid()
      ensures n == |cache| && n <= MAX_CACHE_SIZE + 1
    {
      n := |cache|;
    }
  }
}
