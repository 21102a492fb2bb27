/**
 * The key under which fetched segment lists are cached: the video id, a
 * colon, and the requested categories sorted and joined with commas. A
 * category value that is not an array contributes the empty signature.
 */
module CacheKeys {
  import opened JsText

  /** `DEFAULT_CATEGORIES` of shared.js. */
  const DefaultCategories: seq<string> :=
    ["sponsor", "selfpromo", "interaction", "intro", "outro", "music_offtopic"]

  /**
   * The category value handed to the fetcher: an array of names, or anything
   * else (the popup stores a per-category object under the same key).
   */
  datatype Categories = Names(names: seq<string>) | NotArray

  /** The stored value under `categories`, as storage or a change record delivers it. */
  datatype CategorySetting =
    | Unset               // no value stored (or the change removed it)
    | Falsy               // null, false, 0 or ""
    | StoredNames(names: seq<string>)
    | StoredOther         // a truthy non-array value, such as the popup's object

  /** `value || DEFAULT_CATEGORIES`, with storage's own default for an absent value. */
  function ResolveCategories(v: CategorySetting): (c: Categories)
    ensures v.StoredNames? ==> c == Names(v.names)
    ensures v.StoredOther? <==> c == NotArray
    ensures (v.Unset? || v.Falsy?) ==> c == Names(DefaultCategories)
  {
    match v
    case Unset => Names(DefaultCategories)
    case Falsy => Names(DefaultCategories)
    case StoredNames(names) => Names(names)
    case StoredOther => NotArray
  }

  /** `Array.isArray(categories) ? [...categories].sort().join(',') : ''`. */
  function Signature(c: Categories): string
  {
    match c
    case Names(names) => Join(SortNames(names), ',')
    case NotArray => ""
  }

  /** `${videoId}:${categoriesKey}`. */
  function CacheKey(videoId: string, c: Categories): string
  {
    videoId + ":" + Signature(c)
  }

  /** Two requests that differ only in the order of their categories share one cache entry. */
  lemma KeyIgnoresOrder(videoId: string, a: seq<string>, b: seq<string>)
    requires multiset(a) == multiset(b)
    ensures CacheKey(videoId, Names(a)) == CacheKey(videoId, Names(b))
  {
    SortNamesIgnoresOrder(a, b);
  }

  /** A non-array category value keys like the empty category list: just `id:`. */
  lemma NonArrayKey(videoId: string)
    ensures CacheKey(videoId, NotArray) == CacheKey(videoId, Names([])) == videoId + ":"
  {
  }

  lemma FirstChar(a: string, c: char, x: string)
    ensures (a + [c] + x)[0] == if |a| > 0 then a[0] else c
    ensures |a| > 0 ==> a[0] in a
  {
  }

  /** A prefix free of the separator is recovered from what follows it. */
  lemma {:induction false} PrefixBeforeSeparator(a: string, x: string, b: string, y: string, c: char)
    requires c !in a && c !in b
    requires a + [c] + x == b + [c] + y
    ensures a == b
  {
    if |a| > 0 && |b| > 0 {
      assert (a + [c] + x)[1..] == a[1..] + [c] + x;
      assert (b + [c] + y)[1..] == b[1..] + [c] + y;
      assert (a + [c] + x)[0] == a[0] && (b + [c] + y)[0] == b[0];
      PrefixBeforeSeparator(a[1..], x, b[1..], y, c);
      assert a == [a[0]] + a[1..] && b == [b[0]] + b[1..];
    } else {
      FirstChar(a, c, x);
      FirstChar(b, c, y);
    }
  }

  /** For ids without a colon (the site's ids), the key determines the video. */
  lemma KeyDeterminesVideo(id1: string, c1: Categories, id2: string, c2: Categories)
    requires ':' !in id1 && ':' !in id2
    requires CacheKey(id1, c1) == CacheKey(id2, c2)
    ensures id1 == id2
  {
    PrefixBeforeSeparator(id1, Signature(c1), id2, Signature(c2), ':');
  }
}
