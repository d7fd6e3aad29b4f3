/**
 * The news rules of the landing page: stepping between articles, deciding
 * whether the latest article is new against the news cache (and rewriting
 * the cache when it is), and the comment-count label. Dates are
 * milliseconds since the epoch and the SHA-1 digest of an article is an
 * opaque string; the DOM, the alert and the RSS fetch are left out.
 */
module LandingNews {
  import opened JsRuntime

  // ---------------------------------------------------------------------
  // Article navigation

  /** `a + d` for a JavaScript number: NaN and `undefined` give NaN. */
  function AddNum(a: JsNum, d: int): JsNum {
    if a.Num? then Num(a.n + d) else NaN
  }

  /**
   * `switchHandler(forward)`: the index of the article to show after the
   * one at `cArt` (the page's `parseInt` of its `article` attribute), in a
   * list of `length` articles.
   */
  function NextArticle(cArt: JsNum, length: int, forward: bool): JsNum {
    if forward then
      if Ge(cArt, Num(length - 1)) then Num(0) else AddNum(cArt, 1)
    else
      if cArt.Num? && cArt.n <= 0 then Num(length - 1) else AddNum(cArt, -1)
  }

  /** Forward from the last article wraps to the first, and back from the first to the last. */
  lemma NextArticleWraps(c: int, length: int)
    ensures c >= length - 1 ==> NextArticle(Num(c), length, true) == Num(0)
    ensures c < length - 1 ==> NextArticle(Num(c), length, true) == Num(c + 1)
    ensures c <= 0 ==> NextArticle(Num(c), length, false) == Num(length - 1)
    ensures c > 0 ==> NextArticle(Num(c), length, false) == Num(c - 1)
  {
  }

  /**
   * On a valid index the two directions are steps around a cycle: forward
   * adds one and backward subtracts one, modulo the number of articles, so
   * the next index is valid again.
   */
  lemma {:induction false} NextArticleCycles(c: int, length: int)
    requires 0 <= c < length
    ensures NextArticle(Num(c), length, true) == Num((c + 1) % length)
    ensures NextArticle(Num(c), length, false) == Num((c - 1 + length) % length)
    ensures 0 <= NextArticle(Num(c), length, true).n < length
    ensures 0 <= NextArticle(Num(c), length, false).n < length
  {
    if c == length - 1 {
      ModSelf(length);
    } else {
      ModSmall(c + 1, length);
    }
    if c == 0 {
      ModSmall(length - 1, length);
    } else {
      ModSelfPlus(c - 1, length);
    }
  }

  lemma ModSmall(x: int, m: int)
    requires 0 <= x < m
    ensures x % m == x
  {
  }

  lemma ModSelf(m: int)
    requires m > 0
    ensures m % m == 0
  {
  }

  lemma ModSelfPlus(x: int, m: int)
    requires 0 <= x < m
    ensures (x + m) % m == x
  {
  }

  /** A step back undoes a step forward, and a step forward undoes a step back. */
  lemma NextArticleInverse(c: int, length: int)
    requires 0 <= c < length
    ensures NextArticle(NextArticle(Num(c), length, true), length, false) == Num(c)
    ensures NextArticle(NextArticle(Num(c), length, false), length, true) == Num(c)
  {
    NextArticleCycles(c, length);
  }

  /** An attribute that does not parse as a number navigates to NaN. */
  lemma NextArticleOfNaN(length: int, forward: bool)
    ensures NextArticle(NaN, length, forward) == NaN
  {
  }

  // ---------------------------------------------------------------------
  // The news cache

  /** The stored news cache; absent members are `None`. */
  datatype NewsCache = NewsCache(date: Option<int>, content: Option<string>, dismissed: Option<bool>)

  /** `!cached.dismissed`: a missing flag is falsy. */
  predicate NotDismissed(cache: NewsCache) {
    cache.dismissed != Some(true)
  }

  /** The `isNew` decision for the latest article's date and content hash. */
  predicate IsNew(cached: NewsCache, newDate: int, newHash: string) {
    if cached.date.Some? && cached.content.Some? then
      if cached.date.value >= newDate then
        cached.content.value != newHash || NotDismissed(cached)
      else true
    else true
  }

  /** The cache written for a new article: its time, its hash, not dismissed. */
  function FreshCache(newDate: int, newHash: string): NewsCache {
    NewsCache(Some(newDate), Some(newHash), Some(false))
  }

  /**
   * The latest article is not new exactly when the cache is complete, at
   * least as recent as the article, holds the same hash and was dismissed.
   */
  lemma IsNewExactly(cached: NewsCache, newDate: int, newHash: string)
    ensures !IsNew(cached, newDate, newHash) <==>
      cached.date.Some? && cached.content.Some? && cached.date.value >= newDate &&
      cached.content.value == newHash && cached.dismissed == Some(true)
  {
  }

  /** A rewritten cache keeps announcing the same article until it is dismissed. */
  lemma FreshCacheStillNew(newDate: int, newHash: string)
    ensures IsNew(FreshCache(newDate, newHash), newDate, newHash)
    ensures !IsNew(FreshCache(newDate, newHash).(dismissed := Some(true)), newDate, newHash)
  {
  }

  /** The news state the landing page keeps in the configuration. */
  class NewsState {
    var cache: NewsCache

    constructor (initial: NewsCache)
      ensures cache == initial
    {
      cache := initial;
    }

    /**
     * The `isNew` block of `initNews` for the latest article, and the
     * cache write that follows it: only a new article rewrites the cache.
     */
    method CheckLatest(newDate: int, newHash: string) returns (isNew: bool)
      modifies this
      ensures isNew == IsNew(old(cache), newDate, newHash)
      ensures isNew ==> cache == FreshCache(newDate, newHash)
      ensures !isNew ==> cache == old(cache)
    {
      var cached := cache;
      isNew := false;
      if cached.date.Some? && cached.content.Some? {
        if cached.date.value >= newDate {
          if cached.content.value != newHash {
            isNew := true;
          } else {
            if cached.dismissed != Some(true) {
              isNew := true;
            }
          }
        } else {
          isNew := true;
        }
      } else {
        isNew := true;
      }
      if isNew {
        cache := FreshCache(newDate, newHash);
      }
    }
  }

  // ---------------------------------------------------------------------
  // The comment label

  /** `(text || '0') + ' Comment' + (count === '1' ? '' : 's')` */
  function CommentLabel(text: string): string {
    var count := if text == "" then "0" else text;
    count + " Comment" + (if count == "1" then "" else "s")
  }

  /**
   * The label starts with the count (`0` when there is none) and is
   * singular exactly for a count of `1`.
   */
  lemma CommentLabelForms(text: string)
    ensures CommentLabel("") == "0 Comments"
    ensures CommentLabel("1") == "1 Comment"
    ensures text != "" && text != "1" ==> CommentLabel(text) == text + " Comments"
    ensures text != "" ==> CommentLabel(text)[..|text|] == text
    ensures EndsWith(CommentLabel(text), " Comments") <==> text != "1"
  {
    var count := if text == "" then "0" else text;
    var shown := CommentLabel(text);
    assert CommentLabel("") == "0" + " Comment" + "s";
    assert CommentLabel("1") == "1" + " Comment" + "";
    if count == "1" {
      assert shown == "1 Comment";
      assert shown[|shown| - 9..][0] == '1';
    } else {
      assert shown == count + " Comments";
      assert shown[|shown| - 9..] == " Comments";
    }
  }
}
