/** The list views of the dashboard: the bias filter, the related-articles
    lookup, and the source attached to an article. */
module Dashboard {
  import opened Wrappers

  datatype Article = Article(
    id: int,
    title: string,
    content: string,
    predictedBias: Option<string>,
    trueBias: Option<string>,
    sourceId: Option<int>)

  datatype Source = Source(id: int, name: string, url: Option<string>, biasLabel: Option<string>)

  /** `{ ...article, source }`. */
  datatype ArticleWithSource = ArticleWithSource(article: Article, source: Option<Source>)

  /** The state `handleViewRelated` sets: `relatedArticles`,
      `selectedArticle` and `showRelated`. */
  datatype RelatedView = RelatedView(relatedArticles: seq<Article>, selectedArticle: Option<int>, showRelated: bool)

  /** `xs` is `ys` with some elements deleted, the rest in their order. */
  ghost predicate IsSubsequence<T>(xs: seq<T>, ys: seq<T>)
    decreases |ys|
  {
    if xs == [] then true
    else if ys == [] then false
    else (xs[0] == ys[0] && IsSubsequence(xs[1..], ys[1..])) || IsSubsequence(xs, ys[1..])
  }

  /** `Array.prototype.filter`: the elements satisfying `p`, each as often as
      it occurs, in their original order. */
  function Filter<T>(xs: seq<T>, p: T -> bool): (r: seq<T>)
    ensures forall x :: x in r ==> p(x)
    ensures forall x :: x in xs && p(x) ==> multiset(r)[x] == multiset(xs)[x]
    ensures multiset(r) <= multiset(xs)
    ensures IsSubsequence(r, xs)
  {
    if xs == [] then []
    else
      var rest := Filter(xs[1..], p);
      assert xs == [xs[0]] + xs[1..];
      if p(xs[0]) then
        assert ([xs[0]] + rest)[1..] == rest;
        [xs[0]] + rest
      else rest
  }

  /** `Array.prototype.find`: the first element satisfying `p`, if any. */
  function Find<T>(xs: seq<T>, p: T -> bool): (r: Option<T>)
    ensures r.None? <==> forall i :: 0 <= i < |xs| ==> !p(xs[i])
    ensures r.Some? ==> exists i :: 0 <= i < |xs| && xs[i] == r.value && p(xs[i]) && IsFirst(xs, p, i)
  {
    if xs == [] then None
    else if p(xs[0]) then assert IsFirst(xs, p, 0); Some(xs[0])
    else
      var r := Find(xs[1..], p);
      assert forall i :: 0 < i < |xs| ==> xs[i] == xs[1..][i - 1];
      assert forall i :: 0 <= i < |xs| - 1 && IsFirst(xs[1..], p, i) ==> IsFirst(xs, p, i + 1);
      r
  }

  /** No element before position `i` satisfies `p`. */
  ghost predicate IsFirst<T>(xs: seq<T>, p: T -> bool, i: int)
    requires 0 <= i <= |xs|
  {
    forall j :: 0 <= j < i ==> !p(xs[j])
  }

  /** `filteredArticles`: all articles while no filter is set (a `null` or
      empty filter is falsy), otherwise those predicted with the filter's
      bias, in order. */
  function FilteredArticles(articles: seq<Article>, filterBias: Option<string>): (shown: seq<Article>)
    ensures !Truthy(filterBias) ==> shown == articles
    ensures Truthy(filterBias) ==>
      && (forall a :: a in shown ==> a.predictedBias == filterBias)
      && (forall a :: a in articles && a.predictedBias == filterBias ==>
            multiset(shown)[a] == multiset(articles)[a])
      && multiset(shown) <= multiset(articles)
      && IsSubsequence(shown, articles)
  {
    if Truthy(filterBias) then Filter(articles, (a: Article) => a.predictedBias == filterBias)
    else articles
  }

  /** `handleViewRelated`: find the article by id; if it is missing or has no
      (truthy) predicted bias, nothing changes; otherwise show the other
      articles with the same predicted bias. */
  function ViewRelated(articles: seq<Article>, articleId: int, view: RelatedView): (r: RelatedView)
    ensures (forall i :: 0 <= i < |articles| ==> articles[i].id != articleId) ==> r == view
    ensures forall i :: 0 <= i < |articles| && articles[i].id == articleId && IsFirst(articles, (a: Article) => a.id == articleId, i) ==>
      if !Truthy(articles[i].predictedBias) then r == view
      else
        && r.selectedArticle == Some(articleId)
        && r.showRelated
        && (forall a :: a in r.relatedArticles ==> a.id != articleId && a.predictedBias == articles[i].predictedBias)
        && (forall a :: a in articles && a.id != articleId && a.predictedBias == articles[i].predictedBias ==>
              multiset(r.relatedArticles)[a] == multiset(articles)[a])
        && multiset(r.relatedArticles) <= multiset(articles)
        && IsSubsequence(r.relatedArticles, articles)
  {
    var found := Find(articles, (a: Article) => a.id == articleId);
    if found.None? || !Truthy(found.value.predictedBias) then view
    else
      var article := found.value;
      assert forall i, k :: 0 <= i < k < |articles| && articles[k].id == articleId && IsFirst(articles, (a: Article) => a.id == articleId, k) ==> articles[i].id != articleId;
      var related := Filter(articles, (a: Article) => a.id != articleId && a.predictedBias == article.predictedBias);
      RelatedView(related, Some(articleId), true)
  }

  /** `getArticleWithSource`: the article unchanged, with the first source
      whose id is the article's `source_id`, or none. */
  function ArticleWithItsSource(article: Article, sources: seq<Source>): (r: ArticleWithSource)
    ensures r.article == article
    ensures r.source.None? <==> forall i :: 0 <= i < |sources| ==> Some(sources[i].id) != article.sourceId
    ensures r.source.Some? ==>
      exists i :: (0 <= i < |sources| && sources[i] == r.source.value && Some(sources[i].id) == article.sourceId
                   && IsFirst(sources, (s: Source) => Some(s.id) == article.sourceId, i))
  {
    ArticleWithSource(article, Find(sources, (s: Source) => Some(s.id) == article.sourceId))
  }
}
