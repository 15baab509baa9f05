/**
 * The `SimilarArticles` object: built from the fetched entries, prepared
 * once, then queried for distances and for the closest articles.
 */
module Similar {
  import opened Wrappers
  import opened StringOrder
  import opened PyDict
  import opened Catalogue
  import opened Features
  import opened Ranking

  /** Every row has `n` columns, and there is one weight per row. */
  ghost predicate Shape(m: seq<seq<int>>, w: seq<real>, n: int)
  {
    |w| == |m| && forall t :: 0 <= t < |m| ==> |m[t]| == n
  }

  /** The list `closest` builds before sorting: one candidate per slug of
      `order` other than `article`, with its distance to `article`. */
  function Candidates(order: seq<string>, article: string, articleList: seq<string>,
                      m: seq<seq<int>>, w: seq<real>): seq<Candidate>
    requires article in articleList && forall k :: k in order ==> k in articleList
    requires Shape(m, w, |articleList|)
  {
    if order == [] then []
    else
      var rest := Candidates(order[..|order| - 1], article, articleList, m, w);
      var k := order[|order| - 1];
      if k == article then rest
      else rest + [Candidate(k, SquaredDistance(m, w, IndexOf(articleList, article), IndexOf(articleList, k)))]
  }

  /** Every candidate is a slug of `order` other than `article`, carrying
      its distance to `article`. */
  lemma {:induction false} CandidatesAreOthers(order: seq<string>, article: string, articleList: seq<string>,
                                               m: seq<seq<int>>, w: seq<real>)
    requires article in articleList && forall k :: k in order ==> k in articleList
    requires Shape(m, w, |articleList|)
    ensures forall i :: 0 <= i < |Candidates(order, article, articleList, m, w)| ==>
              Candidates(order, article, articleList, m, w)[i].slug != article
              && Candidates(order, article, articleList, m, w)[i].slug in order
    ensures forall i :: 0 <= i < |Candidates(order, article, articleList, m, w)| ==>
              var c := Candidates(order, article, articleList, m, w)[i];
              c.distance == SquaredDistance(m, w, IndexOf(articleList, article), IndexOf(articleList, c.slug))
  {
    if order != [] {
      var init := order[..|order| - 1];
      var rest := Candidates(init, article, articleList, m, w);
      var c := Candidates(order, article, articleList, m, w);
      CandidatesAreOthers(init, article, articleList, m, w);
      var k := order[|order| - 1];
      assert forall x :: x in init ==> x in order;
      if k == article {
        assert c == rest;
      } else {
        assert c == rest + [Candidate(k, SquaredDistance(m, w, IndexOf(articleList, article), IndexOf(articleList, k)))];
        assert forall i :: 0 <= i < |rest| ==> c[i] == rest[i];
      }
    }
  }

  /** Of distinct slugs, every one but `article` gives one candidate. */
  lemma {:induction false} CandidatesLength(order: seq<string>, article: string, articleList: seq<string>,
                                            m: seq<seq<int>>, w: seq<real>)
    requires article in articleList && forall k :: k in order ==> k in articleList
    requires Shape(m, w, |articleList|) && Distinct(order)
    ensures |Candidates(order, article, articleList, m, w)| == |order| - (if article in order then 1 else 0)
  {
    if order != [] {
      var init := order[..|order| - 1];
      var k := order[|order| - 1];
      CandidatesLength(init, article, articleList, m, w);
      assert order == init + [k];
      assert article in order <==> article in init || article == k;
    }
  }

  /** Distinct slugs give candidates with distinct slugs. */
  lemma {:induction false} CandidatesDistinct(order: seq<string>, article: string, articleList: seq<string>,
                                              m: seq<seq<int>>, w: seq<real>)
    requires article in articleList && forall k :: k in order ==> k in articleList
    requires Shape(m, w, |articleList|) && Distinct(order)
    ensures DistinctSlugs(Candidates(order, article, articleList, m, w))
  {
    if order != [] {
      var init := order[..|order| - 1];
      var k := order[|order| - 1];
      var rest := Candidates(init, article, articleList, m, w);
      var c := Candidates(order, article, articleList, m, w);
      CandidatesDistinct(init, article, articleList, m, w);
      CandidatesAreOthers(init, article, articleList, m, w);
      assert k !in init;
      if k != article {
        assert c == rest + [Candidate(k, SquaredDistance(m, w, IndexOf(articleList, article), IndexOf(articleList, k)))];
        assert forall i :: 0 <= i < |rest| ==> c[i] == rest[i];
        assert forall i :: 0 <= i < |rest| ==> rest[i].slug in init;
      }
    }
  }

  /** Every slug of `order` other than `article` has a candidate. */
  lemma {:induction false} CandidatesComplete(order: seq<string>, article: string, articleList: seq<string>,
                                              m: seq<seq<int>>, w: seq<real>, x: string)
    requires article in articleList && forall k :: k in order ==> k in articleList
    requires Shape(m, w, |articleList|) && x in order && x != article
    ensures exists i :: 0 <= i < |Candidates(order, article, articleList, m, w)|
                        && Candidates(order, article, articleList, m, w)[i].slug == x
  {
    var init := order[..|order| - 1];
    var k := order[|order| - 1];
    var rest := Candidates(init, article, articleList, m, w);
    var c := Candidates(order, article, articleList, m, w);
    assert order == init + [k];
    if x != k {
      assert x in init;
      CandidatesComplete(init, article, articleList, m, w, x);
      var i :| 0 <= i < |rest| && rest[i].slug == x;
      assert c[i] == rest[i];
    } else {
      assert c[|rest|].slug == x;
    }
  }

  /** The candidates are the other slugs of `order`, each once, each with
      its distance to `article`. */
  lemma {:induction false} CandidatesAreTheOthers(order: seq<string>, article: string, articleList: seq<string>,
                               m: seq<seq<int>>, w: seq<real>)
    requires article in articleList && forall k :: k in order ==> k in articleList
    requires Shape(m, w, |articleList|) && Distinct(order)
    ensures var c := Candidates(order, article, articleList, m, w);
            && DistinctSlugs(c)
            && |c| == |order| - (if article in order then 1 else 0)
            && (forall i :: 0 <= i < |c| ==>
                  c[i].slug != article && c[i].slug in order
                  && c[i].distance == SquaredDistance(m, w, IndexOf(articleList, article), IndexOf(articleList, c[i].slug)))
            && (forall k :: k in order && k != article ==> exists i :: 0 <= i < |c| && c[i].slug == k)
  {
    CandidatesAreOthers(order, article, articleList, m, w);
    CandidatesLength(order, article, articleList, m, w);
    CandidatesDistinct(order, article, articleList, m, w);
    forall k | k in order && k != article
      ensures exists i :: 0 <= i < |Candidates(order, article, articleList, m, w)|
                          && Candidates(order, article, articleList, m, w)[i].slug == k
    {
      CandidatesComplete(order, article, articleList, m, w, k);
    }
  }

  lemma {:induction false} CandidatesStep(order: seq<string>, i: int, article: string, articleList: seq<string>,
                       m: seq<seq<int>>, w: seq<real>)
    requires article in articleList && forall k :: k in order ==> k in articleList
    requires Shape(m, w, |articleList|) && 0 <= i < |order|
    ensures Candidates(order[..i + 1], article, articleList, m, w)
         == Candidates(order[..i], article, articleList, m, w)
            + if order[i] == article then []
              else [Candidate(order[i], SquaredDistance(m, w, IndexOf(articleList, article), IndexOf(articleList, order[i])))]
  {
    assert order[..i + 1][..i] == order[..i];
  }

  /** The tag updates of one turn of the `__init__` loop: each story tag,
      then the category, then each title word is recorded with its scheme
      unless the tag is already known. */
  method RecordTags(tags: Dict<string>, entry: Entry) returns (r: Dict<string>)
    ensures r == RememberAll(tags, EntrySightings(entry))
  {
    r := tags;
    ghost var ss := StorySightings(entry.storyTags);
    var j := 0;
    while j < |entry.storyTags|
      invariant 0 <= j <= |entry.storyTags|
      invariant r == RememberAll(tags, ss[..j])
    {
      var tag := entry.storyTags[j];
      assert ss[j] == Sighting(tag.slug, tag.scheme);
      RememberStep(tags, ss, j);
      if tag.slug !in r.values {
        r := Put(r, tag.slug, tag.scheme);
      }
      j := j + 1;
    }
    assert ss[..j] == ss;

    ghost var t1 := r;
    if entry.category !in r.values {
      r := Put(r, entry.category, PROGRAM);
    }
    assert r == RememberAll(t1, [Sighting(entry.category, PROGRAM)]);

    ghost var t2 := r;
    var words := entry.words;
    ghost var ws := WordSightings(words);
    var k := 0;
    while k < |words|
      invariant 0 <= k <= |words|
      invariant r == RememberAll(t2, ws[..k])
    {
      var word := words[k];
      assert ws[k] == Sighting(word, WORD);
      RememberStep(t2, ws, k);
      if word !in r.values {
        r := Put(r, word, WORD);
      }
      k := k + 1;
    }
    assert ws[..k] == ws;
    RememberAllAppend(tags, ss + [Sighting(entry.category, PROGRAM)], ws);
    RememberAllAppend(tags, ss, [Sighting(entry.category, PROGRAM)]);
  }

  /** Python's `min` and `max` of two ints. */
  function Min(a: int, b: int): int { if a <= b then a else b }
  function Max(a: int, b: int): int { if a >= b then a else b }

  class SimilarArticles {
    /** The articles by slug, in first-insertion order of their slugs. */
    var articles: Dict<Article>
    /** The scheme of each tag, by tag slug. */
    var tags: Dict<string>
    var articleList: seq<string>
    var tagList: seq<string>
    var articleTagMatrix: seq<seq<int>>
    var tagIdf: seq<real>
    var tagWeights: seq<real>

    /** The article and tag lists are the sorted keys of the two
        dictionaries. */
    ghost predicate Valid()
      reads this
    {
      && articles.Valid() && tags.Valid()
      && articleList == Sort(articles.keys) && tagList == Sort(tags.keys)
      && StrictlyAscending(articleList) && StrictlyAscending(tagList)
      && Distinct(articleList) && |articleList| == |articles.keys|
      && (forall k :: k in articleList <==> k in articles.values)
      && (forall t :: t in tagList <==> t in tags.values)
    }

    /** `prepare` has succeeded: the matrix and the weights are in place. */
    ghost predicate Ready()
      reads this
    {
      && Valid()
      && articleTagMatrix == Incidence(articles.values, articleList, tagList)
      && |tagWeights| == |tagList|
    }

    /** `__init__`, with the fetched stories given as `entries`. */
    constructor (entries: seq<Entry>)
      ensures Valid()
      ensures articles == Build(entries).articles && tags == Build(entries).tags
      ensures articleTagMatrix == [] && tagIdf == [] && tagWeights == []
    {
      var arts: Dict<Article> := Empty();
      var tgs: Dict<string> := Empty();
      var i := 0;
      while i < |entries|
        invariant 0 <= i <= |entries|
        invariant arts == Build(entries[..i]).articles && tgs == Build(entries[..i]).tags
      {
        var entry := entries[i];
        var words := entry.words;
        var article := Article(entry.slug, entry.category, StoryTagSlugs(entry.storyTags) + [entry.category] + words);
        arts := Put(arts, article.slug, article);

        tgs := RecordTags(tgs, entry);
        assert entries[..i + 1][..i] == entries[..i];
        i := i + 1;
      }
      assert entries[..i] == entries;

      articles := arts;
      articleList := Sort(arts.keys);
      tags := tgs;
      tagList := Sort(tgs.keys);
      articleTagMatrix, tagIdf, tagWeights := [], [], [];

      BuildIsValid(entries);
      SortedKeys(arts.keys);
      SortedKeys(tgs.keys);
    }

    /** `prepare`, with `log` for `math.log`: the matrix is assigned first;
        the idf of every tag follows, then the weights. An error leaves the
        fields not yet reached as they were: an unknown scheme is met after
        the idf has been stored. */
    method Prepare(log: real -> real) returns (r: Outcome<PrepareError>)
      requires Valid()
      modifies this
      ensures Valid()
      ensures articles == old(articles) && tags == old(tags)
      ensures articleList == old(articleList) && tagList == old(tagList)
      ensures articleTagMatrix == Incidence(articles.values, articleList, tagList)
      ensures var p := Preparation(log, articles.values, articleList, tags.values, tagList);
              && (r.Pass? <==> p.Success?)
              && (r.Fail? ==> r.error == p.error)
              && (r.Pass? ==> Ready() && tagIdf == p.value.idf && tagWeights == p.value.weights)
      ensures r.Fail? && r.error.ZeroFrequency? ==> tagIdf == old(tagIdf) && tagWeights == old(tagWeights)
      ensures r.Fail? && r.error.UnknownScheme? ==> tagWeights == old(tagWeights)
      ensures r.Fail? && r.error.UnknownScheme? ==>
                var idf := TagIdf(log, tagList, RowSums(articleTagMatrix), |articleList|);
                idf.Success? && tagIdf == idf.value
    {
      articleTagMatrix := Incidence(articles.values, articleList, tagList);
      var idf := TagIdf(log, tagList, RowSums(articleTagMatrix), |articleList|);
      if idf.Failure? {
        return Fail(idf.error);
      }
      tagIdf := idf.value;
      var schemeWeights := SchemeWeights(tags.values, tagList);
      if schemeWeights.Failure? {
        return Fail(schemeWeights.error);
      }
      tagWeights := schemeWeights.value;
      tagWeights := Multiply(tagWeights, tagIdf);
      r := Pass;
    }

    /** Built from entries with distinct slugs, every tag is carried by a
        stored article, so `prepare` can fail only on a scheme missing from
        the weight table. */
    lemma {:induction false} PrepareFailsOnlyOnSchemes(entries: seq<Entry>, log: real -> real)
      requires Valid() && articles == Build(entries).articles && tags == Build(entries).tags
      requires forall i, j :: 0 <= i < j < |entries| ==> entries[i].slug != entries[j].slug
      ensures Preparation(log, articles.values, articleList, tags.values, tagList).Success? <==>
                forall t :: 0 <= t < |tagList| ==> SchemeWeight(tags.values[tagList[t]]).Some?
    {
      PrepareSucceedsIff(log, articles.values, articleList, tags.values, tagList);
      forall t | 0 <= t < |tagList|
        ensures |Carriers(articles.values, articleList, tagList[t])| > 0
      {
        DistinctSlugsEveryTagCarried(entries, tagList[t]);
        var k :| k in articles.values && tagList[t] in articles.values[k].tags;
        assert k in Carriers(articles.values, articleList, tagList[t]);
      }
    }

    /** A repeated slug can make `prepare` fail: a tag only the overwritten
        entry mentions has frequency zero. */
    lemma {:induction false} PrepareFailsOnShadowedTag(entries: seq<Entry>, log: real -> real, i: int, t: string)
      requires Valid() && articles == Build(entries).articles && tags == Build(entries).tags
      requires 0 <= i < |entries| && t in ArticleOf(entries[i]).tags
      requires exists j :: i < j < |entries| && entries[j].slug == entries[i].slug
      requires forall j :: 0 <= j < |entries| && j != i ==> t !in ArticleOf(entries[j]).tags
      ensures Preparation(log, articles.values, articleList, tags.values, tagList).Failure?
      ensures Preparation(log, articles.values, articleList, tags.values, tagList).error.ZeroFrequency?
    {
      ShadowedTagIsCarriedByNone(entries, i, t);
      var x :| 0 <= x < |tagList| && tagList[x] == t;
      var freqs := RowSums(Incidence(articles.values, articleList, tagList));
      RowSumCountsCarriers(articles.values, articleList, t);
      assert Carriers(articles.values, articleList, t) == {};
      assert freqs[x] == 0;
      assert FirstZero(freqs) <= x;
    }

    /** The square of `distance(a, b)`; None where `article_list.index`
        raises ValueError. */
    function Distance(a: string, b: string): (r: Option<real>)
      reads this
      requires Ready()
      ensures r.Some? <==> a in articleList && b in articleList
      ensures r.Some? ==> r.value >= 0.0
    {
      if a !in articleList || b !in articleList then None
      else Some(SquaredDistance(articleTagMatrix, tagWeights, IndexOf(articleList, a), IndexOf(articleList, b)))
    }

    lemma {:induction false} DistanceToSelf(a: string)
      requires Ready() && a in articleList
      ensures Distance(a, a) == Some(0.0)
    {
      var i := IndexOf(articleList, a);
      SquaredDistanceToSelf(articleTagMatrix, tagWeights, i);
    }

    lemma {:induction false} DistanceIsSymmetric(a: string, b: string)
      requires Ready()
      ensures Distance(a, b) == Distance(b, a)
    {
      if a in articleList && b in articleList {
        SquaredDistanceSymmetric(articleTagMatrix, tagWeights, IndexOf(articleList, a), IndexOf(articleList, b));
      }
    }

    /** The distance between two known articles is the summed squared weight
        of the tags exactly one of them carries. */
    lemma {:induction false} DistanceCountsDifferingTags(a: string, b: string)
      requires Ready() && a in articleList && b in articleList
      ensures Distance(a, b) == Some(TagDifference(articles.values, tagList, tagWeights, a, b))
    {
      DistanceIsTagDifference(articles.values, articleList, tagList, tagWeights,
                              IndexOf(articleList, a), IndexOf(articleList, b));
    }

    /** The loop of `closest` that pairs every other article, in
        dictionary order, with its distance to `article`. */
    method CollectCandidates(article: string) returns (candidates: seq<Candidate>)
      requires Ready() && article in articleList
      ensures candidates == Candidates(articles.keys, article, articleList, articleTagMatrix, tagWeights)
    {
      candidates := [];
      var i := 0;
      while i < |articles.keys|
        invariant 0 <= i <= |articles.keys|
        invariant candidates == Candidates(articles.keys[..i], article, articleList, articleTagMatrix, tagWeights)
      {
        var compareSlug := articles.keys[i];
        CandidatesStep(articles.keys, i, article, articleList, articleTagMatrix, tagWeights);
        if compareSlug != article {
          candidates := candidates + [Candidate(compareSlug, Distance(article, compareSlug).value)];
        }
        i := i + 1;
      }
      assert articles.keys[..i] == articles.keys;
    }

    /** `closest` returns other known articles only, each with its
        distance to `article`. */
    lemma {:induction false} ClosestMembers(article: string, n: int)
      requires Ready() && article in articleList
      ensures var r := Take(StableSort(Candidates(articles.keys, article, articleList, articleTagMatrix, tagWeights)), n);
              forall i :: 0 <= i < |r| ==>
                r[i].slug != article && r[i].slug in articles.values
                && Distance(article, r[i].slug) == Some(r[i].distance)
    {
      var c := Candidates(articles.keys, article, articleList, articleTagMatrix, tagWeights);
      var r := Take(StableSort(c), n);
      CandidatesAreOthers(articles.keys, article, articleList, articleTagMatrix, tagWeights);
      CandidatesDistinct(articles.keys, article, articleList, articleTagMatrix, tagWeights);
      RankingProperties(c, article, n);
      forall i | 0 <= i < |r|
        ensures r[i].slug != article && r[i].slug in articles.values
        ensures Distance(article, r[i].slug) == Some(r[i].distance)
      {
        var j :| 0 <= j < |c| && c[j] == r[i];
      }
    }

    /** `closest` returns each article once, nearest first, and as many as
        the slice `[:n]` keeps of the `len(article_list) - 1` others. */
    lemma {:induction false} ClosestShape(article: string, n: int)
      requires Ready() && article in articleList
      ensures var r := Take(StableSort(Candidates(articles.keys, article, articleList, articleTagMatrix, tagWeights)), n);
              && DistinctSlugs(r) && SortedByDistance(r)
              && |r| == (if 0 <= n then Min(n, |articleList| - 1) else Max(0, |articleList| - 1 + n))
    {
      var c := Candidates(articles.keys, article, articleList, articleTagMatrix, tagWeights);
      CandidatesAreOthers(articles.keys, article, articleList, articleTagMatrix, tagWeights);
      CandidatesDistinct(articles.keys, article, articleList, articleTagMatrix, tagWeights);
      CandidatesLength(articles.keys, article, articleList, articleTagMatrix, tagWeights);
      RankingProperties(c, article, n);
    }

    /** `closest(article, n)`: the other articles, in dictionary order, stably
        sorted by distance to `article`, cut to `[:n]`; None where
        `article_list.index` raises ValueError. */
    method Closest(article: string, n: int) returns (r: Option<seq<Candidate>>)
      requires Ready()
      ensures r.None? <==> article !in articleList
      ensures r.Some? ==>
                r.value == Take(StableSort(Candidates(articles.keys, article, articleList, articleTagMatrix, tagWeights)), n)
      ensures r.Some? ==> forall i :: 0 <= i < |r.value| ==>
                r.value[i].slug != article && r.value[i].slug in articles.values
                && Distance(article, r.value[i].slug) == Some(r.value[i].distance)
      ensures r.Some? ==> DistinctSlugs(r.value) && SortedByDistance(r.value)
      ensures r.Some? ==> |r.value| == if 0 <= n then Min(n, |articleList| - 1) else Max(0, |articleList| - 1 + n)
      ensures r.Some? ==> forall d :: IsPrefix(Ties(r.value, d),
                Ties(Candidates(articles.keys, article, articleList, articleTagMatrix, tagWeights), d))
    {
      if article !in articleList {
        return None;
      }
      var candidates := CollectCandidates(article);
      var a := new Candidate[|candidates|](k requires 0 <= k < |candidates| => candidates[k]);
      assert a[..] == candidates;
      SortByDistance(a);
      r := Some(Take(a[..], n));
      ClosestMembers(article, n);
      ClosestShape(article, n);
      forall d ensures IsPrefix(Ties(r.value, d), Ties(candidates, d)) {
        RankingKeepsTieOrder(candidates, n, d);
      }
    }
  }
}
