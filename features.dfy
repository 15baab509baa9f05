/**
 * What `SimilarArticles.prepare` computes from the catalogue: the 0/1
 * tag-by-article incidence matrix, each tag's document frequency and
 * weight, and the weighted distance between two article columns.
 */
module Features {
  import opened Wrappers
  import opened PyDict
  import opened Catalogue

  /** `TAG_WEIGHTS[scheme]`; None where the lookup raises KeyError. */
  function SchemeWeight(scheme: string): Option<real>
  {
    if scheme == STORY_TAG then Some(1.0)
    else if scheme == PROGRAM then Some(0.0)
    else if scheme == WORD then Some(0.1)
    else None
  }

  /** `inverse_document_frequency(x, n)`, that is `math.log(n / x)`; the
      parameter `log` stands for `math.log`, whose values are not modelled. */
  function InverseDocumentFrequency(log: real -> real, x: int, n: int): real
    requires x != 0
  {
    log(n as real / x as real)
  }

  /** The incidence row of one tag: 1 for each listed article whose tags
      contain it, 0 for the others. */
  function Row(articles: map<string, Article>, articleList: seq<string>, tag: string): seq<int>
    requires forall k :: k in articleList ==> k in articles
  {
    seq(|articleList|, a requires 0 <= a < |articleList| => if tag in articles[articleList[a]].tags then 1 else 0)
  }

  /** `article_tag_matrix`: one row per tag of `tagList`, one column per
      article of `articleList`. */
  function Incidence(articles: map<string, Article>, articleList: seq<string>, tagList: seq<string>): seq<seq<int>>
    requires forall k :: k in articleList ==> k in articles
  {
    seq(|tagList|, t requires 0 <= t < |tagList| => Row(articles, articleList, tagList[t]))
  }

  function Sum(s: seq<int>): int
  {
    if s == [] then 0 else Sum(s[..|s| - 1]) + s[|s| - 1]
  }

  /** `np.sum(article_tag_matrix, axis = 1)` */
  function RowSums(m: seq<seq<int>>): seq<int>
  {
    seq(|m|, t requires 0 <= t < |m| => Sum(m[t]))
  }

  /** The listed articles that carry `tag`. */
  function Carriers(articles: map<string, Article>, articleList: seq<string>, tag: string): set<string>
  {
    set a | a in articleList && a in articles && tag in articles[a].tags
  }

  /** A row sum counts distinct carrying articles, not occurrences of the
      tag, and so lies between 0 and the number of articles. */
  lemma {:induction false} RowSumCountsCarriers(articles: map<string, Article>, articleList: seq<string>, tag: string)
    requires Distinct(articleList) && forall k :: k in articleList ==> k in articles
    ensures Sum(Row(articles, articleList, tag)) == |Carriers(articles, articleList, tag)| <= |articleList|
  {
    if articleList != [] {
      var n := |articleList| - 1;
      var init := articleList[..n];
      var last := articleList[n];
      RowSumCountsCarriers(articles, init, tag);
      assert Row(articles, articleList, tag)[..n] == Row(articles, init, tag);
      if tag in articles[last].tags {
        assert Carriers(articles, articleList, tag) == Carriers(articles, init, tag) + {last};
        assert last !in Carriers(articles, init, tag);
      } else {
        assert Carriers(articles, articleList, tag) == Carriers(articles, init, tag);
      }
    }
  }

  // ---------------------------------------------------------------------
  // Weights.

  /** Why `prepare` cannot produce weights: a tag no stored article carries
      (the idf divides by its zero frequency), or a scheme that is not a key
      of the scheme-weight table (KeyError). */
  datatype PrepareError = ZeroFrequency(tag: string) | UnknownScheme(tag: string, scheme: string)

  /** The first zero frequency, or |freqs| when there is none. */
  function FirstZero(freqs: seq<int>): (r: nat)
    ensures r <= |freqs|
    ensures r < |freqs| ==> freqs[r] == 0
    ensures forall i :: 0 <= i < r ==> freqs[i] != 0
  {
    if freqs == [] then 0
    else if freqs[0] == 0 then 0
    else 1 + FirstZero(freqs[1..])
  }

  /** The first tag whose scheme has no weight, or |tagList| when there is none. */
  function FirstUnknownScheme(schemes: map<string, string>, tagList: seq<string>): (r: nat)
    requires forall t :: t in tagList ==> t in schemes
    ensures r <= |tagList|
    ensures r < |tagList| ==> SchemeWeight(schemes[tagList[r]]).None?
    ensures forall i :: 0 <= i < r ==> SchemeWeight(schemes[tagList[i]]).Some?
  {
    if tagList == [] then 0
    else if SchemeWeight(schemes[tagList[0]]).None? then 0
    else 1 + FirstUnknownScheme(schemes, tagList[1..])
  }

  /** `tag_idf`: the idf of every tag, computed before any weight. */
  function TagIdf(log: real -> real, tagList: seq<string>, freqs: seq<int>, n: int): Result<seq<real>, PrepareError>
    requires |freqs| == |tagList|
  {
    var z := FirstZero(freqs);
    if z < |freqs| then Failure(ZeroFrequency(tagList[z]))
    else Success(seq(|freqs|, i requires 0 <= i < |freqs| => InverseDocumentFrequency(log, freqs[i], n)))
  }

  /** The scheme weight of every tag, `TAG_WEIGHTS[tags[tag]['scheme']]`. */
  function SchemeWeights(schemes: map<string, string>, tagList: seq<string>): Result<seq<real>, PrepareError>
    requires forall t :: t in tagList ==> t in schemes
  {
    var u := FirstUnknownScheme(schemes, tagList);
    if u < |tagList| then Failure(UnknownScheme(tagList[u], schemes[tagList[u]]))
    else Success(seq(|tagList|, i requires 0 <= i < |tagList| => SchemeWeight(schemes[tagList[i]]).value))
  }

  /** `np.multiply` of two vectors of the same length. */
  function Multiply(a: seq<real>, b: seq<real>): seq<real>
    requires |a| == |b|
  {
    seq(|a|, i requires 0 <= i < |a| => a[i] * b[i])
  }

  datatype Prepared = Prepared(matrix: seq<seq<int>>, idf: seq<real>, weights: seq<real>)

  /** Everything `prepare` computes, or the first error it meets. */
  function Preparation(log: real -> real, articles: map<string, Article>, articleList: seq<string>,
                       schemes: map<string, string>, tagList: seq<string>): Result<Prepared, PrepareError>
    requires forall k :: k in articleList ==> k in articles
    requires forall t :: t in tagList ==> t in schemes
  {
    var m := Incidence(articles, articleList, tagList);
    var idf := TagIdf(log, tagList, RowSums(m), |articleList|);
    if idf.Failure? then Failure(idf.error)
    else
      var sw := SchemeWeights(schemes, tagList);
      if sw.Failure? then Failure(sw.error)
      else Success(Prepared(m, idf.value, Multiply(sw.value, idf.value)))
  }

  /** `prepare` succeeds exactly when every tag is carried by some listed
      article and has a scheme of the weight table; the matrix is then
      |tagList| by |articleList| and there is one weight per tag. */
  lemma {:induction false} PrepareSucceedsIff(log: real -> real, articles: map<string, Article>, articleList: seq<string>,
                           schemes: map<string, string>, tagList: seq<string>)
    requires Distinct(articleList) && forall k :: k in articleList ==> k in articles
    requires forall t :: t in tagList ==> t in schemes
    ensures Preparation(log, articles, articleList, schemes, tagList).Success? <==>
              forall t :: 0 <= t < |tagList| ==>
                |Carriers(articles, articleList, tagList[t])| > 0 && SchemeWeight(schemes[tagList[t]]).Some?
    ensures Preparation(log, articles, articleList, schemes, tagList).Success? ==>
              var p := Preparation(log, articles, articleList, schemes, tagList).value;
              |p.matrix| == |p.weights| == |p.idf| == |tagList|
              && forall t :: 0 <= t < |tagList| ==> |p.matrix[t]| == |articleList|
  {
    var m := Incidence(articles, articleList, tagList);
    var freqs := RowSums(m);
    forall t | 0 <= t < |tagList| ensures freqs[t] == |Carriers(articles, articleList, tagList[t])| {
      RowSumCountsCarriers(articles, articleList, tagList[t]);
    }
    var z := FirstZero(freqs);
    var u := FirstUnknownScheme(schemes, tagList);
    if z < |freqs| {
      assert |Carriers(articles, articleList, tagList[z])| == 0;
    } else if u < |tagList| {
      assert SchemeWeight(schemes[tagList[u]]).None?;
    }
  }

  /** On success, a tag's weight is its scheme weight times the idf of the
      number of distinct listed articles carrying it. */
  lemma {:induction false} WeightOfTag(log: real -> real, articles: map<string, Article>, articleList: seq<string>,
                    schemes: map<string, string>, tagList: seq<string>, t: int)
    requires Distinct(articleList) && forall k :: k in articleList ==> k in articles
    requires forall t :: t in tagList ==> t in schemes
    requires 0 <= t < |tagList|
    requires Preparation(log, articles, articleList, schemes, tagList).Success?
    ensures var p := Preparation(log, articles, articleList, schemes, tagList).value;
            var c := |Carriers(articles, articleList, tagList[t])|;
            && t < |p.weights| && t < |p.idf|
            && 0 < c <= |articleList|
            && p.idf[t] == log(|articleList| as real / c as real)
            && p.weights[t] == SchemeWeight(schemes[tagList[t]]).value * log(|articleList| as real / c as real)
  {
    RowSumCountsCarriers(articles, articleList, tagList[t]);
  }

  /** Tags of scheme PROGRAM, categories among them, weigh nothing. */
  lemma {:induction false} ProgramTagsWeighZero(log: real -> real, articles: map<string, Article>, articleList: seq<string>,
                             schemes: map<string, string>, tagList: seq<string>, t: int)
    requires forall k :: k in articleList ==> k in articles
    requires forall t :: t in tagList ==> t in schemes
    requires 0 <= t < |tagList| && schemes[tagList[t]] == PROGRAM
    requires Preparation(log, articles, articleList, schemes, tagList).Success?
    ensures t < |Preparation(log, articles, articleList, schemes, tagList).value.weights|
    ensures Preparation(log, articles, articleList, schemes, tagList).value.weights[t] == 0.0
  {
  }

  // ---------------------------------------------------------------------
  // Distance.

  /** The columns `i` and `j` exist in every row, and there is one weight
      per row. */
  ghost predicate Columns(m: seq<seq<int>>, w: seq<real>, i: int, j: int)
  {
    |w| == |m| && 0 <= i && 0 <= j && forall t :: 0 <= t < |m| ==> i < |m[t]| && j < |m[t]|
  }

  /** The square of `distance`: the squared Euclidean norm of
      (column i - column j) multiplied elementwise by the weights. */
  function SquaredDistance(m: seq<seq<int>>, w: seq<real>, i: int, j: int): (r: real)
    requires Columns(m, w, i, j)
    ensures r >= 0.0
  {
    if m == [] then 0.0
    else
      var k := |m| - 1;
      var x := (m[k][i] - m[k][j]) as real * w[k];
      SquaredDistance(m[..k], w[..k], i, j) + x * x
  }

  lemma {:induction false} SquaredDistanceToSelf(m: seq<seq<int>>, w: seq<real>, i: int)
    requires Columns(m, w, i, i)
    ensures SquaredDistance(m, w, i, i) == 0.0
  {
    if m != [] {
      SquaredDistanceToSelf(m[..|m| - 1], w[..|w| - 1], i);
    }
  }

  lemma {:induction false} SquaredDistanceSymmetric(m: seq<seq<int>>, w: seq<real>, i: int, j: int)
    requires Columns(m, w, i, j)
    ensures SquaredDistance(m, w, i, j) == SquaredDistance(m, w, j, i)
  {
    if m != [] {
      var k := |m| - 1;
      SquaredDistanceSymmetric(m[..k], w[..k], i, j);
      assert (m[k][i] - m[k][j]) as real * w[k] == -((m[k][j] - m[k][i]) as real * w[k]);
    }
  }

  /** The summed squared weights of the tags that exactly one of the
      articles `a` and `b` carries: the distance read off the tag sequences,
      without the matrix. */
  function TagDifference(articles: map<string, Article>, tagList: seq<string>, w: seq<real>, a: string, b: string): real
    requires a in articles && b in articles && |w| == |tagList|
  {
    if tagList == [] then 0.0
    else
      var k := |tagList| - 1;
      TagDifference(articles, tagList[..k], w[..k], a, b)
        + (if (tagList[k] in articles[a].tags) != (tagList[k] in articles[b].tags) then w[k] * w[k] else 0.0)
  }

  /** The squared distance between two columns of the incidence matrix is
      the summed squared weight of the tags one article carries and the
      other does not. */
  lemma {:induction false} DistanceIsTagDifference(articles: map<string, Article>, articleList: seq<string>,
                                                   tagList: seq<string>, w: seq<real>, i: int, j: int)
    requires forall k :: k in articleList ==> k in articles
    requires 0 <= i < |articleList| && 0 <= j < |articleList| && |w| == |tagList|
    ensures Columns(Incidence(articles, articleList, tagList), w, i, j)
    ensures SquaredDistance(Incidence(articles, articleList, tagList), w, i, j)
         == TagDifference(articles, tagList, w, articleList[i], articleList[j])
  {
    var m := Incidence(articles, articleList, tagList);
    if tagList != [] {
      var k := |tagList| - 1;
      assert m[..k] == Incidence(articles, articleList, tagList[..k]);
      DistanceIsTagDifference(articles, articleList, tagList[..k], w[..k], i, j);
      var d := (m[k][i] - m[k][j]) as real;
      assert d * d == if (tagList[k] in articles[articleList[i]].tags) != (tagList[k] in articles[articleList[j]].tags) then 1.0 else 0.0;
      assert (d * w[k]) * (d * w[k]) == (d * d) * (w[k] * w[k]);
    }
  }

  /** Every entry of the incidence matrix is 1 or 0, according as the
      article carries the tag. */
  lemma {:induction false} IncidenceIsZeroOne(articles: map<string, Article>, articleList: seq<string>, tagList: seq<string>)
    requires forall k :: k in articleList ==> k in articles
    ensures var m := Incidence(articles, articleList, tagList);
            forall t, a :: 0 <= t < |m| && 0 <= a < |articleList| ==>
              |m[t]| == |articleList| && (m[t][a] == 1 <==> tagList[t] in articles[articleList[a]].tags)
              && (m[t][a] == 0 <==> tagList[t] !in articles[articleList[a]].tags)
  {
  }
}
