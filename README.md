# Similar articles: the tag-distance recommender, in Dafny

This project models `SimilarArticles` from `similar.py`. It is a "related
stories" recommender. Each fetched story becomes an article with a tag list:
its story-tag slugs, its primary-category slug and the words of its title.
Every tag gets a scheme: a story tag keeps its own scheme, a category gets
`PROGRAM` and a title word gets `WORD`. The first sighting of a tag wins.

`prepare` builds a 0/1 tag-by-article incidence matrix and then weighs each
tag. The weight is the scheme weight (`STORY_TAG` 1, `PROGRAM` 0, `WORD` 0.1)
times the inverse document frequency `log(n / df)`. Here `df` is the number
of articles carrying the tag and `n` is the number of articles.

`distance` is the weighted Euclidean norm of the difference of two article
columns. `closest(article, n)` scores every other article in dictionary
order, stably sorts the list by distance and returns the slice `[:n]`.

Modules, in dependency order:

- `Wrappers` (`wrappers.dfy`): `Option`, `Result` and `Outcome`.
- `StringOrder` (`strings.dfy`): Python's `<` on `str`, which compares code
  points lexicographically, and `sorted` of distinct keys as an insertion sort.
- `PyDict` (`dict.dfy`): a Python `dict` as its key insertion order plus a
  map. Assigning to a new key appends it; assigning to an existing key keeps
  its place. `IndexOf` is `list.index`.
- `Catalogue` (`catalogue.dfy`): fetched entries, articles and tag sightings.
  `Build` is the catalogue the `__init__` loop produces, written as a fold
  over the entries.
- `Features` (`features.dfy`): the scheme-weight table, the idf, the
  incidence matrix, the row sums, `prepare`'s result with its error cases,
  and the squared distance.
- `Ranking` (`ranking.dfy`): candidates and `list.sort` as a stable insertion
  sort, both as a function and as an in-place sort on an array. Also Python's
  slice `s[:n]`, including negative `n`.
- `Similar` (`similar.dfy`): the class `SimilarArticles`, with the
  constructor loop, `Prepare`, `Distance` and `Closest` as imperative members
  over the class fields.

## Model

| member | source | states |
|---|---|---|
| StringOrder.LessIrreflexive | similar.py:61-63 | No string sorts before itself under Python's `<`. |
| StringOrder.LessTransitive | similar.py:61-63 | Python's `<` on strings is transitive. |
| StringOrder.LessTotal | similar.py:61-63 | Of two different strings, one sorts before the other. |
| StringOrder.LessAsymmetric | similar.py:61-63 | Python's `<` on strings is asymmetric. |
| StringOrder.AscendingIsDistinct | similar.py:61-63 | A strictly ascending list holds no element twice. |
| StringOrder.InsertKeepsOrder | similar.py:61-63 | Inserting a new key into a sorted list keeps it sorted and adds exactly that key. |
| StringOrder.SortIsAscendingPermutation | similar.py:61-63 | `sorted` of distinct keys is strictly ascending and a permutation of the keys. |
| StringOrder.SortedKeys | similar.py:61-63 | `sorted(d.keys())` lists every key exactly once, in ascending order, and has the dictionary's length. |
| StringOrder.AscendingIsUnique | similar.py:61-63 | Two strictly ascending lists with the same elements are equal, so `sorted` is the only ascending order of the keys. |
| PyDict.Empty | similar.py:32-33 | A fresh `{}` is well formed and maps nothing. |
| PyDict.PutKeepsValid | similar.py:46 | Assigning `d[k] = v` keeps the key order free of repeats and in step with the map. |
| PyDict.IndexOf | similar.py:89-90 | `list.index(x)` is the first position holding `x`. |
| Catalogue.RememberAllKeepsValid | similar.py:47-56 | Recording tag schemes keeps the tag dictionary well formed. |
| Catalogue.BuildIsValid | similar.py:32-56 | After the loop, both dictionaries list each key once and list exactly their keys. |
| Catalogue.RememberAllAppend | similar.py:47-56 | Recording two runs of sightings equals recording them one after the other. |
| Catalogue.RememberStep | similar.py:47-49 | One more turn of a tag loop adds one sighting. |
| Catalogue.RememberAllKeeps | similar.py:47-56 | A tag already in `tags` keeps its scheme whatever is sighted later. |
| Catalogue.RememberAllKeys | similar.py:47-56 | The tags known afterwards are exactly those known before plus those sighted. |
| Catalogue.RememberAllFirst | similar.py:47-56 | A newly recorded tag gets the scheme of its first sighting. |
| Catalogue.RememberAllUniform | similar.py:54-56 | A new tag all of whose sightings carry one scheme gets that scheme. |
| Catalogue.BuildTagsRemembersAllSightings | similar.py:34-56 | The tag dictionary records all sightings of all entries, in loop order. |
| Catalogue.EntrySightingTags | similar.py:43-56 | An entry's sightings follow its article's tag list position by position. |
| Catalogue.TagIsSighted | similar.py:43-56 | Every tag of every entry is sighted. |
| Catalogue.SightedIsTag | similar.py:43-56 | Every sighted tag is a tag of some entry. |
| Catalogue.TagKeysAreSeenTags | similar.py:43-56 | A tag is in `tags` exactly when it is in some entry's tag list, overwritten entries included. |
| Catalogue.SchemeIsFirstSighting | similar.py:47-56 | A tag's scheme comes from its first sighting over all entries. |
| Catalogue.SchemeNeverOverwritten | similar.py:47-56 | A scheme recorded after some entries survives every later entry. |
| Catalogue.BuildPrefix | similar.py:47-56 | One turn records the story tags, then the category, then the title words. |
| Catalogue.EntryCategoryGetsProgram | similar.py:51-52 | A category that is new and is not one of the entry's story tags gets `PROGRAM`. |
| Catalogue.EntryWordGetsWord | similar.py:54-56 | A new title word that is neither a story tag nor the category of the entry gets `WORD`. |
| Catalogue.NotSeenBefore | similar.py:43-56 | A tag in no earlier entry is not yet in `tags`. |
| Catalogue.NewCategoryGetsProgram | similar.py:51-52 | A category in no earlier entry's tags, and not a story tag of its own entry, ends with scheme `PROGRAM`. |
| Catalogue.NewWordGetsWord | similar.py:54-56 | A title word first met in an entry, behind that entry's story tags and category, ends with scheme `WORD`. |
| Catalogue.ArticleKeysAreSlugs | similar.py:42-46 | The article keys are exactly the slugs of the entries. |
| Catalogue.LastEntryWins | similar.py:46 | A repeated slug stores the article of its last entry. |
| Catalogue.ArticleOrderIsFirstOccurrence | similar.py:46 | Of two article keys, the earlier one's slug occurs among the entries before any occurrence of the later one. |
| Catalogue.DistinctSlugsEveryTagCarried | similar.py:43-56 | Without repeated slugs, every tag in `tags` is carried by a stored article. |
| Catalogue.StoredArticleIsLastEntry | similar.py:34-45 | Each stored article is the data of the last entry that has its slug. |
| Catalogue.ShadowedTagIsCarriedByNone | similar.py:34-56 | If only entry `i` mentions a tag and a later entry repeats the slug of `i`, the tag stays in `tags` but no stored article carries it. |
| Catalogue.OverwrittenTagIsCarriedByNone | similar.py:46-56 | For the entries `a{x}` then `a{}`, `x` stays in `tags` and no stored article carries it (an instance of `ShadowedTagIsCarriedByNone`). |
| Features.RowSumCountsCarriers | similar.py:66-79 | A row sum of the matrix counts the distinct articles carrying the tag, so it is at most the number of articles. |
| Features.FirstZero | similar.py:76-79 | Finds the first tag with zero frequency; every tag before it has a nonzero frequency. |
| Features.FirstUnknownScheme | similar.py:81-83 | Finds the first tag whose scheme has no entry in `TAG_WEIGHTS`; every tag before it has a weight. |
| Features.PrepareSucceedsIff | similar.py:65-85 | Preparation succeeds exactly when every tag is carried by some article and has a known scheme. It then yields one row of `len(article_list)` columns, one idf and one weight per tag. |
| Features.WeightOfTag | similar.py:76-85 | A tag's idf is `log(n / c)`, with `c` its number of carriers and `0 < c <= n`. Its weight is the scheme weight times that idf. |
| Features.ProgramTagsWeighZero | similar.py:81-85 | Tags of scheme `PROGRAM`, categories among them, weigh 0. |
| Features.SquaredDistance | similar.py:92-94 | The squared weighted norm is never negative. |
| Features.SquaredDistanceToSelf | similar.py:92-94 | The distance from an article column to itself is 0. |
| Features.SquaredDistanceSymmetric | similar.py:92-94 | The distance does not depend on the order of the two columns. |
| Features.DistanceIsTagDifference | similar.py:66-94 | Over the incidence matrix, the squared distance equals the summed squared weight of the tags exactly one of the two articles carries. |
| Features.IncidenceIsZeroOne | similar.py:66-71 | A matrix entry is 1 exactly when the article's tags contain the tag, and 0 otherwise. |
| Ranking.Take | similar.py:110 | `s[:n]` is a prefix of `s`: of length `min(n, len(s))` for `n >= 0`, and `max(0, len(s) + n)` for `n < 0`. |
| Ranking.InsertPermutation | similar.py:109 | Inserting a candidate adds exactly that candidate. |
| Ranking.InsertSorted | similar.py:109 | Inserting into a list sorted by distance keeps it sorted. |
| Ranking.InsertSortedPermutation | similar.py:109 | The insertion step both sorts and permutes. |
| Ranking.InsertTies | similar.py:109 | An inserted candidate goes ahead of the list's candidates at its distance, and other distances are untouched. |
| Ranking.InsertDistinctSlugs | similar.py:109 | Inserting a new slug keeps the slugs distinct. |
| Ranking.InsertAt | similar.py:109 | Insertion places the candidate after the leading run of strictly nearer candidates, before the first candidate that is not. |
| Ranking.StableSortSortedPermutation | similar.py:109 | The sort orders by distance and is a permutation of its input. |
| Ranking.StableSortKeepsTies | similar.py:109 | At every distance the sort keeps the input order of equal-distance candidates (stability). |
| Ranking.StableSortDistinctSlugs | similar.py:109 | Sorting keeps distinct slugs distinct. |
| Ranking.TiesMembers | similar.py:109 | The candidates at a distance are empty exactly when no candidate has that distance. |
| Ranking.SameFirst | similar.py:109 | Two sorted lists with the same ties at every distance start with the same candidate. |
| Ranking.TiesOfTails | similar.py:109 | Dropping a common first candidate keeps the ties equal. |
| Ranking.SortedTiesDetermine | similar.py:109 | A sorted list is determined by its ties at every distance. |
| Ranking.StableSortIsUnique | similar.py:109 | Any sorted list with the input's ties at every distance equals the model's sort: the model agrees with every stable sort, `list.sort` included. |
| Ranking.TiesOfPrefix | similar.py:110 | The ties of a prefix are a prefix of the ties. |
| Ranking.RankingProperties | similar.py:109-110 | The sliced sorted list holds only input candidates, distinct, sorted, with the slice's length. |
| Ranking.RankingKeepsTieOrder | similar.py:109-110 | In the sliced sorted list, the candidates at each distance are a prefix of the input's candidates at that distance. |
| Ranking.SortByDistance | similar.py:109 | `articles.sort(key=distance)` in place: the array ends as the stable sort of its old contents. |
| Ranking.InsertInPlace | similar.py:109 | One in-place step moves a candidate into the sorted tail and leaves the head alone. |
| Similar.CandidatesAreOthers | similar.py:99-107 | Each candidate is a slug other than `article`, with its distance to `article`. |
| Similar.CandidatesLength | similar.py:99-107 | Every slug except `article` yields one candidate. |
| Similar.CandidatesDistinct | similar.py:99-107 | Distinct slugs give distinct candidates. |
| Similar.CandidatesComplete | similar.py:99-107 | Every other slug has a candidate. |
| Similar.CandidatesAreTheOthers | similar.py:99-107 | The candidates are exactly the other slugs, each once, with their distances. |
| Similar.CandidatesStep | similar.py:100-107 | One turn of the loop appends one candidate, or none for `article` itself. |
| Similar.RecordTags | similar.py:47-56 | The tag updates of one entry: story tags, then the category, then the title words, each recorded only if new. |
| Similar.SimilarArticles.constructor | similar.py:32-63 | `__init__` stores exactly the catalogue `Build` describes, and sorts both key lists. |
| Similar.SimilarArticles.Prepare | similar.py:65-85 | `prepare` stores the incidence matrix. It succeeds exactly when the preparation does, and it stores that preparation's idf and weights. On an error the fields not yet reached keep their old values. After an unknown scheme, `tag_idf` already holds the idf of every tag. |
| Similar.SimilarArticles.PrepareFailsOnShadowedTag | similar.py:34-79 | If only entry `i` mentions tag `t` and a later entry repeats the slug of `i`, `Preparation` fails with `ZeroFrequency`: the idf divides by zero. |
| Similar.SimilarArticles.PrepareFailsOnlyOnSchemes | similar.py:32-85 | Built from entries with distinct slugs, `prepare` fails only on a scheme missing from `TAG_WEIGHTS`. |
| Similar.SimilarArticles.Distance | similar.py:88-94 | The distance exists exactly when both slugs are listed (otherwise `index` raises), and it is never negative. |
| Similar.SimilarArticles.DistanceToSelf | similar.py:88-94 | An article is at distance 0 from itself. |
| Similar.SimilarArticles.DistanceIsSymmetric | similar.py:88-94 | `distance(a, b) == distance(b, a)`, unknown slugs included. |
| Similar.SimilarArticles.DistanceCountsDifferingTags | similar.py:66-94 | The squared distance is the summed squared weight of the tags one article carries and the other lacks. |
| Similar.SimilarArticles.CollectCandidates | similar.py:99-107 | The loop of `closest` yields every other article in dictionary order, paired with its distance. |
| Similar.SimilarArticles.ClosestMembers | similar.py:96-110 | `closest` returns other known articles only, each with its distance to `article`. |
| Similar.SimilarArticles.ClosestShape | similar.py:96-110 | `closest` returns each article at most once, nearest first. It returns `min(n, len(article_list) - 1)` results for `n >= 0`, and `max(0, len(article_list) - 1 + n)` for `n < 0`. |
| Similar.SimilarArticles.Closest | similar.py:96-110 | `closest` returns None exactly for an unknown article. Otherwise it returns the slice of the stable sort of the candidates, with the properties above, and equal-distance candidates keep dictionary order. |

## Left out

- The HTTP request to the stories API (`similar.py:24-30`): the entries are the constructor's parameter.
- The fields `title`, `headline_or_extract_medium` and `published_at` (with its `strptime`): no modelled operation reads them. `strptime` (`similar.py:41`) raises ValueError on a malformed date and so makes `__init__` fail, while the model's constructor never fails.
- `text.extract_words`, the title tokenizer: `text.py` is not part of this model. Each entry carries its title words already extracted.
- `print(words)` and the driver code at the end of `similar.py`: output only.
- The PCA fit (`similar.py:73-74`): its result is never used. Note that `n_components=100` raises on a corpus with fewer than 100 articles or tags, before any idf is computed. The model does not raise there.
- `math.log` is the parameter `log` of `Prepare`: nothing about its values is assumed, so the model does not show that a tag carried by every article gets idf 0.
- Floating point: weights and distances are exact reals.
- Features.InverseDocumentFrequency: requires a nonzero frequency. Python would raise on a zero Python integer, but numpy's division of a row sum by zero gives `inf` with a warning, and then `inf` and `nan` weights. Both cases are the error `ZeroFrequency` in the model.
- Similar.SimilarArticles.Distance: returns the square of `np.linalg.norm`. The square root is monotone, so every comparison and the whole ranking are unchanged.
- Candidates carry the squared distance for the same reason.
- `distance` is a weighted Euclidean norm, and `closest` sorts by it alone: `similar.py` has no recency term. A negative `n` is a Python slice: all but the last `-n` candidates.
- Similar.SimilarArticles.Distance and Similar.SimilarArticles.Closest: require a successful `prepare`. Called before one, Python raises AttributeError at `self.article_tag_matrix` (`similar.py:93`, reached from `similar.py:106`) once the slug lookup has passed; the model does not describe that error.
- The initial values `self.articles = []` and `self.tag_list = [0]`: they are overwritten before the constructor returns.
