/**
 * The catalogue that `SimilarArticles.__init__` builds from the fetched
 * stories: the articles by slug and the tag schemes by tag slug.
 */
module Catalogue {
  import opened PyDict

  /** The schemes named in the scheme-weight table. */
  const STORY_TAG: string := "STORY_TAG"
  const PROGRAM: string := "PROGRAM"
  const WORD: string := "WORD"

  datatype StoryTag = StoryTag(slug: string, scheme: string)

  /** One fetched story, reduced to what the catalogue reads: its slug, the
      slug of its primary category, its story tags and the words the title
      tokenizer extracted from its title. */
  datatype Entry = Entry(slug: string, category: string, storyTags: seq<StoryTag>, words: seq<string>)

  /** A stored article: its slug, its category and its tag sequence. */
  datatype Article = Article(slug: string, category: string, tags: seq<string>)

  function StoryTagSlugs(ts: seq<StoryTag>): seq<string>
  {
    seq(|ts|, i requires 0 <= i < |ts| => ts[i].slug)
  }

  /** The article stored for an entry: story-tag slugs, then the category,
      then the title words. */
  function ArticleOf(e: Entry): Article
  {
    Article(e.slug, e.category, StoryTagSlugs(e.storyTags) + [e.category] + e.words)
  }

  /** A tag met while reading an entry, with the scheme it would get if it
      were new: its own scheme for a story tag, PROGRAM for the category,
      WORD for a title word. */
  datatype Sighting = Sighting(tag: string, scheme: string)

  function StorySightings(ts: seq<StoryTag>): seq<Sighting>
  {
    seq(|ts|, i requires 0 <= i < |ts| => Sighting(ts[i].slug, ts[i].scheme))
  }

  function WordSightings(ws: seq<string>): seq<Sighting>
  {
    seq(|ws|, i requires 0 <= i < |ws| => Sighting(ws[i], WORD))
  }

  /** The sightings of one entry, in the order the loop meets them. */
  function EntrySightings(e: Entry): seq<Sighting>
  {
    StorySightings(e.storyTags) + [Sighting(e.category, PROGRAM)] + WordSightings(e.words)
  }

  /** All sightings of a run of entries, in order. */
  function Sightings(entries: seq<Entry>): seq<Sighting>
  {
    if entries == [] then []
    else Sightings(entries[..|entries| - 1]) + EntrySightings(entries[|entries| - 1])
  }

  /** `if tag not in tags: tags[tag] = {'scheme': scheme}` */
  function Remember(d: Dict<string>, s: Sighting): Dict<string>
  {
    if s.tag in d.values then d else Put(d, s.tag, s.scheme)
  }

  function RememberAll(d: Dict<string>, ss: seq<Sighting>): Dict<string>
  {
    if ss == [] then d else Remember(RememberAll(d, ss[..|ss| - 1]), ss[|ss| - 1])
  }

  datatype Catalogue = Catalogue(articles: Dict<Article>, tags: Dict<string>)
  {
    ghost predicate Valid()
    {
      articles.Valid() && tags.Valid()
    }
  }

  /** One turn of the catalogue loop. */
  function AddEntry(c: Catalogue, e: Entry): Catalogue
  {
    Catalogue(Put(c.articles, e.slug, ArticleOf(e)), RememberAll(c.tags, EntrySightings(e)))
  }

  /** The catalogue after the loop has read `entries`. */
  function Build(entries: seq<Entry>): Catalogue
  {
    if entries == [] then Catalogue(Empty(), Empty())
    else AddEntry(Build(entries[..|entries| - 1]), entries[|entries| - 1])
  }

  // ---------------------------------------------------------------------
  // Remembering tag schemes: first sighting wins.

  lemma {:induction false} RememberAllKeepsValid(d: Dict<string>, ss: seq<Sighting>)
    requires d.Valid()
    ensures RememberAll(d, ss).Valid()
  {
    if ss != [] {
      var prev := RememberAll(d, ss[..|ss| - 1]);
      var last := ss[|ss| - 1];
      RememberAllKeepsValid(d, ss[..|ss| - 1]);
      if last.tag !in prev.values {
        PutKeepsValid(prev, last.tag, last.scheme);
      }
    }
  }

  /** Both dictionaries of a build list each key once, and list exactly
      their keys. */
  lemma {:induction false} BuildIsValid(entries: seq<Entry>)
    ensures Build(entries).Valid()
  {
    if entries != [] {
      var init := entries[..|entries| - 1];
      var last := entries[|entries| - 1];
      BuildIsValid(init);
      PutKeepsValid(Build(init).articles, last.slug, ArticleOf(last));
      RememberAllKeepsValid(Build(init).tags, EntrySightings(last));
    }
  }

  lemma {:induction false} RememberAllAppend(d: Dict<string>, a: seq<Sighting>, b: seq<Sighting>)
    ensures RememberAll(d, a + b) == RememberAll(RememberAll(d, a), b)
  {
    if b != [] {
      assert (a + b)[..|a + b| - 1] == a + b[..|b| - 1];
      RememberAllAppend(d, a, b[..|b| - 1]);
    } else {
      assert a + b == a;
    }
  }

  /** One more sighting of the loop. */
  lemma {:induction false} RememberStep(d: Dict<string>, ss: seq<Sighting>, k: int)
    requires 0 <= k < |ss|
    ensures RememberAll(d, ss[..k + 1]) == Remember(RememberAll(d, ss[..k]), ss[k])
  {
    assert ss[..k + 1][..k] == ss[..k];
  }

  /** A tag already known keeps its scheme. */
  lemma {:induction false} RememberAllKeeps(d: Dict<string>, ss: seq<Sighting>, t: string)
    requires t in d.values
    ensures t in RememberAll(d, ss).values && RememberAll(d, ss).values[t] == d.values[t]
  {
    if ss != [] {
      RememberAllKeeps(d, ss[..|ss| - 1], t);
    }
  }

  /** The tags known afterwards are those known before and those sighted. */
  lemma {:induction false} RememberAllKeys(d: Dict<string>, ss: seq<Sighting>, t: string)
    ensures t in RememberAll(d, ss).values <==> t in d.values || exists k :: 0 <= k < |ss| && ss[k].tag == t
  {
    if ss != [] {
      var init := ss[..|ss| - 1];
      RememberAllKeys(d, init, t);
      if exists k :: 0 <= k < |init| && init[k].tag == t {
        var k :| 0 <= k < |init| && init[k].tag == t;
        assert ss[k].tag == t;
      }
      if exists k :: 0 <= k < |ss| && ss[k].tag == t {
        var k :| 0 <= k < |ss| && ss[k].tag == t;
        if k < |init| {
          assert init[k].tag == t;
        }
      }
    }
  }

  /** A tag new to `d` gets the scheme of its first sighting. */
  lemma {:induction false} RememberAllFirst(d: Dict<string>, ss: seq<Sighting>, t: string)
    requires t !in d.values && t in RememberAll(d, ss).values
    ensures exists k :: 0 <= k < |ss| && ss[k] == Sighting(t, RememberAll(d, ss).values[t])
                        && forall k' :: 0 <= k' < k ==> ss[k'].tag != t
  {
    var init := ss[..|ss| - 1];
    var r := RememberAll(d, ss);
    if t in RememberAll(d, init).values {
      RememberAllFirst(d, init, t);
      var k :| 0 <= k < |init| && init[k] == Sighting(t, RememberAll(d, init).values[t])
               && forall k' :: 0 <= k' < k ==> init[k'].tag != t;
      assert ss[k] == init[k];
      assert forall k' :: 0 <= k' < k ==> ss[k'] == init[k'];
    } else {
      RememberAllKeys(d, init, t);
      var k := |ss| - 1;
      assert forall k' :: 0 <= k' < k ==> ss[k'] == init[k'];
      assert ss[k] == Sighting(t, r.values[t]);
    }
  }

  /** When every sighting of `t` carries scheme `s`, a new `t` gets `s`. */
  lemma {:induction false} RememberAllUniform(d: Dict<string>, ss: seq<Sighting>, t: string, s: string)
    requires t !in d.values && t in RememberAll(d, ss).values
    requires forall k :: 0 <= k < |ss| && ss[k].tag == t ==> ss[k].scheme == s
    ensures RememberAll(d, ss).values[t] == s
  {
    RememberAllFirst(d, ss, t);
  }

  // ---------------------------------------------------------------------
  // The tag dictionary of a whole build.

  lemma {:induction false} BuildTagsRemembersAllSightings(entries: seq<Entry>)
    ensures Build(entries).tags == RememberAll(Empty(), Sightings(entries))
  {
    if entries != [] {
      var init := entries[..|entries| - 1];
      BuildTagsRemembersAllSightings(init);
      RememberAllAppend(Empty(), Sightings(init), EntrySightings(entries[|entries| - 1]));
    }
  }

  lemma {:induction false} EntrySightingTags(e: Entry)
    ensures |EntrySightings(e)| == |ArticleOf(e).tags|
    ensures forall k :: 0 <= k < |EntrySightings(e)| ==> EntrySightings(e)[k].tag == ArticleOf(e).tags[k]
  {
  }

  /** Every tag of an entry is sighted. */
  lemma {:induction false} TagIsSighted(entries: seq<Entry>, i: int, t: string)
    requires 0 <= i < |entries| && t in ArticleOf(entries[i]).tags
    ensures exists k :: 0 <= k < |Sightings(entries)| && Sightings(entries)[k].tag == t
  {
    var init := entries[..|entries| - 1];
    var last := entries[|entries| - 1];
    var s := Sightings(entries);
    if i < |init| {
      assert entries[i] == init[i];
      TagIsSighted(init, i, t);
      var k :| 0 <= k < |Sightings(init)| && Sightings(init)[k].tag == t;
      assert s[k].tag == t;
    } else {
      EntrySightingTags(last);
      var p :| 0 <= p < |ArticleOf(last).tags| && ArticleOf(last).tags[p] == t;
      assert s[|Sightings(init)| + p].tag == t;
    }
  }

  /** Every sighted tag is a tag of some entry. */
  lemma {:induction false} SightedIsTag(entries: seq<Entry>, k: int, t: string)
    requires 0 <= k < |Sightings(entries)| && Sightings(entries)[k].tag == t
    ensures exists j :: 0 <= j < |entries| && t in ArticleOf(entries[j]).tags
  {
    var init := entries[..|entries| - 1];
    var last := entries[|entries| - 1];
    if k < |Sightings(init)| {
      assert Sightings(init)[k].tag == t;
      SightedIsTag(init, k, t);
      var j :| 0 <= j < |init| && t in ArticleOf(init[j]).tags;
      assert entries[j] == init[j];
    } else {
      EntrySightingTags(last);
      assert ArticleOf(last).tags[k - |Sightings(init)|] == t;
    }
  }

  /** The tag dictionary holds exactly the story-tag slugs, category slugs
      and title words of all entries read, overwritten ones included. */
  lemma {:induction false} TagKeysAreSeenTags(entries: seq<Entry>, t: string)
    ensures t in Build(entries).tags.values <==> exists j :: 0 <= j < |entries| && t in ArticleOf(entries[j]).tags
  {
    BuildTagsRemembersAllSightings(entries);
    RememberAllKeys(Empty(), Sightings(entries), t);
    if entries != [] {
      if exists k :: 0 <= k < |Sightings(entries)| && Sightings(entries)[k].tag == t {
        var k :| 0 <= k < |Sightings(entries)| && Sightings(entries)[k].tag == t;
        SightedIsTag(entries, k, t);
      }
      if exists j :: 0 <= j < |entries| && t in ArticleOf(entries[j]).tags {
        var j :| 0 <= j < |entries| && t in ArticleOf(entries[j]).tags;
        TagIsSighted(entries, j, t);
      }
    }
  }

  /** A tag's scheme is that of its first sighting across all entries. */
  lemma {:induction false} SchemeIsFirstSighting(entries: seq<Entry>, t: string)
    requires t in Build(entries).tags.values
    ensures exists k :: 0 <= k < |Sightings(entries)|
                        && Sightings(entries)[k] == Sighting(t, Build(entries).tags.values[t])
                        && forall k' :: 0 <= k' < k ==> Sightings(entries)[k'].tag != t
  {
    BuildTagsRemembersAllSightings(entries);
    RememberAllFirst(Empty(), Sightings(entries), t);
  }

  /** A scheme, once recorded, is never overwritten by later entries. */
  lemma {:induction false} SchemeNeverOverwritten(entries: seq<Entry>, i: nat, t: string)
    requires i <= |entries| && t in Build(entries[..i]).tags.values
    ensures t in Build(entries).tags.values
    ensures Build(entries).tags.values[t] == Build(entries[..i]).tags.values[t]
  {
    if i < |entries| {
      var init := entries[..|entries| - 1];
      assert init[..i] == entries[..i];
      SchemeNeverOverwritten(init, i, t);
      RememberAllKeeps(Build(init).tags, EntrySightings(entries[|entries| - 1]), t);
    } else {
      assert entries[..i] == entries;
    }
  }

  /** The tag dictionary after entry `i` has been read. */
  lemma {:induction false} BuildPrefix(entries: seq<Entry>, i: int)
    requires 0 <= i < |entries|
    ensures Build(entries[..i + 1]).tags
         == RememberAll(RememberAll(RememberAll(Build(entries[..i]).tags, StorySightings(entries[i].storyTags)),
                                    [Sighting(entries[i].category, PROGRAM)]),
                        WordSightings(entries[i].words))
  {
    var e := entries[i];
    var d := Build(entries[..i]).tags;
    assert entries[..i + 1][..i] == entries[..i];
    RememberAllAppend(d, StorySightings(e.storyTags) + [Sighting(e.category, PROGRAM)], WordSightings(e.words));
    RememberAllAppend(d, StorySightings(e.storyTags), [Sighting(e.category, PROGRAM)]);
  }

  /** Within one entry: a tag absent before the entry and absent from its
      story tags gets PROGRAM if it is the category. */
  lemma {:induction false} EntryCategoryGetsProgram(d: Dict<string>, e: Entry)
    requires e.category !in d.values && e.category !in StoryTagSlugs(e.storyTags)
    ensures var d2 := RememberAll(RememberAll(d, StorySightings(e.storyTags)), [Sighting(e.category, PROGRAM)]);
            e.category in d2.values && d2.values[e.category] == PROGRAM
  {
    var c := e.category;
    var ss := StorySightings(e.storyTags);
    assert forall k :: 0 <= k < |ss| ==> ss[k].tag == StoryTagSlugs(e.storyTags)[k];
    RememberAllKeys(d, ss, c);
  }

  /** Within one entry: a title word absent before the entry, absent from its
      story tags and other than its category gets WORD. */
  lemma {:induction false} EntryWordGetsWord(d: Dict<string>, e: Entry, w: string)
    requires w in e.words && w !in d.values
    requires w !in StoryTagSlugs(e.storyTags) && w != e.category
    ensures var d3 := RememberAll(RememberAll(RememberAll(d, StorySightings(e.storyTags)),
                                             [Sighting(e.category, PROGRAM)]),
                                 WordSightings(e.words));
            w in d3.values && d3.values[w] == WORD
  {
    var ss := StorySightings(e.storyTags);
    assert forall k :: 0 <= k < |ss| ==> ss[k].tag == StoryTagSlugs(e.storyTags)[k];
    RememberAllKeys(d, ss, w);
    var d2 := RememberAll(RememberAll(d, ss), [Sighting(e.category, PROGRAM)]);
    RememberAllKeys(RememberAll(d, ss), [Sighting(e.category, PROGRAM)], w);
    var ws := WordSightings(e.words);
    var p :| 0 <= p < |e.words| && e.words[p] == w;
    assert ws[p].tag == w;
    RememberAllKeys(d2, ws, w);
    RememberAllUniform(d2, ws, w, WORD);
  }

  lemma {:induction false} NotSeenBefore(entries: seq<Entry>, i: int, t: string)
    requires 0 <= i <= |entries|
    requires forall j :: 0 <= j < i ==> t !in ArticleOf(entries[j]).tags
    ensures t !in Build(entries[..i]).tags.values
  {
    TagKeysAreSeenTags(entries[..i], t);
    assert forall j :: 0 <= j < i ==> entries[..i][j] == entries[j];
  }

  /** A category not seen in any earlier tag position gets PROGRAM. */
  lemma {:induction false} NewCategoryGetsProgram(entries: seq<Entry>, i: int)
    requires 0 <= i < |entries|
    requires forall j :: 0 <= j < i ==> entries[i].category !in ArticleOf(entries[j]).tags
    requires entries[i].category !in StoryTagSlugs(entries[i].storyTags)
    ensures entries[i].category in Build(entries).tags.values
    ensures Build(entries).tags.values[entries[i].category] == PROGRAM
  {
    var e := entries[i];
    var d := Build(entries[..i]).tags;
    NotSeenBefore(entries, i, e.category);
    EntryCategoryGetsProgram(d, e);
    var d2 := RememberAll(RememberAll(d, StorySightings(e.storyTags)), [Sighting(e.category, PROGRAM)]);
    RememberAllKeeps(d2, WordSightings(e.words), e.category);
    BuildPrefix(entries, i);
    SchemeNeverOverwritten(entries, i + 1, e.category);
  }

  /** A title word not seen in any earlier tag position gets WORD. */
  lemma {:induction false} NewWordGetsWord(entries: seq<Entry>, i: int, w: string)
    requires 0 <= i < |entries| && w in entries[i].words
    requires forall j :: 0 <= j < i ==> w !in ArticleOf(entries[j]).tags
    requires w !in StoryTagSlugs(entries[i].storyTags) && w != entries[i].category
    ensures w in Build(entries).tags.values && Build(entries).tags.values[w] == WORD
  {
    NotSeenBefore(entries, i, w);
    EntryWordGetsWord(Build(entries[..i]).tags, entries[i], w);
    BuildPrefix(entries, i);
    SchemeNeverOverwritten(entries, i + 1, w);
  }

  // ---------------------------------------------------------------------
  // The article dictionary of a whole build.

  /** The article keys are the slugs of the entries read. */
  lemma {:induction false} ArticleKeysAreSlugs(entries: seq<Entry>, k: string)
    ensures k in Build(entries).articles.values <==> exists i :: 0 <= i < |entries| && entries[i].slug == k
  {
    if entries != [] {
      var init := entries[..|entries| - 1];
      ArticleKeysAreSlugs(init, k);
      if exists i :: 0 <= i < |init| && init[i].slug == k {
        var i :| 0 <= i < |init| && init[i].slug == k;
        assert entries[i].slug == k;
      }
      if exists i :: 0 <= i < |entries| && entries[i].slug == k {
        var i :| 0 <= i < |entries| && entries[i].slug == k;
        if i < |init| {
          assert init[i].slug == k;
        }
      }
    }
  }

  /** A repeated slug keeps the data of its last entry. */
  lemma {:induction false} LastEntryWins(entries: seq<Entry>, i: int)
    requires 0 <= i < |entries|
    requires forall j :: i < j < |entries| ==> entries[j].slug != entries[i].slug
    ensures entries[i].slug in Build(entries).articles.values
    ensures Build(entries).articles.values[entries[i].slug] == ArticleOf(entries[i])
  {
    var init := entries[..|entries| - 1];
    if i < |init| {
      assert init[i] == entries[i];
      LastEntryWins(init, i);
    }
  }

  /** Articles keep the position of their slug's first occurrence: of two
      keys, the earlier one occurs among the entries before any occurrence
      of the later one. */
  lemma {:induction false} ArticleOrderIsFirstOccurrence(entries: seq<Entry>, p: int, q: int)
    requires 0 <= p < q < |Build(entries).articles.keys|
    ensures exists i :: 0 <= i < |entries| && entries[i].slug == Build(entries).articles.keys[p]
                        && forall j :: 0 <= j <= i ==> entries[j].slug != Build(entries).articles.keys[q]
  {
    var init := entries[..|entries| - 1];
    var last := entries[|entries| - 1];
    var before := Build(init).articles;
    var keys := Build(entries).articles.keys;
    if q < |before.keys| {
      ArticleOrderIsFirstOccurrence(init, p, q);
      var i :| 0 <= i < |init| && init[i].slug == before.keys[p]
               && forall j :: 0 <= j <= i ==> init[j].slug != before.keys[q];
      assert entries[i] == init[i];
      assert forall j :: 0 <= j <= i ==> entries[j] == init[j];
    } else {
      BuildIsValid(init);
      assert before.keys[p] in before.values;
      ArticleKeysAreSlugs(init, before.keys[p]);
      ArticleKeysAreSlugs(init, last.slug);
      var i :| 0 <= i < |init| && init[i].slug == before.keys[p];
      assert entries[i] == init[i];
      assert forall j :: 0 <= j <= i ==> entries[j] == init[j];
    }
  }

  /** Without repeated slugs every tag is carried by some stored article. */
  lemma {:induction false} DistinctSlugsEveryTagCarried(entries: seq<Entry>, t: string)
    requires forall i, j :: 0 <= i < j < |entries| ==> entries[i].slug != entries[j].slug
    requires t in Build(entries).tags.values
    ensures exists k :: k in Build(entries).articles.values && t in Build(entries).articles.values[k].tags
  {
    TagKeysAreSeenTags(entries, t);
    var j :| 0 <= j < |entries| && t in ArticleOf(entries[j]).tags;
    LastEntryWins(entries, j);
    ArticleKeysAreSlugs(entries, entries[j].slug);
  }

  /** Every stored article is the data of the last entry with its slug. */
  lemma {:induction false} StoredArticleIsLastEntry(entries: seq<Entry>, k: string)
    requires k in Build(entries).articles.values
    ensures exists j :: && 0 <= j < |entries| && entries[j].slug == k
                        && (forall j' :: j < j' < |entries| ==> entries[j'].slug != k)
                        && Build(entries).articles.values[k] == ArticleOf(entries[j])
  {
    var n := |entries| - 1;
    if entries[n].slug == k {
      assert Build(entries).articles.values[k] == ArticleOf(entries[n]);
    } else {
      var init := entries[..n];
      StoredArticleIsLastEntry(init, k);
      var j :| && 0 <= j < |init| && init[j].slug == k
               && (forall j' :: j < j' < |init| ==> init[j'].slug != k)
               && Build(init).articles.values[k] == ArticleOf(init[j]);
      assert entries[j] == init[j];
      assert forall j' :: j < j' < n ==> entries[j'] == init[j'];
    }
  }

  /** A tag that only entry `i` mentions, where a later entry repeats the
      slug of `i`, stays in the tag dictionary while no stored article
      carries it. */
  lemma {:induction false} ShadowedTagIsCarriedByNone(entries: seq<Entry>, i: int, t: string)
    requires 0 <= i < |entries| && t in ArticleOf(entries[i]).tags
    requires exists j :: i < j < |entries| && entries[j].slug == entries[i].slug
    requires forall j :: 0 <= j < |entries| && j != i ==> t !in ArticleOf(entries[j]).tags
    ensures t in Build(entries).tags.values
    ensures forall k :: k in Build(entries).articles.values ==> t !in Build(entries).articles.values[k].tags
  {
    TagKeysAreSeenTags(entries, t);
    forall k | k in Build(entries).articles.values ensures t !in Build(entries).articles.values[k].tags {
      StoredArticleIsLastEntry(entries, k);
    }
  }

  /** For the entries `a{x}` then `a{}`, `x` stays in the tag dictionary
      while no stored article carries it: an instance of
      `ShadowedTagIsCarriedByNone`, showing its hypotheses can be met. */
  lemma {:induction false} OverwrittenTagIsCarriedByNone()
    ensures var c := Build([Entry("a", "c", [StoryTag("x", STORY_TAG)], []), Entry("a", "c", [], [])]);
            "x" in c.tags.values && forall k :: k in c.articles.values ==> "x" !in c.articles.values[k].tags
  {
    var e0 := Entry("a", "c", [StoryTag("x", STORY_TAG)], []);
    var e1 := Entry("a", "c", [], []);
    var entries := [e0, e1];
    TagKeysAreSeenTags(entries, "x");
    assert "x" in ArticleOf(entries[0]).tags by {
      assert ArticleOf(e0).tags == ["x", "c"];
    }
    var c := Build(entries);
    LastEntryWins(entries, 1);
    assert ArticleOf(e1).tags == ["c"];
    forall k | k in c.articles.values ensures "x" !in c.articles.values[k].tags {
      ArticleKeysAreSlugs(entries, k);
    }
  }
}
