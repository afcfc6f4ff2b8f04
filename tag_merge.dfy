/**
  The global tag tally of `process_directory`: every site's tag map is
  folded into one map, adding up `questions` and `words` per tag.
 */
module TagMerge {
  import opened Records

  /** The tags of any of the sites. */
  function SiteTagKeys(sites: seq<(string, SiteData)>): set<string> {
    if sites == [] then {}
    else SiteTagKeys(sites[..|sites| - 1]) + sites[|sites| - 1].1.tags.Keys
  }

  /** `questions` of tag `t` summed over the sites. */
  function SumQuestions(sites: seq<(string, SiteData)>, t: string): nat {
    if sites == [] then 0
    else SumQuestions(sites[..|sites| - 1], t) + Lookup(sites[|sites| - 1].1.tags, t).questions
  }

  /** `words` of tag `t` summed over the sites. */
  function SumWords(sites: seq<(string, SiteData)>, t: string): nat {
    if sites == [] then 0
    else SumWords(sites[..|sites| - 1], t) + Lookup(sites[|sites| - 1].1.tags, t).words
  }

  /** The global tag map: per tag, the sums over the sites holding it. */
  function MergedTags(sites: seq<(string, SiteData)>): map<string, TagData> {
    map t | t in SiteTagKeys(sites) :: TagData(SumQuestions(sites, t), SumWords(sites, t))
  }

  /** `acc` with the counters of `tags` added in, key by key. */
  function AddSite(acc: map<string, TagData>, tags: map<string, TagData>): map<string, TagData> {
    map t | t in acc.Keys + tags.Keys ::
      TagData(Lookup(acc, t).questions + Lookup(tags, t).questions,
              Lookup(acc, t).words + Lookup(tags, t).words)
  }

  /** A tag is in the global map exactly when some site has it. */
  lemma {:induction false} SiteTagKeysMember(sites: seq<(string, SiteData)>, t: string)
    ensures t in SiteTagKeys(sites) <==> exists i :: 0 <= i < |sites| && t in sites[i].1.tags
  {
    if sites != [] {
      var p := sites[..|sites| - 1];
      SiteTagKeysMember(p, t);
      assert forall i :: 0 <= i < |p| ==> p[i] == sites[i];
      if t in SiteTagKeys(sites) && t !in SiteTagKeys(p) {
        assert t in sites[|sites| - 1].1.tags;
      }
    }
  }

  /** A tag absent from every site sums to nothing. */
  lemma {:induction false} SumsOutside(sites: seq<(string, SiteData)>, t: string)
    requires t !in SiteTagKeys(sites)
    ensures SumQuestions(sites, t) == 0 && SumWords(sites, t) == 0
  {
    if sites != [] {
      SumsOutside(sites[..|sites| - 1], t);
    }
  }

  /** Merging one more site adds its tag map into the global one. */
  lemma MergedTagsSnoc(sites: seq<(string, SiteData)>, site: (string, SiteData))
    ensures MergedTags(sites + [site]) == AddSite(MergedTags(sites), site.1.tags)
  {
    var s := sites + [site];
    assert s[..|s| - 1] == sites;
    forall t | t !in SiteTagKeys(sites) ensures SumQuestions(sites, t) == 0 && SumWords(sites, t) == 0 {
      SumsOutside(sites, t);
    }
  }

  /** Adding an empty tag map changes nothing. */
  lemma AddSiteEmpty(acc: map<string, TagData>)
    ensures AddSite(acc, map[]) == acc
  {
  }

  /** One more entry of a site's tag map, added in place. */
  lemma AddSiteEntry(acc: map<string, TagData>, tags: map<string, TagData>, pending: set<string>, t: string)
    requires t in pending && pending <= tags.Keys
    ensures var cur := AddSite(acc, tags - pending);
      cur[t := TagData(Lookup(cur, t).questions + tags[t].questions, Lookup(cur, t).words + tags[t].words)]
      == AddSite(acc, tags - (pending - {t}))
  {
  }

  /**
    The merge loop: for every site, for every entry of its tag map in
    iteration order, add the entry's counters to the global entry,
    creating it at zero first.
   */
  method MergeTags(sites: seq<(string, SiteData)>) returns (tagData: map<string, TagData>)
    ensures tagData == MergedTags(sites)
  {
    tagData := map[];
    for i := 0 to |sites|
      invariant tagData == MergedTags(sites[..i])
    {
      var tags := sites[i].1.tags;
      ghost var before := tagData;
      var pending := tags.Keys;
      assert tags - pending == map[];
      AddSiteEmpty(before);
      while pending != {}
        invariant pending <= tags.Keys
        invariant tagData == AddSite(before, tags - pending)
        decreases pending
      {
        var tag :| tag in pending;
        AddSiteEntry(before, tags, pending, tag);
        var entry := if tag in tagData then tagData[tag] else TagData(0, 0);
        tagData := tagData[tag := TagData(entry.questions + tags[tag].questions,
                                          entry.words + tags[tag].words)];
        pending := pending - {tag};
      }
      assert tags - {} == tags;
      assert sites[..i + 1] == sites[..i] + [sites[i]];
      MergedTagsSnoc(sites[..i], sites[i]);
    }
    assert sites[..|sites|] == sites;
  }

  /**
    The global map holds exactly the tags of the sites, each with its
    `questions` and `words` summed over the sites that hold it.
   */
  lemma MergedTagsAt(sites: seq<(string, SiteData)>, t: string)
    ensures t in MergedTags(sites) <==> exists i :: 0 <= i < |sites| && t in sites[i].1.tags
    ensures t in MergedTags(sites) ==>
      MergedTags(sites)[t] == TagData(SumQuestions(sites, t), SumWords(sites, t))
  {
    SiteTagKeysMember(sites, t);
  }

  /** A tag some site holds with a question has a question in the sum. */
  lemma {:induction false} SumQuestionsPositive(sites: seq<(string, SiteData)>, t: string)
    requires forall i :: 0 <= i < |sites| ==> AllPositive(sites[i].1.tags)
    requires t in SiteTagKeys(sites)
    ensures SumQuestions(sites, t) > 0
  {
    var p := sites[..|sites| - 1];
    assert forall i :: 0 <= i < |p| ==> p[i] == sites[i];
    if t in SiteTagKeys(p) {
      SumQuestionsPositive(p, t);
    }
  }

  /** The global map keeps `questions > 0` for every tag. */
  lemma MergedTagsPositive(sites: seq<(string, SiteData)>)
    requires forall i :: 0 <= i < |sites| ==> AllPositive(sites[i].1.tags)
    ensures AllPositive(MergedTags(sites))
  {
    forall t | t in MergedTags(sites) ensures MergedTags(sites)[t].questions > 0 {
      SumQuestionsPositive(sites, t);
    }
  }

  /** The sum of the sites' total questions. */
  ghost function SitesQuestions(sites: seq<(string, SiteData)>): nat {
    if sites == [] then 0
    else SitesQuestions(sites[..|sites| - 1]) + TotalQuestions(sites[|sites| - 1].1.tags)
  }

  /** Adding a tag map is adding one entry to the sum of the others. */
  lemma AddSiteSplit(acc: map<string, TagData>, tags: map<string, TagData>, k: string)
    requires k in tags
    ensures var cur := AddSite(acc, tags - {k});
      AddSite(acc, tags) ==
      cur[k := TagData(Lookup(cur, k).questions + tags[k].questions, Lookup(cur, k).words + tags[k].words)]
  {
    AddSiteEntry(acc, tags, {k}, k);
    assert tags - ({k} - {k}) == tags;
  }

  /** The total after one entry of `tags` is added into `cur`. */
  lemma TotalAfterEntry(whole: map<string, TagData>, cur: map<string, TagData>, k: string, d: TagData,
                        tags: map<string, TagData>)
    requires k in tags && whole == cur[k := d] && d.questions == Lookup(cur, k).questions + tags[k].questions
    ensures TotalQuestions(whole) + TotalQuestions(tags - {k}) == TotalQuestions(cur) + TotalQuestions(tags)
  {
    TotalQuestionsUpdate(cur, k, d);
    TotalQuestionsRemove(tags, k);
  }

  lemma AddSiteSplitTotal(acc: map<string, TagData>, tags: map<string, TagData>, k: string)
    requires k in tags
    ensures TotalQuestions(AddSite(acc, tags)) + TotalQuestions(tags - {k})
         == TotalQuestions(AddSite(acc, tags - {k})) + TotalQuestions(tags)
  {
    var cur := AddSite(acc, tags - {k});
    var d := TagData(Lookup(cur, k).questions + tags[k].questions, Lookup(cur, k).words + tags[k].words);
    AddSiteSplit(acc, tags, k);
    TotalAfterEntry(AddSite(acc, tags), cur, k, d, tags);
  }

  /** Adding a tag map adds its total. */
  lemma {:induction false} AddSiteTotal(acc: map<string, TagData>, tags: map<string, TagData>)
    ensures TotalQuestions(AddSite(acc, tags)) == TotalQuestions(acc) + TotalQuestions(tags)
    decreases |tags|
  {
    if tags == map[] {
      AddSiteEmpty(acc);
    } else {
      var k :| k in tags;
      var rest := tags - {k};
      assert |rest| == |tags| - 1;
      AddSiteTotal(acc, rest);
      AddSiteSplitTotal(acc, tags, k);
    }
  }

  /** Merging neither creates nor loses questions: the global total is the sum of the site totals. */
  lemma {:induction false} MergeConservesQuestions(sites: seq<(string, SiteData)>)
    ensures TotalQuestions(MergedTags(sites)) == SitesQuestions(sites)
  {
    if sites == [] {
      assert MergedTags(sites) == map[];
    } else {
      var p := sites[..|sites| - 1];
      MergeConservesQuestions(p);
      assert p + [sites[|sites| - 1]] == sites;
      MergedTagsSnoc(p, sites[|sites| - 1]);
      AddSiteTotal(MergedTags(p), sites[|sites| - 1].1.tags);
    }
  }
}
