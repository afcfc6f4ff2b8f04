/**
  The assembly of the report (`process_directory`): list the directory,
  keep the files whose name contains ".json", fold each of them, drop
  those that fail, build a site record per surviving file with its own
  top-ten tags, merge the tag maps and rank tags and sites.

  The listing and the file contents are inputs; the parallel map over
  the files is a sequential one, in listing order.
 */
module Directory {
  import opened Wrappers
  import opened Records
  import opened Text
  import opened FileAggregation
  import opened Ranking
  import opened TagMerge
  import opened Iteration

  /**
    One item of the directory listing: either reading it failed, or a
    file whose name is `None` when it is not valid Unicode.
   */
  datatype DirEntry =
    | EntryError
    | File(name: Option<string>, content: FileContent)

  /** The result of listing the directory. */
  datatype Listing = Unreadable | Listed(entries: seq<DirEntry>)

  /**
    What `process_directory` ends in: a report, the error of a failed
    listing item, or the panic of a division by zero.
   */
  datatype Outcome = Report(stats: GeneralStats) | ListingError | DivideByZero

  /** The marker a file name must contain. */
  const JsonMarker: string := ".json"

  /** The report of a directory that cannot be listed. */
  const EmptyReport: GeneralStats := GeneralStats(Padron, map[], map[], TotalStats([], []))

  /** The entry is a ".json" file that was processed successfully. */
  predicate Admitted(e: DirEntry) {
    && e.File? && e.name.Some? && Contains(e.name.value, JsonMarker)
    && ProcessedFile(e.content).Success?
  }

  /** The name of a file, `None` for a failed listing item. */
  function NameOf(e: DirEntry): Option<string> {
    if e.File? then e.name else None
  }

  /** No two files of the listing have the same name, as in a real directory. */
  predicate DistinctNames(entries: seq<DirEntry>) {
    forall i, j :: 0 <= i < j < |entries| && entries[i].File? && entries[j].File? && entries[i].name.Some?
      ==> entries[i].name != entries[j].name
  }

  /** No listing item failed and no admitted ".json" file is empty. */
  predicate Reports(entries: seq<DirEntry>) {
    && (forall i :: 0 <= i < |entries| ==> !entries[i].EntryError?)
    && (forall j :: 0 <= j < |entries| && Admitted(entries[j]) ==> entries[j].content.lines != [])
  }

  /** The site record of a processed file, its top-ten tags included. */
  ghost function SiteOf(fs: FileStats): SiteData
    requires AllPositive(fs.tags)
  {
    SiteData(fs.questions, fs.words, fs.tags, GetTagTopTen(Entries(fs.tags)))
  }

  /** A site ranks at most ten of its own tags, none twice. */
  lemma SiteOfChattyTags(fs: FileStats)
    requires AllPositive(fs.tags)
    ensures var site := SiteOf(fs);
      && |site.chattyTags| == Min(TopCount, |fs.tags|)
      && (forall k :: k in site.chattyTags ==> k in fs.tags)
      && (forall p, q :: 0 <= p < q < |site.chattyTags| ==> site.chattyTags[p] != site.chattyTags[q])
  {
    RankedTags(fs.tags);
  }

  lemma AdmittedPositive(e: DirEntry)
    requires Admitted(e)
    ensures AllPositive(ProcessedFile(e.content).value.tags)
  {
    AggregateTagsPositive(e.content.lines);
  }

  /** The site record of an admitted file. */
  ghost function SiteOfEntry(e: DirEntry): (site: SiteData)
    requires Admitted(e)
    ensures AllPositive(site.tags)
  {
    AdmittedPositive(e);
    SiteOf(ProcessedFile(e.content).value)
  }

  /** The elements of `s` that `keep` accepts, in order. */
  function Filter<T>(s: seq<T>, keep: T -> bool): (r: seq<T>)
    ensures forall i :: 0 <= i < |r| ==> keep(r[i])
  {
    if s == [] then []
    else
      var rest := Filter(s[..|s| - 1], keep);
      if keep(s[|s| - 1]) then rest + [s[|s| - 1]] else rest
  }

  /** The admitted entries of the listing, in order. */
  ghost function Kept(entries: seq<DirEntry>): (kept: seq<DirEntry>)
    ensures forall i :: 0 <= i < |kept| ==> Admitted(kept[i])
  {
    Filter(entries, Admitted)
  }

  /** The pair an admitted file gives. */
  ghost function PairOf(e: DirEntry): (string, SiteData)
    requires Admitted(e)
  {
    (e.name.value, SiteOfEntry(e))
  }

  /** The filter-map over the listing: one (name, site) pair per admitted file, in order. */
  ghost function InfoSites(entries: seq<DirEntry>): (sites: seq<(string, SiteData)>)
    ensures |sites| == |Kept(entries)|
    ensures forall i :: 0 <= i < |sites| ==> sites[i] == PairOf(Kept(entries)[i])
    ensures forall i :: 0 <= i < |sites| ==> AllPositive(sites[i].1.tags)
  {
    var kept := Kept(entries);
    seq(|kept|, i requires 0 <= i < |kept| => PairOf(kept[i]))
  }

  /** Collecting the pairs into a map: a later pair replaces an earlier one of the same name. */
  function SitesMap(sites: seq<(string, SiteData)>): map<string, SiteData> {
    if sites == [] then map[]
    else SitesMap(sites[..|sites| - 1])[sites[|sites| - 1].0 := sites[|sites| - 1].1]
  }

  /** `process_directory` on a listing. */
  ghost function ProcessDirectory(listing: Listing): (r: Outcome)
    ensures listing.Unreadable? ==> r == Report(GeneralStats("106998", map[], map[], TotalStats([], [])))
    ensures r.ListingError? <==> listing.Listed? && exists i :: 0 <= i < |listing.entries| && listing.entries[i].EntryError?
    ensures r.Report? ==> r.stats.padron == "106998"
  {
    match listing
    case Unreadable => Report(EmptyReport)
    case Listed(entries) =>
      if exists i :: 0 <= i < |entries| && entries[i].EntryError? then ListingError
      else SitesOutcome(InfoSites(entries))
  }

  /** The outcome once every listing item is read: a site without questions panics. */
  ghost function SitesOutcome(sites: seq<(string, SiteData)>): Outcome
    requires forall i :: 0 <= i < |sites| ==> AllPositive(sites[i].1.tags)
  {
    if exists i :: 0 <= i < |sites| && sites[i].1.questions == 0 then DivideByZero
    else Report(Assembled(sites))
  }

  /**
    The report over the sites: the merged tags, the ten chattiest tags
    and the ten chattiest sites. Ranking the tags cannot fail, so ranking
    them before or after the sites is the same.
   */
  ghost function Assembled(sites: seq<(string, SiteData)>): GeneralStats
    requires forall i :: 0 <= i < |sites| ==> AllPositive(sites[i].1.tags)
    requires forall i :: 0 <= i < |sites| ==> sites[i].1.questions > 0
  {
    var tagData := MergedTags(sites);
    MergedTagsPositive(sites);
    GeneralStats(Padron, SitesMap(sites), tagData, TotalStats(GetSiteTopTen(sites), GetTagTopTen(Entries(tagData))))
  }

  // The pairs the filter-map keeps.

  /** Every element kept is one of `s`, and every element `keep` accepts is kept. */
  lemma {:induction false} FilterShape<T>(s: seq<T>, keep: T -> bool)
    ensures forall i :: 0 <= i < |Filter(s, keep)| ==>
      (exists j :: 0 <= j < |s| && Filter(s, keep)[i] == s[j])
    ensures forall j :: 0 <= j < |s| && keep(s[j]) ==>
      (exists i :: 0 <= i < |Filter(s, keep)| && Filter(s, keep)[i] == s[j])
  {
    if s != [] {
      var init, x := s[..|s| - 1], s[|s| - 1];
      var rest, r := Filter(init, keep), Filter(s, keep);
      FilterShape(init, keep);
      assert forall j :: 0 <= j < |init| ==> init[j] == s[j];
      forall i | 0 <= i < |r| ensures exists j :: 0 <= j < |s| && r[i] == s[j] {
        if i < |rest| {
          var j :| 0 <= j < |init| && rest[i] == init[j];
          assert r[i] == s[j];
        } else {
          assert r[i] == s[|s| - 1];
        }
      }
      forall j | 0 <= j < |s| && keep(s[j]) ensures exists i :: 0 <= i < |r| && r[i] == s[j] {
        if j < |init| {
          var i :| 0 <= i < |rest| && rest[i] == init[j];
          assert r[i] == s[j];
        } else {
          assert r[|r| - 1] == s[j];
        }
      }
      assert forall i :: 0 <= i < |r| ==> exists j :: 0 <= j < |s| && r[i] == s[j];
    } else {
      assert Filter(s, keep) == [];
    }
  }

  /** Elements `keep` accepts that differ pairwise stay pairwise different, in order. */
  lemma {:induction false} FilterDistinct<T, K>(s: seq<T>, keep: T -> bool, key: T -> K)
    requires forall i, j :: 0 <= i < j < |s| && keep(s[i]) && keep(s[j]) ==> key(s[i]) != key(s[j])
    ensures forall i, k :: 0 <= i < k < |Filter(s, keep)| ==> key(Filter(s, keep)[i]) != key(Filter(s, keep)[k])
  {
    if s != [] {
      var init, x := s[..|s| - 1], s[|s| - 1];
      var rest, r := Filter(init, keep), Filter(s, keep);
      assert forall j :: 0 <= j < |init| ==> init[j] == s[j];
      FilterDistinct(init, keep, key);
      FilterShape(init, keep);
      if keep(x) {
        forall i | 0 <= i < |rest| ensures key(rest[i]) != key(x) {
          var j :| 0 <= j < |init| && rest[i] == init[j];
        }
      }
    }
  }

  /** Every kept pair comes from an admitted file of the listing. */
  lemma InfoSitesFrom(entries: seq<DirEntry>, i: nat)
    requires i < |InfoSites(entries)|
    ensures exists j :: 0 <= j < |entries| && Admitted(entries[j]) && InfoSites(entries)[i] == PairOf(entries[j])
  {
    FilterShape(entries, Admitted);
    var kept := Kept(entries);
    var j :| 0 <= j < |entries| && kept[i] == entries[j];
    assert InfoSites(entries)[i] == PairOf(entries[j]);
  }

  /** Every admitted file of the listing gives a kept pair. */
  lemma InfoSitesCover(entries: seq<DirEntry>, j: nat)
    requires j < |entries| && Admitted(entries[j])
    ensures exists i :: 0 <= i < |InfoSites(entries)| && InfoSites(entries)[i] == PairOf(entries[j])
  {
    FilterShape(entries, Admitted);
    var kept := Kept(entries);
    var i :| 0 <= i < |kept| && kept[i] == entries[j];
    assert InfoSites(entries)[i] == PairOf(entries[j]);
  }

  /** With distinct file names, the kept pairs have distinct names. */
  lemma InfoSitesDistinct(entries: seq<DirEntry>)
    requires DistinctNames(entries)
    ensures var sites := InfoSites(entries);
      forall i, k :: 0 <= i < k < |sites| ==> sites[i].0 != sites[k].0
  {
    FilterDistinct(entries, Admitted, NameOf);
  }

  // Collecting the pairs into a map.

  lemma {:induction false} SitesMapKeys(sites: seq<(string, SiteData)>)
    ensures forall n :: n in SitesMap(sites) <==> exists i :: 0 <= i < |sites| && sites[i].0 == n
  {
    if sites != [] {
      var init := sites[..|sites| - 1];
      SitesMapKeys(init);
      assert forall i :: 0 <= i < |init| ==> init[i] == sites[i];
    }
  }

  /** With distinct names no pair is replaced: the map holds exactly the pairs. */
  lemma {:induction false} SitesMapDistinct(sites: seq<(string, SiteData)>)
    requires forall i, k :: 0 <= i < k < |sites| ==> sites[i].0 != sites[k].0
    ensures |SitesMap(sites)| == |sites|
    ensures forall i :: 0 <= i < |sites| ==> sites[i].0 in SitesMap(sites) && SitesMap(sites)[sites[i].0] == sites[i].1
  {
    if sites != [] {
      var init := sites[..|sites| - 1];
      assert forall i :: 0 <= i < |init| ==> init[i] == sites[i];
      SitesMapDistinct(init);
      SitesMapKeys(init);
      assert sites[|sites| - 1].0 !in SitesMap(init);
    }
  }

  // What the report holds.

  /** The parts a report is assembled from. */
  lemma ReportOf(listing: Listing)
    requires listing.Listed? && Reports(listing.entries)
    ensures ProcessDirectory(listing).Report?
    ensures var g, es, sites := ProcessDirectory(listing).stats, listing.entries, InfoSites(listing.entries);
      && (forall i :: 0 <= i < |es| ==> !es[i].EntryError?)
      && (forall i :: 0 <= i < |sites| ==> sites[i].1.questions > 0)
      && g.sites == SitesMap(sites)
      && g.tags == MergedTags(sites)
      && AllPositive(g.tags)
      && g.totals.chattySites == GetSiteTopTen(sites)
      && g.totals.chattyTags == GetTagTopTen(Entries(g.tags))
  {
    var es, sites := listing.entries, InfoSites(listing.entries);
    InfoSitesEmpty(es);
    assert ProcessDirectory(listing) == SitesOutcome(sites);
    assert SitesOutcome(sites) == Report(Assembled(sites));
    MergedTagsPositive(sites);
  }

  /** The sites of the report are named after the admitted ".json" files. */
  lemma DirectorySites(listing: Listing)
    requires listing.Listed? && Reports(listing.entries)
    ensures ProcessDirectory(listing).Report?
    ensures var g, es := ProcessDirectory(listing).stats, listing.entries;
      forall n :: n in g.sites <==> exists j :: 0 <= j < |es| && Admitted(es[j]) && es[j].name.value == n
  {
    ReportOf(listing);
    var es := listing.entries;
    var sites := InfoSites(es);
    SitesMapKeys(sites);
    forall n ensures n in SitesMap(sites) <==> exists j :: 0 <= j < |es| && Admitted(es[j]) && es[j].name.value == n {
      if i :| 0 <= i < |sites| && sites[i].0 == n {
        InfoSitesFrom(es, i);
      }
      if j :| 0 <= j < |es| && Admitted(es[j]) && es[j].name.value == n {
        InfoSitesCover(es, j);
      }
    }
  }

  /**
    With distinct file names, the site of an admitted file is that file's
    fold: one question per line, its word total and its tags.
   */
  lemma DirectorySiteRecord(listing: Listing, j: nat)
    requires listing.Listed? && Reports(listing.entries)
    requires DistinctNames(listing.entries)
    requires j < |listing.entries| && Admitted(listing.entries[j])
    ensures ProcessDirectory(listing).Report?
    ensures var g, e := ProcessDirectory(listing).stats, listing.entries[j];
      && e.name.value in g.sites
      && g.sites[e.name.value] == SiteOfEntry(e)
      && g.sites[e.name.value].questions == |e.content.lines|
      && g.sites[e.name.value].words == TotalWords(e.content.lines)
      && g.sites[e.name.value].tags == Aggregate(e.content.lines).value.tags
  {
    ReportOf(listing);
    var es := listing.entries;
    var sites := InfoSites(es);
    InfoSitesCover(es, j);
    InfoSitesDistinct(es);
    SitesMapDistinct(sites);
    AggregateCounts(es[j].content.lines);
  }

  /**
    A tag is in the report exactly when some admitted file has it, with
    the per-site counts summed, and no question is lost in the merge.
   */
  lemma DirectoryTags(listing: Listing, t: string)
    requires listing.Listed? && Reports(listing.entries)
    ensures ProcessDirectory(listing).Report?
    ensures var g, es := ProcessDirectory(listing).stats, listing.entries;
      t in g.tags <==> exists j :: 0 <= j < |es| && Admitted(es[j]) && t in ProcessedFile(es[j].content).value.tags
    ensures var g, sites := ProcessDirectory(listing).stats, InfoSites(listing.entries);
      && (t in g.tags ==> g.tags[t] == TagData(SumQuestions(sites, t), SumWords(sites, t)))
      && TotalQuestions(g.tags) == SitesQuestions(sites)
  {
    ReportOf(listing);
    var es := listing.entries;
    var sites := InfoSites(es);
    MergedTagsAt(sites, t);
    MergeConservesQuestions(sites);
    if i :| 0 <= i < |sites| && t in sites[i].1.tags {
      InfoSitesFrom(es, i);
    }
    if j :| 0 <= j < |es| && Admitted(es[j]) && t in ProcessedFile(es[j].content).value.tags {
      InfoSitesCover(es, j);
    }
  }

  /**
    The totals rank at most ten tags and ten sites, all of them in the
    report and none twice.
   */
  lemma DirectoryTotals(listing: Listing)
    requires listing.Listed? && Reports(listing.entries)
    ensures ProcessDirectory(listing).Report?
    ensures var g := ProcessDirectory(listing).stats;
      && |g.totals.chattyTags| == Min(TopCount, |g.tags|)
      && (forall k :: k in g.totals.chattyTags ==> k in g.tags)
      && (forall p, q :: 0 <= p < q < |g.totals.chattyTags| ==> g.totals.chattyTags[p] != g.totals.chattyTags[q])
      && |g.totals.chattySites| == Min(TopCount, |InfoSites(listing.entries)|)
      && (forall k :: k in g.totals.chattySites ==> k in g.sites)
    ensures var g := ProcessDirectory(listing).stats;
      DistinctNames(listing.entries) ==>
        && |g.totals.chattySites| == Min(TopCount, |g.sites|)
        && (forall p, q :: 0 <= p < q < |g.totals.chattySites| ==> g.totals.chattySites[p] != g.totals.chattySites[q])
  {
    ReportOf(listing);
    var g := ProcessDirectory(listing).stats;
    var sites := InfoSites(listing.entries);
    RankedTags(g.tags);
    RankedSites(sites);
    SitesMapKeys(sites);
    if DistinctNames(listing.entries) {
      InfoSitesDistinct(listing.entries);
      SitesMapDistinct(sites);
    }
  }

  /** Ranking a tag map yields at most ten of its keys, none twice. */
  lemma RankedTags(tags: map<string, TagData>)
    requires AllPositive(tags)
    ensures var r := GetTagTopTen(Entries(tags));
      && |r| == Min(TopCount, |tags|)
      && (forall k :: k in r ==> k in tags)
      && (forall p, q :: 0 <= p < q < |r| ==> r[p] != r[q])
  {
    var scored := TagScores(Entries(tags));
    TopTenOrder(scored);
    TopTenKeys(scored);
    assert forall i, j :: 0 <= i < j < |scored| ==> scored[i].0 != scored[j].0;
  }

  /** Ranking the sites yields at most ten of their names; none twice when the names differ. */
  lemma RankedSites(sites: seq<(string, SiteData)>)
    requires forall i :: 0 <= i < |sites| ==> sites[i].1.questions > 0
    ensures var r := GetSiteTopTen(sites);
      && |r| == Min(TopCount, |sites|)
      && (forall k :: k in r ==> exists i :: 0 <= i < |sites| && sites[i].0 == k)
      && ((forall i, j :: 0 <= i < j < |sites| ==> sites[i].0 != sites[j].0) ==>
            forall p, q :: 0 <= p < q < |r| ==> r[p] != r[q])
  {
    var scored := SiteScores(sites);
    TopTenOrder(scored);
    TopTenKeys(scored);
  }

  /** A kept site has no question exactly when an admitted file has no line. */
  lemma InfoSitesEmpty(entries: seq<DirEntry>)
    ensures (exists i :: 0 <= i < |InfoSites(entries)| && InfoSites(entries)[i].1.questions == 0) <==>
      exists j :: 0 <= j < |entries| && Admitted(entries[j]) && entries[j].content.lines == []
  {
    var sites := InfoSites(entries);
    if i :| 0 <= i < |sites| && sites[i].1.questions == 0 {
      InfoSitesFrom(entries, i);
      var j :| 0 <= j < |entries| && Admitted(entries[j]) && sites[i] == PairOf(entries[j]);
      AggregateCounts(entries[j].content.lines);
    }
    if j :| 0 <= j < |entries| && Admitted(entries[j]) && entries[j].content.lines == [] {
      InfoSitesCover(entries, j);
      var i :| 0 <= i < |sites| && sites[i] == PairOf(entries[j]);
      AggregateCounts(entries[j].content.lines);
    }
  }

  /**
    The report panics on a division by zero exactly when the listing has
    no failed item and some admitted ".json" file is empty.
   */
  lemma DirectoryDivideByZero(listing: Listing)
    ensures ProcessDirectory(listing) == DivideByZero <==>
      && listing.Listed?
      && (forall i :: 0 <= i < |listing.entries| ==> !listing.entries[i].EntryError?)
      && exists j :: 0 <= j < |listing.entries| && Admitted(listing.entries[j]) && listing.entries[j].content.lines == []
  {
    if listing.Listed? {
      InfoSitesEmpty(listing.entries);
    }
  }

  /** The run ends in a report exactly when the directory is unreadable or `Reports` holds. */
  lemma DirectoryReports(listing: Listing)
    ensures ProcessDirectory(listing).Report? <==> listing.Unreadable? || Reports(listing.entries)
  {
    DirectoryDivideByZero(listing);
  }
}
