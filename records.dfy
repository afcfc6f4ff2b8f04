/**
  The report records of the statistics tool: `TagData`, `SiteData`,
  `TotalStats` and `GeneralStats`. Counters are `nat`: the `usize`
  width of the original is not modelled.
 */
module Records {

  /** Cumulative counters of one tag, per site or over all sites. */
  datatype TagData = TagData(questions: nat, words: nat)

  /** One processed file ("site"); `chattyTags` is fixed when it is built. */
  datatype SiteData = SiteData(
    questions: nat,
    words: nat,
    tags: map<string, TagData>,
    chattyTags: seq<string>)

  /** The two rankings over the whole directory. */
  datatype TotalStats = TotalStats(chattySites: seq<string>, chattyTags: seq<string>)

  /** The report the tool writes out. */
  datatype GeneralStats = GeneralStats(
    padron: string,
    sites: map<string, SiteData>,
    tags: map<string, TagData>,
    totals: TotalStats)

  /** The identifier every report carries. */
  const Padron: string := "106998"

  /** The counters of `t` in `m`, zero when `t` has no entry yet. */
  function Lookup(m: map<string, TagData>, t: string): TagData {
    if t in m then m[t] else TagData(0, 0)
  }

  /** Every tag of `m` has been seen in at least one question. */
  predicate AllPositive(m: map<string, TagData>) {
    forall t :: t in m ==> m[t].questions > 0
  }

  /** The sum of `questions` over all the entries of a tag map. */
  ghost function TotalQuestions(m: map<string, TagData>): nat
    decreases |m|
  {
    if m == map[] then 0
    else
      var t :| t in m;
      m[t].questions + TotalQuestions(m - {t})
  }

  /** The sum does not depend on which key the definition picks first. */
  lemma {:induction false} TotalQuestionsRemove(m: map<string, TagData>, t: string)
    requires t in m
    ensures TotalQuestions(m) == m[t].questions + TotalQuestions(m - {t})
    decreases |m|
  {
    var u :| u in m && TotalQuestions(m) == m[u].questions + TotalQuestions(m - {u});
    if u != t {
      var mu, mt := m - {u}, m - {t};
      assert |mu| == |m| - 1;
      TotalQuestionsRemove(mu, t);
      TotalQuestionsRemove(mt, u);
      assert mu - {t} == mt - {u};
    }
  }

  /** Replacing the entry of `t` changes the sum by the difference. */
  lemma TotalQuestionsUpdate(m: map<string, TagData>, t: string, d: TagData)
    ensures TotalQuestions(m[t := d]) + Lookup(m, t).questions == TotalQuestions(m) + d.questions
  {
    var m' := m[t := d];
    TotalQuestionsRemove(m', t);
    assert m' - {t} == m - {t};
    if t in m {
      TotalQuestionsRemove(m, t);
    } else {
      assert m - {t} == m;
    }
  }
}
