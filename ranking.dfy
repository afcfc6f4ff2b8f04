/**
  The top-ten rankers (`get_tag_top_ten`, `get_site_top_ten`): each entry
  gets the truncating ratio words / questions, the entries are sorted
  stably in ascending ratio, the order is reversed and the first ten keys
  are kept.

  The map being ranked is given as its sequence of (key, counters) pairs
  in iteration order; ties are resolved relative to that sequence. The
  stable sort is modelled on positions: sorting the positions of the
  pairs stably by ratio and reading the keys at those positions gives
  exactly the keys of the stably sorted pairs.
 */
module Ranking {
  import opened Records

  /** How many keys a ranking keeps. */
  const TopCount: nat := 10

  function Min(a: nat, b: nat): nat {
    if a <= b then a else b
  }

  /** Every position in `s` indexes a sequence of length `n`. */
  predicate AllBelow(s: seq<nat>, n: nat) {
    forall k :: 0 <= k < |s| ==> s[k] < n
  }

  /** Position `a` comes before `b` after a stable ascending sort. */
  predicate AscBefore(ratios: seq<nat>, a: nat, b: nat)
    requires a < |ratios| && b < |ratios|
  {
    ratios[a] < ratios[b] || (ratios[a] == ratios[b] && a < b)
  }

  /** Position `a` comes before `b` once that order is reversed. */
  predicate DescBefore(ratios: seq<nat>, a: nat, b: nat)
    requires a < |ratios| && b < |ratios|
  {
    ratios[a] > ratios[b] || (ratios[a] == ratios[b] && a > b)
  }

  predicate SortedAsc(ratios: seq<nat>, s: seq<nat>)
    requires AllBelow(s, |ratios|)
  {
    forall p, q :: 0 <= p < q < |s| ==> AscBefore(ratios, s[p], s[q])
  }

  predicate SortedDesc(ratios: seq<nat>, s: seq<nat>)
    requires AllBelow(s, |ratios|)
  {
    forall p, q :: 0 <= p < q < |s| ==> DescBefore(ratios, s[p], s[q])
  }

  /**
    Inserts position `i`, later than every position of `s`, after all the
    positions whose ratio is not greater: the step of a stable sort.
   */
  function Insert(ratios: seq<nat>, i: nat, s: seq<nat>): (r: seq<nat>)
    requires i < |ratios| && AllBelow(s, i) && SortedAsc(ratios, s)
    ensures |r| == |s| + 1 && AllBelow(r, i + 1) && SortedAsc(ratios, r)
    ensures forall x :: x in r <==> x == i || x in s
  {
    if s == [] || ratios[i] < ratios[s[0]] then
      assert forall k :: 0 < k < |s| ==> AscBefore(ratios, s[0], s[k]);
      [i] + s
    else
      var rest := Insert(ratios, i, s[1..]);
      assert forall x :: x in rest ==> AscBefore(ratios, s[0], x) by {
        forall x | x in rest ensures AscBefore(ratios, s[0], x) {
          if x != i {
            var k :| 0 <= k < |s[1..]| && s[1..][k] == x;
            assert s[k + 1] == x;
          }
        }
      }
      [s[0]] + rest
  }

  /** The positions `0 .. n - 1`, stably sorted by ascending ratio. */
  function SortAsc(ratios: seq<nat>, n: nat): (r: seq<nat>)
    requires n <= |ratios|
    ensures |r| == n && AllBelow(r, n) && SortedAsc(ratios, r)
    ensures forall x: nat :: x in r <==> x < n
  {
    if n == 0 then [] else Insert(ratios, n - 1, SortAsc(ratios, n - 1))
  }

  function Reverse(s: seq<nat>): (r: seq<nat>)
    ensures |r| == |s| && forall k :: 0 <= k < |s| ==> r[k] == s[|s| - 1 - k]
  {
    if s == [] then [] else Reverse(s[1..]) + [s[0]]
  }

  /** `rev` keeps the elements: it only changes their order. */
  lemma ReverseMembers(s: seq<nat>)
    ensures forall x :: x in Reverse(s) <==> x in s
  {
    var r := Reverse(s);
    forall x | x in s
      ensures x in r
    {
      var k :| 0 <= k < |s| && s[k] == x;
      assert r[|s| - 1 - k] == x;
    }
  }

  /** All positions, highest ratio first; among equal ratios the later position first. */
  function Ranked(ratios: seq<nat>): (r: seq<nat>)
    ensures |r| == |ratios| && AllBelow(r, |ratios|) && SortedDesc(ratios, r)
    ensures forall x: nat :: x in r <==> x < |ratios|
  {
    var asc := SortAsc(ratios, |ratios|);
    ReverseMembers(asc);
    Reverse(asc)
  }

  /** The ratio column of the (key, ratio) pairs. */
  function Ratios(scored: seq<(string, nat)>): (r: seq<nat>)
    ensures |r| == |scored| && forall i :: 0 <= i < |scored| ==> r[i] == scored[i].1
  {
    seq(|scored|, i requires 0 <= i < |scored| => scored[i].1)
  }

  /** The positions of the keys a ranking returns, in order. */
  function Selected(scored: seq<(string, nat)>): (sel: seq<nat>)
    ensures AllBelow(sel, |scored|)
  {
    var order := Ranked(Ratios(scored));
    order[..Min(TopCount, |order|)]
  }

  /** Sort by ratio, reverse, take ten, keep the keys. */
  function TopTen(scored: seq<(string, nat)>): (keys: seq<string>) {
    var sel := Selected(scored);
    seq(|sel|, p requires 0 <= p < |sel| => scored[sel[p]].0)
  }

  /** The truncating words-per-question ratio of a counter pair. */
  function Ratio(questions: nat, words: nat): nat
    requires questions > 0
  {
    words / questions
  }

  /**
    The ratio is the truncated quotient: the one count `r` of whole
    questions' worth of words with `r * questions <= words < (r + 1) * questions`.
   */
  lemma RatioFloor(questions: nat, words: nat, r: nat)
    requires questions > 0
    ensures Ratio(questions, words) * questions <= words < (Ratio(questions, words) + 1) * questions
    ensures r * questions <= words < (r + 1) * questions <==> r == Ratio(questions, words)
  {
    var q := Ratio(questions, words);
    if r < q {
      MulMonotone(r + 1, q, questions);
    } else if q < r {
      MulMonotone(q + 1, r, questions);
    }
  }

  lemma MulMonotone(a: nat, b: nat, c: nat)
    requires a <= b
    ensures a * c <= b * c
  {
  }

  /** Each tag with its ratio, in iteration order. */
  function TagScores(data: seq<(string, TagData)>): (scored: seq<(string, nat)>)
    requires forall i :: 0 <= i < |data| ==> data[i].1.questions > 0
    ensures |scored| == |data|
    ensures forall i :: 0 <= i < |data| ==>
      scored[i] == (data[i].0, Ratio(data[i].1.questions, data[i].1.words))
  {
    seq(|data|, i requires 0 <= i < |data| => (data[i].0, Ratio(data[i].1.questions, data[i].1.words)))
  }

  /** Each site with its ratio, in the order of the sites. */
  function SiteScores(sites: seq<(string, SiteData)>): (scored: seq<(string, nat)>)
    requires forall i :: 0 <= i < |sites| ==> sites[i].1.questions > 0
    ensures |scored| == |sites|
    ensures forall i :: 0 <= i < |sites| ==>
      scored[i] == (sites[i].0, Ratio(sites[i].1.questions, sites[i].1.words))
  {
    seq(|sites|, i requires 0 <= i < |sites| => (sites[i].0, Ratio(sites[i].1.questions, sites[i].1.words)))
  }

  /** `get_tag_top_ten`: the ten tags with the highest ratio. */
  function GetTagTopTen(data: seq<(string, TagData)>): seq<string>
    requires forall i :: 0 <= i < |data| ==> data[i].1.questions > 0
  {
    TopTen(TagScores(data))
  }

  /** `get_site_top_ten`: the ten sites with the highest ratio. */
  function GetSiteTopTen(sites: seq<(string, SiteData)>): seq<string>
    requires forall i :: 0 <= i < |sites| ==> sites[i].1.questions > 0
  {
    TopTen(SiteScores(sites))
  }

  // What a ranking returns.

  /**
    A ranking keeps min(10, n) entries, in non-increasing ratio, the later
    entry first among equal ratios, each entry at most once.
   */
  lemma TopTenOrder(scored: seq<(string, nat)>)
    ensures var r, sel := TopTen(scored), Selected(scored);
      && |r| == |sel| == Min(TopCount, |scored|)
      && (forall p :: 0 <= p < |r| ==> r[p] == scored[sel[p]].0)
      && (forall p, q :: 0 <= p < q < |sel| ==> scored[sel[p]].1 >= scored[sel[q]].1)
      && (forall p, q :: 0 <= p < q < |sel| && scored[sel[p]].1 == scored[sel[q]].1 ==> sel[p] > sel[q])
      && (forall p, q :: 0 <= p < q < |sel| ==> sel[p] != sel[q])
  {
    var ratios, order := Ratios(scored), Ranked(Ratios(scored));
    var sel := Selected(scored);
    assert forall p, q :: 0 <= p < q < |sel| ==> DescBefore(ratios, sel[p], sel[q]) by {
      forall p, q | 0 <= p < q < |sel| ensures DescBefore(ratios, sel[p], sel[q]) {
        assert sel[p] == order[p] && sel[q] == order[q];
      }
    }
  }

  /**
    Every entry a ranking leaves out has a ratio no greater than that of
    any entry it returns, and comes earlier than those of equal ratio.
   */
  lemma TopTenOmitted(scored: seq<(string, nat)>, i: nat)
    requires i < |scored| && i !in Selected(scored)
    ensures var sel := Selected(scored);
      forall p :: 0 <= p < |sel| ==>
        scored[i].1 < scored[sel[p]].1 || (scored[i].1 == scored[sel[p]].1 && i < sel[p])
  {
    var ratios, order := Ratios(scored), Ranked(Ratios(scored));
    var sel := Selected(scored);
    assert i in order;
    var k :| 0 <= k < |order| && order[k] == i;
    assert k >= |sel|;
    forall p | 0 <= p < |sel|
      ensures scored[i].1 < scored[sel[p]].1 || (scored[i].1 == scored[sel[p]].1 && i < sel[p])
    {
      assert sel[p] == order[p];
      assert DescBefore(ratios, order[p], order[k]);
    }
  }

  /** The keys returned come from the input, and are distinct when the input's are. */
  lemma TopTenKeys(scored: seq<(string, nat)>)
    ensures forall k :: k in TopTen(scored) ==> exists i :: 0 <= i < |scored| && scored[i].0 == k
    ensures (forall i, j :: 0 <= i < j < |scored| ==> scored[i].0 != scored[j].0) ==>
      forall p, q :: 0 <= p < q < |TopTen(scored)| ==> TopTen(scored)[p] != TopTen(scored)[q]
  {
    TopTenOrder(scored);
    var r, sel := TopTen(scored), Selected(scored);
    forall k | k in r ensures exists i :: 0 <= i < |scored| && scored[i].0 == k {
      var p :| 0 <= p < |r| && r[p] == k;
      assert scored[sel[p]].0 == k;
    }
    if forall i, j :: 0 <= i < j < |scored| ==> scored[i].0 != scored[j].0 {
      forall p, q | 0 <= p < q < |r| ensures r[p] != r[q] {
        if sel[p] < sel[q] {
          assert scored[sel[p]].0 != scored[sel[q]].0;
        } else {
          assert scored[sel[q]].0 != scored[sel[p]].0;
        }
      }
    }
  }

  // The ranking is the only order with these properties.

  /** Two sequences strictly sorted by `DescBefore` with the same elements are equal. */
  lemma {:induction false} SortedDescUnique(ratios: seq<nat>, a: seq<nat>, b: seq<nat>)
    requires AllBelow(a, |ratios|) && AllBelow(b, |ratios|)
    requires SortedDesc(ratios, a) && SortedDesc(ratios, b)
    requires |a| == |b| && forall x :: x in a <==> x in b
    ensures a == b
    decreases |a|
  {
    if a != [] {
      assert a[0] in b && b[0] in a;
      var j :| 0 <= j < |b| && b[j] == a[0];
      var i :| 0 <= i < |a| && a[i] == b[0];
      assert a[0] == b[0];
      var a', b' := a[1..], b[1..];
      assert forall k :: 0 <= k < |a'| ==> a'[k] != a[0] by {
        forall k | 0 <= k < |a'| ensures a'[k] != a[0] {
          assert DescBefore(ratios, a[0], a[k + 1]);
        }
      }
      assert forall k :: 0 <= k < |b'| ==> b'[k] != b[0] by {
        forall k | 0 <= k < |b'| ensures b'[k] != b[0] {
          assert DescBefore(ratios, b[0], b[k + 1]);
        }
      }
      assert forall x :: x in a' <==> x in b' by {
        forall x ensures x in a' <==> x in b' {
          assert x in a <==> x == a[0] || x in a';
          assert x in b <==> x == b[0] || x in b';
        }
      }
      SortedDescUnique(ratios, a', b');
      assert a == [a[0]] + a' && b == [b[0]] + b';
    }
  }

  /**
    Any arrangement of all the positions in which each one comes before
    every later-ordered one (higher ratio first, later position first on
    a tie) is the ranking.
   */
  lemma RankedUnique(ratios: seq<nat>, order: seq<nat>)
    requires |order| == |ratios| && AllBelow(order, |ratios|) && SortedDesc(ratios, order)
    requires forall x: nat :: x < |ratios| ==> x in order
    ensures order == Ranked(ratios)
  {
    SortedDescUnique(ratios, order, Ranked(ratios));
  }

  // The same facts stated for the two rankers of the tool.

  /** `get_tag_top_ten`, stated in terms of the tags' own counters. */
  lemma GetTagTopTenSpec(data: seq<(string, TagData)>)
    requires forall i :: 0 <= i < |data| ==> data[i].1.questions > 0
    ensures var r, sel := GetTagTopTen(data), Selected(TagScores(data));
      && |r| == |sel| == Min(TopCount, |data|)
      && (forall p :: 0 <= p < |r| ==> sel[p] < |data| && r[p] == data[sel[p]].0)
      && (forall p, q :: 0 <= p < q < |r| ==>
            data[sel[p]].1.words / data[sel[p]].1.questions >= data[sel[q]].1.words / data[sel[q]].1.questions)
      && (forall p, q :: 0 <= p < q < |r| &&
            data[sel[p]].1.words / data[sel[p]].1.questions == data[sel[q]].1.words / data[sel[q]].1.questions
            ==> sel[p] > sel[q])
      && (forall i, p :: 0 <= i < |data| && i !in sel && 0 <= p < |r| ==>
            data[i].1.words / data[i].1.questions <= data[sel[p]].1.words / data[sel[p]].1.questions)
  {
    var scored := TagScores(data);
    TopTenOrder(scored);
    forall i | 0 <= i < |data| && i !in Selected(scored) {
      TopTenOmitted(scored, i);
    }
  }

  /** `get_site_top_ten`, stated in terms of the sites' own totals. */
  lemma GetSiteTopTenSpec(sites: seq<(string, SiteData)>)
    requires forall i :: 0 <= i < |sites| ==> sites[i].1.questions > 0
    ensures var r, sel := GetSiteTopTen(sites), Selected(SiteScores(sites));
      && |r| == |sel| == Min(TopCount, |sites|)
      && (forall p :: 0 <= p < |r| ==> sel[p] < |sites| && r[p] == sites[sel[p]].0)
      && (forall p, q :: 0 <= p < q < |r| ==>
            sites[sel[p]].1.words / sites[sel[p]].1.questions >= sites[sel[q]].1.words / sites[sel[q]].1.questions)
      && (forall p, q :: 0 <= p < q < |r| &&
            sites[sel[p]].1.words / sites[sel[p]].1.questions == sites[sel[q]].1.words / sites[sel[q]].1.questions
            ==> sel[p] > sel[q])
      && (forall i, p :: 0 <= i < |sites| && i !in sel && 0 <= p < |r| ==>
            sites[i].1.words / sites[i].1.questions <= sites[sel[p]].1.words / sites[sel[p]].1.questions)
  {
    var scored := SiteScores(sites);
    TopTenOrder(scored);
    forall i | 0 <= i < |sites| && i !in Selected(scored) {
      TopTenOmitted(scored, i);
    }
  }

  // The two ranking tests of the tool.

  /** The position order of both tests: ratios fall from position 9 down to 0, then 10. */
  lemma ExampleOrder(ratios: seq<nat>)
    requires |ratios| == 11
    requires forall k :: 0 < k < 10 ==> ratios[k - 1] < ratios[k]
    requires ratios[10] < ratios[0]
    ensures Ranked(ratios)[..10] == [9, 8, 7, 6, 5, 4, 3, 2, 1, 0]
  {
    var order := [9, 8, 7, 6, 5, 4, 3, 2, 1, 0, 10];
    assert forall k :: 0 <= k < 11 ==> order[k] == if k < 10 then 9 - k else 10;
    assert forall a, b :: 0 <= a < b < 10 ==> ratios[a] < ratios[b] by {
      forall a, b | 0 <= a < b < 10 ensures ratios[a] < ratios[b] {
        var c := a;
        while c < b
          invariant a <= c <= b && ratios[a] <= ratios[c]
          invariant c > a ==> ratios[a] < ratios[c]
        {
          c := c + 1;
        }
      }
    }
    forall x: nat | x < 11 ensures x in order {
      assert order[if x < 10 then 9 - x else 10] == x;
    }
    RankedUnique(ratios, order);
  }

  /** The input of the tag test: tag1 .. tag10 with 1000 words over 11 .. 2 questions, tag11 with ratio 1. */
  function TagExample(): seq<(string, TagData)> {
    seq(11, k requires 0 <= k < 11 =>
      ("tag" + Digits(k + 1), if k == 10 then TagData(1000, 1000) else TagData(11 - k, 1000)))
  }

  /** The input of the site test: site1 .. site10 with 100 words over 11 .. 2 questions, site11 with ratio 1. */
  function SiteExample(): seq<(string, SiteData)> {
    seq(11, k requires 0 <= k < 11 =>
      ("site" + Digits(k + 1), SiteData(if k == 10 then 100 else 11 - k, 100, map[], [])))
  }

  lemma TagTopTenExample()
    ensures GetTagTopTen(TagExample()) == seq(10, p requires 0 <= p < 10 => "tag" + Digits(10 - p))
  {
    var data := TagExample();
    var scored := TagScores(data);
    assert Ratios(scored) == [90, 100, 111, 125, 142, 166, 200, 250, 333, 500, 1];
    ExampleOrder(Ratios(scored));
    ExampleKeys(scored, "tag");
  }

  lemma SiteExampleFacts()
    ensures |SiteExample()| == 11
    ensures forall k :: 0 <= k < 11 ==> SiteExample()[k].0 == "site" + Digits(k + 1)
    ensures forall k :: 0 <= k < 11 ==> SiteExample()[k].1.words == 100
    ensures forall k :: 0 <= k < 11 ==> SiteExample()[k].1.questions == if k == 10 then 100 else 11 - k
  {
  }

  lemma SiteTopTenExample()
    ensures GetSiteTopTen(SiteExample()) == seq(10, p requires 0 <= p < 10 => "site" + Digits(10 - p))
  {
    SiteExampleFacts();
    var scored := SiteScores(SiteExample());
    var ratios := Ratios(scored);
    assert forall k :: 0 <= k < 11 ==> ratios[k] == if k == 10 then 1 else 100 / (11 - k);
    assert ratios == [9, 10, 11, 12, 14, 16, 20, 25, 33, 50, 1];
    ExampleOrder(ratios);
    ExampleKeys(scored, "site");
  }

  /** Reading the keys at positions 9 down to 0. */
  lemma ExampleKeys(scored: seq<(string, nat)>, prefix: string)
    requires |scored| == 11 && forall k :: 0 <= k < 11 ==> scored[k].0 == prefix + Digits(k + 1)
    requires Ranked(Ratios(scored))[..10] == [9, 8, 7, 6, 5, 4, 3, 2, 1, 0]
    ensures TopTen(scored) == seq(10, p requires 0 <= p < 10 => prefix + Digits(10 - p))
  {
    var sel := Selected(scored);
    assert sel == [9, 8, 7, 6, 5, 4, 3, 2, 1, 0];
    assert forall p :: 0 <= p < 10 ==> sel[p] == 9 - p;
  }

  /** The decimal digits of a number, as `format!("{}", n)` writes them. */
  function Digits(n: nat): string
    decreases n
  {
    if n < 10 then ["0123456789"[n]] else Digits(n / 10) + ["0123456789"[n % 10]]
  }
}
