/**
 * Torrent-index search hits and the three steps both selectors share: the
 * exact-text filter, the stable descending seed ranking
 * (`sorted(..., key=seeds, reverse=True)`) and the first hit of a category
 * (`next(...)`), with a reference definition of the hit those steps pick.
 */
module Hits {

  import opened Wrappers
  import opened Text

  /** One search hit as the torrent index returns it (other JSON fields are not modelled). */
  datatype Hit = Hit(title: string, category: string, seeds: int, torrentHash: string)

  /** The parsed JSON answer of the index: `total_found` and the other values, in dict order. */
  datatype Response = Response(totalFound: string, hits: seq<Hit>)

  /** The lower-cased title contains both (already normalised and lower-cased) needles. */
  predicate TitleHasBoth(h: Hit, artistNeedle: string, albumNeedle: string) {
    Contains(Lower(h.title), artistNeedle) && Contains(Lower(h.title), albumNeedle)
  }

  /** The list comprehension that keeps the hits whose title names both artist and album, in input order. */
  function KeepMatching(hits: seq<Hit>, artistNeedle: string, albumNeedle: string): (r: seq<Hit>)
    ensures forall h :: h in r <==> h in hits && TitleHasBoth(h, artistNeedle, albumNeedle)
    ensures forall h :: multiset(r)[h] == if TitleHasBoth(h, artistNeedle, albumNeedle) then multiset(hits)[h] else 0
  {
    if hits == [] then []
    else
      assert hits == [hits[0]] + hits[1..];
      (if TitleHasBoth(hits[0], artistNeedle, albumNeedle) then [hits[0]] else [])
      + KeepMatching(hits[1..], artistNeedle, albumNeedle)
  }

  /** A single hit is kept exactly when its title names both. */
  lemma KeepMatchingOne(h: Hit, artistNeedle: string, albumNeedle: string)
    ensures KeepMatching([h], artistNeedle, albumNeedle) == if TitleHasBoth(h, artistNeedle, albumNeedle) then [h] else []
  {
    assert [h][1..] == [];
  }

  /** The filter works piece by piece, so the kept hits stay in response order. */
  lemma {:induction false} KeepMatchingAppend(a: seq<Hit>, b: seq<Hit>, artistNeedle: string, albumNeedle: string)
    ensures KeepMatching(a + b, artistNeedle, albumNeedle)
         == KeepMatching(a, artistNeedle, albumNeedle) + KeepMatching(b, artistNeedle, albumNeedle)
  {
    if a == [] {
      assert a + b == b;
    } else {
      assert (a + b)[0] == a[0];
      assert (a + b)[1..] == a[1..] + b;
      KeepMatchingAppend(a[1..], b, artistNeedle, albumNeedle);
    }
  }

  predicate NonIncreasing(r: seq<Hit>) {
    forall i, j :: 0 <= i < j < |r| ==> r[i].seeds >= r[j].seeds
  }

  /** Puts `h` in front of the first hit that has no more seeds than it. */
  function Insert(h: Hit, ranked: seq<Hit>): (r: seq<Hit>)
    ensures multiset(r) == multiset(ranked) + multiset{h}
  {
    if ranked == [] || ranked[0].seeds <= h.seeds then [h] + ranked
    else
      assert ranked == [ranked[0]] + ranked[1..];
      [ranked[0]] + Insert(h, ranked[1..])
  }

  lemma {:induction false} InsertKeepsOrder(h: Hit, ranked: seq<Hit>)
    requires NonIncreasing(ranked)
    ensures NonIncreasing(Insert(h, ranked))
  {
    if ranked != [] && ranked[0].seeds > h.seeds {
      var rest := Insert(h, ranked[1..]);
      InsertKeepsOrder(h, ranked[1..]);
      forall j | 0 <= j < |rest|
        ensures ranked[0].seeds >= rest[j].seeds
      {
        assert rest[j] in multiset(rest);
        if rest[j] != h {
          assert rest[j] in ranked[1..];
        }
      }
    }
  }

  /** `sorted(hits, key=lambda x: x['seeds'], reverse=True)`, as an insertion sort. */
  function RankBySeeds(hits: seq<Hit>): (r: seq<Hit>)
    ensures multiset(r) == multiset(hits)
    ensures |r| == |hits|
    ensures NonIncreasing(r)
  {
    if hits == [] then []
    else
      assert hits == [hits[0]] + hits[1..];
      InsertKeepsOrder(hits[0], RankBySeeds(hits[1..]));
      Insert(hits[0], RankBySeeds(hits[1..]))
  }

  /** The hits with exactly `s` seeds, in their order. */
  function WithSeeds(hits: seq<Hit>, s: int): seq<Hit> {
    if hits == [] then []
    else (if hits[0].seeds == s then [hits[0]] else []) + WithSeeds(hits[1..], s)
  }

  lemma WithSeedsCons(x: Hit, rest: seq<Hit>, s: int)
    ensures WithSeeds([x] + rest, s) == (if x.seeds == s then [x] else []) + WithSeeds(rest, s)
  {
    assert ([x] + rest)[1..] == rest;
  }

  lemma {:induction false} InsertIsStable(h: Hit, ranked: seq<Hit>, s: int)
    ensures WithSeeds(Insert(h, ranked), s)
         == (if h.seeds == s then [h] else []) + WithSeeds(ranked, s)
  {
    if ranked == [] || ranked[0].seeds <= h.seeds {
      WithSeedsCons(h, ranked, s);
    } else {
      var rest := Insert(h, ranked[1..]);
      WithSeedsCons(ranked[0], rest, s);
      InsertIsStable(h, ranked[1..], s);
      WithSeedsCons(ranked[0], ranked[1..], s);
      assert [ranked[0]] + ranked[1..] == ranked;
    }
  }

  /**
   * The ranking is stable: for every seed count, the hits with that count
   * come out in the order they went in.
   */
  lemma {:induction false} RankingIsStable(hits: seq<Hit>, s: int)
    ensures WithSeeds(RankBySeeds(hits), s) == WithSeeds(hits, s)
  {
    if hits != [] {
      RankingIsStable(hits[1..], s);
      InsertIsStable(hits[0], RankBySeeds(hits[1..]), s);
    }
  }

  /** The largest seed count among the hits. */
  function MaxSeeds(hits: seq<Hit>): (m: int)
    requires hits != []
    ensures exists i :: 0 <= i < |hits| && hits[i].seeds == m
    ensures forall i :: 0 <= i < |hits| ==> hits[i].seeds <= m
  {
    if |hits| == 1 then hits[0].seeds
    else
      var m := MaxSeeds(hits[1..]);
      assert forall i :: 1 <= i < |hits| ==> hits[i] == hits[1..][i - 1];
      if hits[0].seeds >= m then hits[0].seeds else m
  }

  /** The top of the ranking carries the largest seed count. */
  lemma RankTopIsMax(hits: seq<Hit>)
    requires hits != []
    ensures RankBySeeds(hits)[0].seeds == MaxSeeds(hits)
  {
    var r := RankBySeeds(hits);
    assert r[0] in multiset(hits);
    var i :| 0 <= i < |hits| && hits[i].seeds == MaxSeeds(hits);
    assert hits[i] in multiset(r);
    var j :| 0 <= j < |r| && r[j] == hits[i];
    assert j == 0 || r[0].seeds >= r[j].seeds;
  }

  /** `next((h for h in ranked if h['category'] == category), None)`. */
  function FirstInCategory(ranked: seq<Hit>, category: string): (r: Option<Hit>)
    ensures r.Some? ==> r.value in ranked && r.value.category == category
    ensures r.None? <==> forall x :: x in ranked ==> x.category != category
    ensures r.Some? ==>
      exists i :: 0 <= i < |ranked| && ranked[i] == r.value
        && forall j :: 0 <= j < i ==> ranked[j].category != category
  {
    if ranked == [] then None
    else if ranked[0].category == category then Some(ranked[0])
    else
      var r := FirstInCategory(ranked[1..], category);
      assert r.Some? ==> forall i :: 0 <= i < |ranked[1..]| && ranked[1..][i] == r.value ==> ranked[i + 1] == r.value;
      r
  }

  /**
   * Reference definition of the pick, without any sorting: among the hits
   * of the category, the one with the most seeds, the earliest such hit on a tie.
   */
  function BestInCategory(hits: seq<Hit>, category: string): Option<Hit> {
    if hits == [] then None
    else
      var rest := BestInCategory(hits[1..], category);
      if hits[0].category != category then rest
      else if rest.None? || rest.value.seeds <= hits[0].seeds then Some(hits[0])
      else rest
  }

  /**
   * What BestInCategory picks: a hit of the category with no fewer seeds than
   * any other hit of the category, and strictly more than every hit of the
   * category before it; None exactly when no hit has the category.
   */
  lemma {:induction false} BestInCategoryMeaning(hits: seq<Hit>, category: string) returns (k: nat)
    ensures BestInCategory(hits, category).None? <==> forall x :: x in hits ==> x.category != category
    ensures BestInCategory(hits, category).Some? ==>
      && k < |hits| && hits[k] == BestInCategory(hits, category).value
      && hits[k].category == category
      && (forall j :: 0 <= j < |hits| && hits[j].category == category ==> hits[j].seeds <= hits[k].seeds)
      && (forall j :: 0 <= j < k && hits[j].category == category ==> hits[j].seeds < hits[k].seeds)
  {
    if hits == [] {
      return 0;
    }
    var k' := BestInCategoryMeaning(hits[1..], category);
    var rest := BestInCategory(hits[1..], category);
    assert forall j :: 1 <= j < |hits| ==> hits[j] == hits[1..][j - 1];
    assert forall x :: x in hits ==> x == hits[0] || x in hits[1..];
    if hits[0].category != category {
      k := k' + 1;
    } else if rest.None? || rest.value.seeds <= hits[0].seeds {
      k := 0;
    } else {
      k := k' + 1;
    }
  }

  /** The reference pick is a hit of the category with as many seeds as any other hit of the category. */
  lemma BestInCategorySound(hits: seq<Hit>, category: string)
    ensures BestInCategory(hits, category).Some? ==>
      var h := BestInCategory(hits, category).value;
      && h in hits && h.category == category
      && forall x :: x in hits && x.category == category ==> x.seeds <= h.seeds
  {
    var k := BestInCategoryMeaning(hits, category);
    if BestInCategory(hits, category).Some? {
      forall x | x in hits && x.category == category
        ensures x.seeds <= hits[k].seeds
      {
        var j :| 0 <= j < |hits| && hits[j] == x;
      }
    }
  }

  lemma {:induction false} FirstInCategoryAfterInsert(h: Hit, ranked: seq<Hit>, category: string)
    requires NonIncreasing(ranked)
    ensures var first := FirstInCategory(ranked, category);
            FirstInCategory(Insert(h, ranked), category)
            == if h.category != category then first
               else if first.None? || first.value.seeds <= h.seeds then Some(h)
               else first
  {
    var first := FirstInCategory(ranked, category);
    if ranked == [] || ranked[0].seeds <= h.seeds {
      assert Insert(h, ranked) == [h] + ranked;
      assert ([h] + ranked)[1..] == ranked;
      if first.Some? {
        var j :| 0 <= j < |ranked| && ranked[j] == first.value;
        assert j == 0 || ranked[0].seeds >= ranked[j].seeds;
      }
    } else {
      var rest := Insert(h, ranked[1..]);
      assert Insert(h, ranked) == [ranked[0]] + rest;
      assert ([ranked[0]] + rest)[1..] == rest;
      if ranked[0].category != category {
        FirstInCategoryAfterInsert(h, ranked[1..], category);
      }
    }
  }

  /** Taking the first hit of the category from the ranking picks exactly the reference hit. */
  lemma {:induction false} RankedFirstIsBest(hits: seq<Hit>, category: string)
    ensures FirstInCategory(RankBySeeds(hits), category) == BestInCategory(hits, category)
  {
    if hits != [] {
      RankedFirstIsBest(hits[1..], category);
      FirstInCategoryAfterInsert(hits[0], RankBySeeds(hits[1..]), category);
    }
  }

  /** Seeds 3, 7, 0, 7 rank as 7, 7, 3, 0, the two sevens in their input order. */
  lemma RankingExample(a: Hit, b: Hit, c: Hit, d: Hit)
    requires a.seeds == 3 && b.seeds == 7 && c.seeds == 0 && d.seeds == 7
    ensures RankBySeeds([a, b, c, d]) == [b, d, a, c]
  {
    RankTwo(c, d);
    RankPrepend(b, [c, d], [d, c]);
    assert Insert(b, [d, c]) == [b, d, c];
    RankPrepend(a, [b, c, d], [b, d, c]);
    InsertBelow(a, [b, d, c]);
  }

  lemma RankTwo(c: Hit, d: Hit)
    requires c.seeds < d.seeds
    ensures RankBySeeds([c, d]) == [d, c]
  {
    assert [c, d][1..] == [d];
    assert [d][1..] == [];
    assert RankBySeeds([d]) == [d];
    assert Insert(c, []) == [c];
  }

  lemma RankPrepend(h: Hit, rest: seq<Hit>, rankedRest: seq<Hit>)
    requires RankBySeeds(rest) == rankedRest
    ensures RankBySeeds([h] + rest) == Insert(h, rankedRest)
  {
    assert ([h] + rest)[1..] == rest;
  }

  lemma InsertBelow(a: Hit, bdc: seq<Hit>)
    requires |bdc| == 3 && bdc[0].seeds == 7 && bdc[1].seeds == 7 && bdc[2].seeds == 0 && a.seeds == 3
    ensures Insert(a, bdc) == [bdc[0], bdc[1], a, bdc[2]]
  {
    assert Insert(a, bdc[2..]) == [a] + bdc[2..];
    assert bdc[1..][1..] == bdc[2..];
    assert Insert(a, bdc[1..]) == [bdc[1]] + Insert(a, bdc[2..]);
    assert Insert(a, bdc) == [bdc[0]] + Insert(a, bdc[1..]);
  }

  const MagnetPrefix: string := "magnet:?xt=urn:btih:"

  /** `'magnet:?xt=urn:btih:%s' % hash`. */
  function MagnetLink(hash: string): string {
    MagnetPrefix + hash
  }

  /** Reads the info-hash back out of a magnet link of that form. */
  function MagnetHash(link: string): Option<string> {
    if |link| >= |MagnetPrefix| && link[..|MagnetPrefix|] == MagnetPrefix
    then Some(link[|MagnetPrefix|..]) else None
  }

  /** A magnet link is built from exactly one hash, which can be read back. */
  lemma MagnetRoundTrip(hash: string, link: string)
    ensures MagnetHash(MagnetLink(hash)) == Some(hash)
    ensures MagnetHash(link) == Some(hash) <==> link == MagnetLink(hash)
  {
    assert MagnetLink(hash)[..|MagnetPrefix|] == MagnetPrefix;
    assert MagnetLink(hash)[|MagnetPrefix|..] == hash;
    if MagnetHash(link) == Some(hash) {
      assert link == link[..|MagnetPrefix|] + link[|MagnetPrefix|..];
    }
  }
}
