/**
 * The per-GPU price summary of the Vast.ai offers: one entry per GPU name
 * with the number of offers and the lowest, highest and mean hourly price.
 */
module VastStats {

  /** The fields of an offer the summary reads: its GPU name and total hourly price. */
  datatype VastOffer = VastOffer(id: int, gpuName: string, dphTotal: real)

  /** One entry of the summary; `offers` collects the offers while the first loop runs. */
  datatype GpuStats = GpuStats(offers: seq<VastOffer>, totalOffers: nat, minPrice: real, maxPrice: real, avgPrice: real)

  /** The GPU names the offers mention. */
  function Names(offers: seq<VastOffer>): set<string> {
    set i | 0 <= i < |offers| :: offers[i].gpuName
  }

  /** The offers for one GPU name, in order. */
  function Matching(offers: seq<VastOffer>, name: string): seq<VastOffer>
  {
    if offers == [] then []
    else Matching(offers[..|offers| - 1], name) +
         (if offers[|offers| - 1].gpuName == name then [offers[|offers| - 1]] else [])
  }

  function SumPrices(offers: seq<VastOffer>): real {
    if offers == [] then 0.0 else SumPrices(offers[..|offers| - 1]) + offers[|offers| - 1].dphTotal
  }

  /** `Math.min` of the prices. */
  function MinPrice(offers: seq<VastOffer>): real
    requires offers != []
  {
    if |offers| == 1 then offers[0].dphTotal
    else
      var m := MinPrice(offers[..|offers| - 1]);
      var last := offers[|offers| - 1].dphTotal;
      if last < m then last else m
  }

  /** `Math.max` of the prices. */
  function MaxPrice(offers: seq<VastOffer>): real
    requires offers != []
  {
    if |offers| == 1 then offers[0].dphTotal
    else
      var m := MaxPrice(offers[..|offers| - 1]);
      var last := offers[|offers| - 1].dphTotal;
      if last > m then last else m
  }

  /** An entry after the first loop: its offers collected, the prices those of the first. */
  function Collected(offers: seq<VastOffer>): GpuStats
    requires offers != []
  {
    GpuStats(offers, 0, offers[0].dphTotal, offers[0].dphTotal, offers[0].dphTotal)
  }

  /** An entry after the second loop: count, lowest, highest and mean price, offers dropped. */
  function Summary(offers: seq<VastOffer>): GpuStats
    requires offers != []
  {
    GpuStats([], |offers|, MinPrice(offers), MaxPrice(offers), SumPrices(offers) / |offers| as real)
  }

  /**
   * aggregateVastStats: the first loop groups the offers by GPU name, the
   * second turns every group into its summary and empties its offer list.
   */
  method AggregateVastStats(offers: seq<VastOffer>) returns (stats: map<string, GpuStats>)
    ensures stats.Keys == Names(offers)
    ensures forall name :: name in stats ==>
              Matching(offers, name) != [] && stats[name] == Summary(Matching(offers, name))
  {
    stats := map[];
    for i := 0 to |offers|
      invariant stats.Keys == Names(offers[..i])
      invariant forall name :: name in stats ==>
                  Matching(offers[..i], name) != [] && stats[name] == Collected(Matching(offers[..i], name))
    {
      var offer := offers[i];
      GroupStep(offers, i);
      if offer.gpuName !in stats {
        MatchingEmpty(offers[..i], offer.gpuName);
        stats := stats[offer.gpuName := GpuStats([], 0, offer.dphTotal, offer.dphTotal, offer.dphTotal)];
      }
      var entry := stats[offer.gpuName];
      stats := stats[offer.gpuName := entry.(offers := entry.offers + [offer])];
      assert Matching(offers[..i + 1], offer.gpuName) == entry.offers + [offer];
    }
    assert offers[..|offers|] == offers;
    var pending := stats.Keys;
    while pending != {}
      invariant pending <= stats.Keys == Names(offers)
      invariant forall name :: name in stats ==>
                  Matching(offers, name) != [] &&
                  stats[name] == if name in pending then Collected(Matching(offers, name)) else Summary(Matching(offers, name))
      decreases pending
    {
      var gpuName :| gpuName in pending;
      var gpuStats := stats[gpuName];
      var totalOffers := |gpuStats.offers|;
      var avgPrice := SumPrices(gpuStats.offers) / totalOffers as real;
      var minPrice := MinPrice(gpuStats.offers);
      var maxPrice := MaxPrice(gpuStats.offers);
      stats := stats[gpuName := GpuStats([], totalOffers, minPrice, maxPrice, avgPrice)];
      pending := pending - {gpuName};
    }
  }

  /** One more offer adds its name and extends exactly its own group. */
  lemma GroupStep(offers: seq<VastOffer>, i: nat)
    requires i < |offers|
    ensures Names(offers[..i + 1]) == Names(offers[..i]) + {offers[i].gpuName}
    ensures forall name :: Matching(offers[..i + 1], name) ==
              Matching(offers[..i], name) + (if offers[i].gpuName == name then [offers[i]] else [])
  {
    assert offers[..i + 1][..i] == offers[..i];
    var a := offers[..i + 1];
    forall name | name in Names(a)
      ensures name in Names(offers[..i]) + {offers[i].gpuName}
    {
      var k :| 0 <= k < |a| && a[k].gpuName == name;
      if k < i {
        assert offers[..i][k] == a[k];
      }
    }
    forall name | name in Names(offers[..i])
      ensures name in Names(a)
    {
      var k :| 0 <= k < i && offers[..i][k].gpuName == name;
      assert a[k] == offers[..i][k];
    }
    assert a[i] == offers[i];
  }

  /** The lowest price is one of the prices, and no price is lower. */
  lemma {:induction false} MinPriceIsLeast(offers: seq<VastOffer>)
    requires offers != []
    ensures exists i :: 0 <= i < |offers| && MinPrice(offers) == offers[i].dphTotal
    ensures forall i :: 0 <= i < |offers| ==> MinPrice(offers) <= offers[i].dphTotal
  {
    if |offers| > 1 {
      var init := offers[..|offers| - 1];
      MinPriceIsLeast(init);
      assert forall i :: 0 <= i < |init| ==> init[i] == offers[i];
      var k :| 0 <= k < |init| && MinPrice(init) == init[k].dphTotal;
      if MinPrice(offers) != MinPrice(init) {
        assert MinPrice(offers) == offers[|offers| - 1].dphTotal;
      } else {
        assert MinPrice(offers) == offers[k].dphTotal;
      }
    } else {
      assert MinPrice(offers) == offers[0].dphTotal;
    }
  }

  /** The highest price is one of the prices, and no price is higher. */
  lemma {:induction false} MaxPriceIsGreatest(offers: seq<VastOffer>)
    requires offers != []
    ensures exists i :: 0 <= i < |offers| && MaxPrice(offers) == offers[i].dphTotal
    ensures forall i :: 0 <= i < |offers| ==> offers[i].dphTotal <= MaxPrice(offers)
  {
    if |offers| > 1 {
      var init := offers[..|offers| - 1];
      MaxPriceIsGreatest(init);
      assert forall i :: 0 <= i < |init| ==> init[i] == offers[i];
      var k :| 0 <= k < |init| && MaxPrice(init) == init[k].dphTotal;
      if MaxPrice(offers) != MaxPrice(init) {
        assert MaxPrice(offers) == offers[|offers| - 1].dphTotal;
      } else {
        assert MaxPrice(offers) == offers[k].dphTotal;
      }
    } else {
      assert MaxPrice(offers) == offers[0].dphTotal;
    }
  }

  /** The mean of a non-empty group lies between its lowest and highest price. */
  lemma SummaryBounds(offers: seq<VastOffer>)
    requires offers != []
    ensures Summary(offers).minPrice <= Summary(offers).avgPrice <= Summary(offers).maxPrice
  {
    MinPriceIsLeast(offers);
    MaxPriceIsGreatest(offers);
    var n := |offers| as real;
    var s := SumPrices(offers);
    SumBounded(offers, MinPrice(offers), MaxPrice(offers));
    DivideBetween(s, n, MinPrice(offers), MaxPrice(offers));
  }

  lemma DivideBetween(s: real, n: real, lo: real, hi: real)
    requires n > 0.0 && n * lo <= s <= n * hi
    ensures lo <= s / n <= hi
  {
    assert (s / n) * n == s;
    assert (s / n - lo) * n == s - n * lo;
    assert (hi - s / n) * n == n * hi - s;
  }

  lemma {:induction false} SumBounded(offers: seq<VastOffer>, lo: real, hi: real)
    requires forall i :: 0 <= i < |offers| ==> lo <= offers[i].dphTotal <= hi
    ensures |offers| as real * lo <= SumPrices(offers) <= |offers| as real * hi
  {
    if offers != [] {
      var init := offers[..|offers| - 1];
      assert forall i :: 0 <= i < |init| ==> init[i] == offers[i];
      SumBounded(init, lo, hi);
      var n := |init| as real;
      assert |offers| as real * lo == n * lo + lo;
      assert |offers| as real * hi == n * hi + hi;
    }
  }

  /** The GPU names in order of first appearance. */
  function DistinctNames(offers: seq<VastOffer>): (r: seq<string>)
  {
    if offers == [] then []
    else
      var init := DistinctNames(offers[..|offers| - 1]);
      var name := offers[|offers| - 1].gpuName;
      if name in init then init else init + [name]
  }

  /** The sizes of the groups named in `names`, added up. */
  function GroupSizes(offers: seq<VastOffer>, names: seq<string>): nat {
    if names == [] then 0 else GroupSizes(offers, names[..|names| - 1]) + |Matching(offers, names[|names| - 1])|
  }

  /**
   * Every offer is counted once: the distinct names are exactly the keys of
   * the summary, and their `total_offers` add up to the number of offers.
   */
  lemma {:induction false} TotalsAddUp(offers: seq<VastOffer>)
    ensures (set n | n in DistinctNames(offers)) == Names(offers)
    ensures GroupSizes(offers, DistinctNames(offers)) == |offers|
  {
    if offers != [] {
      var init := offers[..|offers| - 1];
      var last := offers[|offers| - 1];
      TotalsAddUp(init);
      GroupStep(offers, |offers| - 1);
      assert offers[..|offers|] == offers;
      var names := DistinctNames(init);
      DistinctNamesDistinct(init);
      assert init + [last] == offers;
      GroupSizesStep(init, last, names);
      if last.gpuName in names {
        assert DistinctNames(offers) == names;
      } else {
        var all := names + [last.gpuName];
        assert DistinctNames(offers) == all;
        MatchingEmpty(init, last.gpuName);
        assert Matching(offers, last.gpuName) == [last];
        assert all[..|all| - 1] == names;
        assert GroupSizes(offers, all) == GroupSizes(offers, names) + 1;
      }
    }
  }

  /** A name no offer has has an empty group. */
  lemma {:induction false} MatchingEmpty(offers: seq<VastOffer>, name: string)
    requires name !in Names(offers)
    ensures Matching(offers, name) == []
  {
    if offers != [] {
      var init := offers[..|offers| - 1];
      assert Names(init) <= Names(offers) by {
        forall n | n in Names(init)
          ensures n in Names(offers)
        {
          var k :| 0 <= k < |init| && init[k].gpuName == n;
          assert offers[k] == init[k];
        }
      }
      MatchingEmpty(init, name);
    }
  }

  lemma {:induction false} DistinctNamesDistinct(offers: seq<VastOffer>)
    ensures forall i, j :: 0 <= i < j < |DistinctNames(offers)| ==> DistinctNames(offers)[i] != DistinctNames(offers)[j]
  {
    if offers != [] {
      DistinctNamesDistinct(offers[..|offers| - 1]);
    }
  }

  /** Adding an offer grows the group sizes of distinct names by one exactly when its name is among them. */
  lemma {:induction false} GroupSizesStep(offers: seq<VastOffer>, o: VastOffer, names: seq<string>)
    requires forall i, j :: 0 <= i < j < |names| ==> names[i] != names[j]
    ensures GroupSizes(offers + [o], names) == GroupSizes(offers, names) + (if o.gpuName in names then 1 else 0)
  {
    var all := offers + [o];
    assert all[..|all| - 1] == offers;
    if names != [] {
      var init := names[..|names| - 1];
      GroupSizesStep(offers, o, init);
      assert names == init + [names[|names| - 1]];
    }
  }
}
