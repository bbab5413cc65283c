// Shares turned into assets: the early redemption preview
// (backend/src/services/vault.ts) and the two portfolio valuations
// (backend/src/services/user.ts).
module Redemption {
  import opened Arithmetic

  datatype Vault = Vault(assets: int, supply: int, feeBps: int)

  datatype Preview = Preview(gross: int, fee: int, net: int)

  // One to one while no share has been minted.
  function Gross(v: Vault, shares: int): int {
    if v.supply > 0 then Trunc(shares * v.assets, v.supply) else shares
  }

  function Net(v: Vault, shares: int): int {
    Trunc(Gross(v, shares) * (10000 - v.feeBps), 10000)
  }

  function GetEarlyRedemptionFeePreview(v: Vault, shares: int): Preview {
    Preview(Gross(v, shares), Gross(v, shares) - Net(v, shares), Net(v, shares))
  }

  // getUserPortfolioPnl: the pro-rata value of a position.
  function CurrentValue(v: Vault, shares: int): int {
    if shares > 0 && v.supply > 0 then Trunc(shares * v.assets, v.supply) else 0
  }

  // getUserPortfolioValue: shares times the truncated price of one share.
  function ValueUsd(v: Vault, shares: int): int {
    shares * (if v.supply > 0 then Trunc(v.assets, v.supply) else 0)
  }

  // A vault as the indexer leaves it.
  predicate Regular(v: Vault) {
    v.assets >= 0 && v.supply >= 0 && 0 <= v.feeBps <= 10000
  }

  predicate NotNegative(xs: seq<int>) { forall i :: 0 <= i < |xs| ==> xs[i] >= 0 }

  function Sum(xs: seq<int>): int {
    if xs == [] then 0 else Sum(xs[..|xs| - 1]) + xs[|xs| - 1]
  }

  function Grosses(v: Vault, xs: seq<int>): int {
    if xs == [] then 0 else Grosses(v, xs[..|xs| - 1]) + Gross(v, xs[|xs| - 1])
  }

  function Nets(v: Vault, xs: seq<int>): int {
    if xs == [] then 0 else Nets(v, xs[..|xs| - 1]) + Net(v, xs[|xs| - 1])
  }

  // ------------------------------------------------------------- arithmetic

  lemma FloorUnique(x: int, d: int, q: int)
    requires x >= 0 && d > 0 && d * q <= x < d * q + d
    ensures Trunc(x, d) == q
  {
    TruncBounds(x, d);
    assert d * (q + 1) == d * q + d && d * (Trunc(x, d) + 1) == d * Trunc(x, d) + d;
    MulCancel(d, q, Trunc(x, d) + 1);
    MulCancel(d, Trunc(x, d), q + 1);
  }

  // Splitting a quotient loses less than one unit, and never gains.
  lemma FloorSplits(x: int, y: int, d: int)
    requires x >= 0 && y >= 0 && d > 0
    ensures Trunc(x, d) + Trunc(y, d) <= Trunc(x + y, d) <= Trunc(x, d) + Trunc(y, d) + 1
  {
    var p, q, r := Trunc(x, d), Trunc(y, d), Trunc(x + y, d);
    TruncBounds(x, d);
    TruncBounds(y, d);
    TruncBounds(x + y, d);
    assert d * (p + q) == d * p + d * q && d * (r + 1) == d * r + d;
    assert d * (p + q + 2) == d * (p + q) + 2 * d;
    MulCancel(d, p + q, r + 1);
    MulCancel(d, r, p + q + 2);
  }

  // --------------------------------------------------------------- solvency

  lemma GrossSplits(v: Vault, x: int, y: int)
    requires Regular(v) && x >= 0 && y >= 0
    ensures 0 <= Gross(v, x) && Gross(v, x) + Gross(v, y) <= Gross(v, x + y) <= Gross(v, x) + Gross(v, y) + 1
  {
    ProductSign(x, v.assets);
    ProductSign(y, v.assets);
    assert (x + y) * v.assets == x * v.assets + y * v.assets;
    if v.supply > 0 {
      TruncBounds(x * v.assets, v.supply);
      FloorSplits(x * v.assets, y * v.assets, v.supply);
    }
  }

  lemma GrossOfNothing(v: Vault)
    ensures Gross(v, 0) == 0
  {}

  lemma WholeSupply(v: Vault)
    requires Regular(v) && v.supply > 0
    ensures Gross(v, v.supply) == v.assets
  {
    ProductSign(v.supply, v.assets);
    FloorUnique(v.supply * v.assets, v.supply, v.assets);
  }

  // Redeeming in parts never yields more gross assets than at once, and less
  // by at most one unit a part.
  lemma {:induction false} GrossesSplit(v: Vault, xs: seq<int>)
    requires Regular(v) && NotNegative(xs)
    ensures Sum(xs) >= 0 && Grosses(v, xs) <= Gross(v, Sum(xs)) <= Grosses(v, xs) + |xs|
  {
    if xs == [] {
      GrossOfNothing(v);
    } else {
      var init, last := xs[..|xs| - 1], xs[|xs| - 1];
      GrossesSplit(v, init);
      GrossSplits(v, Sum(init), last);
    }
  }

  // Holders whose shares do not exceed the supply can all redeem.
  lemma Solvent(v: Vault, holders: seq<int>)
    requires Regular(v) && v.supply > 0 && NotNegative(holders) && Sum(holders) <= v.supply
    ensures Grosses(v, holders) <= v.assets
  {
    GrossesSplit(v, holders);
    GrossSplits(v, Sum(holders), v.supply - Sum(holders));
    ProductSign(v.supply - Sum(holders), v.assets);
    TruncBounds((v.supply - Sum(holders)) * v.assets, v.supply);
    WholeSupply(v);
  }

  // And when they hold the whole supply, next to nothing is left behind.
  lemma NothingLeftBehind(v: Vault, holders: seq<int>)
    requires Regular(v) && v.supply > 0 && NotNegative(holders) && Sum(holders) == v.supply
    ensures v.assets - |holders| <= Grosses(v, holders) <= v.assets
  {
    GrossesSplit(v, holders);
    WholeSupply(v);
  }

  // ------------------------------------------------------------------- fees

  // The fee is the exact fee rounded up; nothing is lost between fee and net.
  lemma FeeRoundsUp(v: Vault, shares: int)
    requires Regular(v) && shares >= 0
    ensures var p := GetEarlyRedemptionFeePreview(v, shares);
            p.fee + p.net == p.gross && 0 <= p.fee <= p.gross
            && p.gross * v.feeBps <= 10000 * p.fee < p.gross * v.feeBps + 10000
  {
    var g := Gross(v, shares);
    GrossSplits(v, shares, 0);
    ProductSign(g, 10000 - v.feeBps);
    ProductSign(g, v.feeBps);
    TruncBounds(g * (10000 - v.feeBps), 10000);
    assert g * (10000 - v.feeBps) == 10000 * g - g * v.feeBps;
  }

  // With a fee outside 0..10000 the preview pays more than the gross or less
  // than nothing, as soon as the gross is large enough to show it.
  lemma FeeOutOfRange(v: Vault, shares: int)
    requires v.assets >= 0 && v.supply >= 0 && shares >= 0 && Gross(v, shares) >= 10000
    ensures 0 <= GetEarlyRedemptionFeePreview(v, shares).net <= Gross(v, shares) <==> 0 <= v.feeBps <= 10000
  {
    var g := Gross(v, shares);
    if v.feeBps < 0 {
      var extra := g * -v.feeBps;
      MulLe(g, 1, -v.feeBps);
      assert g * (10000 - v.feeBps) == 10000 * g + extra;
      TruncBounds(10000 * g + extra, 10000);
    } else if v.feeBps > 10000 {
      MulLe(g, 1, v.feeBps - 10000);
      assert g * (10000 - v.feeBps) == -(g * (v.feeBps - 10000));
      TruncBounds(g * (v.feeBps - 10000), 10000);
    } else {
      FeeRoundsUp(v, shares);
    }
  }

  lemma AfterFeeSplits(v: Vault, g: int, h: int)
    requires Regular(v) && g >= 0 && h >= 0
    ensures var keep := 10000 - v.feeBps;
            Trunc(g * keep, 10000) + Trunc(h * keep, 10000) <= Trunc((g + h) * keep, 10000)
            <= Trunc(g * keep, 10000) + Trunc(h * keep, 10000) + 1
  {
    var keep := 10000 - v.feeBps;
    ProductSign(g, keep);
    ProductSign(h, keep);
    assert (g + h) * keep == g * keep + h * keep;
    FloorSplits(g * keep, h * keep, 10000);
  }

  // One more unit of gross is at most one more unit of net.
  lemma AfterFeeStep(v: Vault, g: int, h: int)
    requires Regular(v) && 0 <= g <= h <= g + 1
    ensures var keep := 10000 - v.feeBps;
            Trunc(g * keep, 10000) <= Trunc(h * keep, 10000) <= Trunc(g * keep, 10000) + 1
  {
    var keep := 10000 - v.feeBps;
    ProductSign(g, keep);
    ProductSign(h - g, keep);
    assert h * keep == g * keep + (h - g) * keep;
    assert (h - g) * keep <= 10000;
    TruncMonotone(g * keep, h * keep, 10000);
    TruncBounds(g * keep, 10000);
    TruncBounds(h * keep, 10000);
  }

  lemma NetSplits(v: Vault, x: int, y: int)
    requires Regular(v) && x >= 0 && y >= 0
    ensures Net(v, x) + Net(v, y) <= Net(v, x + y) <= Net(v, x) + Net(v, y) + 2
  {
    var g, h := Gross(v, x), Gross(v, y);
    GrossSplits(v, x, y);
    GrossSplits(v, y, x);
    AfterFeeSplits(v, g, h);
    AfterFeeStep(v, g + h, Gross(v, x + y));
  }

  // Splitting one redemption never raises the total net, and costs at most
  // two units for every further part.
  lemma {:induction false} SplittingNeverGains(v: Vault, parts: seq<int>)
    requires Regular(v) && NotNegative(parts) && parts != []
    ensures Sum(parts) >= 0
    ensures Nets(v, parts) <= Net(v, Sum(parts)) <= Nets(v, parts) + 2 * (|parts| - 1)
  {
    var init, last := parts[..|parts| - 1], parts[|parts| - 1];
    if init == [] {
      assert Sum(init) == 0 && Nets(v, init) == 0;
    } else {
      SplittingNeverGains(v, init);
      NetSplits(v, Sum(init), last);
    }
  }

  // Both units can be lost at once.
  lemma TwoUnitsLost()
    ensures exists v, x, y :: Regular(v) && x >= 0 && y >= 0 && Net(v, x + y) == Net(v, x) + Net(v, y) + 2
  {
    var t := Vault(3, 2, 1);
    assert Net(t, 1) == 0 && Gross(t, 1 + 1) == 3 && Net(t, 1 + 1) == 2;
    assert Regular(t) && Net(t, 1 + 1) == Net(t, 1) + Net(t, 1) + 2;
  }

  // ------------------------------------------------- two ways to value shares

  // The per-share price never values a position above its pro-rata value and
  // trails it by fewer than `shares` units.
  lemma PerShareTrails(v: Vault, shares: int)
    requires Regular(v) && shares > 0
    ensures ValueUsd(v, shares) <= CurrentValue(v, shares) < ValueUsd(v, shares) + shares
    ensures v.supply == 0 ==> ValueUsd(v, shares) == CurrentValue(v, shares) == 0
  {
    if v.supply > 0 {
      var price := Trunc(v.assets, v.supply);
      TruncBounds(v.assets, v.supply);
      ProductSign(shares, v.assets);
      TruncBounds(shares * v.assets, v.supply);
      NeverAbove(v.supply, shares, v.assets, price, CurrentValue(v, shares));
      NeverFarBelow(v.supply, shares, v.assets, price, CurrentValue(v, shares));
    }
  }

  lemma NeverAbove(supply: int, shares: int, assets: int, price: int, value: int)
    requires supply > 0 && shares > 0
    requires supply * price <= assets && shares * assets < supply * value + supply
    ensures shares * price <= value
  {
    MulLe(shares, supply * price, assets);
    assert shares * (supply * price) == supply * (shares * price);
    assert supply * (value + 1) == supply * value + supply;
    MulCancel(supply, shares * price, value + 1);
  }

  lemma NeverFarBelow(supply: int, shares: int, assets: int, price: int, value: int)
    requires supply > 0 && shares > 0
    requires assets < supply * price + supply && supply * value <= shares * assets
    ensures value < shares * price + shares
  {
    MulLe(shares, assets + 1, supply * (price + 1));
    assert shares * (assets + 1) == shares * assets + shares;
    assert shares * (supply * (price + 1)) == supply * (shares * (price + 1));
    assert supply * (price + 1) == supply * price + supply;
    MulCancel(supply, value, shares * (price + 1));
    assert shares * (price + 1) == shares * price + shares;
  }

  datatype Position = Position(vault: Vault, shares: int)

  function TotalValueUsd(ps: seq<Position>): int {
    if ps == [] then 0 else TotalValueUsd(ps[..|ps| - 1]) + ValueUsd(ps[|ps| - 1].vault, ps[|ps| - 1].shares)
  }

  function TotalCurrentValue(ps: seq<Position>): int {
    if ps == [] then 0 else TotalCurrentValue(ps[..|ps| - 1]) + CurrentValue(ps[|ps| - 1].vault, ps[|ps| - 1].shares)
  }

  function TotalShares(ps: seq<Position>): int {
    if ps == [] then 0 else TotalShares(ps[..|ps| - 1]) + ps[|ps| - 1].shares
  }

  // A whole portfolio is undervalued by fewer units than it has shares.
  lemma {:induction false} PortfolioTrails(ps: seq<Position>)
    requires forall i :: 0 <= i < |ps| ==> Regular(ps[i].vault) && ps[i].shares > 0
    ensures TotalValueUsd(ps) <= TotalCurrentValue(ps) <= TotalValueUsd(ps) + TotalShares(ps)
    ensures ps != [] ==> TotalCurrentValue(ps) < TotalValueUsd(ps) + TotalShares(ps)
  {
    if ps != [] {
      PortfolioTrails(ps[..|ps| - 1]);
      PerShareTrails(ps[|ps| - 1].vault, ps[|ps| - 1].shares);
    }
  }

  function TotalGross(ps: seq<Position>): int {
    if ps == [] then 0 else TotalGross(ps[..|ps| - 1]) + GetEarlyRedemptionFeePreview(ps[|ps| - 1].vault, ps[|ps| - 1].shares).gross
  }

  // Shares held in vaults of which none were minted.
  function UnmintedShares(ps: seq<Position>): int {
    if ps == [] then 0
    else UnmintedShares(ps[..|ps| - 1]) + if ps[|ps| - 1].vault.supply == 0 then ps[|ps| - 1].shares else 0
  }

  // The previews of a portfolio promise more than the portfolio is shown to be
  // worth by exactly the shares of empty vaults, which the one values one to
  // one and the other at zero; so both agree exactly when there are none.
  lemma {:induction false} PreviewsExceedPortfolio(ps: seq<Position>)
    requires forall i :: 0 <= i < |ps| ==> Regular(ps[i].vault) && ps[i].shares > 0
    ensures TotalGross(ps) == TotalCurrentValue(ps) + UnmintedShares(ps) && UnmintedShares(ps) >= 0
    ensures TotalGross(ps) == TotalCurrentValue(ps) <==> forall i :: 0 <= i < |ps| ==> ps[i].vault.supply > 0
  {
    if ps != [] {
      var n := |ps| - 1;
      PreviewsExceedPortfolio(ps[..n]);
      assert ps == ps[..n] + [ps[n]];
    }
  }
}
