/** Migration 059: the initial buy and sell entries of market-priced holdings. Units and prices
    per unit are in millionths, totals in cents. */
module AssetLedger {
  import opened Wrappers

  /** A millionth of a unit times a millionth of a currency unit, per cent. */
  const SCALE := 10_000_000_000

  // ---------- Rounding ----------

  /** The quotient rounded to the nearest integer, halves away from zero, as SQL does. */
  function Round(n: int, d: int): int
    requires d > 0
  {
    if n >= 0 then (2 * n + d) / (2 * d) else -((2 * -n + d) / (2 * d))
  }

  lemma QuotientBounds(n: int, d: int)
    requires d > 0
    ensures d * (n / d) <= n < d * (n / d) + d
  {
  }

  /** Rounding errs by at most half the divisor. */
  lemma RoundError(n: int, d: int)
    requires d > 0
    ensures -d <= 2 * (d * Round(n, d) - n) <= d
  {
    var m := if n >= 0 then n else -n;
    QuotientBounds(2 * m + d, 2 * d);
    var q := (2 * m + d) / (2 * d);
    assert (2 * d) * q == 2 * (d * q);
    assert d * -q == -(d * q);
  }

  /** The only integer within less than half the divisor is the rounded one. */
  lemma RoundIsNearest(n: int, d: int, k: int)
    requires d > 0 && -d < 2 * (d * k - n) < d
    ensures Round(n, d) == k
  {
    RoundError(n, d);
    var gap := Round(n, d) - k;
    assert d * gap == d * Round(n, d) - d * k;
    SmallMultiple(d, gap);
  }

  lemma SmallMultiple(d: int, k: int)
    requires -d < d * k < d
    ensures k == 0
  {
    assert k >= 1 && d > 0 ==> d * k >= d;
    assert k <= -1 && d > 0 ==> d * k <= -d;
  }

  // ---------- Prices per unit, and totals read back from the ledger ----------

  /** The total per unit, to six decimals. */
  function PricePerUnit(total: int, units: int): int
    requires units > 0
  {
    Round(total * SCALE, units)
  }

  /** Quantity times price, rounded to cents. */
  function TotalInCents(quantity: int, price: int): int {
    Round(quantity * price, SCALE)
  }

  /** Quantity times the stored price misses the total by at most half a millionth per unit. */
  lemma PriceErrorPerUnit(total: int, units: int)
    requires units > 0
    ensures -units <= 2 * (units * PricePerUnit(total, units) - total * SCALE) <= units
  {
    RoundError(total * SCALE, units);
  }

  /** The stored price is the nearest number of millionths; from halfway it goes away from zero. */
  lemma PriceIsNearest(total: int, units: int)
    requires units > 0
    ensures var error := 2 * (units * PricePerUnit(total, units) - total * SCALE);
            if total >= 0 then -units < error <= units else -units <= error < units
    ensures SCALE == 1_000_000 * 1_000_000 / 100
  {
    var n := total * SCALE;
    var m := if n >= 0 then n else -n;
    QuotientBounds(2 * m + units, 2 * units);
    var q := (2 * m + units) / (2 * units);
    assert (2 * units) * q == 2 * (units * q);
    assert units * -q == -(units * q);
  }

  /** Up to ten thousand units the total is recovered to the cent. */
  lemma TotalIsRecovered(total: int, units: int)
    requires 0 < units <= SCALE
    ensures TotalInCents(units, PricePerUnit(total, units)) == total
  {
    var price := PricePerUnit(total, units);
    if units == SCALE {
      assert -units < 2 * (units * total - total * SCALE) < units;
      RoundIsNearest(total * SCALE, units, total);
      assert units * price == SCALE * total;
      RoundIsNearest(units * price, SCALE, total);
    } else {
      PriceErrorPerUnit(total, units);
      RoundIsNearest(units * price, SCALE, total);
    }
  }

  /** Two totals that get the same price per unit, for a holding that is too large. */
  lemma SharedPrice(units: int) returns (q: int)
    requires units > SCALE
    ensures PricePerUnit(q, units) == q && PricePerUnit(q + 1, units) == q
  {
    var excess := units - SCALE;
    q := units / (2 * excess);
    QuotientBounds(units, 2 * excess);
    assert units * q == SCALE * q + excess * q;
    assert (2 * excess) * q == 2 * (excess * q);
    RoundIsNearest((q + 1) * SCALE, units, q);
    if 2 * (excess * q) < units {
      RoundIsNearest(q * SCALE, units, q);
    } else {
      HalfRoundsUp(q * SCALE, units, q);
    }
  }

  lemma HalfRoundsUp(n: int, d: int, k: int)
    requires d > 0 && n >= 0 && 2 * n + d == 2 * (d * k)
    ensures Round(n, d) == k
  {
    QuotientBounds(2 * n + d, 2 * d);
    var gap := (2 * n + d) / (2 * d) - k;
    assert (2 * d) * gap == (2 * d) * ((2 * n + d) / (2 * d)) - 2 * (d * k);
    SmallMultiple(2 * d, gap);
  }

  /** Exactly which holdings recover whatever total was paid: those of at most ten thousand units. */
  lemma RecoveryThreshold(units: int)
    requires units > 0
    ensures (forall total :: TotalInCents(units, PricePerUnit(total, units)) == total) <==> units <= SCALE
  {
    if units <= SCALE {
      forall total ensures TotalInCents(units, PricePerUnit(total, units)) == total {
        TotalIsRecovered(total, units);
      }
    } else {
      var q := SharedPrice(units);
      assert TotalInCents(units, PricePerUnit(q, units)) == TotalInCents(units, PricePerUnit(q + 1, units));
    }
  }

  /** One millionth of a unit more than ten thousand, and a total of fifty million is off by a cent. */
  lemma TotalIsLostExample()
    ensures TotalInCents(SCALE + 1, PricePerUnit(5_000_000_000, SCALE + 1)) == 5_000_000_001
  {
    var total, units := 5_000_000_000, SCALE + 1;
    assert PricePerUnit(total, units) == 5_000_000_000 by {
      RoundIsNearest(total * SCALE, units, total);
    }
  }

  // ---------- The tables ----------

  type Id = nat

  datatype Asset = Asset(
    id: Id, valuation: string, units: Option<int>, purchasePrice: Option<int>, purchaseDate: Option<int>,
    sellPrice: Option<int>, sellDate: Option<int>, averagePrice: Option<int>, realizedGain: Option<int>)

  datatype Kind = Buy | Sell

  datatype Entry = Entry(asset: Id, kind: Kind, quantity: int, price: int, date: int)

  predicate IsMarketPriced(a: Asset) {
    a.valuation == "market_price"
  }

  predicate HasUnits(a: Asset) {
    IsMarketPriced(a) && a.units.Some? && a.units.value > 0
  }

  predicate Bought(a: Asset) {
    HasUnits(a) && a.purchasePrice.Some?
  }

  predicate Sold(a: Asset) {
    HasUnits(a) && a.sellPrice.Some? && a.sellDate.Some?
  }

  function BuyEntry(a: Asset, today: int): Entry
    requires Bought(a)
  {
    Entry(a.id, Buy, a.units.value, PricePerUnit(a.purchasePrice.value, a.units.value),
          if a.purchaseDate.Some? then a.purchaseDate.value else today)
  }

  function SellEntry(a: Asset): Entry
    requires Sold(a)
  {
    Entry(a.id, Sell, a.units.value, PricePerUnit(a.sellPrice.value, a.units.value), a.sellDate.value)
  }

  function BuyEntries(assets: seq<Asset>, today: int): seq<Entry> {
    if assets == [] then []
    else (if Bought(assets[0]) then [BuyEntry(assets[0], today)] else []) + BuyEntries(assets[1..], today)
  }

  function SellEntries(assets: seq<Asset>): seq<Entry> {
    if assets == [] then []
    else (if Sold(assets[0]) then [SellEntry(assets[0])] else []) + SellEntries(assets[1..])
  }

  /** The cached columns, filled by two statements. */
  function Cached(a: Asset): Asset {
    var priced := if Bought(a) then a.(averagePrice := Some(PricePerUnit(a.purchasePrice.value, a.units.value))) else a;
    if IsMarketPriced(a) && a.sellPrice.Some? && a.purchasePrice.Some?
    then priced.(realizedGain := Some(a.sellPrice.value - a.purchasePrice.value)) else priced
  }

  // ---------- What the ledger says about a holding ----------

  ghost predicate DistinctIds(assets: seq<Asset>) {
    forall i, j :: 0 <= i < j < |assets| ==> assets[i].id != assets[j].id
  }

  /** Units bought less units sold. */
  function NetQuantity(entries: seq<Entry>, asset: Id): int {
    if entries == [] then 0
    else
      (if entries[0].asset != asset then 0
       else if entries[0].kind == Buy then entries[0].quantity else -entries[0].quantity)
      + NetQuantity(entries[1..], asset)
  }

  lemma {:induction false} NetQuantityAppend(a: seq<Entry>, b: seq<Entry>, asset: Id)
    ensures NetQuantity(a + b, asset) == NetQuantity(a, asset) + NetQuantity(b, asset)
  {
    if a == [] {
      assert a + b == b;
    } else {
      assert (a + b)[1..] == a[1..] + b;
      NetQuantityAppend(a[1..], b, asset);
    }
  }

  lemma {:induction false} NoEntries(assets: seq<Asset>, today: int, asset: Id)
    requires forall i :: 0 <= i < |assets| ==> assets[i].id != asset
    ensures NetQuantity(BuyEntries(assets, today), asset) == 0
    ensures NetQuantity(SellEntries(assets), asset) == 0
  {
    if assets != [] {
      NoEntries(assets[1..], today, asset);
      var first := if Bought(assets[0]) then [BuyEntry(assets[0], today)] else [];
      NetQuantityAppend(first, BuyEntries(assets[1..], today), asset);
      NetQuantityAppend(if Sold(assets[0]) then [SellEntry(assets[0])] else [], SellEntries(assets[1..]), asset);
    }
  }

  lemma {:induction false} EntriesOf(assets: seq<Asset>, today: int, k: nat)
    requires DistinctIds(assets) && k < |assets|
    ensures NetQuantity(BuyEntries(assets, today), assets[k].id)
         == if Bought(assets[k]) then assets[k].units.value else 0
    ensures NetQuantity(SellEntries(assets), assets[k].id) == if Sold(assets[k]) then -assets[k].units.value else 0
  {
    var a, rest := assets[0], assets[1..];
    var id := assets[k].id;
    assert forall i :: 0 <= i < |rest| ==> rest[i] == assets[i + 1];
    NetQuantityAppend(if Bought(a) then [BuyEntry(a, today)] else [], BuyEntries(rest, today), id);
    NetQuantityAppend(if Sold(a) then [SellEntry(a)] else [], SellEntries(rest), id);
    if k == 0 {
      NoEntries(rest, today, id);
    } else {
      EntriesOf(rest, today, k - 1);
    }
  }

  /** How many entries of one kind the ledger has for a holding. */
  function Count(entries: seq<Entry>, asset: Id, kind: Kind): nat {
    if entries == [] then 0
    else (if entries[0].asset == asset && entries[0].kind == kind then 1 else 0) + Count(entries[1..], asset, kind)
  }

  lemma {:induction false} CountAppend(a: seq<Entry>, b: seq<Entry>, asset: Id, kind: Kind)
    ensures Count(a + b, asset, kind) == Count(a, asset, kind) + Count(b, asset, kind)
  {
    if a == [] {
      assert a + b == b;
    } else {
      assert (a + b)[1..] == a[1..] + b;
      CountAppend(a[1..], b, asset, kind);
    }
  }

  /** The ledger after the migration. */
  function Backfilled(assets: seq<Asset>, today: int): seq<Entry> {
    BuyEntries(assets, today) + SellEntries(assets)
  }

  /** Every entry is some holding's buy or sell entry. */
  lemma {:induction false} EveryEntryHasItsHolding(assets: seq<Asset>, today: int, e: Entry)
    requires e in Backfilled(assets, today)
    ensures exists i :: 0 <= i < |assets|
              && ((Bought(assets[i]) && e == BuyEntry(assets[i], today))
                  || (Sold(assets[i]) && e == SellEntry(assets[i])))
  {
    if e in BuyEntries(assets, today) {
      BuyHasItsHolding(assets, today, e);
    } else {
      SellHasItsHolding(assets, e);
    }
  }

  lemma {:induction false} BuyHasItsHolding(assets: seq<Asset>, today: int, e: Entry)
    requires e in BuyEntries(assets, today)
    ensures exists i :: 0 <= i < |assets| && Bought(assets[i]) && e == BuyEntry(assets[i], today)
  {
    if e in BuyEntries(assets[1..], today) {
      BuyHasItsHolding(assets[1..], today, e);
      var i :| 0 <= i < |assets| - 1 && Bought(assets[1..][i]) && e == BuyEntry(assets[1..][i], today);
      assert assets[i + 1] == assets[1..][i];
    } else {
      assert e == BuyEntry(assets[0], today);
    }
  }

  lemma {:induction false} SellHasItsHolding(assets: seq<Asset>, e: Entry)
    requires e in SellEntries(assets)
    ensures exists i :: 0 <= i < |assets| && Sold(assets[i]) && e == SellEntry(assets[i])
  {
    if e in SellEntries(assets[1..]) {
      SellHasItsHolding(assets[1..], e);
      var i :| 0 <= i < |assets| - 1 && Sold(assets[1..][i]) && e == SellEntry(assets[1..][i]);
      assert assets[i + 1] == assets[1..][i];
    } else {
      assert e == SellEntry(assets[0]);
    }
  }

  /** The entries of a kind counted over a list of holdings with ids of their own. */
  lemma {:induction false} CountPerKind(assets: seq<Asset>, today: int, asset: Id, kind: Kind)
    requires DistinctIds(assets)
    ensures Count(BuyEntries(assets, today), asset, kind)
         == if kind == Buy && exists i :: 0 <= i < |assets| && assets[i].id == asset && Bought(assets[i])
            then 1 else 0
    ensures Count(SellEntries(assets), asset, kind)
         == if kind == Sell && exists i :: 0 <= i < |assets| && assets[i].id == asset && Sold(assets[i])
            then 1 else 0
  {
    if assets != [] {
      var a, rest := assets[0], assets[1..];
      assert forall i :: 0 <= i < |rest| ==> rest[i] == assets[i + 1];
      CountPerKind(rest, today, asset, kind);
      CountAppend(if Bought(a) then [BuyEntry(a, today)] else [], BuyEntries(rest, today), asset, kind);
      CountAppend(if Sold(a) then [SellEntry(a)] else [], SellEntries(rest), asset, kind);
      assert forall i :: 1 <= i < |assets| ==> assets[i] == rest[i - 1];
    }
  }

  /** One buy for each holding bought and one sell for each holding sold, with their quantity,
      price and date; no other entry, and none for anything that is not a holding. */
  lemma OneEntryPerHolding(assets: seq<Asset>, today: int, k: nat)
    requires DistinctIds(assets) && k < |assets|
    ensures Count(Backfilled(assets, today), assets[k].id, Buy) == if Bought(assets[k]) then 1 else 0
    ensures Count(Backfilled(assets, today), assets[k].id, Sell) == if Sold(assets[k]) then 1 else 0
    ensures forall e :: e in Backfilled(assets, today) && e.asset == assets[k].id ==>
              (Bought(assets[k]) && e == BuyEntry(assets[k], today)) || (Sold(assets[k]) && e == SellEntry(assets[k]))
    ensures forall e :: e in Backfilled(assets, today) ==> exists i :: 0 <= i < |assets| && assets[i].id == e.asset
  {
    var id := assets[k].id;
    CountPerKind(assets, today, id, Buy);
    CountPerKind(assets, today, id, Sell);
    CountAppend(BuyEntries(assets, today), SellEntries(assets), id, Buy);
    CountAppend(BuyEntries(assets, today), SellEntries(assets), id, Sell);
    forall e | e in Backfilled(assets, today)
      ensures e.asset == id ==>
                || (Bought(assets[k]) && e == BuyEntry(assets[k], today))
                || (Sold(assets[k]) && e == SellEntry(assets[k]))
      ensures exists i :: 0 <= i < |assets| && assets[i].id == e.asset
    {
      EveryEntryHasItsHolding(assets, today, e);
    }
  }

  /** The ledger holds exactly the units of a holding that was bought and not sold, and nothing
      of one that has both entries. */
  lemma LedgerNetsOut(assets: seq<Asset>, today: int, k: nat)
    requires DistinctIds(assets) && k < |assets|
    ensures NetQuantity(Backfilled(assets, today), assets[k].id)
         == (if Bought(assets[k]) then assets[k].units.value else 0)
          - (if Sold(assets[k]) then assets[k].units.value else 0)
  {
    EntriesOf(assets, today, k);
    NetQuantityAppend(BuyEntries(assets, today), SellEntries(assets), assets[k].id);
  }

  /** Up to ten thousand units, purchase price, sell price and the cached realized gain can all be
      read back from the two entries exactly. */
  lemma GainIsRecovered(a: Asset, today: int)
    requires Bought(a) && Sold(a) && a.units.value <= SCALE
    ensures TotalInCents(BuyEntry(a, today).quantity, BuyEntry(a, today).price) == a.purchasePrice.value
    ensures TotalInCents(SellEntry(a).quantity, SellEntry(a).price) == a.sellPrice.value
    ensures Cached(a).realizedGain ==
              Some(TotalInCents(SellEntry(a).quantity, SellEntry(a).price)
                 - TotalInCents(BuyEntry(a, today).quantity, BuyEntry(a, today).price))
    ensures Cached(a).averagePrice == Some(BuyEntry(a, today).price)
  {
    TotalIsRecovered(a.purchasePrice.value, a.units.value);
    TotalIsRecovered(a.sellPrice.value, a.units.value);
  }

  // ---------- In terms of the columns alone ----------

  /** A market-priced holding of some units, with what the first insert asks for. */
  ghost predicate HasBuy(a: Asset, units: int, total: int) {
    a.valuation == "market_price" && a.units == Some(units) && units > 0 && a.purchasePrice == Some(total)
  }

  /** Likewise for the second insert. */
  ghost predicate HasSell(a: Asset, units: int, total: int, date: int) {
    && a.valuation == "market_price" && a.units == Some(units) && units > 0
    && a.sellPrice == Some(total) && a.sellDate == Some(date)
  }

  /** The price per unit nearest to `total / units`, ties away from zero. */
  ghost predicate IsPrice(price: int, total: int, units: int) {
    var error := 2 * (units * price - total * 10_000_000_000);
    if total >= 0 then -units < error <= units else -units <= error < units
  }

  ghost predicate IsBuy(e: Entry, a: Asset, units: int, total: int, today: int) {
    && e.asset == a.id && e.kind == Buy && e.quantity == units && IsPrice(e.price, total, units)
    && (a.purchaseDate == Some(e.date) || (a.purchaseDate == None && e.date == today))
  }

  ghost predicate IsSell(e: Entry, a: Asset, units: int, total: int, date: int) {
    e.asset == a.id && e.kind == Sell && e.quantity == units && IsPrice(e.price, total, units) && e.date == date
  }

  lemma EntriesMeaning(a: Asset, today: int)
    ensures Bought(a) <==> exists units, total :: HasBuy(a, units, total)
    ensures Sold(a) <==> exists units, total, date :: HasSell(a, units, total, date)
    ensures forall units, total :: HasBuy(a, units, total) ==>
              Bought(a) && IsBuy(BuyEntry(a, today), a, units, total, today)
    ensures forall units, total, date :: HasSell(a, units, total, date) ==>
              Sold(a) && IsSell(SellEntry(a), a, units, total, date)
  {
    if Bought(a) {
      assert HasBuy(a, a.units.value, a.purchasePrice.value);
      PriceIsNearest(a.purchasePrice.value, a.units.value);
    }
    if Sold(a) {
      assert HasSell(a, a.units.value, a.sellPrice.value, a.sellDate.value);
      PriceIsNearest(a.sellPrice.value, a.units.value);
    }
  }

  /** The ledger in the table's own terms: which holdings get a buy and a sell, and what is in them. */
  lemma LedgerExactly(assets: seq<Asset>, today: int, k: nat)
    requires DistinctIds(assets) && k < |assets|
    ensures var a, entries := assets[k], Backfilled(assets, today);
            && Count(entries, a.id, Buy) == (if exists units, total :: HasBuy(a, units, total) then 1 else 0)
            && Count(entries, a.id, Sell) ==
                 (if exists units, total, date :: HasSell(a, units, total, date) then 1 else 0)
            && (forall e :: e in entries && e.asset == a.id ==>
                  || (exists units, total :: HasBuy(a, units, total) && IsBuy(e, a, units, total, today))
                  || (exists units, total, date :: HasSell(a, units, total, date) && IsSell(e, a, units, total, date)))
  {
    hide HasBuy, HasSell, IsBuy, IsSell, BuyEntry, SellEntry, Backfilled, Bought, Sold;
    EntriesMeaning(assets[k], today);
    OneEntryPerHolding(assets, today, k);
    forall e | e in Backfilled(assets, today) && e.asset == assets[k].id
      ensures || (exists units, total :: HasBuy(assets[k], units, total) && IsBuy(e, assets[k], units, total, today))
              || (exists units, total, date ::
                    HasSell(assets[k], units, total, date) && IsSell(e, assets[k], units, total, date))
    {
    }
  }

  /** The cached columns: the average price where there is a buy, the gain of a market-priced holding
      where both totals are known, and everything else as it was. */
  lemma CachedExactly(a: Asset)
    ensures var after := Cached(a);
            && after == a.(averagePrice := after.averagePrice, realizedGain := after.realizedGain)
            && (if a.valuation == "market_price" && a.units.Some? && a.units.value > 0 && a.purchasePrice.Some?
                then after.averagePrice.Some?
                     && IsPrice(after.averagePrice.value, a.purchasePrice.value, a.units.value)
                else after.averagePrice == a.averagePrice)
            && (if a.valuation == "market_price" && a.sellPrice.Some? && a.purchasePrice.Some?
                then after.realizedGain == Some(a.sellPrice.value - a.purchasePrice.value)
                else after.realizedGain == a.realizedGain)
  {
    if Bought(a) {
      PriceIsNearest(a.purchasePrice.value, a.units.value);
    }
  }

  // ---------- The migration ----------

  class Portfolio {
    var assets: seq<Asset>
    /** The ledger table, which the migration has just created. */
    var entries: seq<Entry>

    method Upgrade(today: int)
      requires entries == []
      modifies this
      ensures entries == Backfilled(old(assets), today)
      ensures DistinctIds(old(assets)) ==> forall k :: 0 <= k < |old(assets)| ==>
                && Count(entries, old(assets)[k].id, Buy) == (if Bought(old(assets)[k]) then 1 else 0)
                && Count(entries, old(assets)[k].id, Sell) == (if Sold(old(assets)[k]) then 1 else 0)
      ensures |assets| == |old(assets)| && forall i :: 0 <= i < |assets| ==> assets[i] == Cached(old(assets)[i])
    {
      if DistinctIds(assets) {
        forall k | 0 <= k < |assets|
          ensures Count(Backfilled(assets, today), assets[k].id, Buy) == if Bought(assets[k]) then 1 else 0
          ensures Count(Backfilled(assets, today), assets[k].id, Sell) == if Sold(assets[k]) then 1 else 0
        {
          OneEntryPerHolding(assets, today, k);
        }
      }
      entries := entries + BuyEntries(assets, today);
      entries := entries + SellEntries(assets);
      assets := seq(|assets|, i requires 0 <= i < |assets| reads this => Cached(assets[i]));
    }
  }
}
