/** The `Part` model: a stocked part, its reorder threshold and its margin. */
module Inventory {

  /** A row of `parts` (the columns the core reads). */
  datatype Part = Part(
    name: string,
    costPrice: real,
    sellingPrice: real,
    stockQuantity: int,
    minStockLevel: int)

  /** `isLowStock`: the stock has fallen to the reorder threshold or below. */
  predicate IsLowStock(p: Part) {
    p.stockQuantity <= p.minStockLevel
  }

  /**
   * `getProfitMarginAttribute` in exact arithmetic: the markup over cost as a
   * percentage, and 0 when the cost price is not positive.
   */
  function ProfitMargin(p: Part): (r: real)
    ensures p.costPrice <= 0.0 ==> r == 0.0
    ensures p.costPrice > 0.0 ==> (r > 0.0 <==> p.sellingPrice > p.costPrice)
    ensures p.costPrice > 0.0 ==> (r == 0.0 <==> p.sellingPrice == p.costPrice)
  {
    if p.costPrice > 0.0 then
      MarginSign(p.sellingPrice - p.costPrice, p.costPrice);
      ((p.sellingPrice - p.costPrice) / p.costPrice) * 100.0
    else 0.0
  }

  /** Dividing by a positive cost and scaling by 100 keeps the sign of the difference. */
  lemma MarginSign(d: real, c: real)
    requires c > 0.0
    ensures (d / c) * 100.0 > 0.0 <==> d > 0.0
    ensures (d / c) * 100.0 == 0.0 <==> d == 0.0
  {
    if d > 0.0 {
      assert d / c > 0.0;
    } else if d < 0.0 {
      assert (-d) / c > 0.0;
      assert d / c == -((-d) / c);
    } else {
      assert d / c == 0.0;
    }
  }

  /** The part with its stock replaced. */
  function WithStock(p: Part, s: int): (r: Part)
    ensures r.stockQuantity == s && r.name == p.name && r.minStockLevel == p.minStockLevel
  {
    p.(stockQuantity := s)
  }

  /** Low stock is exactly `stock_quantity <= min_stock_level`; equality counts as low. */
  lemma LowStockExactly(p: Part)
    ensures IsLowStock(p) <==> p.stockQuantity <= p.minStockLevel
    ensures p.stockQuantity == p.minStockLevel ==> IsLowStock(p)
  {
  }

  /** Taking stock away never turns a low-stock part into one that is not low. */
  lemma LowStockMonotone(p: Part, s: int)
    requires s <= p.stockQuantity
    ensures IsLowStock(p) ==> IsLowStock(WithStock(p, s))
  {
  }

  /** With a non-negative threshold, a part with no stock is always low. */
  lemma EmptyIsLow(p: Part)
    requires p.minStockLevel >= 0 && p.stockQuantity == 0
    ensures IsLowStock(p)
  {
  }
}
