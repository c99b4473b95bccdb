/**
 * The stock classification on the parts inventory page: the three-way stock
 * status, the list filter and the two stock counters.
 */
module StockView {
  import Inventory

  /** The three values `getStockStatus` returns. */
  datatype StockStatus = OutOfStock | LowStock | InStock

  function StockStatusName(s: StockStatus): string {
    match s
    case OutOfStock => "out_of_stock"
    case LowStock => "low_stock"
    case InStock => "in_stock"
  }

  /** `getStockStatus`: none left, at or below the minimum, or in stock. */
  function GetStockStatus(current: int, min: int): (r: StockStatus)
    ensures r == OutOfStock <==> current == 0
    ensures r == InStock ==> current > min
  {
    if current == 0 then OutOfStock
    else if current <= min then LowStock
    else InStock
  }

  /** The classifier's three cases, each stated both ways. */
  lemma StockStatusCases(current: int, min: int)
    ensures GetStockStatus(current, min) == OutOfStock <==> current == 0
    ensures GetStockStatus(current, min) == LowStock <==> current != 0 && current <= min
    ensures GetStockStatus(current, min) == InStock <==> current != 0 && current > min
  {
  }

  /** For a non-negative minimum the page flags a part exactly when the model calls it low stock. */
  lemma AgreesWithIsLowStock(p: Inventory.Part)
    requires p.minStockLevel >= 0
    ensures GetStockStatus(p.stockQuantity, p.minStockLevel) != InStock <==> Inventory.IsLowStock(p)
  {
  }

  /** A card of the inventory page: the fields the filter and the counters read. */
  datatype PartRow = PartRow(
    name: string,
    partNumber: string,
    brand: string,
    category: string,
    stock: int,
    minStock: int)

  function RowStatus(p: PartRow): StockStatus {
    GetStockStatus(p.stock, p.minStock)
  }

  /** `toLowerCase` on ASCII letters; other characters are left as they are. */
  function Lower(s: string): (r: string)
    ensures |r| == |s|
  {
    seq(|s|, i requires 0 <= i < |s| => if 'A' <= s[i] <= 'Z' then (s[i] as int + 32) as char else s[i])
  }

  /** `String.prototype.includes`: `t` occurs in `s` at some position. */
  predicate Includes(s: string, t: string) {
    exists i | 0 <= i <= |s| - |t| :: OccursAt(s, t, i)
  }

  predicate OccursAt(s: string, t: string, i: int)
    requires 0 <= i <= |s| - |t|
  {
    s[i..i + |t|] == t
  }

  lemma IncludesEmpty(s: string)
    ensures Includes(s, "")
  {
    assert OccursAt(s, "", 0);
  }

  predicate MatchesSearch(p: PartRow, term: string) {
    Includes(Lower(p.name), Lower(term))
    || Includes(Lower(p.partNumber), Lower(term))
    || Includes(Lower(p.brand), Lower(term))
  }

  /** The predicate `filteredParts` keeps a card by; an empty filter string means "any". */
  predicate Matches(p: PartRow, term: string, category: string, status: string) {
    MatchesSearch(p, term)
    && (category == "" || p.category == category)
    && (status == "" || StockStatusName(RowStatus(p)) == status)
  }

  /** `filteredParts`. */
  function FilteredParts(parts: seq<PartRow>, term: string, category: string, status: string): (r: seq<PartRow>)
    ensures |r| <= |parts|
    ensures forall k :: 0 <= k < |r| ==> Matches(r[k], term, category, status)
    decreases |parts|
  {
    if parts == [] then []
    else if Matches(parts[0], term, category, status) then
      [parts[0]] + FilteredParts(parts[1..], term, category, status)
    else FilteredParts(parts[1..], term, category, status)
  }

  /** `xs` is `ys` with some elements dropped and the rest in their order. */
  predicate IsSubsequence<T(==)>(xs: seq<T>, ys: seq<T>)
    decreases |ys|
  {
    if xs == [] then true
    else if ys == [] then false
    else (xs[0] == ys[0] && IsSubsequence(xs[1..], ys[1..])) || IsSubsequence(xs, ys[1..])
  }

  /** The filtered list keeps the page's order and only drops cards. */
  lemma {:induction false} FilteredIsSubsequence(parts: seq<PartRow>, term: string, category: string, status: string)
    ensures IsSubsequence(FilteredParts(parts, term, category, status), parts)
    decreases |parts|
  {
    if parts != [] {
      FilteredIsSubsequence(parts[1..], term, category, status);
      var rest := FilteredParts(parts[1..], term, category, status);
      if Matches(parts[0], term, category, status) {
        assert ([parts[0]] + rest)[1..] == rest;
      } else if rest != [] {
        assert IsSubsequence(rest, parts[1..]);
      }
    }
  }

  /** A card is listed exactly when it is on the page and matches every filter. */
  lemma {:induction false} FilteredMembership(parts: seq<PartRow>, term: string, category: string, status: string, p: PartRow)
    ensures p in FilteredParts(parts, term, category, status) <==> p in parts && Matches(p, term, category, status)
    decreases |parts|
  {
    if parts != [] {
      FilteredMembership(parts[1..], term, category, status, p);
      assert parts == [parts[0]] + parts[1..];
    }
  }

  /**
   * A matching card is listed as many times as it is on the page, and a card
   * that does not match is not listed at all.
   */
  lemma {:induction false} FilteredCount(parts: seq<PartRow>, term: string, category: string, status: string, p: PartRow)
    ensures multiset(FilteredParts(parts, term, category, status))[p]
      == if Matches(p, term, category, status) then multiset(parts)[p] else 0
    decreases |parts|
  {
    if parts != [] {
      FilteredCount(parts[1..], term, category, status, p);
      assert parts == [parts[0]] + parts[1..];
    }
  }

  /** With no search term, no category and no status chosen, every card is listed. */
  lemma {:induction false} NoFilterKeepsAll(parts: seq<PartRow>)
    ensures FilteredParts(parts, "", "", "") == parts
    decreases |parts|
  {
    if parts != [] {
      IncludesEmpty(Lower(parts[0].name));
      assert Lower("") == "";
      NoFilterKeepsAll(parts[1..]);
      assert parts == [parts[0]] + parts[1..];
    }
  }

  /** How many cards have the given stock status (`filter(...).length`). */
  function CountStatus(parts: seq<PartRow>, s: StockStatus): (r: nat)
    ensures r <= |parts|
    ensures r == 0 <==> forall k :: 0 <= k < |parts| ==> RowStatus(parts[k]) != s
    decreases |parts|
  {
    if parts == [] then 0
    else (if RowStatus(parts[0]) == s then 1 else 0) + CountStatus(parts[1..], s)
  }

  function LowStockCount(parts: seq<PartRow>): (r: nat)
    ensures r <= |parts|
  {
    CountStatus(parts, LowStock)
  }

  function OutOfStockCount(parts: seq<PartRow>): (r: nat)
    ensures r <= |parts|
  {
    CountStatus(parts, OutOfStock)
  }

  /** Every card has exactly one status, so the three counts add up to the number of cards. */
  lemma {:induction false} CountsPartition(parts: seq<PartRow>)
    ensures CountStatus(parts, OutOfStock) + CountStatus(parts, LowStock) + CountStatus(parts, InStock) == |parts|
    decreases |parts|
  {
    if parts != [] {
      CountsPartition(parts[1..]);
    }
  }

  /** The low-stock and out-of-stock counters count disjoint sets of cards. */
  lemma CountersBounded(parts: seq<PartRow>)
    ensures LowStockCount(parts) + OutOfStockCount(parts) <= |parts|
  {
    CountsPartition(parts);
  }
}
