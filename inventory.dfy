/** The inventory screens of src/App.tsx: the stock list with its search box, the
    transaction list with its type filter and summary counts, and the mappings from
    status and type strings to badge classes and labels. */
module Inventory {

  import opened Wrappers
  import opened Seqs
  import opened Text

  datatype InventoryItem = InventoryItem(
    id: string,
    name: string,
    category: string,
    stock: int,
    minStock: int,
    price: int,
    location: string,
    status: string)

  datatype Transaction = Transaction(
    id: string,
    itemId: string,
    itemName: string,
    txType: string,
    quantity: int,
    unitPrice: int,
    total: int,
    date: string,
    time: string,
    operator: string,
    reference: string,
    reason: string)

  // ---------------------------------------------------------------------------
  // Status and type badges

  /** `getStockStatusClass`: "status-" followed by the status when it is `low` or `out`,
      and `normal` for every other string. */
  function StockStatusClass(status: string): (c: string)
    ensures c == "status-low" || c == "status-out" || c == "status-normal"
    ensures c == "status-low" <==> status == "low"
    ensures c == "status-out" <==> status == "out"
  {
    match status
    case "low" => "status-low"
    case "out" => "status-out"
    case "normal" => "status-normal"
    case _ => "status-normal"
  }

  /** `getStockStatusLabel`. */
  function StockStatusLabel(status: string): (l: string)
    ensures l == "低在庫" || l == "在庫切れ" || l == "正常"
    ensures l == "低在庫" <==> status == "low"
    ensures l == "在庫切れ" <==> status == "out"
  {
    match status
    case "low" => "低在庫"
    case "out" => "在庫切れ"
    case "normal" => "正常"
    case _ => "正常"
  }

  /** Any status outside the union is shown exactly as `normal` is, and a badge's class
      and label always agree. */
  lemma UnknownStatusIsNormal(status: string)
    ensures status != "low" && status != "out" ==>
              StockStatusClass(status) == StockStatusClass("normal")
              && StockStatusLabel(status) == StockStatusLabel("normal")
    ensures StockStatusClass(status) == "status-normal" <==> StockStatusLabel(status) == "正常"
  {
  }

  /** `getTransactionTypeClass`. */
  function TransactionTypeClass(txType: string): (c: string)
    ensures c == "tx-in" <==> txType == "入庫"
    ensures c == "tx-out" <==> txType == "出庫"
    ensures c == "tx-adjust" <==> txType == "調整"
    ensures c == "tx-other" <==> txType != "入庫" && txType != "出庫" && txType != "調整"
  {
    match txType
    case "入庫" => "tx-in"
    case "出庫" => "tx-out"
    case "調整" => "tx-adjust"
    case _ => "tx-other"
  }

  // ---------------------------------------------------------------------------
  // Search and filter

  /** The search predicate: the lower-cased name or id contains the lower-cased term. */
  function MatchesSearch(term: string): (matches: InventoryItem -> bool)
    ensures term == "" ==> forall item :: matches(item)
  {
    (item: InventoryItem) => Contains(Lower(item.name), Lower(term)) || Contains(Lower(item.id), Lower(term))
  }

  /** `filteredItems`. */
  function FilteredItems(items: seq<InventoryItem>, searchTerm: string): (r: seq<InventoryItem>)
    ensures |r| <= |items|
  {
    Filter(items, MatchesSearch(searchTerm))
  }

  /** The search keeps an item iff its name or id contains the term (case-insensitively
      for ASCII letters), keeps the list's order, and keeps everything for an empty term. */
  lemma FilteredItemsSpec(items: seq<InventoryItem>, searchTerm: string)
    ensures forall x :: x in FilteredItems(items, searchTerm) <==>
              x in items && (Contains(Lower(x.name), Lower(searchTerm)) || Contains(Lower(x.id), Lower(searchTerm)))
    ensures IsSubsequence(FilteredItems(items, searchTerm), items)
    ensures searchTerm == "" ==> FilteredItems(items, searchTerm) == items
  {
    FilterMembership(items, MatchesSearch(searchTerm));
    FilterIsSubsequence(items, MatchesSearch(searchTerm));
    if searchTerm == "" {
      forall x: InventoryItem
        ensures MatchesSearch(searchTerm)(x)
      {
        ContainsEmpty(Lower(x.name));
      }
      FilterAll(items, MatchesSearch(searchTerm));
    }
  }

  /** The transaction filter's predicate: the sentinel `all`, or an exact type match. */
  function Selects(transactionFilter: string): Transaction -> bool {
    (t: Transaction) => transactionFilter == "all" || t.txType == transactionFilter
  }

  /** `filteredTransactions`. */
  function FilteredTransactions(transactions: seq<Transaction>, transactionFilter: string): (r: seq<Transaction>)
    ensures |r| <= |transactions|
  {
    Filter(transactions, Selects(transactionFilter))
  }

  lemma FilteredTransactionsSpec(transactions: seq<Transaction>, transactionFilter: string)
    ensures transactionFilter == "all" ==> FilteredTransactions(transactions, transactionFilter) == transactions
    ensures transactionFilter != "all" ==>
              forall t :: t in FilteredTransactions(transactions, transactionFilter) <==>
                t in transactions && t.txType == transactionFilter
    ensures IsSubsequence(FilteredTransactions(transactions, transactionFilter), transactions)
  {
    if transactionFilter == "all" {
      FilterAll(transactions, Selects(transactionFilter));
    }
    FilterMembership(transactions, Selects(transactionFilter));
    FilterIsSubsequence(transactions, Selects(transactionFilter));
  }

  function OfType(txType: string): Transaction -> bool {
    (t: Transaction) => t.txType == txType
  }

  function OfEitherType(a: string, b: string): Transaction -> bool {
    (t: Transaction) => t.txType == a || t.txType == b
  }

  /** The summary's count of transactions of one type. */
  function TypeCount(transactions: seq<Transaction>, txType: string): (n: nat)
    ensures n <= |transactions|
  {
    |Filter(transactions, OfType(txType))|
  }

  /** Incoming and outgoing transactions are counted disjointly, so together they never
      exceed the number of transactions. */
  lemma InOutCountBounded(transactions: seq<Transaction>)
    ensures TypeCount(transactions, "入庫") + TypeCount(transactions, "出庫") <= |transactions|
  {
    FilterDisjointCount(transactions, OfType("入庫"), OfType("出庫"), OfEitherType("入庫", "出庫"));
  }

  // ---------------------------------------------------------------------------
  // Quantities and amounts

  /** `{quantity > 0 ? '+' : ''}{quantity}`. */
  function QuantityText(quantity: int): (s: string)
    ensures |s| >= 1
    ensures s[0] == '+' <==> quantity > 0
    ensures s[0] == '-' <==> quantity < 0
  {
    (if quantity > 0 then "+" else "") + IntToString(quantity)
  }

  /** The quantity shown reads back as the quantity: `parseInt` accepts the '+'. */
  lemma QuantityTextRoundTrip(quantity: int)
    ensures ParseInt(QuantityText(quantity)) == Some(quantity)
  {
    if quantity > 0 {
      assert QuantityText(quantity) == "+" + NatToDigits(quantity);
      ParsePlusSigned(quantity);
    } else {
      ParseIntRoundTrip(quantity);
    }
  }

  /** `qty-positive` only for quantities above zero; zero is styled as negative. */
  function QuantityClass(quantity: int): (c: string)
    ensures c == "qty-positive" <==> quantity > 0
    ensures c == "qty-positive" || c == "qty-negative"
  {
    if quantity > 0 then "qty-positive" else "qty-negative"
  }

  /** `Math.abs(total)`: the amount column shows the magnitude, the sign is carried by
      the class. */
  function AmountShown(total: int): (a: nat)
    ensures a == total || a == -total
  {
    if total < 0 then -total else total
  }

  function AmountClass(total: int): (c: string)
    ensures c == "amount-positive" <==> total > 0
  {
    if total > 0 then "amount-positive" else "amount-negative"
  }

  /** The class and the magnitude together determine the amount, except that zero and
      a negative amount share the `amount-negative` class. */
  lemma AmountRecoverable(total: int)
    ensures AmountClass(total) == "amount-positive" ==> AmountShown(total) == total
    ensures AmountClass(total) == "amount-negative" ==> AmountShown(total) == -total
  {
  }
}
