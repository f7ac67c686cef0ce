/** The final book of a whole run in numbers. */
module OrderTotals {
  import opened OrderFlow
  import opened OrderFlowTheorems

  /** What one order adds to one side of one symbol. */
  function Amount(p: nat, i: nat, symbol: string, isBuy: bool): nat {
    if Id(p, i).Symbol() == symbol && Id(p, i).IsBuy() == isBuy then Id(p, i).Quantity() else 0
  }

  /** What the first `n` orders of a producer add. */
  function SumTo(p: nat, n: nat, symbol: string, isBuy: bool): nat {
    if n == 0 then 0 else SumTo(p, n - 1, symbol, isBuy) + Amount(p, n - 1, symbol, isBuy)
  }

  lemma Periodic(p: nat, i: nat, symbol: string, isBuy: bool)
    ensures Amount(p, i + 30, symbol, isBuy) == Amount(p, i, symbol, isBuy) == Amount(p + 2, i, symbol, isBuy)
  {
    assert (i + 30) % 3 == i % 3 && (i + 30) % 10 == i % 10;
    assert (p + (i + 30)) % 2 == (p + i) % 2 == (p + 2 + i) % 2;
  }

  lemma {:induction false} SumShifts(p: nat, n: nat, symbol: string, isBuy: bool)
    ensures SumTo(p, n + 30, symbol, isBuy) == SumTo(p, 30, symbol, isBuy) + SumTo(p, n, symbol, isBuy)
    ensures SumTo(p + 2, n, symbol, isBuy) == SumTo(p, n, symbol, isBuy)
  {
    hide Amount;
    if n > 0 {
      SumShifts(p, n - 1, symbol, isBuy);
      Periodic(p, n - 1, symbol, isBuy);
    }
  }

  /** Thirty orders of a producer: each symbol gets 70 units on the side of the even indexes and 75 on the other. */
  function PerThirty(p: nat, isBuy: bool): nat {
    if (p % 2 == 0) == isBuy then 70 else 75
  }

  predicate IsSymbol(symbol: string) {
    symbol == "AAPL" || symbol == "GOOGL" || symbol == "MSFT"
  }

  /** The indexes of a symbol's orders, by their remainder. */
  function Remainder(symbol: string): nat {
    if symbol == "AAPL" then 0 else if symbol == "GOOGL" then 1 else 2
  }

  /** Which of six successive orders is of the symbol and on the side. */
  function Which(p: nat, r: nat, isBuy: bool): nat {
    if ((p + r) % 2 == 0) == isBuy then r else r + 3
  }

  lemma AmountOf(p: nat, h: nat, j: nat, symbol: string, isBuy: bool)
    requires IsSymbol(symbol) && j < 6
    ensures Amount(p, 6 * h + j, symbol, isBuy) == if j == Which(p, Remainder(symbol), isBuy) then 10 + Digit(h, j) else 0
  {
    SameRemainders(p, h, j);
    if j < 3 { assert j % 3 == j; } else { assert j % 3 == j - 3; }
  }

  lemma SameRemainders(p: nat, h: nat, j: nat)
    ensures (6 * h + j) % 3 == j % 3 && (p + (6 * h + j)) % 2 == (p + j) % 2
  {
  }

  /** The last digit of an index. */
  function Digit(h: nat, j: nat): nat {
    (6 * h + j) % 10
  }

  lemma Next(p: nat, n: nat, symbol: string, isBuy: bool)
    ensures SumTo(p, n + 1, symbol, isBuy) == SumTo(p, n, symbol, isBuy) + Amount(p, n, symbol, isBuy)
  {
  }

  lemma Six(p: nat, h: nat, symbol: string, isBuy: bool)
    requires IsSymbol(symbol)
    ensures SumTo(p, 6 * h + 6, symbol, isBuy)
            == SumTo(p, 6 * h, symbol, isBuy) + 10 + Digit(h, Which(p, Remainder(symbol), isBuy))
  {
    hide SumTo, Amount, IsSymbol, Digit;
    for j := 0 to 6
      invariant SumTo(p, 6 * h + j, symbol, isBuy) == SumTo(p, 6 * h, symbol, isBuy)
                + if j > Which(p, Remainder(symbol), isBuy) then 10 + Digit(h, Which(p, Remainder(symbol), isBuy)) else 0
    {
      Next(p, 6 * h + j, symbol, isBuy);
      AmountOf(p, h, j, symbol, isBuy);
    }
  }

  /** The last digits of five such orders are all the even ones or all the odd ones. */
  lemma LastDigits(d: nat)
    requires d < 6
    ensures Digit(0, d) + Digit(1, d) + Digit(2, d) + Digit(3, d) + Digit(4, d) == if d % 2 == 0 then 20 else 25
  {
    LastDigit(0, d, d);
    LastDigit(1, d, if d < 4 then d + 6 else d - 4);
    LastDigit(2, d, d + 2);
    LastDigit(3, d, if d < 2 then d + 8 else d - 2);
    LastDigit(4, d, d + 4);
    hide Digit;
  }

  lemma LastDigit(h: nat, d: nat, digit: nat)
    requires h < 5 && d < 6 && digit < 10
    requires 6 * h + d == digit || 6 * h + d == 10 + digit || 6 * h + d == 20 + digit
    ensures Digit(h, d) == digit
  {
  }

  lemma WhichParity(p: nat, r: nat, isBuy: bool)
    requires r < 3
    ensures Which(p, r, isBuy) < 6 && (Which(p, r, isBuy) % 2 == 0 <==> (p % 2 == 0) == isBuy)
  {
  }

  lemma FirstThirty(p: nat, symbol: string, isBuy: bool)
    requires IsSymbol(symbol) && p < 2
    ensures SumTo(p, 30, symbol, isBuy) == PerThirty(p, isBuy)
  {
    hide IsSymbol, Digit, Which;
    assert SumTo(p, 0, symbol, isBuy) == 0;
    hide SumTo;
    Six(p, 0, symbol, isBuy);
    Six(p, 1, symbol, isBuy);
    Six(p, 2, symbol, isBuy);
    Six(p, 3, symbol, isBuy);
    Six(p, 4, symbol, isBuy);
    WhichParity(p, Remainder(symbol), isBuy);
    LastDigits(Which(p, Remainder(symbol), isBuy));
  }

  lemma {:induction false} ThirtyEach(p: nat, symbol: string, isBuy: bool)
    requires IsSymbol(symbol)
    ensures SumTo(p, 30, symbol, isBuy) == PerThirty(p, isBuy)
  {
    if p < 2 {
      FirstThirty(p, symbol, isBuy);
    } else {
      ThirtyEach(p - 2, symbol, isBuy);
      SumShifts(p - 2, 30, symbol, isBuy);
    }
  }

  lemma {:induction false} Blocks(p: nat, k: nat, symbol: string, isBuy: bool)
    requires IsSymbol(symbol)
    ensures SumTo(p, 30 * k, symbol, isBuy) == k * PerThirty(p, isBuy)
  {
    if k > 0 {
      Blocks(p, k - 1, symbol, isBuy);
      SumShifts(p, 30 * (k - 1), symbol, isBuy);
      ThirtyEach(p, symbol, isBuy);
      OneMore(k - 1, PerThirty(p, isBuy));
    }
  }

  lemma {:induction false} QuantityOfOrders(p: nat, n: nat, symbol: string, isBuy: bool)
    ensures Quantity(OrdersOf(p, n), symbol, isBuy) == SumTo(p, n, symbol, isBuy)
  {
    if n > 0 {
      QuantityOfOrders(p, n - 1, symbol, isBuy);
      assert OrdersOf(p, n)[..|OrdersOf(p, n)| - 1] == OrdersOf(p, n - 1);
    }
  }

  lemma {:induction false} QuantityConcat(a: seq<Id>, b: seq<Id>, symbol: string, isBuy: bool)
    ensures Quantity(a + b, symbol, isBuy) == Quantity(a, symbol, isBuy) + Quantity(b, symbol, isBuy)
  {
    if b == [] {
      assert a + b == a;
    } else {
      QuantityConcat(a, b[..|b| - 1], symbol, isBuy);
      assert (a + b)[..|a + b| - 1] == a + b[..|b| - 1];
    }
  }

  function Evens(producers: nat): nat { (producers + 1) / 2 }

  function Odds(producers: nat): nat { producers / 2 }

  /** Thirty orders of every producer. */
  function AllThirties(producers: nat, isBuy: bool): nat {
    if isBuy then 70 * Evens(producers) + 75 * Odds(producers) else 75 * Evens(producers) + 70 * Odds(producers)
  }

  lemma OneProducerMore(p: nat, isBuy: bool)
    ensures AllThirties(p + 1, isBuy) == AllThirties(p, isBuy) + PerThirty(p, isBuy) && AllThirties(0, isBuy) == 0
  {
  }

  lemma {:induction false} QuantityOfAll(producers: nat, k: nat, symbol: string, isBuy: bool)
    requires IsSymbol(symbol)
    ensures Quantity(Catalogue(producers, 30 * k), symbol, isBuy)
            == k * AllThirties(producers, isBuy)
  {
    hide AllThirties, PerThirty, IsSymbol, SumTo;
    if producers == 0 {
      OneProducerMore(0, isBuy);
    } else {
      var p := producers - 1;
      QuantityOfAll(p, k, symbol, isBuy);
      QuantityConcat(Catalogue(p, 30 * k), OrdersOf(p, 30 * k), symbol, isBuy);
      QuantityOfOrders(p, 30 * k, symbol, isBuy);
      Blocks(p, k, symbol, isBuy);
      OneProducerMore(p, isBuy);
      Distributes(k, AllThirties(p, isBuy), PerThirty(p, isBuy));
    }
  }

  lemma Distributes(k: nat, a: nat, b: nat)
    ensures k * (a + b) == k * a + k * b
  {
  }

  /** What each of the three symbols has after `30 * k` orders of each producer. */
  function Share(producers: nat, k: nat): Totals {
    Totals(k * (70 * Evens(producers) + 75 * Odds(producers)), k * (75 * Evens(producers) + 70 * Odds(producers)))
  }

  lemma BookShare(producers: nat, k: nat, symbol: string)
    requires IsSymbol(symbol) && producers > 0 && k > 0
    ensures var book := BookOf(Catalogue(producers, 30 * k)); symbol in book && book[symbol] == Share(producers, k)
  {
    hide Catalogue, Quantity, BookOf;
    BookSums(Catalogue(producers, 30 * k), symbol);
    QuantityOfAll(producers, k, symbol, true);
    QuantityOfAll(producers, k, symbol, false);
    Positive(k, 70 * Evens(producers) + 75 * Odds(producers));
  }

  lemma Positive(k: nat, a: nat)
    requires k > 0 && a > 0
    ensures k * a > 0
  {
  }

  /** Thirty orders a producer, or any multiple: when a consumer leaves, each of the three symbols has 70 units bought
      and 75 sold for every thirty orders of a producer with an even number, and the other way round for an odd one. */
  lemma FinalTotals(s: State, c: nat, k: nat, symbol: string)
    requires Inv(s) && c < |s.consumers| && s.consumers[c].Left? && IsSymbol(symbol)
    requires s.perProducer == 30 * k && k > 0 && s.next != []
    ensures symbol in s.book && s.book[symbol] == Share(|s.next|, k)
  {
    hide Inv, Catalogue, BookOf, Share, IsSymbol, AllDone, OrderNumbers;
    LeavingMeansDone(s, c);
    BookShare(|s.next|, k, symbol);
  }
}
