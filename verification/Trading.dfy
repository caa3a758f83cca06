/** Orders and their results, as they travel on the bus. */
module Trading {
  import opened Common

  datatype Side = Buy | Sell

  datatype Symbol = Symbol(base: string, quote: string)

  datatype Status = New | Filled | Rejected(reason: string)

  datatype Command = Command(id: string, symbol: Symbol, side: Side, sizeQuote: real, limitPrice: Option<real>) {
    /** An order without a limit price takes the synthetic market price. */
    predicate IsMarket() { limitPrice.None? }

    predicate IsPlain() { IsMarket() && sizeQuote >= 0.0 }
  }

  datatype Result = Result(commandId: string, symbol: Symbol, side: Side, status: Status,
                           filledSizeQuote: real, avgPrice: real)
  {
    /** The quote amount by which this result moves the net bought amount of its symbol. */
    function NetBought(): real {
      if !status.Filled? then 0.0
      else if side.Buy? then filledSizeQuote
      else -filledSizeQuote
    }
  }

  function Upper(c: char): char {
    if 'a' <= c <= 'z' then (c as int - 32) as char else c
  }

  /** `key` spells base followed by quote, every small ASCII letter as its capital. */
  predicate Names(key: string, symbol: Symbol) {
    var name := symbol.base + symbol.quote;
    && |key| == |name|
    && forall i :: 0 <= i < |name| ==>
         if 'a' <= name[i] <= 'z' then key[i] as int == name[i] as int - 32 else key[i] == name[i]
  }

  /** Equal, or the small and the capital form of one ASCII letter. */
  predicate SameLetter(a: char, b: char) {
    || a == b
    || ('a' <= a <= 'z' && b as int == a as int - 32)
    || ('a' <= b <= 'z' && a as int == b as int - 32)
  }

  /** Base followed by quote agree letter by letter, whatever the case and wherever the base ends. */
  predicate SameName(s: Symbol, t: Symbol) {
    var x, y := s.base + s.quote, t.base + t.quote;
    |x| == |y| && forall i :: 0 <= i < |x| ==> SameLetter(x[i], y[i])
  }

  /** The key under which both services file a symbol. */
  function SymbolKey(symbol: Symbol): (key: string)
    ensures Names(key, symbol)
  {
    var joined := symbol.base + symbol.quote;
    seq(|joined|, i requires 0 <= i < |joined| => Upper(joined[i]))
  }

  /** A symbol's name is one key and no other, and two symbols share it exactly when their names agree. */
  lemma KeyIsName(s: Symbol, t: Symbol, key: string)
    ensures Names(key, s) <==> key == SymbolKey(s)
    ensures SymbolKey(s) == SymbolKey(t) <==> SameName(s, t)
  {
    var x, y := s.base + s.quote, t.base + t.quote;
    if Names(key, s) {
      forall i | 0 <= i < |x| ensures key[i] == SymbolKey(s)[i] { SameUpper(x[i], x[i]); }
      assert key == SymbolKey(s);
    }
    if |x| == |y| {
      forall i | 0 <= i < |x| ensures SymbolKey(s)[i] == SymbolKey(t)[i] <==> SameLetter(x[i], y[i]) {
        SameUpper(x[i], y[i]);
      }
      if SameName(s, t) { assert SymbolKey(s) == SymbolKey(t); }
    }
  }

  lemma SameUpper(a: char, b: char)
    ensures Upper(a) == Upper(b) <==> SameLetter(a, b)
    ensures if 'a' <= a <= 'z' then Upper(a) as int == a as int - 32 else Upper(a) == a
  {
  }

  /** Net bought quote of one symbol over a sequence of results. */
  function NetFor(results: seq<Result>, key: string): real {
    if results == [] then 0.0
    else (if SymbolKey(results[0].symbol) == key then results[0].NetBought() else 0.0) + NetFor(results[1..], key)
  }

  /** Net bought quote over all symbols. */
  function Net(results: seq<Result>): real {
    if results == [] then 0.0 else results[0].NetBought() + Net(results[1..])
  }

  lemma {:induction false} NetAppend(a: seq<Result>, b: seq<Result>)
    ensures Net(a + b) == Net(a) + Net(b)
  {
    if a == [] {
      assert a + b == b;
    } else {
      assert (a + b)[1..] == a[1..] + b;
      NetAppend(a[1..], b);
    }
  }
}
