/** The two scheduled jobs: fetch, compose, then send the digest to every
    group in turn. The fetches are parameters: a price snapshot or None when
    the price request failed, the index or None, the quote of the day or
    None, and the quote log file as it is on disk. */
module Bot {
  import opened Wrappers
  import opened Text
  import opened Market
  import opened Digest
  import opened QuoteLog
  import opened Base64
  import opened Command
  import opened Numeral

  /** The groups both digests go to. */
  const GroupJids: seq<string> := ["120363399532849287@g.us"]

  /** Sends `text` to each target in turn. `accepted[i]` says whether the
      i-th send succeeds (a missing outcome counts as a failure); the first
      failure ends the job, so the targets after it get nothing. */
  function Broadcast(targets: seq<string>, accepted: seq<bool>, text: string): seq<Reply>
  {
    if |targets| == 0 || |accepted| == 0 || !accepted[0] then []
    else [Reply(targets[0], text)] + Broadcast(targets[1..], accepted[1..], text)
  }

  /** Every target's send succeeds. */
  ghost predicate AllAccepted(targets: seq<string>, accepted: seq<bool>) {
    |targets| <= |accepted| && forall i :: 0 <= i < |targets| ==> accepted[i]
  }

  lemma AllAcceptedCons(targets: seq<string>, accepted: seq<bool>)
    requires |targets| > 0
    ensures AllAccepted(targets, accepted) <==>
              |accepted| > 0 && accepted[0] && AllAccepted(targets[1..], accepted[1..])
  {
    if |accepted| > 0 && accepted[0] && AllAccepted(targets[1..], accepted[1..]) {
      forall i | 0 < i < |targets| ensures accepted[i] {
        assert accepted[1..][i - 1] == accepted[i];
      }
    }
    if AllAccepted(targets, accepted) {
      forall i | 0 <= i < |targets| - 1 ensures accepted[1..][i] {
        assert accepted[1..][i] == accepted[i + 1];
      }
    }
  }

  /** What is delivered is the text, to the first targets in order, each of
      whose sends succeeded; delivery stops only at the last target or at the
      first send that fails. */
  lemma {:induction false} BroadcastPrefix(targets: seq<string>, accepted: seq<bool>, text: string)
    ensures var sent := Broadcast(targets, accepted, text);
      && |sent| <= |targets| && |sent| <= |accepted|
      && (forall i :: 0 <= i < |sent| ==> sent[i] == Reply(targets[i], text) && accepted[i])
      && (|sent| < |targets| ==> |sent| == |accepted| || !accepted[|sent|])
  {
    if |targets| > 0 && |accepted| > 0 && accepted[0] {
      BroadcastPrefix(targets[1..], accepted[1..], text);
      var rest := Broadcast(targets[1..], accepted[1..], text);
      var sent := Broadcast(targets, accepted, text);
      assert sent == [Reply(targets[0], text)] + rest;
      forall i | 0 < i < |sent| ensures sent[i] == Reply(targets[i], text) && accepted[i] {
        assert sent[i] == rest[i - 1] && targets[i] == targets[1..][i - 1] && accepted[i] == accepted[1..][i - 1];
      }
    }
  }

  /** A target whose send and every earlier send succeed gets the text. */
  lemma BroadcastReaches(targets: seq<string>, accepted: seq<bool>, text: string, i: nat)
    requires i < |targets| && i < |accepted|
    requires forall j :: 0 <= j <= i ==> accepted[j]
    ensures i < |Broadcast(targets, accepted, text)|
    ensures Broadcast(targets, accepted, text)[i] == Reply(targets[i], text)
  {
    BroadcastPrefix(targets, accepted, text);
  }

  /** Every target gets the text exactly when every send succeeds. */
  lemma {:induction false} BroadcastReachesAll(targets: seq<string>, accepted: seq<bool>, text: string)
    ensures |Broadcast(targets, accepted, text)| == |targets| <==> AllAccepted(targets, accepted)
  {
    if |targets| > 0 {
      AllAcceptedCons(targets, accepted);
      if |accepted| > 0 && accepted[0] {
        BroadcastReachesAll(targets[1..], accepted[1..], text);
      }
    }
  }

  /** One run of a job: the digest text, the messages delivered and the
      quote log file afterwards. */
  datatype Tick = Tick(text: string, sent: seq<Reply>, file: Option<string>)

  /** The morning job. The quote is chosen (and its hash logged) before any
      message is sent, so the log written is the selection's. */
  function MorningTick(prices: Option<Snapshot>, fng: Option<FearGreed>, fetched: Option<RawQuote>,
                       file: Option<string>, date: string, accepted: seq<bool>): (t: Tick)
    ensures IsPrefix(Sun + " *Good Morning*\n\n", t.text)
    ensures t.text == Compose(FetchPrices(prices), fng, Morning(date, SelectQuote(fetched, file).quote))
    ensures t.file == SelectQuote(fetched, file).file
    ensures t.sent == Broadcast(GroupJids, accepted, t.text)
  {
    var s := SelectQuote(fetched, file);
    var text := Compose(FetchPrices(prices), fng, Morning(date, s.quote));
    Tick(text, Broadcast(GroupJids, accepted, text), s.file)
  }

  /** The morning digest ends with the chosen quote under its header, or
      with the date stamp when no quote was chosen. */
  lemma MorningEnds(prices: Option<Snapshot>, fng: Option<FearGreed>, fetched: Option<RawQuote>,
                    file: Option<string>, date: string, accepted: seq<bool>)
    ensures var t := MorningTick(prices, fng, fetched, file, date, accepted);
      var s := SelectQuote(fetched, file);
      && (s.quote.Some? ==> IsSuffix(QuoteHeader + s.quote.value, t.text))
      && (s.quote.None? ==> IsSuffix("\n\U{1F4C5} " + date, t.text))
  {
    var s := SelectQuote(fetched, file);
    if s.quote.Some? {
      assert s.quote.value == FormatQuote(fetched.value);
      assert s.quote.value != [];
    }
  }

  /** The evening job; it never reads or writes the quote log. */
  function EveningTick(prices: Option<Snapshot>, fng: Option<FearGreed>, file: Option<string>, accepted: seq<bool>): (t: Tick)
    ensures IsPrefix(Dusk, t.text) && IsSuffix(AttributionText, t.text)
    ensures t.text == Compose(FetchPrices(prices), fng, Evening)
    ensures t.sent == Broadcast(GroupJids, accepted, t.text)
    ensures t.file == file
  {
    var text := Compose(FetchPrices(prices), fng, Evening);
    Tick(text, Broadcast(GroupJids, accepted, text), file)
  }

  /** A quote is spent once chosen, whether or not any send succeeds: the
      log left behind does not depend on delivery, and a fresh quote's hash
      is in it. */
  lemma QuoteSpentWhateverDelivery(prices: Option<Snapshot>, fng: Option<FearGreed>, q: RawQuote,
                                   file: Option<string>, date: string, accepted: seq<bool>)
    requires q.body != [] && Hash(q.body) !in Parse(file)
    ensures var t := MorningTick(prices, fng, Some(q), file, date, accepted);
      && t.file == MorningTick(prices, fng, Some(q), file, date, []).file
      && Hash(q.body) in Parse(t.file)
      && MorningTick(prices, fng, Some(q), file, date, []).sent == []
  {
    SelectionAppends(Some(q), file);
  }

  /** Two mornings offered the same non-empty quote: the second digest ends
      with its date stamp and has no quote section, and leaves the log as
      the first one left it. */
  lemma RepeatedQuoteDropped(p1: Option<Snapshot>, p2: Option<Snapshot>, fng1: Option<FearGreed>, fng2: Option<FearGreed>,
                             q: RawQuote, file: Option<string>, date1: string, date2: string,
                             a1: seq<bool>, a2: seq<bool>)
    requires q.body != []
    requires Balloon !in date2
    requires fng2.Some? ==> Balloon !in fng2.value.value
    ensures var t1 := MorningTick(p1, fng1, Some(q), file, date1, a1);
      var t2 := MorningTick(p2, fng2, Some(q), t1.file, date2, a2);
      && IsSuffix("\n\U{1F4C5} " + date2, t2.text)
      && !Contains(t2.text, QuoteHeader)
      && t2.file == t1.file
  {
    var f1 := MorningTick(p1, fng1, Some(q), file, date1, a1).file;
    SecondOfferRejected(q, file);
    SecondTick(p2, fng2, q, f1, date2, a2);
  }

  /** A morning whose quote is rejected as already used. */
  lemma SecondTick(prices: Option<Snapshot>, fng: Option<FearGreed>, q: RawQuote,
                   file: Option<string>, date: string, accepted: seq<bool>)
    requires SelectQuote(Some(q), file).quote.None?
    requires Balloon !in date
    requires fng.Some? ==> Balloon !in fng.value.value
    ensures var t := MorningTick(prices, fng, Some(q), file, date, accepted);
      && IsSuffix("\n\U{1F4C5} " + date, t.text)
      && !Contains(t.text, QuoteHeader)
      && t.file == file
  {
    MorningEnds(prices, fng, Some(q), file, date, accepted);
    MorningQuoteSection(FetchPrices(prices), fng, date, None);
  }

  /** When the price request fails the digest lists BTC, ETH and SOL in
      that order, each at $0.00 pointing up with a 0.00% change. */
  lemma FallbackLines(prices: Option<Snapshot>)
    requires prices.None?
    ensures CoinLines(FetchPrices(prices)) ==
      [TrendLine(Coin(BTC, 0, 0), Up, 0), TrendLine(Coin(ETH, 0, 0), Up, 0), TrendLine(Coin(SOL, 0, 0), Up, 0)]
  {
    var p := FetchPrices(prices);
    EqualChangesListed(p);
    var coins := Listing(p);
    assert coins == [Coin(BTC, 0, 0), Coin(ETH, 0, 0), Coin(SOL, 0, 0)];
    LinesForThree(coins);
  }

  /** ... so the message, after its title and a blank line, reads
      `💹 BTC: $0.00 🔼 0.00%`, then the same for ETH and SOL. */
  lemma FallbackMessage(prices: Option<Snapshot>, fng: Option<FearGreed>, v: Variant)
    requires prices.None?
    ensures var pieces := Split(Compose(FetchPrices(prices), fng, v), '\n');
      && |pieces| >= 7
      && pieces[2..5] == [ZeroLineText(BTC), ZeroLineText(ETH), ZeroLineText(SOL)]
  {
    var p := FetchPrices(prices);
    var ls := CoinLines(p);
    ComposeAssembles(p, fng, v);
    FallbackLines(prices);
    ThreeLinesShown(Assemble(ls, fng, TrailerFor(v)));
    ZeroLine(BTC);
    ZeroLine(ETH);
    ZeroLine(SOL);
  }

  /** A coin line at price 0 with a 0 change. */
  function ZeroLineText(sym: Symbol): string {
    sym.Emoji() + " " + sym.Name() + ": $0.00 \U{1F53C} 0.00%"
  }

  lemma ZeroLine(sym: Symbol)
    ensures RenderLine(TrendLine(Coin(sym, 0, 0), Up, 0)) == ZeroLineText(sym)
  {
    assert Fixed2(0) == "0.00" by {
      assert Digits(0) == "0";
      assert Cents(0) == "00";
    }
  }

  lemma LinesForThree(coins: seq<Coin>)
    requires |coins| == 3
    ensures LinesFor(coins) == [LineFor(coins[0]), LineFor(coins[1]), LineFor(coins[2])]
  {
  }

  /** Coins whose changes are all equal are listed in listing order. */
  lemma EqualChangesListed(p: Snapshot)
    requires p.btc.change == p.eth.change == p.sol.change
    ensures CoinLines(p) == LinesFor(Listing(p))
  {
    ListingKeptWhenEqual(p);
  }

  /** BTC up 5%, ETH down 2%, SOL up 1%: the lines read BTC, SOL, ETH. */
  lemma ExampleOrder()
    ensures var p := Snapshot(Ticker(6000000, 500), Ticker(300000, -200), Ticker(15000, 100));
      CoinsOf(CoinLines(p)) == [Coin(BTC, 6000000, 500), Coin(SOL, 15000, 100), Coin(ETH, 300000, -200)]
  {
    var p := Snapshot(Ticker(6000000, 500), Ticker(300000, -200), Ticker(15000, 100));
    var coins := Listing(p);
    var b, e, s := coins[0], coins[1], coins[2];
    assert Insert(s, []) == [s];
    assert Insert(e, [s]) == [s, e];
    assert Insert(b, [s, e]) == [b, s, e];
    assert SortByChange(coins) == [b, s, e];
    assert CoinsOf(CoinLines(p)) == SortByChange(coins);
  }
}
