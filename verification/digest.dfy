/** The morning and evening digests: one pure composer over the variant,
    split into building the digest's parts and rendering them as text. */
module Digest {
  import opened Wrappers
  import opened Text
  import opened Numeral
  import opened Market

  /** The Fear & Greed index as fetched: its value and its classification. */
  datatype FearGreed = FearGreed(value: string, classification: string)

  /** The three-way bucket shown next to the index. */
  datatype Mood = Greedy | Fearful | Calm

  datatype Arrow = Up | Down

  /** One coin line: the coin, its direction and the size of its change. */
  datatype TrendLine = TrendLine(coin: Coin, arrow: Arrow, percent: nat)

  /** Which digest to compose: the morning one carries the date stamp and
      the quote of the day if any, the evening one neither. */
  datatype Variant = Morning(date: string, quote: Option<string>) | Evening

  /** How a digest ends. */
  datatype Trailer = Dated(date: string) | DatedWithQuote(date: string, quote: string) | Attribution

  datatype Digest = Digest(lines: seq<TrendLine>, sentiment: string, mood: Mood, trailer: Trailer)

  /* -------------------------------------------------------------- sentiment */

  /** The index value followed by `%`, or `N/A` when the index is absent;
      the two cannot be confused, since a present value ends with `%`. */
  function SentimentValue(fng: Option<FearGreed>): (v: string)
    ensures v == "N/A" <==> fng.None?
    ensures fng.Some? ==> IsPrefix(fng.value.value, v) && IsSuffix("%", v)
    ensures fng.Some? ==> |v| == |fng.value.value| + 1
  {
    match fng
    case Some(f) =>
      var v := f.value + "%";
      assert v[..|f.value|] == f.value && v[|v| - 1] == '%';
      v
    case None => "N/A"
  }

  /** The classification, or `Neutral` when the index is absent or its
      classification is empty (both are falsy in `fng?.sentiment || ...`). */
  function SentimentLabel(fng: Option<FearGreed>): (cls: string)
    ensures cls != []
    ensures fng.Some? && fng.value.classification != [] ==> cls == fng.value.classification
    ensures fng.None? || fng.value.classification == [] ==> cls == "Neutral"
  {
    if fng.Some? && fng.value.classification != [] then fng.value.classification else "Neutral"
  }

  /** "Greed" is looked for before "Fear". */
  function MoodOf(cls: string): Mood {
    if Contains(cls, "Greed") then Greedy
    else if Contains(cls, "Fear") then Fearful
    else Calm
  }

  /** The bucket in terms of where the words occur in the label: green as
      soon as "Greed" occurs anywhere (even beside "Fear"), red when only
      "Fear" occurs, white when neither does. */
  lemma MoodPrecedence(cls: string)
    ensures MoodOf(cls) == Greedy <==> exists i :: OccursAt(cls, "Greed", i)
    ensures MoodOf(cls) == Fearful <==>
              (!exists i :: OccursAt(cls, "Greed", i)) && exists i :: OccursAt(cls, "Fear", i)
    ensures MoodOf(cls) == Calm <==>
              (!exists i :: OccursAt(cls, "Greed", i)) && !exists i :: OccursAt(cls, "Fear", i)
  {
    ContainsIffOccurs(cls, "Greed");
    ContainsIffOccurs(cls, "Fear");
  }

  /** The index's classifications fall in the expected buckets. */
  lemma GreedIsGreen(cls: string)
    requires cls == "Greed" || cls == "Extreme Greed"
    ensures MoodOf(cls) == Greedy
  {
    var i := |cls| - 5;
    assert cls[i..i + 5] == "Greed";
    ContainsAt(cls, "Greed", i);
  }

  lemma FearIsRed(cls: string)
    requires cls == "Fear" || cls == "Extreme Fear"
    ensures MoodOf(cls) == Fearful
  {
    MissingCharNotContained(cls, "Greed", 0);
    var i := |cls| - 4;
    assert cls[i..i + 4] == "Fear";
    ContainsAt(cls, "Fear", i);
  }

  /** "Neutral", which also stands in for an absent index, is white. */
  lemma NeutralIsWhite(cls: string)
    requires cls == "Neutral"
    ensures MoodOf(cls) == Calm
  {
    MissingCharNotContained(cls, "Greed", 0);
    MissingCharNotContained(cls, "Fear", 0);
  }

  /* ------------------------------------------------------------- coin lines */

  /** Up for a change of zero or more, down otherwise; the size of the change
      is shown without its sign. */
  function LineFor(c: Coin): (l: TrendLine)
    ensures l.coin == c
    ensures l.arrow == Up <==> c.change >= 0
    ensures l.percent >= 0 && (l.percent == c.change || l.percent == -c.change)
  {
    TrendLine(c, if c.change >= 0 then Up else Down, if c.change >= 0 then c.change else -c.change)
  }

  /** The coins of the lines, top to bottom. */
  function CoinsOf(ls: seq<TrendLine>): (coins: seq<Coin>)
    ensures |coins| == |ls|
    ensures forall i :: 0 <= i < |ls| ==> coins[i] == ls[i].coin
  {
    if |ls| == 0 then [] else [ls[0].coin] + CoinsOf(ls[1..])
  }

  /** One line per coin, in the coins' order. */
  function LinesFor(coins: seq<Coin>): (ls: seq<TrendLine>)
    ensures CoinsOf(ls) == coins
    ensures forall i :: 0 <= i < |ls| ==> ls[i] == LineFor(coins[i])
  {
    if |coins| == 0 then [] else [LineFor(coins[0])] + LinesFor(coins[1..])
  }

  /* ------------------------------------------------------------------ build */

  function TrailerFor(v: Variant): Trailer {
    match v
    case Evening => Attribution
    case Morning(date, quote) =>
      if quote.Some? && quote.value != [] then DatedWithQuote(date, quote.value) else Dated(date)
  }

  /** The three coin lines, in the order the sorted coins come. */
  function CoinLines(p: Snapshot): seq<TrendLine>
  {
    LinesFor(SortByChange(Listing(p)))
  }

  /** The coin lines are BTC, ETH and SOL sorted by change, highest first,
      coins of equal change in that order; each line shows the fetched price
      and change of its coin, points up exactly when that change is zero or
      more and shows the change's size without sign. */
  lemma CoinLinesOrder(p: Snapshot)
    ensures var ls := CoinLines(p);
      && |ls| == 3
      && Descending(CoinsOf(ls))
      && multiset(CoinsOf(ls)) == multiset(Listing(p))
      && TiesRanked(CoinsOf(ls))
      && (forall i :: 0 <= i < 3 ==> (ls[i].arrow == Up <==> ls[i].coin.change >= 0))
      && (forall i :: 0 <= i < 3 ==>
            ls[i].percent >= 0 && (ls[i].percent == ls[i].coin.change || ls[i].percent == -ls[i].coin.change))
      && (forall i :: 0 <= i < 3 ==> Ticker(ls[i].coin.price, ls[i].coin.change) == TickerOf(p, ls[i].coin.symbol))
  {
    var sorted := SortByChange(Listing(p));
    SortKeepsTiesRanked(Listing(p));
    assert CoinsOf(CoinLines(p)) == sorted;
    forall i | 0 <= i < 3
      ensures Ticker(sorted[i].price, sorted[i].change) == TickerOf(p, sorted[i].symbol)
    {
      assert sorted[i] in multiset(Listing(p));
    }
  }

  /** The parts of a digest. The trailer carries the quote exactly when the
      morning variant has a non-empty one, the evening variant always ends
      with the attribution, and an absent index reads "N/A" and white. */
  function Build(p: Snapshot, fng: Option<FearGreed>, v: Variant): (d: Digest)
    ensures d.lines == CoinLines(p)
    ensures d.trailer.DatedWithQuote? <==> v.Morning? && v.quote.Some? && v.quote.value != []
    ensures d.trailer.DatedWithQuote? ==> d.trailer.quote == v.quote.value
    ensures d.trailer.Attribution? <==> v.Evening?
    ensures v.Morning? ==> d.trailer.date == v.date
    ensures d.sentiment == SentimentValue(fng) && d.mood == MoodOf(SentimentLabel(fng))
    ensures fng.None? ==> d.sentiment == "N/A" && d.mood == Calm
  {
    NeutralIsWhite(SentimentLabel(None));
    Assemble(CoinLines(p), fng, TrailerFor(v))
  }

  /* ----------------------------------------------------------------- render */

  const Sun: string := "\U{2600}\U{FE0F}"
  const Dusk: string := "\U{1F306} *Good Evening*\n\n"
  const QuoteHeader: string := "\n\n\U{1F4AC} *Quote of the Day:*\n"
  const SentimentTag: string := "\U{1F4CA} Market Sentiment: "
  const AttributionText: string := "\n\n\U{1F527} _Powered by TeamADS_"

  function ArrowGlyph(a: Arrow): string {
    match a
    case Up => "\U{1F53C}"
    case Down => "\U{1F53D}"
  }

  function MoodGlyph(m: Mood): string {
    match m
    case Greedy => "\U{1F7E2}"
    case Fearful => "\U{1F534}"
    case Calm => "\U{26AA}\U{FE0F}"
  }

  /** The greeting's first line. */
  function Title(t: Trailer): string {
    if t.Attribution? then "\U{1F306} *Good Evening*" else Sun + " *Good Morning*"
  }

  function Greeting(t: Trailer): string {
    if t.Attribution? then Dusk else Sun + " *Good Morning*\n\n"
  }

  /** The greeting is its title and a blank line. */
  lemma GreetingIsTitle(t: Trailer)
    ensures Greeting(t) == Title(t) + ['\n', '\n']
  {
  }

  function TrailerText(t: Trailer): string {
    match t
    case Dated(date) => "\n\U{1F4C5} " + date
    case DatedWithQuote(date, quote) => "\n\U{1F4C5} " + date + QuoteHeader + quote
    case Attribution => AttributionText
  }

  /** `emoji name: $price arrow percent%`; the percentage shows no sign. */
  function RenderLine(l: TrendLine): (s: string)
    ensures IsPrefix(l.coin.symbol.Emoji() + " " + l.coin.symbol.Name() + ": $", s)
    ensures IsPrefix(l.coin.symbol.Emoji() + " " + l.coin.symbol.Name() + ": $" + Fixed2(l.coin.price) + " ", s)
    ensures exists k :: 0 <= k <= |s| && s[k..] == Fixed2(l.percent) + "%" && '-' !in s[k..]
  {
    var tag := l.coin.symbol.Emoji() + " " + l.coin.symbol.Name() + ": $";
    var head := tag + Fixed2(l.coin.price) + " " + ArrowGlyph(l.arrow) + " ";
    var s := head + (Fixed2(l.percent) + "%");
    assert s[..|tag|] == tag;
    assert s[..|tag + Fixed2(l.coin.price) + " "|] == tag + Fixed2(l.coin.price) + " ";
    assert s[|head|..] == Fixed2(l.percent) + "%";
    s
  }

  /** One rendered line per coin line, in order. */
  function RenderLines(ls: seq<TrendLine>): (r: seq<string>)
    ensures |r| == |ls|
    ensures forall i :: 0 <= i < |ls| ==> r[i] == RenderLine(ls[i])
  {
    if |ls| == 0 then [] else [RenderLine(ls[0])] + RenderLines(ls[1..])
  }

  /** Everything before the trailer: greeting, then the body. */
  function Head(d: Digest): string {
    Greeting(d.trailer) + Body(d)
  }

  /** `📊 Market Sentiment: value emoji`. */
  function SentimentLine(d: Digest): string {
    SentimentTag + d.sentiment + " " + MoodGlyph(d.mood)
  }

  /** The coin lines, a blank line and the sentiment line. */
  function Body(d: Digest): string {
    Join(RenderLines(d.lines), '\n') + "\n\n" + SentimentLine(d)
  }

  /** The digest as text: its greeting first and its trailer last. */
  function Render(d: Digest): (msg: string)
    ensures IsPrefix(Greeting(d.trailer), msg)
    ensures IsSuffix(TrailerText(d.trailer), msg)
  {
    var head := Head(d);
    var tail := TrailerText(d.trailer);
    PrefixOfConcat(Greeting(d.trailer), Body(d));
    PrefixOfConcat(head, tail);
    PrefixTransitive(Greeting(d.trailer), head, head + tail);
    SuffixOfConcat(head, tail);
    head + tail
  }

  /** Line by line, a rendered digest is its title, a blank line, one line
      per coin in the digest's order, a blank line and then the sentiment
      line (whole, when the index value holds no line break); the trailer
      follows. */
  lemma RenderLayout(d: Digest)
    requires |d.lines| >= 1
    ensures var pieces := Split(Render(d), '\n');
      var n := |d.lines|;
      && |pieces| >= n + 4
      && pieces[0] == Title(d.trailer) && pieces[1] == []
      && pieces[2..n + 2] == RenderLines(d.lines)
      && pieces[n + 2] == []
      && ('\n' !in d.sentiment ==> pieces[n + 3] == SentimentLine(d))
  {
    LinesAvoid(d.lines, '\n');
    TitleOneLine(d.trailer);
    TrailerOpensLine(d.trailer);
    if '\n' !in d.sentiment {
      SentimentOneLine(d);
    }
    RenderSections(d);
    SplitLayout(Title(d.trailer), RenderLines(d.lines), SentimentLine(d), TrailerText(d.trailer), '\n');
  }

  lemma RenderSections(d: Digest)
    ensures Render(d) == Title(d.trailer) + ['\n', '\n'] + Join(RenderLines(d.lines), '\n') + ['\n', '\n']
                         + (SentimentLine(d) + TrailerText(d.trailer))
  {
    var title, lines, sentiment, t := Title(d.trailer), Join(RenderLines(d.lines), '\n'), SentimentLine(d), TrailerText(d.trailer);
    GreetingIsTitle(d.trailer);
    assert Body(d) == lines + ['\n', '\n'] + sentiment;
    assert Render(d) == (title + ['\n', '\n']) + (lines + ['\n', '\n'] + sentiment) + t;
    Regroup(title, lines, sentiment, t, ['\n', '\n']);
  }

  lemma Regroup(a: string, b: string, c: string, e: string, gap: string)
    ensures (a + gap) + (b + gap + c) + e == a + gap + b + gap + (c + e)
  {
  }

  /** A digest of three coin lines shows them as its third to fifth lines. */
  lemma ThreeLinesShown(d: Digest)
    requires |d.lines| == 3
    ensures var pieces := Split(Render(d), '\n');
      && |pieces| >= 7
      && pieces[2..5] == [RenderLine(d.lines[0]), RenderLine(d.lines[1]), RenderLine(d.lines[2])]
  {
    RenderLayout(d);
    ThreeOf(RenderLines(d.lines));
  }

  lemma ThreeOf(r: seq<string>)
    requires |r| == 3
    ensures r == [r[0], r[1], r[2]]
  {
  }

  lemma TitleOneLine(t: Trailer)
    ensures '\n' !in Title(t)
  {
  }

  lemma SentimentOneLine(d: Digest)
    requires '\n' !in d.sentiment
    ensures '\n' !in SentimentLine(d)
  {
    assert '\n' !in MoodGlyph(d.mood);
  }

  /** Every trailer starts a new line. */
  lemma TrailerOpensLine(t: Trailer)
    ensures |TrailerText(t)| >= 1 && TrailerText(t)[0] == '\n'
  {
  }

  lemma TrailerEnds(t: Trailer, msg: string)
    requires IsSuffix(TrailerText(t), msg)
    ensures t.DatedWithQuote? ==> IsSuffix(QuoteHeader + t.quote, msg)
    ensures t.Dated? ==> IsSuffix("\n\U{1F4C5} " + t.date, msg)
    ensures t.Attribution? ==> IsSuffix(AttributionText, msg)
  {
    if t.DatedWithQuote? {
      var a := "\n\U{1F4C5} " + t.date;
      assert TrailerText(t) == a + (QuoteHeader + t.quote);
      SuffixOfConcat(a, QuoteHeader + t.quote);
      SuffixTransitive(QuoteHeader + t.quote, TrailerText(t), msg);
    }
  }

  /** The digest text for a price snapshot, an optional index and a variant. */
  function Compose(p: Snapshot, fng: Option<FearGreed>, v: Variant): (msg: string)
    ensures IsPrefix(if v.Evening? then Dusk else Sun + " *Good Morning*\n\n", msg)
    ensures v.Evening? ==> IsSuffix(AttributionText, msg)
    ensures v.Morning? && v.quote.Some? && v.quote.value != [] ==> IsSuffix(QuoteHeader + v.quote.value, msg)
    ensures v.Morning? && !(v.quote.Some? && v.quote.value != []) ==> IsSuffix("\n\U{1F4C5} " + v.date, msg)
  {
    var d := Build(p, fng, v);
    var msg := Render(d);
    TrailerEnds(d.trailer, msg);
    msg
  }

  /* ------------------------------------------------- where the quote appears */

  /** The speech-balloon emoji that opens the quote section. */
  const Balloon: char := '\U{1F4AC}'

  /** A coin line holds neither a line break nor the balloon. */
  lemma LineAvoids(l: TrendLine, c: char)
    requires c == Balloon || c == '\n'
    ensures c !in RenderLine(l)
  {
    var sym := l.coin.symbol;
    var tag := sym.Emoji() + " " + sym.Name() + ": $";
    assert c !in tag by {
      match sym
      case BTC =>
      case ETH =>
      case SOL =>
    }
    var price := Fixed2(l.coin.price);
    assert c !in price;
    var glyph := ArrowGlyph(l.arrow);
    assert c !in glyph;
    var pct := Fixed2(l.percent) + "%";
    assert c !in pct;
    assert RenderLine(l) == tag + price + " " + glyph + " " + pct;
  }

  /** The up glyph appears in a coin line exactly when its arrow is up, and
      the down glyph exactly when it is down. */
  lemma LineArrow(l: TrendLine)
    ensures '\U{1F53C}' in RenderLine(l) <==> l.arrow == Up
    ensures '\U{1F53D}' in RenderLine(l) <==> l.arrow == Down
  {
    var sym := l.coin.symbol;
    var tag := sym.Emoji() + " " + sym.Name() + ": $";
    assert '\U{1F53C}' !in tag && '\U{1F53D}' !in tag by {
      match sym
      case BTC =>
      case ETH =>
      case SOL =>
    }
    var price := Fixed2(l.coin.price);
    var glyph := ArrowGlyph(l.arrow);
    var pct := Fixed2(l.percent) + "%";
    assert '\U{1F53C}' !in price + pct && '\U{1F53D}' !in price + pct;
    assert RenderLine(l) == tag + price + " " + glyph + " " + pct;
  }

  lemma {:induction false} LinesAvoid(ls: seq<TrendLine>, c: char)
    requires c == Balloon || c == '\n'
    ensures forall i :: 0 <= i < |RenderLines(ls)| ==> c !in RenderLines(ls)[i]
    ensures |RenderLines(ls)| == |ls|
  {
    if |ls| > 0 {
      LineAvoids(ls[0], c);
      LinesAvoid(ls[1..], c);
    }
  }

  /** Nothing before the trailer holds the balloon when the index value
      does not. */
  lemma BalloonNotInHead(d: Digest)
    requires Balloon !in d.sentiment
    ensures Balloon !in Head(d)
  {
    BalloonNotInBody(d);
    BalloonNotInGreeting(d.trailer);
  }

  lemma BalloonNotInGreeting(t: Trailer)
    ensures Balloon !in Greeting(t)
  {
  }

  lemma BalloonNotInBody(d: Digest)
    requires Balloon !in d.sentiment
    ensures Balloon !in Body(d)
  {
    var ls := RenderLines(d.lines);
    LinesAvoid(d.lines, Balloon);
    NotInJoin(ls, '\n', Balloon);
    BalloonNotInMood(d.mood);
    BalloonNotInTag();
  }

  lemma BalloonNotInTag()
    ensures Balloon !in SentimentTag
  {
  }

  lemma BalloonNotInMood(m: Mood)
    ensures Balloon !in MoodGlyph(m)
  {
  }

  lemma SuffixContained(msg: string, a: string, b: string)
    requires IsSuffix(a + b, msg)
    ensures Contains(msg, a)
  {
    var k := |msg| - |a + b|;
    assert msg[k..k + |a|] == (a + b)[..|a|];
    ContainsAt(msg, a, k);
  }

  /** A rendered digest contains the quote section exactly when its trailer
      carries a quote, provided nothing before the trailer and no date stamp
      contains the section's balloon emoji. */
  lemma QuoteSectionOfRender(d: Digest)
    requires Balloon !in Head(d)
    requires d.trailer.Dated? ==> Balloon !in d.trailer.date
    ensures Contains(Render(d), QuoteHeader) <==> d.trailer.DatedWithQuote?
  {
    var t := d.trailer;
    if t.DatedWithQuote? {
      TrailerEnds(t, Render(d));
      SuffixContained(Render(d), QuoteHeader, t.quote);
    } else {
      BalloonNotInTrailer(t);
      assert Render(d) == Head(d) + TrailerText(t);
      NoBalloonNoSection(Render(d));
    }
  }

  lemma BalloonNotInTrailer(t: Trailer)
    requires !t.DatedWithQuote?
    requires t.Dated? ==> Balloon !in t.date
    ensures Balloon !in TrailerText(t)
  {
    if t.Dated? {
      assert TrailerText(t) == "\n\U{1F4C5} " + t.date;
    } else {
      assert TrailerText(t) == AttributionText;
    }
  }

  /** Text without the balloon has no quote section. */
  lemma NoBalloonNoSection(msg: string)
    requires Balloon !in msg
    ensures !Contains(msg, QuoteHeader)
  {
    assert QuoteHeader[2] == Balloon;
    MissingCharNotContained(msg, QuoteHeader, 2);
  }

  /** A digest from given coin lines: the part of `Build` that does not
      depend on the sort. */
  function Assemble(ls: seq<TrendLine>, fng: Option<FearGreed>, t: Trailer): Digest {
    Digest(ls, SentimentValue(fng), MoodOf(SentimentLabel(fng)), t)
  }

  lemma ComposeAssembles(p: Snapshot, fng: Option<FearGreed>, v: Variant)
    ensures Compose(p, fng, v) == Render(Assemble(CoinLines(p), fng, TrailerFor(v)))
  {
  }

  lemma BalloonNotInAssembled(ls: seq<TrendLine>, fng: Option<FearGreed>, t: Trailer)
    requires fng.Some? ==> Balloon !in fng.value.value
    ensures Balloon !in Head(Assemble(ls, fng, t))
  {
    var d := Assemble(ls, fng, t);
    assert Balloon !in d.sentiment;
    BalloonNotInHead(d);
  }

  /** The quote section appears in a morning digest exactly when its quote
      is truthy, whatever the coin lines are. */
  lemma AssembledQuoteSection(ls: seq<TrendLine>, fng: Option<FearGreed>, v: Variant)
    requires fng.Some? ==> Balloon !in fng.value.value
    requires v.Morning? ==> Balloon !in v.date
    ensures Contains(Render(Assemble(ls, fng, TrailerFor(v))), QuoteHeader)
      <==> v.Morning? && v.quote.Some? && v.quote.value != []
  {
    BalloonNotInAssembled(ls, fng, TrailerFor(v));
    QuoteSectionOfRender(Assemble(ls, fng, TrailerFor(v)));
  }

  /** The morning digest contains the quote section exactly when a
      non-empty quote is given (provided the date stamp and the index value
      do not themselves contain the section's balloon emoji). */
  lemma MorningQuoteSection(p: Snapshot, fng: Option<FearGreed>, date: string, quote: Option<string>)
    requires Balloon !in date
    requires fng.Some? ==> Balloon !in fng.value.value
    ensures Contains(Compose(p, fng, Morning(date, quote)), QuoteHeader) <==> quote.Some? && quote.value != []
  {
    ComposeAssembles(p, fng, Morning(date, quote));
    AssembledQuoteSection(CoinLines(p), fng, Morning(date, quote));
  }

  /** The evening digest never contains a quote section (provided the index
      value does not contain the section's balloon emoji). */
  lemma EveningHasNoQuote(p: Snapshot, fng: Option<FearGreed>)
    requires fng.Some? ==> Balloon !in fng.value.value
    ensures !Contains(Compose(p, fng, Evening), QuoteHeader)
  {
    ComposeAssembles(p, fng, Evening);
    AssembledQuoteSection(CoinLines(p), fng, Evening);
  }
}
