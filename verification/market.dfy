/** Prices of the three tracked coins and the order the digest lists them in.
    Amounts are whole hundredths: a price in US cents, a 24-hour change in
    hundredths of a percent. */
module Market {
  import opened Wrappers

  /** One coin's price and 24-hour change. */
  datatype Ticker = Ticker(price: int, change: int)

  /** The result of one price fetch, one ticker per tracked coin. */
  datatype Snapshot = Snapshot(btc: Ticker, eth: Ticker, sol: Ticker)

  const Zero: Ticker := Ticker(0, 0)

  /** The price fetch: the upstream answer when there is one, otherwise the
      all-zero placeholder, which is not reported as an error to the caller. */
  function FetchPrices(fetched: Option<Snapshot>): (p: Snapshot)
    ensures fetched.Some? ==> p == fetched.value
    ensures fetched.None? ==> p.btc == Zero && p.eth == Zero && p.sol == Zero
  {
    match fetched
    case Some(s) => s
    case None => Snapshot(Zero, Zero, Zero)
  }

  /** The tracked coins, with the name and emoji the digest shows. */
  datatype Symbol = BTC | ETH | SOL {
    function Name(): string {
      match this
      case BTC => "BTC"
      case ETH => "ETH"
      case SOL => "SOL"
    }

    function Emoji(): string {
      match this
      case BTC => "\U{1F4B9}"
      case ETH => "\U{1F4A3}"
      case SOL => "\U{1F537}"
    }
  }

  /** A coin's price and change as the digest lists them. */
  datatype Coin = Coin(symbol: Symbol, price: int, change: int)

  /** The snapshot's ticker for one coin. */
  function TickerOf(p: Snapshot, s: Symbol): Ticker {
    match s
    case BTC => p.btc
    case ETH => p.eth
    case SOL => p.sol
  }

  /** The coins in their fixed listing order, BTC, ETH, SOL, each carrying
      the snapshot's price and change for it. */
  function Listing(p: Snapshot): (coins: seq<Coin>)
    ensures |coins| == 3
    ensures Ranked(coins)
    ensures forall c | c in coins :: Ticker(c.price, c.change) == TickerOf(p, c.symbol)
  {
    [Coin(BTC, p.btc.price, p.btc.change), Coin(ETH, p.eth.price, p.eth.change), Coin(SOL, p.sol.price, p.sol.change)]
  }

  /** A coin's place in the listing order. */
  function Rank(c: Coin): nat {
    match c.symbol
    case BTC => 0
    case ETH => 1
    case SOL => 2
  }

  /** Strictly in listing order. */
  ghost predicate Ranked(s: seq<Coin>) {
    forall i, j :: 0 <= i < j < |s| ==> Rank(s[i]) < Rank(s[j])
  }

  /** Change never increases down the list. */
  ghost predicate Descending(s: seq<Coin>) {
    forall i, j :: 0 <= i < j < |s| ==> s[i].change >= s[j].change
  }

  /** Coins with equal change appear in listing order. */
  ghost predicate TiesRanked(s: seq<Coin>) {
    forall i, j :: 0 <= i < j < |s| && s[i].change == s[j].change ==> Rank(s[i]) < Rank(s[j])
  }

  /** The coins of `s` whose change is `k`, in the order of `s`. */
  function Ties(s: seq<Coin>, k: int): seq<Coin>
  {
    if |s| == 0 then []
    else (if s[0].change == k then [s[0]] else []) + Ties(s[1..], k)
  }

  /** The group of change `k` holds exactly the coins of `s` with change `k`. */
  lemma {:induction false} TiesMembers(s: seq<Coin>, k: int)
    ensures forall x | x in Ties(s, k) :: x in s && x.change == k
    ensures forall x | x in s && x.change == k :: x in Ties(s, k)
  {
    if |s| > 0 {
      TiesMembers(s[1..], k);
      assert s == [s[0]] + s[1..];
    }
  }

  lemma TiesCons(a: Coin, s: seq<Coin>, k: int)
    ensures Ties([a] + s, k) == (if a.change == k then [a] else []) + Ties(s, k)
  {
    assert ([a] + s)[1..] == s;
  }

  /** Puts `x` in front of the first coin whose change is not greater than
      its own: behind every coin of greater change, ahead of the coins of
      equal change. */
  function Insert(x: Coin, ys: seq<Coin>): (r: seq<Coin>)
    requires Descending(ys)
    ensures Descending(r)
    ensures multiset(r) == multiset(ys) + multiset{x}
  {
    if |ys| == 0 || x.change >= ys[0].change then [x] + ys
    else
      var rest := Insert(x, ys[1..]);
      assert ys == [ys[0]] + ys[1..];
      InsertBelowHead(x, ys, rest);
      DescendingCons(ys[0], rest);
      [ys[0]] + rest
  }

  /** Everything `x` is inserted among after the head of `ys` stays at or
      below that head's change. */
  lemma InsertBelowHead(x: Coin, ys: seq<Coin>, rest: seq<Coin>)
    requires Descending(ys) && |ys| > 0 && x.change < ys[0].change
    requires multiset(rest) == multiset(ys[1..]) + multiset{x}
    ensures forall c | c in rest :: ys[0].change >= c.change
  {
    forall c | c in rest ensures ys[0].change >= c.change {
      assert c in multiset(rest);
      if c != x {
        assert c in multiset(ys[1..]);
        var j :| 0 <= j < |ys[1..]| && ys[1..][j] == c;
        assert ys[j + 1] == c;
      }
    }
  }

  lemma DescendingCons(a: Coin, s: seq<Coin>)
    requires Descending(s)
    requires forall c | c in s :: a.change >= c.change
    ensures Descending([a] + s)
  {
    forall i, j | 0 <= i < j < |[a] + s| ensures ([a] + s)[i].change >= ([a] + s)[j].change {
      if i == 0 {
        assert ([a] + s)[j] == s[j - 1] && s[j - 1] in s;
      } else {
        assert ([a] + s)[i] == s[i - 1] && ([a] + s)[j] == s[j - 1];
      }
    }
  }

  /** Inserting `x` places it ahead of every coin of its own change, which
      is where it stands in `[x] + ys` among the coins of that change. */
  lemma {:induction false} InsertKeepsTies(x: Coin, ys: seq<Coin>, k: int)
    requires Descending(ys)
    ensures Ties(Insert(x, ys), k) == Ties([x] + ys, k)
  {
    if !(|ys| == 0 || x.change >= ys[0].change) {
      var y, tail := ys[0], ys[1..];
      var rest := Insert(x, tail);
      assert ys == [y] + tail;
      assert Insert(x, ys) == [y] + rest;
      InsertKeepsTies(x, tail, k);
      TiesCons(y, rest, k);
      TiesCons(x, tail, k);
      TiesCons(x, ys, k);
      TiesCons(y, tail, k);
      var py := if y.change == k then [y] else [];
      var px := if x.change == k then [x] else [];
      assert py == [] || px == [];
      SwapAround(py, px, Ties(tail, k));
    }
  }

  /** Two groups of which one is empty can be swapped in front of a third. */
  lemma SwapAround(p: seq<Coin>, q: seq<Coin>, r: seq<Coin>)
    requires p == [] || q == []
    ensures p + (q + r) == q + (p + r)
  {
    if p == [] {
      assert p + (q + r) == q + r == q + (p + r);
    } else {
      assert q + (p + r) == p + r == p + (q + r);
    }
  }

  /** Sorts by change, highest first, by inserting each coin into the
      sorted rest. */
  function SortByChange(xs: seq<Coin>): (r: seq<Coin>)
    ensures Descending(r)
    ensures multiset(r) == multiset(xs)
  {
    if |xs| == 0 then []
    else
      assert xs == [xs[0]] + xs[1..];
      Insert(xs[0], SortByChange(xs[1..]))
  }

  /** The sort is stable: the coins of any one change come out in the order
      they went in, as with `Array.prototype.sort`. */
  lemma {:induction false} SortKeepsTies(xs: seq<Coin>, k: int)
    ensures Ties(SortByChange(xs), k) == Ties(xs, k)
  {
    if |xs| > 0 {
      var rest := SortByChange(xs[1..]);
      SortKeepsTies(xs[1..], k);
      InsertKeepsTies(xs[0], rest, k);
      TiesCons(xs[0], rest, k);
      assert xs == [xs[0]] + xs[1..];
      TiesCons(xs[0], xs[1..], k);
    }
  }

  /** Keeping only the coins of one change keeps listing order. */
  lemma {:induction false} TiesOfRanked(s: seq<Coin>, k: int)
    requires Ranked(s)
    ensures Ranked(Ties(s, k))
  {
    if |s| > 0 {
      var a, rest := s[0], s[1..];
      assert s == [a] + rest;
      RankedTail(s);
      TiesOfRanked(rest, k);
      TiesCons(a, rest, k);
      if a.change == k {
        var t := Ties(rest, k);
        TiesMembers(rest, k);
        forall c | c in t ensures Rank(a) < Rank(c) {
          var j :| 0 <= j < |rest| && rest[j] == c;
          assert s[j + 1] == c;
        }
        RankedCons(a, t);
      } else {
        assert Ties(s, k) == [] + Ties(rest, k) == Ties(rest, k);
      }
    }
  }

  lemma RankedCons(a: Coin, g: seq<Coin>)
    requires Ranked(g)
    requires forall c | c in g :: Rank(a) < Rank(c)
    ensures Ranked([a] + g)
  {
    var s := [a] + g;
    forall i, j | 0 <= i < j < |s| ensures Rank(s[i]) < Rank(s[j]) {
      assert s[j] == g[j - 1] && g[j - 1] in g;
      if i > 0 {
        assert s[i] == g[i - 1];
      }
    }
  }

  /** If every group of equal change is in listing order, so is every pair
      of coins with equal change. */
  lemma {:induction false} TiesRankedFromGroups(s: seq<Coin>)
    requires forall k :: Ranked(Ties(s, k))
    ensures TiesRanked(s)
  {
    if |s| > 0 {
      var a, t := s[0], s[1..];
      assert s == [a] + t;
      forall k ensures Ranked(Ties(t, k)) {
        TiesTailRanked(a, t, k);
      }
      TiesRankedFromGroups(t);
      forall j | 0 <= j < |t| && t[j].change == a.change
        ensures Rank(a) < Rank(t[j])
      {
        HeadBeforeTies(a, t, j);
      }
      TiesRankedCons(a, t);
    }
  }

  lemma TiesTailRanked(a: Coin, t: seq<Coin>, k: int)
    requires Ranked(Ties([a] + t, k))
    ensures Ranked(Ties(t, k))
  {
    TiesCons(a, t, k);
    var g := Ties([a] + t, k);
    if a.change == k {
      assert Ties(t, k) == g[1..];
      RankedTail(g);
    } else {
      assert g == [] + Ties(t, k) == Ties(t, k);
    }
  }

  lemma RankedTail(g: seq<Coin>)
    requires Ranked(g) && |g| > 0
    ensures Ranked(g[1..])
  {
    forall i, j | 0 <= i < j < |g| - 1 ensures Rank(g[1..][i]) < Rank(g[1..][j]) {
      assert g[1..][i] == g[i + 1] && g[1..][j] == g[j + 1];
    }
  }

  lemma HeadBeforeTies(a: Coin, t: seq<Coin>, j: int)
    requires Ranked(Ties([a] + t, a.change))
    requires 0 <= j < |t| && t[j].change == a.change
    ensures Rank(a) < Rank(t[j])
  {
    TiesCons(a, t, a.change);
    TieIn(t, j, a.change);
    RankedFirst(a, Ties(t, a.change), t[j]);
  }

  /** A coin of change `k` is in the group of change `k`. */
  lemma {:induction false} TieIn(t: seq<Coin>, j: int, k: int)
    requires 0 <= j < |t| && t[j].change == k
    ensures t[j] in Ties(t, k)
  {
    if j > 0 {
      TieIn(t[1..], j - 1, k);
      assert t[1..][j - 1] == t[j];
    }
  }

  lemma RankedFirst(a: Coin, g: seq<Coin>, x: Coin)
    requires Ranked([a] + g)
    requires x in g
    ensures Rank(a) < Rank(x)
  {
    var m :| 0 <= m < |g| && g[m] == x;
    assert ([a] + g)[0] == a && ([a] + g)[m + 1] == x;
  }

  lemma TiesRankedCons(a: Coin, t: seq<Coin>)
    requires TiesRanked(t)
    requires forall j | 0 <= j < |t| && t[j].change == a.change :: Rank(a) < Rank(t[j])
    ensures TiesRanked([a] + t)
  {
    var s := [a] + t;
    forall i, j | 0 <= i < j < |s| && s[i].change == s[j].change
      ensures Rank(s[i]) < Rank(s[j])
    {
      assert s[j] == t[j - 1];
      if i == 0 {
        assert s[0] == a;
      } else {
        assert s[i] == t[i - 1];
      }
    }
  }

  /** Sorting keeps coins of equal change in listing order. */
  lemma SortKeepsTiesRanked(xs: seq<Coin>)
    requires Ranked(xs)
    ensures TiesRanked(SortByChange(xs))
  {
    var r := SortByChange(xs);
    forall k ensures Ranked(Ties(r, k)) {
      SortKeepsTies(xs, k);
      TiesOfRanked(xs, k);
    }
    TiesRankedFromGroups(r);
  }

  /** The group of change `k` of coins all of change `k` is all of them. */
  lemma {:induction false} TiesAll(s: seq<Coin>, k: int)
    requires forall i :: 0 <= i < |s| ==> s[i].change == k
    ensures Ties(s, k) == s
  {
    if |s| > 0 {
      TiesAll(s[1..], k);
      assert s == [s[0]] + s[1..];
    }
  }

  /** When every change is the same, sorting changes nothing. */
  lemma EqualChangesKeepOrder(xs: seq<Coin>, k: int)
    requires forall i :: 0 <= i < |xs| ==> xs[i].change == k
    ensures SortByChange(xs) == xs
  {
    var r := SortByChange(xs);
    forall i | 0 <= i < |r| ensures r[i].change == k {
      assert r[i] in multiset(xs);
    }
    SortKeepsTies(xs, k);
    TiesAll(xs, k);
    TiesAll(r, k);
  }

  /** Coins whose changes are all equal keep the listing order. */
  lemma ListingKeptWhenEqual(p: Snapshot)
    requires p.btc.change == p.eth.change == p.sol.change
    ensures SortByChange(Listing(p)) == Listing(p)
  {
    var coins := Listing(p);
    assert coins[0].change == coins[1].change == coins[2].change == p.btc.change;
    EqualChangesKeepOrder(coins, p.btc.change);
  }
}
