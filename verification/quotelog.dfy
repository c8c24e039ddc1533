/** The quote of the day and its de-duplication log. The log file holds the
    hashes of the quotes already sent, one per line; it is modelled as the
    file's text, None when the file does not exist. */
module QuoteLog {
  import opened Wrappers
  import opened Text
  import opened Base64

  /** A quote as fetched: its body and its author (empty when missing). */
  datatype RawQuote = RawQuote(body: string, author: string)

  /** What one selection returns and the log file it leaves behind. */
  datatype Selection = Selection(quote: Option<string>, file: Option<string>)

  /** A log entry as it can be read back: non-empty and on one line. */
  predicate IsEntry(h: string) {
    h != [] && '\n' !in h
  }

  ghost predicate AllEntries(log: seq<string>) {
    forall i :: 0 <= i < |log| ==> IsEntry(log[i])
  }

  /** `_body_` over `— *author*`, with "Unknown" for a missing author. */
  function FormatQuote(q: RawQuote): (text: string)
    ensures IsPrefix("_" + q.body + "_\n", text)
    ensures IsSuffix("\U{2014} *" + (if q.author == [] then "Unknown" else q.author) + "*", text)
    ensures |text| == |q.body| + |(if q.author == [] then "Unknown" else q.author)| + 7
  {
    var author := if q.author == [] then "Unknown" else q.author;
    var head := "_" + q.body + "_\n";
    var text := head + ("\U{2014} *" + author + "*");
    assert text[..|head|] == head;
    text
  }

  /** Reads the log: split on line breaks, empty entries dropped; a missing
      file is an empty log. */
  function Parse(file: Option<string>): (log: seq<string>)
    ensures AllEntries(log)
  {
    match file
    case None => []
    case Some(text) =>
      var pieces := Split(text, '\n');
      var log := DropEmpty(pieces);
      assert forall i :: 0 <= i < |log| ==> log[i] in pieces;
      log
  }

  /** Writes the log: entries joined by line breaks. */
  function Serialise(log: seq<string>): string {
    Join(log, '\n')
  }

  /** Reading back a written log gives the same entries. */
  lemma ParseSerialise(log: seq<string>)
    requires AllEntries(log)
    ensures Parse(Some(Serialise(log))) == log
  {
    if |log| > 0 {
      SplitJoin(log, '\n');
      DropEmptyKeepsNonEmpty(log);
    }
  }

  /** Appending one hash to the log and writing it back. A hash that is
      empty (the hash of an empty quote) is lost on the next read. */
  lemma AppendRoundTrip(log: seq<string>, h: string)
    requires AllEntries(log) && '\n' !in h
    ensures Parse(Some(Serialise(log + [h]))) == log + (if h == [] then [] else [h])
  {
    if |log| == 0 {
      assert log + [h] == [h];
      SplitWithoutSep(h, '\n');
    } else {
      JoinSnoc(log, h);
      SplitJoinThen(log, '\n', h);
      SplitWithoutSep(h, '\n');
      DropEmptyAppend(log, [h]);
      DropEmptyKeepsNonEmpty(log);
    }
  }

  lemma {:induction false} JoinSnoc(xs: seq<string>, x: string)
    requires |xs| >= 1
    ensures Join(xs + [x], '\n') == Join(xs, '\n') + ['\n'] + x
    decreases |xs|
  {
    if |xs| > 1 {
      JoinSnoc(xs[1..], x);
      assert (xs + [x])[1..] == xs[1..] + [x];
    } else {
      assert xs + [x] == [xs[0], x];
    }
  }

  /** One selection: reject a quote whose hash is already logged, otherwise
      log its hash and return it formatted. A failed fetch returns nothing
      and touches no file. */
  function SelectQuote(fetched: Option<RawQuote>, file: Option<string>): (s: Selection)
    ensures fetched.None? ==> s == Selection(None, file)
    ensures fetched.Some? && Hash(fetched.value.body) in Parse(file) ==> s == Selection(None, file)
    ensures fetched.Some? && Hash(fetched.value.body) !in Parse(file) ==>
              s.quote == Some(FormatQuote(fetched.value))
              && s.file == Some(Serialise(Parse(file) + [Hash(fetched.value.body)]))
  {
    match fetched
    case None => Selection(None, file)
    case Some(q) =>
      var h := Hash(q.body);
      var used := Parse(file);
      if h in used then Selection(None, file)
      else Selection(Some(FormatQuote(q)), Some(Serialise(used + [h])))
  }

  /** The log only grows: a rejected or failed selection leaves it as it
      was, an accepted one adds exactly the new quote's hash at the end
      (nothing, on the next read, for an empty quote). */
  lemma SelectionAppends(fetched: Option<RawQuote>, file: Option<string>)
    ensures var s := SelectQuote(fetched, file);
      && (s.quote.None? ==> Parse(s.file) == Parse(file))
      && (s.quote.Some? ==>
            fetched.Some?
            && Hash(fetched.value.body) !in Parse(file)
            && Parse(s.file) == Parse(file) + (if fetched.value.body == [] then [] else [Hash(fetched.value.body)]))
  {
    if fetched.Some? && Hash(fetched.value.body) !in Parse(file) {
      AppendRoundTrip(Parse(file), Hash(fetched.value.body));
    }
  }

  /** Offering the same non-empty quote twice gives nothing the second time,
      whatever the log held before. */
  lemma SecondOfferRejected(q: RawQuote, file: Option<string>)
    requires q.body != []
    ensures SelectQuote(Some(q), SelectQuote(Some(q), file).file).quote.None?
  {
    SelectionAppends(Some(q), file);
  }

  /** An empty quote hashes to the empty string, which reading the log
      always drops, so it is never recognised as used. */
  lemma EmptyQuoteNeverRejected(q: RawQuote, file: Option<string>)
    requires q.body == []
    ensures SelectQuote(Some(q), file).quote == Some(FormatQuote(q))
  {
  }

  /** The quote bodies sent over a run of selections, one per tick, and the
      log file after the last one. */
  function Run(fetches: seq<Option<RawQuote>>, file: Option<string>): (seq<string>, Option<string>)
  {
    if |fetches| == 0 then ([], file)
    else
      var s := SelectQuote(fetches[0], file);
      var (rest, last) := Run(fetches[1..], s.file);
      ((if s.quote.Some? then [fetches[0].value.body] else []) + rest, last)
  }

  /** Over any run of selections the log read at the start stays a prefix
      of the log at the end, and every non-empty quote sent had its hash
      absent from the starting log and present in the final one. */
  lemma {:induction false} RunLogsSent(fetches: seq<Option<RawQuote>>, file: Option<string>)
    ensures Parse(file) <= Parse(Run(fetches, file).1)
    ensures forall b | b in Run(fetches, file).0 && b != [] ::
              Hash(b) !in Parse(file) && Hash(b) in Parse(Run(fetches, file).1)
  {
    if |fetches| > 0 {
      var s := SelectQuote(fetches[0], file);
      SelectionAppends(fetches[0], file);
      RunLogsSent(fetches[1..], s.file);
      var r := Run(fetches[1..], s.file);
      assert Run(fetches, file).1 == r.1;
      assert Parse(file) <= Parse(s.file);
      forall b | b in Run(fetches, file).0 && b != []
        ensures Hash(b) !in Parse(file) && Hash(b) in Parse(r.1)
      {
        if b in r.0 {
          assert Hash(b) !in Parse(s.file);
        } else {
          assert s.quote.Some? && b == fetches[0].value.body;
          assert Hash(b) in Parse(s.file);
        }
      }
    }
  }

  /** No non-empty entry occurs twice. */
  ghost predicate NoRepeats(sent: seq<string>) {
    forall i, j | 0 <= i < j < |sent| :: sent[i] != [] ==> sent[i] != sent[j]
  }

  lemma NoRepeatsCons(b: string, rest: seq<string>)
    requires NoRepeats(rest)
    requires b != [] ==> b !in rest
    ensures NoRepeats([b] + rest)
  {
    var sent := [b] + rest;
    forall i, j | 0 <= i < j < |sent| && sent[i] != []
      ensures sent[i] != sent[j]
    {
      assert sent[j] == rest[j - 1];
      if i > 0 {
        assert sent[i] == rest[i - 1];
      }
    }
  }

  /** No non-empty quote is sent twice over any run of selections. */
  lemma {:induction false} RunNeverRepeats(fetches: seq<Option<RawQuote>>, file: Option<string>)
    ensures NoRepeats(Run(fetches, file).0)
  {
    if |fetches| > 0 {
      var s := SelectQuote(fetches[0], file);
      SelectionAppends(fetches[0], file);
      RunNeverRepeats(fetches[1..], s.file);
      RunLogsSent(fetches[1..], s.file);
      var rest := Run(fetches[1..], s.file).0;
      if s.quote.Some? {
        var b := fetches[0].value.body;
        assert Hash(b) in Parse(s.file) || b == [];
        NoRepeatsCons(b, rest);
      }
    }
  }
}
