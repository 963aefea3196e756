/** The flight document, and the tokens the keyword index sees in it. */
module Documents {
  import opened Prelude

  /** A connector-supplied text field. */
  datatype TextField = TextField(name: string, value: string)

  /** `text` lists the generic text fields in their map's iteration order. */
  datatype FlightDocument = FlightDocument(
    icao24: string,
    callsign: string,
    origin: string,
    destination: string,
    aircraftType: string,
    tenantId: string,
    latitude: real,
    longitude: real,
    altitude: real,
    velocity: real,
    heading: real,
    verticalRate: real,
    observedAt: int,
    text: seq<TextField>,
    number: map<string, real>)

  /** Splitting text into lowercase alphanumeric runs. */
  type Tokenizer = string -> seq<string>

  function TextTokens(tok: Tokenizer, fields: seq<TextField>): multiset<string> {
    if fields == [] then multiset{}
    else TextTokens(tok, fields[..|fields| - 1]) + multiset(tok(fields[|fields| - 1].value))
  }

  /** Every token of the document's indexed fields, with multiplicity. */
  function Tokens(tok: Tokenizer, d: FlightDocument): multiset<string> {
    multiset(tok(d.callsign)) + multiset(tok(d.origin)) + multiset(tok(d.destination)) +
    multiset(tok(d.aircraftType)) + TextTokens(tok, d.text)
  }

  lemma TextTokensSnoc(tok: Tokenizer, front: seq<TextField>, last: TextField)
    ensures TextTokens(tok, front + [last]) == TextTokens(tok, front) + multiset(tok(last.value))
  {
    assert (front + [last])[..|front|] == front;
  }

  lemma {:induction false} TextTokensWithout(tok: Tokenizer, fields: seq<TextField>, i: nat)
    requires i < |fields|
    ensures TextTokens(tok, fields) ==
            TextTokens(tok, fields[..i] + fields[i + 1..]) + multiset(tok(fields[i].value))
    decreases |fields|
  {
    hide TextTokens;
    var front, last := fields[..|fields| - 1], fields[|fields| - 1];
    TextTokensSnoc(tok, front, last);
    assert fields == front + [last];
    if i == |front| {
      assert fields[..i] + fields[i + 1..] == front;
    } else {
      TextTokensWithout(tok, front, i);
      var rest := front[..i] + front[i + 1..];
      TextTokensSnoc(tok, rest, last);
      assert fields[..i] + fields[i + 1..] == rest + [last];
    }
  }

  /** The hash map's iteration order does not reach the keyword index. */
  lemma {:induction false} TextOrderIrrelevant(tok: Tokenizer, a: seq<TextField>, b: seq<TextField>)
    requires multiset(a) == multiset(b)
    ensures TextTokens(tok, a) == TextTokens(tok, b)
    decreases |a|
  {
    assert |multiset(a)| == |a| && |multiset(b)| == |b|;
    if a != [] {
      var last := a[|a| - 1];
      assert last in multiset(a);
      var i :| 0 <= i < |b| && b[i] == last;
      var rest := b[..i] + b[i + 1..];
      assert a == a[..|a| - 1] + [last];
      assert b == b[..i] + [last] + b[i + 1..];
      assert multiset(a[..|a| - 1]) == multiset(a) - multiset{last};
      assert multiset(rest) == multiset(b) - multiset{last};
      TextOrderIrrelevant(tok, a[..|a| - 1], rest);
      TextTokensWithout(tok, b, i);
    }
  }

  /** The same document up to the iteration order of its text fields. */
  ghost predicate SameUpToTextOrder(a: FlightDocument, b: FlightDocument) {
    a == b.(text := a.text) && multiset(a.text) == multiset(b.text)
  }

  lemma TokensIgnoreTextOrder(tok: Tokenizer, a: FlightDocument, b: FlightDocument)
    requires SameUpToTextOrder(a, b)
    ensures Tokens(tok, a) == Tokens(tok, b)
  {
    TextOrderIrrelevant(tok, a.text, b.text);
  }

  // ---- term frequencies ----

  /** The frequency table of a bag of tokens. */
  function FreqMap(ms: multiset<string>): map<string, nat> {
    map t | t in ms :: ms[t]
  }

  method CountTokens(tokens: seq<string>, freqs: map<string, nat>, ghost sofar: multiset<string>)
    returns (out: map<string, nat>)
    requires freqs == FreqMap(sofar)
    ensures out == FreqMap(sofar + multiset(tokens))
  {
    out := freqs;
    for i := 0 to |tokens|
      invariant out == FreqMap(sofar + multiset(tokens[..i]))
    {
      assert tokens[..i + 1] == tokens[..i] + [tokens[i]];
      var t := tokens[i];
      out := out[t := (if t in out then out[t] else 0) + 1];
    }
    assert tokens[..|tokens|] == tokens;
  }

  method TermFreqs(tok: Tokenizer, d: FlightDocument) returns (freqs: map<string, nat>)
    ensures freqs == FreqMap(Tokens(tok, d))
  {
    hide FreqMap;
    freqs := map[];
    assert freqs == FreqMap(multiset{}) by { NoTokens(); }
    ghost var sofar: multiset<string> := multiset{};
    freqs := CountTokens(tok(d.callsign), freqs, sofar);
    sofar := sofar + multiset(tok(d.callsign));
    freqs := CountTokens(tok(d.origin), freqs, sofar);
    sofar := sofar + multiset(tok(d.origin));
    freqs := CountTokens(tok(d.destination), freqs, sofar);
    sofar := sofar + multiset(tok(d.destination));
    freqs := CountTokens(tok(d.aircraftType), freqs, sofar);
    sofar := sofar + multiset(tok(d.aircraftType));
    assert sofar + TextTokens(tok, d.text[..0]) == sofar;
    for i := 0 to |d.text|
      invariant freqs == FreqMap(sofar + TextTokens(tok, d.text[..i]))
    {
      assert d.text[..i + 1][..i] == d.text[..i];
      freqs := CountTokens(tok(d.text[i].value), freqs, sofar + TextTokens(tok, d.text[..i]));
      assert sofar + TextTokens(tok, d.text[..i]) + multiset(tok(d.text[i].value)) ==
             sofar + TextTokens(tok, d.text[..i + 1]);
    }
    assert d.text[..|d.text|] == d.text;
    assert sofar + TextTokens(tok, d.text) == Tokens(tok, d);
  }

  lemma NoTokens()
    ensures FreqMap(multiset{}) == map[]
  {
  }

  /** The values of a frequency table add up to the number of tokens. */
  method SumOf(freqs: map<string, nat>, ghost ms: multiset<string>) returns (n: nat)
    requires freqs == FreqMap(ms)
    ensures n == |ms|
  {
    n := 0;
    var todo := freqs.Keys;
    ghost var rest := ms;
    while todo != {}
      invariant todo <= freqs.Keys
      invariant forall t :: rest[t] == if t in todo then ms[t] else 0
      invariant n + |rest| == |ms|
    {
      var t :| t in todo;
      n := n + freqs[t];
      rest := rest[t := 0];
      todo := todo - {t};
    }
    assert rest == multiset{};
  }
}
