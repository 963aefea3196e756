/**
 Embedding a document's text: the hashing embedder, and when replicas whose maps list text
 fields in different orders still embed a document alike.
 */
module Embeddings {
  import opened Prelude
  import opened Ranking
  import opened Documents
  import opened KeywordSpec
  import opened Quantize
  import opened VectorIndices
  import Placement

  const EMBED_DIM: nat := 128

  // ---- the tokenizer ----

  /** Which characters belong to words, and lowercasing. */
  datatype Letters = Letters(alnum: char -> bool, lower: string -> string)

  /** The alphanumeric runs, the first continuing a run begun before. */
  function Runs(alnum: char -> bool, text: string, run: string): seq<string> {
    if text == [] then if run == [] then [] else [run]
    else if alnum(text[0]) then Runs(alnum, text[1..], run + [text[0]])
    else (if run == [] then [] else [run]) + Runs(alnum, text[1..], [])
  }

  function Tokenize(l: Letters, text: string): (out: seq<string>)
    ensures |out| == |Runs(l.alnum, text, [])|
  {
    var runs := Runs(l.alnum, text, []);
    seq(|runs|, i requires 0 <= i < |runs| => l.lower(runs[i]))
  }

  lemma {:induction false} RunsSplitAt(alnum: char -> bool, a: string, gap: char, b: string, run: string)
    requires !alnum(gap)
    ensures Runs(alnum, a + [gap] + b, run) == Runs(alnum, a, run) + Runs(alnum, b, [])
    decreases |a|
  {
    if a == [] {
      assert a + [gap] + b == [gap] + b;
    } else {
      assert (a + [gap] + b)[1..] == a[1..] + [gap] + b;
      RunsSplitAt(alnum, a[1..], gap, b, if alnum(a[0]) then run + [a[0]] else []);
    }
  }

  lemma {:induction false} RunOfOneWord(alnum: char -> bool, word: string, run: string)
    requires forall i :: 0 <= i < |word| ==> alnum(word[i])
    ensures Runs(alnum, word, run) == if run + word == [] then [] else [run + word]
    decreases |word|
  {
    if word == [] {
      assert run + word == run;
    } else {
      RunOfOneWord(alnum, word[1..], run + [word[0]]);
      assert run + [word[0]] + word[1..] == run + word;
    }
  }

  /** Any character that is no letter or digit splits a text in two, and an unbroken stretch of
      letters and digits is one word, in lower case. */
  lemma WordsAre(l: Letters, a: string, gap: char, b: string)
    ensures !l.alnum(gap) ==> Tokenize(l, a + [gap] + b) == Tokenize(l, a) + Tokenize(l, b)
    ensures (forall i :: 0 <= i < |a| ==> l.alnum(a[i])) ==> Tokenize(l, a) == if a == "" then [] else [l.lower(a)]
  {
    if !l.alnum(gap) {
      RunsSplitAt(l.alnum, a, gap, b, []);
    }
    if forall i :: 0 <= i < |a| ==> l.alnum(a[i]) {
      RunOfOneWord(l.alnum, a, []);
      assert [] + a == a;
    }
  }

  // ---- iteration order of text fields ----

  /** Words are split at spaces, so texts joined by a space have the words of both. */
  ghost predicate SplitsAtSpaces(tok: Tokenizer) {
    forall a, b :: tok(a + " " + b) == tok(a) + tok(b)
  }

  /** The tokenizer of the source splits at spaces, as long as a space is no letter. */
  lemma TokenizeSplits(l: Letters)
    requires !l.alnum(' ')
    ensures SplitsAtSpaces(text => Tokenize(l, text))
  {
    var tok := text => Tokenize(l, text);
    forall a, b
      ensures tok(a + " " + b) == tok(a) + tok(b)
    {
      RunsSplitAt(l.alnum, a, ' ', b, []);
      assert a + " " + b == a + [' '] + b;
    }
  }

  /** An embedder of bags of words, as feature hashing is. */
  ghost predicate EmbedsBags(e: Embedder, tok: Tokenizer) {
    forall a, b :: multiset(tok(a)) == multiset(tok(b)) ==> e.embed(a) == e.embed(b)
  }

  lemma {:induction false} FieldWords(tok: Tokenizer, text: string, fields: seq<TextField>)
    requires SplitsAtSpaces(tok)
    ensures multiset(tok(WithFields(text, fields))) == multiset(tok(text)) + TextTokens(tok, fields)
  {
    if fields != [] {
      var front, last := fields[..|fields| - 1], fields[|fields| - 1];
      FieldWords(tok, text, front);
      assert tok(WithFields(text, front) + " " + last.value) == tok(WithFields(text, front)) + tok(last.value);
    }
  }

  /** A document is embedded from exactly the words the keyword index finds in it. */
  lemma EmbeddedWords(tok: Tokenizer, d: FlightDocument)
    requires SplitsAtSpaces(tok)
    ensures multiset(tok(EmbeddableText(d))) == Tokens(tok, d)
  {
    hide WithFields, TextTokens;
    var two := d.callsign + " " + d.origin;
    var three := two + " " + d.destination;
    assert tok(two) == tok(d.callsign) + tok(d.origin);
    assert tok(three) == tok(two) + tok(d.destination);
    assert tok(three + " " + d.aircraftType) == tok(three) + tok(d.aircraftType);
    FieldWords(tok, three + " " + d.aircraftType, d.text);
  }

  lemma BagsIgnoreTextOrder(e: Embedder, tok: Tokenizer, a: FlightDocument, b: FlightDocument)
    requires SplitsAtSpaces(tok) && EmbedsBags(e, tok) && SameUpToTextOrder(a, b)
    ensures VectorOf(e, a) == VectorOf(e, b)
  {
    hide Tokens, EmbeddableText;
    EmbeddedWords(tok, a);
    EmbeddedWords(tok, b);
    TokensIgnoreTextOrder(tok, a, b);
  }

  // ---- the hashing embedder ----

  /** The bucket a token falls into. */
  function Bucket(token: string): (b: nat)
    ensures b < EMBED_DIM
  {
    (Placement.Fnv1a(Placement.Utf8(token)) as nat) % EMBED_DIM
  }

  /** The top bit of the hash decides the sign. */
  function Sign(token: string): real {
    if (Placement.Fnv1a(Placement.Utf8(token)) >> 63) & 1 == 1 then 1.0 else -1.0
  }

  function Counted(v: seq<real>, token: string): (w: seq<real>)
    requires |v| == EMBED_DIM
    ensures |w| == EMBED_DIM
  {
    v[Bucket(token) := v[Bucket(token)] + Sign(token)]
  }

  /** The signed counts per bucket. */
  function Counts(tokens: seq<string>): (v: seq<real>)
    ensures |v| == EMBED_DIM
  {
    if tokens == [] then Zeros(EMBED_DIM) else Counted(Counts(tokens[..|tokens| - 1]), tokens[|tokens| - 1])
  }

  /** Square roots. */
  datatype Root = Root(sqrt: real -> real)
  {
    ghost predicate Valid() {
      forall x :: x >= 0.0 ==> sqrt(x) >= 0.0 && sqrt(x) * sqrt(x) == x
    }
  }

  function Scaled(v: seq<real>, n: real): (w: seq<real>)
    requires n != 0.0
    ensures |w| == |v| && forall i :: 0 <= i < |v| ==> w[i] == v[i] / n
  {
    seq(|v|, i requires 0 <= i < |v| => v[i] / n)
  }

  function Normalised(root: Root, v: seq<real>): (w: seq<real>)
    ensures |w| == |v|
  {
    var n := root.sqrt(Dot(v, v));
    if n > 0.0 then Scaled(v, n) else v
  }

  function HashedText(l: Letters, root: Root, text: string): seq<real> {
    Normalised(root, Counts(Tokenize(l, text)))
  }

  function HashEmbedder(l: Letters, root: Root): Embedder {
    Embedder(text => HashedText(l, root, text))
  }

  method SumOfSquares(v: array<real>) returns (sum: real)
    ensures sum == Dot(v[..], v[..])
  {
    sum := 0.0;
    for i := 0 to v.Length
      invariant sum == DotBelow(v[..], v[..], i)
    {
      sum := sum + v[i] * v[i];
    }
  }

  method L2Normalize(root: Root, v: array<real>)
    modifies v
    ensures v[..] == Normalised(root, old(v[..]))
  {
    hide Dot;
    var sum := SumOfSquares(v);
    var norm := root.sqrt(sum);
    if norm > 0.0 {
      for i := 0 to v.Length
        invariant forall j :: 0 <= j < i ==> v[j] == old(v[j]) / norm
        invariant forall j :: i <= j < v.Length ==> v[j] == old(v[j])
      {
        v[i] := v[i] / norm;
      }
    }
  }

  method Embed(l: Letters, root: Root, text: string) returns (v: array<real>)
    ensures fresh(v) && v[..] == HashEmbedder(l, root).embed(text)
  {
    hide Bucket, Sign, Normalised, Tokenize;
    v := new real[EMBED_DIM](i => 0.0);
    assert v[..] == Zeros(EMBED_DIM);
    var tokens := Tokenize(l, text);
    for i := 0 to |tokens|
      invariant v[..] == Counts(tokens[..i])
    {
      assert tokens[..i + 1][..i] == tokens[..i];
      v[Bucket(tokens[i])] := v[Bucket(tokens[i])] + Sign(tokens[i]);
    }
    assert tokens[..|tokens|] == tokens;
    L2Normalize(root, v);
  }

  lemma CountedSwap(v: seq<real>, s: string, t: string)
    requires |v| == EMBED_DIM
    ensures Counted(Counted(v, s), t) == Counted(Counted(v, t), s)
  {
    hide Bucket, Sign;
  }

  lemma CountsSnoc(front: seq<string>, last: string)
    ensures Counts(front + [last]) == Counted(Counts(front), last)
  {
    assert (front + [last])[..|front|] == front;
  }

  lemma {:induction false} CountsWithout(tokens: seq<string>, i: nat)
    requires i < |tokens|
    ensures Counts(tokens) == Counted(Counts(tokens[..i] + tokens[i + 1..]), tokens[i])
    decreases |tokens|
  {
    hide Counts, Counted;
    var front, last := tokens[..|tokens| - 1], tokens[|tokens| - 1];
    CountsSnoc(front, last);
    assert tokens == front + [last];
    if i == |front| {
      assert tokens[..i] + tokens[i + 1..] == front;
    } else {
      CountsWithout(front, i);
      var rest := front[..i] + front[i + 1..];
      CountsSnoc(rest, last);
      CountedSwap(Counts(rest), front[i], last);
      assert tokens[..i] + tokens[i + 1..] == rest + [last];
    }
  }

  lemma {:induction false} CountsOfBag(a: seq<string>, b: seq<string>)
    requires multiset(a) == multiset(b)
    ensures Counts(a) == Counts(b)
    decreases |a|
  {
    hide Counted;
    if a == [] {
      assert |multiset(b)| == |b|;
    } else {
      var front, last := a[..|a| - 1], a[|a| - 1];
      var i := WithoutOne(a, b);
      CountsOfBag(front, b[..i] + b[i + 1..]);
      CountsWithout(b, i);
    }
  }

  /** Where the last of one list stands in a list of the same bag. */
  lemma WithoutOne<T>(a: seq<T>, b: seq<T>) returns (i: nat)
    requires a != [] && multiset(a) == multiset(b)
    ensures i < |b| && b[i] == a[|a| - 1] && multiset(a[..|a| - 1]) == multiset(b[..i] + b[i + 1..])
  {
    var last := a[|a| - 1];
    assert last in multiset(a);
    i :| 0 <= i < |b| && b[i] == last;
    assert a == a[..|a| - 1] + [last];
    assert b == b[..i] + [last] + b[i + 1..];
    assert multiset(b[..i] + b[i + 1..]) == multiset(b) - multiset{last};
  }

  /** The shipped hashing embedder embeds bags of words. */
  lemma HashingEmbedsBags(l: Letters, root: Root)
    ensures EmbedsBags(HashEmbedder(l, root), text => Tokenize(l, text))
  {
    hide Tokenize, Counts, Normalised;
    var tok := text => Tokenize(l, text);
    forall a, b | multiset(tok(a)) == multiset(tok(b))
      ensures HashedText(l, root, a) == HashedText(l, root, b)
    {
      CountsOfBag(Tokenize(l, a), Tokenize(l, b));
    }
  }

  /** The signed counts of two lists add up, coordinate by coordinate. */
  lemma {:induction false} CountsAdd(a: seq<string>, b: seq<string>, i: nat)
    requires i < EMBED_DIM
    ensures Counts(a + b)[i] == Counts(a)[i] + Counts(b)[i]
    decreases |b|
  {
    hide Bucket, Sign;
    if b == [] {
      assert a + b == a;
    } else {
      var front, last := b[..|b| - 1], b[|b| - 1];
      assert a + b == (a + front) + [last] && b == front + [last];
      CountsAdd(a, front, i);
      CountsSnoc(a + front, last);
      CountsSnoc(front, last);
    }
  }

  /** One word counts for one, in the bucket its hash picks and with the sign its top bit picks. */
  lemma CountOfOne(t: string, i: nat)
    requires i < EMBED_DIM
    ensures var hash := Placement.Fnv1a(Placement.Utf8(t));
            Counts([t])[i] == if i != hash as nat % 128 then 0.0
                              else if hash >= 0x8000_0000_0000_0000 then 1.0 else -1.0
  {
    hide Placement.Fnv1a;
    assert [t][..0] == [];
    TopBit(Placement.Fnv1a(Placement.Utf8(t)));
  }

  lemma TopBit(hash: bv64)
    ensures (hash >> 63) & 1 == 1 <==> hash >= 0x8000_0000_0000_0000
  {
  }

  /** A text's vector is its signed counts divided by their length, or the counts themselves when
      they are all zero. */
  lemma HashedIs(l: Letters, root: Root, text: string)
    requires root.Valid()
    ensures var v, w := Counts(Tokenize(l, text)), HashEmbedder(l, root).embed(text);
            |w| == EMBED_DIM &&
            if v == Zeros(EMBED_DIM) then w == v
            else exists n: real :: n > 0.0 && n * n == Dot(v, v) && IsMultiple(v, w, n)
  {
    hide Tokenize, Counts, Dot;
    var v := Counts(Tokenize(l, text));
    DotWithSelf(v);
    var n := root.sqrt(Dot(v, v));
    RootIsZero(n);
    if v == Zeros(EMBED_DIM) {
      ZeroHasNoLength(v);
    } else {
      forall i | 0 <= i < EMBED_DIM
        ensures v[i] / n * n == v[i]
      {
      }
      assert IsMultiple(v, Normalised(root, v), n);
    }
  }

  lemma RootIsZero(n: real)
    ensures n * n == 0.0 <==> n == 0.0
  {
    var square := n * n;
    SquareIsPositive(n, square);
  }

  /** Every coordinate of v is n times that of w. */
  predicate IsMultiple(v: seq<real>, w: seq<real>, n: real) {
    |v| == |w| && forall i :: 0 <= i < |v| ==> w[i] * n == v[i]
  }

  lemma ZeroHasNoLength(v: seq<real>)
    requires v == Zeros(|v|)
    ensures Dot(v, v) == 0.0
  {
    ZeroBelow(v, |v|);
  }

  lemma {:induction false} ZeroBelow(v: seq<real>, k: nat)
    requires k <= |v| && forall i :: 0 <= i < |v| ==> v[i] == 0.0
    ensures DotBelow(v, v, k) == 0.0
  {
    if k > 0 {
      ZeroBelow(v, k - 1);
    }
  }

  // ---- the embedder contract ----

  /** Vectors of one dimension, of length one or zero. */
  ghost predicate KeepsContract(e: Embedder, dim: nat) {
    forall text :: |e.embed(text)| == dim && (Dot(e.embed(text), e.embed(text)) == 1.0 || e.embed(text) == Zeros(dim))
  }

  lemma {:induction false} DotOfScaled(v: seq<real>, n: real, square: real, k: nat)
    requires n > 0.0 && square == n * n && k <= |v|
    ensures DotBelow(Scaled(v, n), Scaled(v, n), k) * square == DotBelow(v, v, k)
  {
    if k > 0 {
      DotOfScaled(v, n, square, k - 1);
      SquareOfShare(v[k - 1], n);
      var x, y := DotBelow(Scaled(v, n), Scaled(v, n), k - 1), v[k - 1] / n;
      assert (x + y * y) * square == x * square + y * y * square;
    }
  }

  lemma SquareOfShare(x: real, n: real)
    requires n > 0.0
    ensures x / n * (x / n) * (n * n) == x * x
  {
    var y := x / n;
    assert y * n == x;
    assert y * y * (n * n) == (y * n) * (y * n);
  }

  lemma {:induction false} SquaresAddUp(v: seq<real>, k: nat)
    requires k <= |v|
    ensures DotBelow(v, v, k) >= 0.0
    ensures DotBelow(v, v, k) == 0.0 ==> forall i :: 0 <= i < k ==> v[i] == 0.0
  {
    if k > 0 {
      SquaresAddUp(v, k - 1);
      var x, y := DotBelow(v, v, k - 1), v[k - 1];
      var square := y * y;
      SquareIsPositive(y, square);
      assert DotBelow(v, v, k) == x + square;
    }
  }

  lemma DotWithSelf(v: seq<real>)
    ensures Dot(v, v) >= 0.0 && (Dot(v, v) == 0.0 ==> v == Zeros(|v|))
  {
    SquaresAddUp(v, |v|);
  }

  lemma SquareIsPositive(x: real, square: real)
    requires square == x * x
    ensures square >= 0.0 && (x != 0.0 ==> square > 0.0)
  {
    if x > 0.0 {
      ProductIsPositive(x, x, square);
    } else if x < 0.0 {
      ProductIsPositive(-x, -x, square);
    }
  }

  lemma ProductIsPositive(x: real, y: real, product: real)
    requires x > 0.0 && y > 0.0 && product == x * y
    ensures product > 0.0
  {
  }

  lemma DotScaled(v: seq<real>, n: real, square: real)
    requires n > 0.0 && square == n * n
    ensures Dot(Scaled(v, n), Scaled(v, n)) * square == Dot(v, v)
  {
    DotOfScaled(v, n, square, |v|);
  }

  lemma RootOf(root: Root, t: real) returns (n: real)
    requires root.Valid() && t >= 0.0
    ensures n == root.sqrt(t) && n >= 0.0 && t == n * n
    ensures n > 0.0 <==> t > 0.0
  {
    n := root.sqrt(t);
    SquareIsPositive(n, t);
  }

  lemma NormalisedIsUnit(root: Root, v: seq<real>)
    requires root.Valid()
    ensures Dot(Normalised(root, v), Normalised(root, v)) == 1.0 || Normalised(root, v) == Zeros(|v|)
  {
    hide Dot, Root.Valid;
    DotWithSelf(v);
    var t := Dot(v, v);
    var n := RootOf(root, t);
    if n > 0.0 {
      DotScaled(v, n, t);
      OnlyOne(Dot(Scaled(v, n), Scaled(v, n)), t);
    }
  }

  lemma OnlyOne(x: real, t: real)
    requires t != 0.0 && x * t == t
    ensures x == 1.0
  {
  }

  lemma HashingKeepsContract(l: Letters, root: Root)
    requires root.Valid()
    ensures KeepsContract(HashEmbedder(l, root), EMBED_DIM)
  {
    hide Counts, Tokenize, Normalised, Dot, Root.Valid;
    forall text: string
      ensures var v := HashedText(l, root, text); |v| == EMBED_DIM && (Dot(v, v) == 1.0 || v == Zeros(EMBED_DIM))
    {
      NormalisedIsUnit(root, Counts(Tokenize(l, text)));
    }
  }

  // ---- one document in two orders ----

  /** What the fields append to the text. */
  function Joined(fields: seq<TextField>): string {
    if fields == [] then [] else Joined(fields[..|fields| - 1]) + (" " + fields[|fields| - 1].value)
  }

  lemma {:induction false} WithJoined(text: string, fields: seq<TextField>)
    ensures WithFields(text, fields) == text + Joined(fields)
  {
    if fields != [] {
      WithJoined(text, fields[..|fields| - 1]);
    }
  }

  lemma JoinedSnoc(front: seq<TextField>, last: TextField)
    ensures Joined(front + [last]) == Joined(front) + (" " + last.value)
  {
    assert (front + [last])[..|front|] == front;
  }

  /** The two values read the same in either order. */
  ghost predicate Commute(x: TextField, y: TextField) {
    " " + x.value + " " + y.value == " " + y.value + " " + x.value
  }

  lemma CommuteReads(x: TextField, y: TextField)
    ensures Commute(x, y) <==> (" " + x.value) + (" " + y.value) == (" " + y.value) + (" " + x.value)
  {
    var gx, gy := " " + x.value, " " + y.value;
    assert gx + gy == " " + x.value + " " + y.value && gy + gx == " " + y.value + " " + x.value;
  }

  ghost predicate FieldsCommute(fields: seq<TextField>) {
    forall i, j :: 0 <= i < |fields| && 0 <= j < |fields| ==> Commute(fields[i], fields[j])
  }

  lemma {:induction false} JoinedWithout(fields: seq<TextField>, i: nat)
    requires i < |fields| && forall j :: 0 <= j < |fields| ==> Commute(fields[i], fields[j])
    ensures Joined(fields) == Joined(fields[..i] + fields[i + 1..]) + (" " + fields[i].value)
    decreases |fields|
  {
    hide Joined;
    var front, last := fields[..|fields| - 1], fields[|fields| - 1];
    JoinedSnoc(front, last);
    assert fields == front + [last];
    if i == |front| {
      assert fields[..i] + fields[i + 1..] == front;
    } else {
      JoinedWithout(front, i);
      var rest := front[..i] + front[i + 1..];
      JoinedSnoc(rest, last);
      assert fields[..i] + fields[i + 1..] == rest + [last];
      var x, y := " " + front[i].value, " " + last.value;
      CommuteReads(fields[i], last);
      assert fields[|front|] == last && x + y == y + x;
      assert Joined(rest) + x + y == Joined(rest) + (x + y) && Joined(rest) + y + x == Joined(rest) + (y + x);
    }
  }

  /** Fields that commute pairwise read the same in every order. */
  lemma {:induction false} CommutingFieldsJoin(a: seq<TextField>, b: seq<TextField>)
    requires multiset(a) == multiset(b) && FieldsCommute(a)
    ensures Joined(a) == Joined(b)
    decreases |a|
  {
    hide Commute;
    if a == [] {
      assert |multiset(b)| == |b|;
    } else {
      var front, last := a[..|a| - 1], a[|a| - 1];
      var i := WithoutOne(a, b);
      assert FieldsCommute(front);
      CommutingFieldsJoin(front, b[..i] + b[i + 1..]);
      forall j | 0 <= j < |b|
        ensures Commute(b[i], b[j])
      {
        assert b[j] in multiset(a);
        var k :| 0 <= k < |a| && a[k] == b[j];
      }
      JoinedWithout(b, i);
    }
  }

  /** Two fields brought to the end, in this order. */
  lemma BroughtToEnd(fields: seq<TextField>, i: nat, j: nat) returns (rest: seq<TextField>)
    requires i < j < |fields|
    ensures multiset(fields) == multiset(rest + [fields[i]] + [fields[j]]) == multiset(rest + [fields[j]] + [fields[i]])
  {
    rest := fields[..i] + fields[i + 1..j] + fields[j + 1..];
    assert fields == fields[..i] + [fields[i]] + fields[i + 1..j] + [fields[j]] + fields[j + 1..];
  }

  lemma EndReads(text: string, rest: seq<TextField>, x: TextField, y: TextField)
    ensures WithFields(text, rest + [x] + [y]) == text + Joined(rest) + ((" " + x.value) + (" " + y.value))
  {
    hide Joined, WithFields;
    WithJoined(text, rest + [x] + [y]);
    JoinedSnoc(rest + [x], y);
    JoinedSnoc(rest, x);
    var h, gx, gy := Joined(rest), " " + x.value, " " + y.value;
    assert text + (h + gx + gy) == text + h + (gx + gy);
  }

  lemma SameBehind<T>(head: seq<T>, a: seq<T>, b: seq<T>)
    ensures head + a == head + b <==> a == b
  {
    assert (head + a)[|head|..] == a && (head + b)[|head|..] == b;
  }

  lemma SwapReads(text: string, rest: seq<TextField>, x: TextField, y: TextField)
    ensures WithFields(text, rest + [x] + [y]) == WithFields(text, rest + [y] + [x]) <==> Commute(x, y)
  {
    hide Joined, WithFields, Commute;
    EndReads(text, rest, x, y);
    EndReads(text, rest, y, x);
    CommuteReads(x, y);
    SameBehind(text + Joined(rest), (" " + x.value) + (" " + y.value), (" " + y.value) + (" " + x.value));
  }

  function BaseText(d: FlightDocument): string {
    d.callsign + " " + d.origin + " " + d.destination + " " + d.aircraftType
  }

  lemma TextOf(d: FlightDocument, fields: seq<TextField>)
    ensures EmbeddableText(d.(text := fields)) == WithFields(BaseText(d), fields)
  {
    hide WithFields;
  }

  /** The order of two fields shows unless they commute. */
  lemma OrderShows(d: FlightDocument, i: nat, j: nat)
    requires i < j < |d.text|
    requires forall o: FlightDocument :: SameUpToTextOrder(d, o) ==> EmbeddableText(o) == EmbeddableText(d)
    ensures Commute(d.text[i], d.text[j]) && Commute(d.text[j], d.text[i])
  {
    hide Commute, EmbeddableText, BaseText;
    var x, y := d.text[i], d.text[j];
    var rest := BroughtToEnd(d.text, i, j);
    assert SameUpToTextOrder(d, d.(text := rest + [x] + [y])) && SameUpToTextOrder(d, d.(text := rest + [y] + [x]));
    TextOf(d, rest + [x] + [y]);
    TextOf(d, rest + [y] + [x]);
    SwapReads(BaseText(d), rest, x, y);
    SwapReads(BaseText(d), rest, y, x);
  }

  lemma CommutingText(d: FlightDocument, o: FlightDocument)
    requires SameUpToTextOrder(d, o) && FieldsCommute(d.text)
    ensures EmbeddableText(o) == EmbeddableText(d)
  {
    hide WithFields, Joined, FieldsCommute;
    CommutingFieldsJoin(d.text, o.text);
    WithJoined(BaseText(d), d.text);
    WithJoined(BaseText(d), o.text);
  }

  /** The text is the same in every order exactly when the field values commute pairwise. */
  lemma TextIsExact(d: FlightDocument)
    ensures (forall o: FlightDocument :: SameUpToTextOrder(d, o) ==> EmbeddableText(o) == EmbeddableText(d))
            <==> FieldsCommute(d.text)
  {
    hide Commute, EmbeddableText, SameUpToTextOrder;
    if FieldsCommute(d.text) {
      forall o: FlightDocument | SameUpToTextOrder(d, o)
        ensures EmbeddableText(o) == EmbeddableText(d)
      {
        CommutingText(d, o);
      }
    }
    if forall o: FlightDocument :: SameUpToTextOrder(d, o) ==> EmbeddableText(o) == EmbeddableText(d) {
      forall i, j | 0 <= i < |d.text| && 0 <= j < |d.text|
        ensures Commute(d.text[i], d.text[j])
      {
        if i < j {
          OrderShows(d, i, j);
        } else if j < i {
          OrderShows(d, j, i);
        } else {
          CommutesWithItself(d.text[i]);
        }
      }
    }
  }

  lemma CommutesWithItself(x: TextField)
    ensures Commute(x, x)
  {
  }

  // ---- all embedders ----

  /** A vector of length one: its first coordinate, of either sign. */
  function Axis(dim: nat, x: real): (v: seq<real>)
    requires dim > 0
    ensures |v| == dim && v[0] == x
  {
    [x] + Zeros(dim - 1)
  }

  lemma {:induction false} AxisBelow(dim: nat, x: real, k: nat)
    requires 0 < k <= dim
    ensures DotBelow(Axis(dim, x), Axis(dim, x), k) == x * x
  {
    var v := Axis(dim, x);
    if k == 1 {
      assert DotBelow(v, v, 0) == 0.0;
    } else {
      AxisBelow(dim, x, k - 1);
      assert v[k - 1] == 0.0;
    }
  }

  /** Two documents embed alike under every embedder that keeps the contract exactly when
      they have the same text. */
  lemma EveryEmbedderAgrees(a: FlightDocument, b: FlightDocument, dim: nat)
    requires dim > 0
    ensures (forall e: Embedder :: KeepsContract(e, dim) ==> VectorOf(e, a) == VectorOf(e, b))
            <==> EmbeddableText(a) == EmbeddableText(b)
  {
    hide EmbeddableText, Axis;
    if EmbeddableText(a) != EmbeddableText(b) {
      var e := Embedder(t => if t == EmbeddableText(a) then Axis(dim, 1.0) else Axis(dim, -1.0));
      AxisBelow(dim, 1.0, dim);
      AxisBelow(dim, -1.0, dim);
      assert KeepsContract(e, dim);
      assert VectorOf(e, a)[0] != VectorOf(e, b)[0];
    }
  }

  /**
   The replicas of one document embed alike under every embedder that keeps the contract,
   whatever the order of its text map, exactly when its field values commute pairwise.
   */
  lemma OrderIsExact(d: FlightDocument, dim: nat)
    requires dim > 0
    ensures (forall e: Embedder, o: FlightDocument :: KeepsContract(e, dim) && SameUpToTextOrder(d, o) ==>
               VectorOf(e, o) == VectorOf(e, d))
            <==> FieldsCommute(d.text)
  {
    hide KeepsContract, SameUpToTextOrder, FieldsCommute, EmbeddableText, VectorOf;
    TextIsExact(d);
    forall o: FlightDocument
      ensures (forall e: Embedder :: KeepsContract(e, dim) ==> VectorOf(e, o) == VectorOf(e, d))
              <==> EmbeddableText(o) == EmbeddableText(d)
    {
      EveryEmbedderAgrees(o, d, dim);
    }
  }

  /** Two fields are enough for replicas to differ. */
  lemma OrderReachesText(d: FlightDocument, dim: nat)
    requires dim > 0 && d.text == [TextField("a", "x"), TextField("b", "y")]
    ensures !FieldsCommute(d.text)
    ensures exists e: Embedder, o: FlightDocument ::
              KeepsContract(e, dim) && SameUpToTextOrder(d, o) && VectorOf(e, o) != VectorOf(e, d)
  {
    hide KeepsContract, SameUpToTextOrder, VectorOf;
    var x, y := d.text[0], d.text[1];
    assert (" " + x.value + " " + y.value)[1] == 'x' && (" " + y.value + " " + x.value)[1] == 'y';
    assert !Commute(x, y);
    OrderIsExact(d, dim);
  }

  // ---- one embedder ----

  ghost predicate OrderBlind(e: Embedder) {
    forall a: FlightDocument, b: FlightDocument :: SameUpToTextOrder(a, b) ==> VectorOf(e, a) == VectorOf(e, b)
  }

  lemma ScoresDecide(e: Embedder, a: Corpus, b: Corpus, query: seq<real>)
    requires a.Keys == b.Keys
    ensures (forall k: nat :: IdsAndScores(FlatTop(e, a, query, k)) == IdsAndScores(FlatTop(e, b, query, k))) <==>
            (forall id :: id in a ==> Dot(query, VectorOf(e, a[id])) == Dot(query, VectorOf(e, b[id])))
  {
    hide RankedValues, Dot, VectorOf;
    var x, y := Scored(e, a, query, a.Keys), Scored(e, b, query, b.Keys);
    ScoredIsKeyed(e, a, query, a.Keys);
    ScoredIsKeyed(e, b, query, b.Keys);
    if forall id :: id in a ==> Dot(query, VectorOf(e, a[id])) == Dot(query, VectorOf(e, b[id])) {
      RankedAlike(x, y, 0);
      forall k: nat
        ensures IdsAndScores(FlatTop(e, a, query, k)) == IdsAndScores(FlatTop(e, b, query, k))
      {
        StrippedTake(k, RankedValues(x));
        StrippedTake(k, RankedValues(y));
      }
    }
    if forall k: nat :: IdsAndScores(FlatTop(e, a, query, k)) == IdsAndScores(FlatTop(e, b, query, k)) {
      RankedValuesSize(x);
      RankedValuesSize(y);
      assert |x| == |a.Keys| && |y| == |a.Keys|;
      var all := |a.Keys|;
      assert IdsAndScores(FlatTop(e, a, query, all)) == IdsAndScores(FlatTop(e, b, query, all));
      assert IdsAndScores(RankedValues(x)) == IdsAndScores(RankedValues(y));
      forall id | id in a
        ensures x[id].score == y[id].score
      {
        var h := Hit(id, x[id].score, ());
        StrippedTable(x, h);
        StrippedMember(RankedValues(x), h);
        StrippedMember(RankedValues(y), h);
        StrippedTable(y, h);
      }
    }
  }

  lemma StrippedTake<T>(k: nat, hits: seq<Hit<T>>)
    ensures IdsAndScores(Take(k, hits)) == Take(k, IdsAndScores(hits))
  {
  }

  ghost predicate AnswersAgree(e: Embedder, a: Corpus, b: Corpus, query: seq<real>) {
    forall k: nat :: IdsAndScores(FlatTop(e, a, query, k)) == IdsAndScores(FlatTop(e, b, query, k))
  }

  function Coordinate(dim: nat, i: nat): (v: seq<real>)
    requires i < dim
    ensures |v| == dim && forall j :: 0 <= j < dim ==> v[j] == if j == i then 1.0 else 0.0
  {
    seq(dim, j => if j == i then 1.0 else 0.0)
  }

  lemma {:induction false} CoordinateBelow(dim: nat, i: nat, v: seq<real>, k: nat)
    requires i < dim == |v| && k <= dim
    ensures DotBelow(Coordinate(dim, i), v, k) == if i < k then v[i] else 0.0
  {
    if k > 0 {
      CoordinateBelow(dim, i, v, k - 1);
    }
  }

  /** One document on each replica and one query per coordinate tell the vectors apart. */
  lemma SingleDocumentsTell(e: Embedder, dim: nat, a: FlightDocument, b: FlightDocument)
    requires |VectorOf(e, a)| == dim == |VectorOf(e, b)| && SameUpToTextOrder(a, b)
    requires forall i: nat :: i < dim ==> AnswersAgree(e, map[a.icao24 := a], map[b.icao24 := b], Coordinate(dim, i))
    ensures VectorOf(e, a) == VectorOf(e, b)
  {
    hide VectorOf, Coordinate, FlatTop;
    var x, y := map[a.icao24 := a], map[b.icao24 := b];
    forall i: nat | i < dim
      ensures VectorOf(e, a)[i] == VectorOf(e, b)[i]
    {
      assert AnswersAgree(e, x, y, Coordinate(dim, i));
      ScoresDecide(e, x, y, Coordinate(dim, i));
      assert a.icao24 in x && x[a.icao24] == a && y[a.icao24] == b;
      CoordinateBelow(dim, i, VectorOf(e, a), dim);
      CoordinateBelow(dim, i, VectorOf(e, b), dim);
    }
  }

  /** All replicas give the same exact answers to all queries exactly when the embedder gives
      every document one vector, whatever the order of its text fields. */
  lemma AnswersAreExact(e: Embedder, dim: nat)
    requires forall text :: |e.embed(text)| == dim
    ensures (forall a: Corpus, b: Corpus, query: seq<real> ::
               Keyed(a) && Keyed(b) && SameCorpus(a, b) && |query| == dim ==> AnswersAgree(e, a, b, query))
            <==> OrderBlind(e)
  {
    hide FlatTop, Coordinate, EmbeddableText, Dot, SameUpToTextOrder;
    if OrderBlind(e) {
      forall a: Corpus, b: Corpus, query: seq<real> | Keyed(a) && Keyed(b) && SameCorpus(a, b) && |query| == dim
        ensures AnswersAgree(e, a, b, query)
      {
        ScoresDecide(e, a, b, query);
      }
    }
    if forall a: Corpus, b: Corpus, query: seq<real> ::
         Keyed(a) && Keyed(b) && SameCorpus(a, b) && |query| == dim ==> AnswersAgree(e, a, b, query) {
      forall a: FlightDocument, b: FlightDocument | SameUpToTextOrder(a, b)
        ensures VectorOf(e, a) == VectorOf(e, b)
      {
        var x, y := map[a.icao24 := a], map[b.icao24 := b];
        assert a.icao24 == b.icao24 by { SameIcao(a, b); }
        assert Keyed(x) && Keyed(y) && SameCorpus(x, y);
        SingleDocumentsTell(e, dim, a, b);
      }
    }
  }

  lemma SameIcao(a: FlightDocument, b: FlightDocument)
    requires SameUpToTextOrder(a, b)
    ensures a.icao24 == b.icao24
  {
  }

  /** An embedder of bags of words is blind to the order. */
  lemma BagsAreBlind(e: Embedder, tok: Tokenizer)
    requires SplitsAtSpaces(tok) && EmbedsBags(e, tok)
    ensures OrderBlind(e)
  {
    hide VectorOf, SameUpToTextOrder, SplitsAtSpaces, EmbedsBags;
    forall x: FlightDocument, y: FlightDocument | SameUpToTextOrder(x, y)
      ensures VectorOf(e, x) == VectorOf(e, y)
    {
      BagsIgnoreTextOrder(e, tok, x, y);
    }
  }

  /** The hashing embedder is blind to the order, so its replicas always answer alike. */
  lemma HashingAnswersAgree(l: Letters, root: Root, a: Corpus, b: Corpus, query: seq<real>)
    requires root.Valid() && !l.alnum(' ') && Keyed(a) && Keyed(b) && SameCorpus(a, b) && |query| == EMBED_DIM
    ensures OrderBlind(HashEmbedder(l, root)) && AnswersAgree(HashEmbedder(l, root), a, b, query)
  {
    hide FlatTop, VectorOf, HashEmbedder, AnswersAgree, SplitsAtSpaces, EmbedsBags, OrderBlind, Root.Valid;
    var e, tok := HashEmbedder(l, root), text => Tokenize(l, text);
    TokenizeSplits(l);
    HashingEmbedsBags(l, root);
    HashingKeepsContract(l, root);
    BagsAreBlind(e, tok);
    AnswersAreExact(e, EMBED_DIM);
  }
}
