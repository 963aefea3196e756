/** Reciprocal rank fusion of a keyword ranking and a vector ranking. */
module RankFusion {
  import opened Prelude
  import opened Ranking

  const RRF_K: real := 60.0

  /** What the hit at position i (rank i + 1) contributes. */
  function Contribution(i: nat): (c: real)
    ensures c > 0.0
  {
    1.0 / (RRF_K + (i as real + 1.0))
  }

  datatype Entry<+T> = Entry(score: real, hit: Hit<T>)
  type Fused<T> = map<string, Entry<T>>

  /** One hit folded in; a hit without an id is skipped. */
  function Bump<T>(m: Fused<T>, h: Hit<T>, i: nat, prefer: bool): Fused<T> {
    if h.id == "" then m
    else if h.id in m then
      m[h.id := Entry(m[h.id].score + Contribution(i), if prefer then h else m[h.id].hit)]
    else m[h.id := Entry(Contribution(i), h)]
  }

  function FoldList<T>(m: Fused<T>, list: seq<Hit<T>>, prefer: bool): Fused<T> {
    if list == [] then m
    else Bump(FoldList(m, list[..|list| - 1], prefer), list[|list| - 1], |list| - 1, prefer)
  }

  function FusedOf<T>(keyword: seq<Hit<T>>, vector: seq<Hit<T>>): Fused<T> {
    FoldList(FoldList(map[], keyword, true), vector, false)
  }

  /** The fused hits, each carrying its fused score under the id it was found by. */
  function HitTable<T>(m: Fused<T>): Table<T> {
    map k | k in m :: Hit(k, m[k].score, m[k].hit.item)
  }

  ghost function Fusion<T(!new)>(keyword: seq<Hit<T>>, vector: seq<Hit<T>>, limit: nat): seq<Hit<T>> {
    Limit(limit, RankedValues(HitTable(FusedOf(keyword, vector))))
  }

  // ---- the loop ----

  method FoldInto<T>(m: Fused<T>, list: seq<Hit<T>>, prefer: bool) returns (fused: Fused<T>)
    ensures fused == FoldList(m, list, prefer)
  {
    fused := m;
    for i := 0 to |list|
      invariant fused == FoldList(m, list[..i], prefer)
    {
      assert list[..i + 1][..i] == list[..i];
      var hit := list[i];
      if hit.id != "" {
        var contribution := 1.0 / (RRF_K + (i as real + 1.0));
        if hit.id in fused {
          var e := fused[hit.id];
          fused := fused[hit.id := Entry(e.score + contribution, if prefer then hit else e.hit)];
        } else {
          fused := fused[hit.id := Entry(contribution, hit)];
        }
      }
    }
    assert list[..|list|] == list;
  }

  method RrfFuse<T(!new)>(keyword: seq<Hit<T>>, vector: seq<Hit<T>>, limit: nat) returns (out: seq<Hit<T>>)
    ensures out == Fusion(keyword, vector, limit)
  {
    hide FoldList, RankedValues, Rank;
    var fused := FoldInto(map[], keyword, true);
    fused := FoldInto(fused, vector, false);
    ghost var table := HitTable(fused);
    // The values, in whatever order the hash map yields them.
    out := [];
    var keys := fused.Keys;
    while keys != {}
      invariant keys <= fused.Keys
      invariant DistinctIds(out)
      invariant forall h :: h in out <==> h.id in table && h.id !in keys && table[h.id] == h
    {
      var k :| k in keys;
      assert forall i :: 0 <= i < |out| ==> out[i] in out;
      out := out + [Hit(k, fused[k].score, fused[k].hit.item)];
      keys := keys - {k};
    }
    RankOfListing(out, table);
    out := Rank(out);
    if limit != 0 && |out| > limit {
      out := out[..limit];
    }
  }

  // ---- what a fused score is ----

  predicate Appears<T>(list: seq<Hit<T>>, id: string) {
    exists i :: 0 <= i < |list| && list[i].id == id
  }

  /** The sum of 1 / (60 + rank) over an id's appearances in a list. */
  function Score<T>(list: seq<Hit<T>>, id: string): (s: real)
    ensures s >= 0.0
  {
    if list == [] then 0.0
    else Score(list[..|list| - 1], id) + if list[|list| - 1].id == id then Contribution(|list| - 1) else 0.0
  }

  lemma AppearsSnoc<T>(list: seq<Hit<T>>, id: string)
    requires list != []
    ensures Appears(list, id) <==> Appears(list[..|list| - 1], id) || list[|list| - 1].id == id
  {
    var front := list[..|list| - 1];
    if Appears(front, id) {
      var i :| 0 <= i < |front| && front[i].id == id;
      assert list[i].id == id;
    }
  }

  lemma {:induction false} FoldScores<T>(m: Fused<T>, list: seq<Hit<T>>, prefer: bool, id: string)
    ensures var f := FoldList(m, list, prefer);
            && (id in f <==> id in m || (id != "" && Appears(list, id)))
            && (id in f && id != "" ==> f[id].score == (if id in m then m[id].score else 0.0) + Score(list, id))
  {
    hide Contribution;
    if list != [] {
      FoldScores(m, list[..|list| - 1], prefer, id);
      AppearsSnoc(list, id);
      if id !in m && !Appears(list[..|list| - 1], id) {
        NoScore(list[..|list| - 1], id);
      }
    }
  }

  lemma {:induction false} NoScore<T>(list: seq<Hit<T>>, id: string)
    requires !Appears(list, id)
    ensures Score(list, id) == 0.0
  {
    if list != [] {
      AppearsSnoc(list, id);
      NoScore(list[..|list| - 1], id);
    }
  }

  /** The fused ids are the union of the non-empty ids, and every score is the sum of both
      lists' contributions. */
  lemma FusionIsUnionOfScores<T(!new)>(keyword: seq<Hit<T>>, vector: seq<Hit<T>>)
    ensures var out := Fusion(keyword, vector, 0);
            && Ranked(out) && DistinctIds(out)
            && (forall id :: Appears(out, id) <==> id != "" && (Appears(keyword, id) || Appears(vector, id)))
            && (forall h :: h in out ==> h.score == Score(keyword, h.id) + Score(vector, h.id))
  {
    hide RankedValues, FoldList, Score;
    var f := FusedOf(keyword, vector);
    var table := HitTable(f);
    RankedValuesRank(table);
    var out := Fusion(keyword, vector, 0);
    forall id
      ensures id in f <==> id != "" && (Appears(keyword, id) || Appears(vector, id))
      ensures id in f ==> f[id].score == Score(keyword, id) + Score(vector, id)
    {
      FusedScore(keyword, vector, id);
    }
    forall id
      ensures Appears(out, id) <==> id in f
    {
      if id in f {
        assert table[id] in out;
        var i :| 0 <= i < |out| && out[i] == table[id];
        assert out[i].id == id;
      }
      if Appears(out, id) {
        var i :| 0 <= i < |out| && out[i].id == id;
        assert out[i] in out;
      }
    }
  }

  lemma FusedScore<T>(keyword: seq<Hit<T>>, vector: seq<Hit<T>>, id: string)
    ensures var f := FusedOf(keyword, vector);
            && (id in f <==> id != "" && (Appears(keyword, id) || Appears(vector, id)))
            && (id in f ==> f[id].score == Score(keyword, id) + Score(vector, id))
  {
    hide FoldList;
    var first: Fused<T> := FoldList(map[], keyword, true);
    FoldScores(map[], keyword, true, id);
    FoldScores(first, vector, false, id);
    if id != "" && !Appears(keyword, id) {
      NoScore(keyword, id);
    }
  }

  // ---- which hit is shown ----

  ghost predicate LastOf<T(!new)>(list: seq<Hit<T>>, id: string, h: Hit<T>) {
    exists i :: 0 <= i < |list| && list[i] == h && h.id == id && forall j :: i < j < |list| ==> list[j].id != id
  }

  ghost predicate FirstOf<T(!new)>(list: seq<Hit<T>>, id: string, h: Hit<T>) {
    exists i :: 0 <= i < |list| && list[i] == h && h.id == id && forall j :: 0 <= j < i ==> list[j].id != id
  }

  lemma LastOfSnoc<T(!new)>(front: seq<Hit<T>>, last: Hit<T>, id: string, h: Hit<T>)
    ensures LastOf(front + [last], id, h) <==> if last.id == id then last == h else LastOf(front, id, h)
  {
    var list := front + [last];
    assert list[|front|] == last && forall j :: 0 <= j < |front| ==> list[j] == front[j];
    if i :| 0 <= i < |front| && front[i] == h && h.id == id && forall j :: i < j < |front| ==> front[j].id != id {
      assert list[i] == h;
    }
  }

  lemma FirstOfSnoc<T(!new)>(front: seq<Hit<T>>, last: Hit<T>, id: string, h: Hit<T>)
    ensures FirstOf(front, id, h) ==> FirstOf(front + [last], id, h)
    ensures !Appears(front, id) && last.id == id ==> FirstOf(front + [last], id, last)
  {
    var list := front + [last];
    assert list[|front|] == last && forall j :: 0 <= j < |front| ==> list[j] == front[j];
    if i :| 0 <= i < |front| && front[i] == h && h.id == id && forall j :: 0 <= j < i ==> front[j].id != id {
      assert list[i] == h;
    }
  }

  lemma {:induction false} FoldShows<T(!new)>(m: Fused<T>, list: seq<Hit<T>>, prefer: bool, id: string)
    requires id != ""
    ensures var f := FoldList(m, list, prefer);
            if id in m && (!prefer || !Appears(list, id)) then id in f && f[id].hit == m[id].hit
            else if !Appears(list, id) then id !in f
            else id in f && if prefer then LastOf(list, id, f[id].hit) else FirstOf(list, id, f[id].hit)
  {
    hide Contribution, LastOf, FirstOf;
    if list != [] {
      var front, last := list[..|list| - 1], list[|list| - 1];
      FoldShows(m, front, prefer, id);
      AppearsSnoc(list, id);
      assert list == front + [last];
      var f := FoldList(m, list, prefer);
      if id in f {
        LastOfSnoc(front, last, id, f[id].hit);
        FirstOfSnoc(front, last, id, f[id].hit);
      }
    }
  }

  /** A fused hit shows the document of the keyword hit, and that of the vector hit only when the
      keyword list has none; of repeated hits the last keyword one or the first vector one. */
  lemma FusionShows<T(!new)>(keyword: seq<Hit<T>>, vector: seq<Hit<T>>, h: Hit<T>) returns (shown: Hit<T>)
    requires h in Fusion(keyword, vector, 0)
    ensures h.item == shown.item
    ensures if Appears(keyword, h.id) then LastOf(keyword, h.id, shown) else FirstOf(vector, h.id, shown)
  {
    hide RankedValues, FoldList, LastOf, FirstOf;
    var f := FusedOf(keyword, vector);
    RankedValuesRank(HitTable(f));
    assert h.id in f && h.item == f[h.id].hit.item;
    FusedScore(keyword, vector, h.id);
    shown := f[h.id].hit;
    var none: Fused<T> := map[];
    FoldShows(none, keyword, true, h.id);
    FoldShows(FoldList(none, keyword, true), vector, false, h.id);
  }

  // ---- swapping the lists ----

  /** Which list is called keyword and which vector changes neither ids, scores nor order,
      under any limit. */
  lemma FusionIsSymmetric<T(!new)>(a: seq<Hit<T>>, b: seq<Hit<T>>, limit: nat)
    ensures IdsAndScores(Fusion(a, b, limit)) == IdsAndScores(Fusion(b, a, limit))
  {
    hide RankedValues, FoldList, Score, Fusion;
    FusionIsUnionOfScores(a, b);
    FusionIsUnionOfScores(b, a);
    var x, y := Fusion(a, b, 0), Fusion(b, a, 0);
    var sx, sy := IdsAndScores(x), IdsAndScores(y);
    StrippedKeepsRank(x);
    StrippedKeepsRank(y);
    forall h
      ensures h in sx <==> h in sy
    {
      StrippedMember(x, h);
      StrippedMember(y, h);
      SharedHit(a, b, h);
      SharedHit(b, a, h);
    }
    SameMembers(sx, sy);
    RankingIsUnique(sx, sy);
    LimitedFusion(a, b, limit);
    LimitedFusion(b, a, limit);
    StrippedLimit(limit, x);
    StrippedLimit(limit, y);
  }

  lemma SharedHit<T(!new)>(a: seq<Hit<T>>, b: seq<Hit<T>>, h: Hit<()>)
    ensures (exists x :: x in Fusion(a, b, 0) && x.id == h.id && x.score == h.score) <==>
            h.id != "" && (Appears(a, h.id) || Appears(b, h.id)) && h.score == Score(a, h.id) + Score(b, h.id)
  {
    hide RankedValues, FoldList, Score, Fusion;
    FusionIsUnionOfScores(a, b);
    var out := Fusion(a, b, 0);
    if x :| x in out && x.id == h.id && x.score == h.score {
      var i :| 0 <= i < |out| && out[i] == x;
      assert Appears(out, h.id);
    }
    if Appears(out, h.id) {
      var i :| 0 <= i < |out| && out[i].id == h.id;
      assert out[i] in out;
    }
  }

  lemma LimitedFusion<T(!new)>(a: seq<Hit<T>>, b: seq<Hit<T>>, limit: nat)
    ensures Fusion(a, b, limit) == Limit(limit, Fusion(a, b, 0))
  {
  }

  // ---- agreement beats a lone top rank ----

  lemma {:induction false} ScoreAt<T>(list: seq<Hit<T>>, i: nat)
    requires i < |list| && DistinctIds(list)
    ensures Score(list, list[i].id) == Contribution(i)
    decreases |list|
  {
    hide Contribution;
    var front := list[..|list| - 1];
    assert DistinctIds(front);
    if i < |list| - 1 {
      ScoreAt(front, i);
      assert front[i] == list[i];
    } else {
      NoScore(front, list[i].id);
    }
  }

  lemma ContributionFalls(i: nat, j: nat)
    requires i <= j
    ensures Contribution(j) <= Contribution(i)
  {
    var x, y := RRF_K + (i as real + 1.0), RRF_K + (j as real + 1.0);
    assert 1.0 / y * y == 1.0 && 1.0 / x * x == 1.0;
    assert 0.0 < x <= y;
    ReciprocalFalls(x, y);
  }

  lemma ReciprocalFalls(x: real, y: real)
    requires 0.0 < x <= y
    ensures 1.0 / y <= 1.0 / x
  {
    assert 1.0 / y == x / (x * y) && 1.0 / x == y / (x * y);
  }

  lemma ReciprocalSum(x: real, y: real)
    requires x > 0.0 && y > 0.0
    ensures x * y > 0.0 && 1.0 / x + 1.0 / y == (x + y) / (x * y)
  {
    assert 1.0 / x == y / (x * y) && 1.0 / y == x / (x * y);
  }

  lemma QuotientCompares(a: real, b: real, e: real)
    requires b > 0.0 && e > 0.0
    ensures a / b > 1.0 / e <==> a * e > b
    ensures a / b == 1.0 / e <==> a * e == b
  {
    assert a / b - 1.0 / e == (a * e - b) / (b * e);
    assert b * e > 0.0;
  }

  /** Two contributions against a first place: 61 * 61 = 3721 is where the balance tips. */
  lemma Balance(i: nat, j: nat)
    ensures Contribution(i) + Contribution(j) > Contribution(0) <==> i * j < 3721
    ensures Contribution(i) + Contribution(j) == Contribution(0) <==> i * j == 3721
  {
    var x, y := RRF_K + (i as real + 1.0), RRF_K + (j as real + 1.0);
    var a, b := i as real, j as real;
    assert Contribution(i) == 1.0 / x && Contribution(j) == 1.0 / y && Contribution(0) == 1.0 / 61.0;
    ReciprocalSum(x, y);
    QuotientCompares(x + y, x * y, 61.0);
    assert x * y == 3721.0 + 61.0 * a + 61.0 * b + a * b by {
      assert x == 61.0 + a && y == 61.0 + b;
      assert (61.0 + a) * (61.0 + b) == 61.0 * 61.0 + 61.0 * b + a * 61.0 + a * b;
    }
    assert (x + y) * 61.0 == 7442.0 + 61.0 * a + 61.0 * b;
    assert (i * j) as real == a * b;
  }

  /** Found by exactly one of the lists. */
  ghost predicate Lone<T>(keyword: seq<Hit<T>>, vector: seq<Hit<T>>, id: string) {
    Appears(keyword, id) != Appears(vector, id)
  }

  /** The document at position i of one list and j of the other. */
  ghost predicate Agreed<T>(keyword: seq<Hit<T>>, vector: seq<Hit<T>>, i: nat, j: nat) {
    && DistinctIds(keyword) && DistinctIds(vector)
    && i < |keyword| && j < |vector| && keyword[i].id == vector[j].id
  }

  /** Every appearance of id in the fused list precedes every document found by only one list. */
  ghost predicate PrecedesLone<T(!new)>(keyword: seq<Hit<T>>, vector: seq<Hit<T>>, id: string) {
    var out := Fusion(keyword, vector, 0);
    forall p, q :: 0 <= p < |out| && 0 <= q < |out| && out[p].id == id && Lone(keyword, vector, out[q].id) ==> p < q
  }

  lemma RankedBy<T>(out: seq<Hit<T>>, p: nat, q: nat)
    requires Ranked(out) && p < |out| && q < |out| && out[p].id != out[q].id
    ensures p < q <==> Before(out[p], out[q])
  {
    hide Before;
    BeforeAntisymmetric(out[p], out[q]);
  }

  lemma LoneScore<T>(keyword: seq<Hit<T>>, vector: seq<Hit<T>>, id: string)
    requires DistinctIds(keyword) && DistinctIds(vector) && Lone(keyword, vector, id)
    ensures Score(keyword, id) + Score(vector, id) <= Contribution(0)
    ensures (keyword != [] && keyword[0].id == id) || (vector != [] && vector[0].id == id) ==>
              Score(keyword, id) + Score(vector, id) == Contribution(0)
  {
    hide Score, Contribution;
    var list, other := if Appears(keyword, id) then keyword else vector, if Appears(keyword, id) then vector else keyword;
    NoScore(other, id);
    var i :| 0 <= i < |list| && list[i].id == id;
    ScoreAt(list, i);
    ContributionFalls(0, i);
    if (keyword != [] && keyword[0].id == id) || (vector != [] && vector[0].id == id) {
      assert list != [] && list[0].id == id;
    }
  }

  lemma AgreedScore<T>(keyword: seq<Hit<T>>, vector: seq<Hit<T>>, i: nat, j: nat)
    requires Agreed(keyword, vector, i, j)
    ensures Score(keyword, keyword[i].id) + Score(vector, keyword[i].id) == Contribution(i) + Contribution(j)
    ensures Appears(keyword, keyword[i].id) && Appears(vector, keyword[i].id)
  {
    hide Score, Contribution;
    ScoreAt(keyword, i);
    ScoreAt(vector, j);
  }

  /** Against the top document of one list that the other list lacks, the product of the two
      positions decides, and at 3721 exactly the ids do. */
  lemma ProductDecides<T(!new)>(keyword: seq<Hit<T>>, vector: seq<Hit<T>>, i: nat, j: nat, lone: string, p: nat, q: nat)
    requires Agreed(keyword, vector, i, j) && Lone(keyword, vector, lone)
    requires keyword[0].id == lone || vector[0].id == lone
    requires var out := Fusion(keyword, vector, 0);
             p < |out| && out[p].id == keyword[i].id && q < |out| && out[q].id == lone
    ensures p < q <==> i * j < 3721 || (i * j == 3721 && StrLt(keyword[i].id, lone))
  {
    hide RankedValues, FoldList, Score, Contribution, Fusion, DistinctIds, Ranked, StrLt;
    FusionIsUnionOfScores(keyword, vector);
    var out := Fusion(keyword, vector, 0);
    assert out[p] in out && out[q] in out;
    AgreedScore(keyword, vector, i, j);
    LoneScore(keyword, vector, lone);
    Balance(i, j);
    RankedBy(out, p, q);
  }

  /** A document at positions i and j of the two lists, product under 3721, precedes every
      document found by only one list, whatever its position there. */
  lemma AgreementWins<T(!new)>(keyword: seq<Hit<T>>, vector: seq<Hit<T>>, i: nat, j: nat)
    requires Agreed(keyword, vector, i, j) && i * j < 3721
    ensures PrecedesLone(keyword, vector, keyword[i].id)
  {
    hide RankedValues, FoldList, Score, Contribution, Fusion, DistinctIds, Ranked, StrLt, Lone, Appears;
    FusionIsUnionOfScores(keyword, vector);
    var out, both := Fusion(keyword, vector, 0), keyword[i].id;
    assert DistinctIds(keyword) && DistinctIds(vector);
    AgreedScore(keyword, vector, i, j);
    Balance(i, j);
    forall p, q | 0 <= p < |out| && 0 <= q < |out| && out[p].id == both && Lone(keyword, vector, out[q].id)
      ensures p < q
    {
      assert out[p] in out && out[q] in out;
      assert out[q].id != both by { NotLone(keyword, vector, both); }
      LoneScore(keyword, vector, out[q].id);
      RankedBy(out, p, q);
    }
  }

  lemma NotLone<T>(keyword: seq<Hit<T>>, vector: seq<Hit<T>>, id: string)
    requires Appears(keyword, id) && Appears(vector, id)
    ensures !Lone(keyword, vector, id)
  {
  }

  // ---- lists on which agreement does not win ----

  function Tag(n: nat): (id: string)
    ensures |id| == n + 1
  {
    seq(n + 1, i => 'x')
  }

  /** Documents with consecutive tags before position i, and the agreed document there. */
  function Beaten<T>(item: T, i: nat, from: nat, both: nat): (list: seq<Hit<T>>)
    ensures |list| == i + 1
    ensures forall k :: 0 <= k < i ==> list[k] == Hit(Tag(from + k), 0.0, item)
    ensures list[i] == Hit(Tag(both), 0.0, item)
  {
    seq(i, k requires 0 <= k < i => Hit(Tag(from + k), 0.0, item)) + [Hit(Tag(both), 0.0, item)]
  }

  lemma ShorterTagFirst(m: nat, n: nat)
    requires m < n
    ensures StrLt(Tag(m), Tag(n)) && !StrLt(Tag(n), Tag(m))
    decreases m
  {
    StrLtAntisymmetric(Tag(m), Tag(n));
    if m == 0 {
      assert Tag(m)[1..] == [] && Tag(n)[1..] != [];
    } else {
      ShorterTagFirst(m - 1, n - 1);
      assert Tag(m)[1..] == Tag(m - 1) && Tag(n)[1..] == Tag(n - 1);
    }
  }

  /** From product 3721 on there are lists on which a lone top document comes first. */
  lemma AgreementLoses<T(!new)>(item: T, i: nat, j: nat)
    requires i * j >= 3721
    ensures var keyword, vector := Beaten(item, i, 0, i + j + 1), Beaten(item, j, 1, i + j + 1);
            && Agreed(keyword, vector, i, j) && keyword[i].id != ""
            && !PrecedesLone(keyword, vector, keyword[i].id)
  {
    hide RankedValues, FoldList, Score, Contribution, Fusion, Ranked, StrLt, Beaten, Tag;
    var keyword, vector := Beaten(item, i, 0, i + j + 1), Beaten(item, j, 1, i + j + 1);
    assert i > 0 && j > 0;
    BeatenIsDistinct(item, i, 0, i + j + 1);
    BeatenIsDistinct(item, j, 1, i + j + 1);
    var both, lone := keyword[i].id, keyword[0].id;
    assert |lone| == 1 && |both| == i + j + 2;
    assert Appears(keyword, lone) && Appears(keyword, both) && Appears(vector, both) by {
      assert vector[j].id == both;
    }
    assert !Appears(vector, lone);
    FusionIsUnionOfScores(keyword, vector);
    var out := Fusion(keyword, vector, 0);
    assert Appears(out, both) && Appears(out, lone);
    var p :| 0 <= p < |out| && out[p].id == both;
    var q :| 0 <= q < |out| && out[q].id == lone;
    ShorterTagFirst(0, i + j + 1);
    ProductDecides(keyword, vector, i, j, lone, p, q);
  }

  lemma BeatenIsDistinct<T>(item: T, i: nat, from: nat, both: nat)
    requires from + i <= both
    ensures DistinctIds(Beaten(item, i, from, both))
  {
    hide Beaten, Tag;
    var list := Beaten(item, i, from, both);
    forall a, b | 0 <= a < b < |list|
      ensures list[a].id != list[b].id
    {
      assert |list[a].id| != |list[b].id|;
    }
  }

  /** Agreement at positions i and j (from zero) wins on all lists exactly when i * j < 3721:
      within rank 61 of both lists always, at rank 62 of both no longer. */
  lemma AgreementIsExact<T(!new)>(item: T, i: nat, j: nat)
    ensures (forall keyword: seq<Hit<T>>, vector: seq<Hit<T>> :: Agreed(keyword, vector, i, j) ==>
               PrecedesLone(keyword, vector, keyword[i].id)) <==> i * j < 3721
  {
    hide PrecedesLone, Agreed, Beaten;
    if i * j < 3721 {
      forall keyword: seq<Hit<T>>, vector: seq<Hit<T>> | Agreed(keyword, vector, i, j)
        ensures i < |keyword| && PrecedesLone(keyword, vector, keyword[i].id)
      {
        AgreedBounds(keyword, vector, i, j);
        AgreementWins(keyword, vector, i, j);
      }
    } else {
      AgreementLoses(item, i, j);
    }
  }

  lemma AgreedBounds<T>(keyword: seq<Hit<T>>, vector: seq<Hit<T>>, i: nat, j: nat)
    requires Agreed(keyword, vector, i, j)
    ensures i < |keyword| && j < |vector|
  {
  }
}
