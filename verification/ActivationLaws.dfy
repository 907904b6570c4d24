/** Why exactness needs damped strengths: the bound on a hop's factor is tight. */
module ActivationLaws {
  import opened Common
  import opened Notes
  import opened CanonicalReader
  import opened ReaderLaws
  import opened Results
  import opened ActivationGraph
  import opened Activation
  import opened SpreadActivation

  /** Everything exactness asks for except that hops are damped. */
  predicate ExactUpToDamping(g: Graph) {
    && ValidTable(g.notes) && DistinctResultIds(g.direct) && Idempotent(g.notes)
    && forall r <- g.direct :: OwnHead(g, r.id)
  }

  /** Some repeat-free walk of no more hops reaches the same note with at least the same score. */
  ghost predicate SimplyMatched(g: Graph, w: Walk) {
    exists v :: SimpleMatch(g, v, w)
  }

  predicate SimpleMatch(g: Graph, v: Walk, w: Walk) {
    Valid(g, v) && End(g, v) == End(g, w) && NoRepeats(Path(g, v)) && Depth(v) <= Depth(w) && Score(v) >= Score(w)
  }

  /** No relation is stronger than `s`. */
  predicate Within(g: Graph, s: real) {
    forall e <- g.relations :: e.strength <= s
  }

  function Plain(id: string): NoteRow {
    Witness(id, None, None)
  }

  /** a - b with strength 1, b - c with strength s; only a is a direct result. */
  function Triangle(s: real): Graph {
    Graph([Plain("a"), Plain("b"), Plain("c")],
          [Relation("a", "b", "supports", 1.0), Relation("b", "c", "supports", s)],
          (id: string) => [], true, false,
          Params(false, None, None, None, None, true, true),
          [SearchResult("a", "", FACT_LAYER, None, 1.0, None, None, None, None, None, true, None)], {})
  }

  lemma TriangleResolves(s: real, row: NoteRow)
    requires row in Triangle(s).notes
    ensures Resolve(Triangle(s).notes, row) == row
  {
  }

  /** Every edge of the graph is one of its two relations, read in one of the two directions. */
  lemma TriangleEdge(s: real, source: string, nb: Neighbor)
    requires nb in Neighbors(Triangle(s), source)
    ensures nb.note in Triangle(s).notes && HeadAt(Triangle(s), nb) == nb.note
    ensures nb.note.id == "b" ==> (source == "a" && nb.strength == 1.0) || source == "c"
    ensures nb.note.id == "c" ==> source == "b"
  {
    var g := Triangle(s);
    TriangleResolves(s, nb.note);
    var both := JoinRelations(g.notes, g.relations, source, true) + JoinRelations(g.notes, g.relations, source, false);
    assert nb in both;
  }

  lemma LoopRepeats(g: Graph, v: Walk)
    requires v.Hop? && v.prefix.Hop? && End(g, v.prefix.prefix) == End(g, v)
    ensures !NoRepeats(Path(g, v))
  {
    var p := v.prefix;
    var q, path := Path(g, p.prefix), Path(g, v);
    assert Path(g, p) == q + [End(g, p)];
    assert path == Path(g, p) + [End(g, v)];
    assert path[|q| - 1] == path[|path| - 1];
  }

  lemma SimpleWalksToB(s: real, v: Walk)
    requires Valid(Triangle(s), v) && End(Triangle(s), v) == "b" && NoRepeats(Path(Triangle(s), v))
    ensures Score(v) == Offer(1.0, 1.0)
  {
    var g := Triangle(s);
    hide Neighbors, Resolve;
    var p := v.prefix;
    TriangleEdge(s, End(g, p), v.via);
    if End(g, p) == "c" {
      HopEndsOffDirect(g, p);
      TriangleEdge(s, End(g, p.prefix), p.via);
      LoopRepeats(g, v);
      assert false;
    }
    HopEndsOffDirect(g, p);
  }

  lemma TriangleEdges(s: real, ab: Neighbor, bc: Neighbor, cb: Neighbor)
    requires s > STRENGTH_THRESHOLD
    requires ab == Neighbor("a", "supports", 1.0, None, Plain("b"))
    requires bc == Neighbor("b", "supports", s, None, Plain("c"))
    requires cb == Neighbor("c", "supports", s, None, Plain("b"))
    ensures ab in Neighbors(Triangle(s), "a") && bc in Neighbors(Triangle(s), "b") && cb in Neighbors(Triangle(s), "c")
  {
    var g := Triangle(s);
    var e0, e1 := g.relations[0], g.relations[1];
    assert g.relations[1..] == [e1] && [e1][1..] == [];
    assert Find(g.notes, "b") == Some(Plain("b")) && Find(g.notes, "c") == Some(Plain("c"));
    assert ab in JoinRelations(g.notes, g.relations, "a", true);
    assert bc in JoinRelations(g.notes, [e1], "b", true) && bc in JoinRelations(g.notes, g.relations, "b", true);
    assert cb in JoinRelations(g.notes, [e1], "c", false) && cb in JoinRelations(g.notes, g.relations, "c", false);
  }

  lemma TriangleAdmits(s: real)
    ensures Admits(Triangle(s), Plain("b")) && Admits(Triangle(s), Plain("c"))
    ensures forall id <- ["a", "b", "c"] :: Trusted(Triangle(s).notes, id)
  {
    var g := Triangle(s);
    assert Find(g.notes, "a") == Some(Plain("a")) && Find(g.notes, "b") == Some(Plain("b"))
        && Find(g.notes, "c") == Some(Plain("c"));
  }

  lemma OneHop(g: Graph, p: Walk, nb: Neighbor) returns (w: Walk)
    requires Valid(g, p) && Trusted(g.notes, End(g, p)) && nb in Neighbors(g, End(g, p)) && Admits(g, HeadAt(g, nb))
    ensures Valid(g, w) && End(g, w) == HeadAt(g, nb).id && Depth(w) == Depth(p) + 1
    ensures Score(w) == Offer(Score(p), nb.strength)
    ensures w == Hop(p, nb)
  {
    w := Hop(p, nb);
  }

  lemma DetourIsValid(s: real) returns (w: Walk)
    requires s > STRENGTH_THRESHOLD
    ensures Valid(Triangle(s), w) && End(Triangle(s), w) == "b" && Depth(w) == 3
    ensures Score(w) == Offer(Offer(Offer(1.0, 1.0), s), s)
  {
    var g := Triangle(s);
    var ab := Neighbor("a", "supports", 1.0, None, Plain("b"));
    var bc := Neighbor("b", "supports", s, None, Plain("c"));
    var cb := Neighbor("c", "supports", s, None, Plain("b"));
    TriangleEdges(s, ab, bc, cb);
    TriangleAdmits(s);
    TriangleResolves(s, ab.note);
    TriangleResolves(s, bc.note);
    var root := g.direct[0];
    assert root in g.direct && root.id == "a" && root.score == 1.0;
    hide Triangle, Neighbors, Resolve, Admits, Trusted, Offer;
    w := ThreeHops(g, root, ab, bc, cb);
  }

  lemma ThreeHops(g: Graph, root: SearchResult, ab: Neighbor, bc: Neighbor, cb: Neighbor) returns (w: Walk)
    requires root in g.direct && Trusted(g.notes, root.id) && ab in Neighbors(g, root.id) && Admits(g, HeadAt(g, ab))
    requires Trusted(g.notes, HeadAt(g, ab).id) && bc in Neighbors(g, HeadAt(g, ab).id) && Admits(g, HeadAt(g, bc))
    requires Trusted(g.notes, HeadAt(g, bc).id) && cb in Neighbors(g, HeadAt(g, bc).id) && Admits(g, HeadAt(g, cb))
    ensures Valid(g, w) && End(g, w) == HeadAt(g, cb).id && Depth(w) == 3
    ensures Score(w) == Offer(Offer(Offer(root.score, ab.strength), bc.strength), cb.strength)
  {
    hide Neighbors, Resolve, Admits, Trusted, Offer, HeadAt;
    w := Start(root);
    w := OneHop(g, w, ab);
    w := OneHop(g, w, bc);
    w := OneHop(g, w, cb);
  }

  lemma DetourScore(s: real)
    requires s * WEIGHT > 1.0
    ensures Offer(Offer(Offer(1.0, 1.0), s), s) > Offer(1.0, 1.0) > 0.0
  {
    var f := s * WEIGHT;
    assert Offer(Offer(Offer(1.0, 1.0), s), s) == 0.3 * (f * f);
    assert f * f > 1.0;
  }

  lemma SelfResolved(g: Graph)
    requires forall row <- g.notes :: Resolve(g.notes, row) == row
    ensures Idempotent(g.notes) && forall r <- g.direct :: OwnHead(g, r.id)
  {
    hide Resolve;
  }

  lemma TriangleIsExactUpToDamping(s: real)
    requires s >= 1.0
    ensures ExactUpToDamping(Triangle(s)) && Within(Triangle(s), s)
  {
    var g := Triangle(s);
    forall row <- g.notes ensures Resolve(g.notes, row) == row { TriangleResolves(s, row); }
    SelfResolved(g);
    hide Resolve, Idempotent, OwnHead;
  }

  /** Above the bound the detour a, b, c, b beats the only repeat-free walk to b. */
  lemma UndampedLosesWalk(s: real)
    requires s * WEIGHT > 1.0
    ensures !NoLoss(s)
  {
    var g := Triangle(s);
    TriangleIsExactUpToDamping(s);
    var w := DetourIsValid(s);
    DetourScore(s);
    hide Valid, Path, ExactUpToDamping, Within, Triangle, Offer;
    forall v ensures !SimpleMatch(g, v, w) {
      if SimpleMatch(g, v, w) { SimpleWalksToB(s, v); }
    }
    assert Reaches(g, w);
  }

  /** The part of a repeat-free walk that ends at a note it visits off the direct results. */
  lemma {:induction false} CutAt(g: Graph, v: Walk, id: string) returns (u: Walk)
    requires Damped(g) && Valid(g, v) && Score(v) > 0.0 && NoRepeats(Path(g, v)) && id in Path(g, v)
    ensures Valid(g, u) && End(g, u) == id && NoRepeats(Path(g, u)) && Depth(u) <= Depth(v) && Score(u) >= Score(v)
  {
    hide Offer, Neighbors, Admits, Trusted, HeadAt, Resolve, Damped;
    if End(g, v) == id {
      u := v;
    } else {
      OfferPositive(Score(v.prefix), v.via.strength);
      NeighborDamped(g, End(g, v.prefix), v.via);
      OfferShrinks(Score(v.prefix), v.via.strength);
      assert NoRepeats(Path(g, v.prefix)) by {
        assert Path(g, v)[..|Path(g, v)| - 1] == Path(g, v.prefix);
      }
      u := CutAt(g, v.prefix, id);
    }
  }

  /** Loop removal: when hops are damped, a walk never beats every repeat-free one. */
  lemma {:induction false} LoopsLoseNothing(g: Graph, w: Walk)
    requires Damped(g) && Valid(g, w) && Score(w) > 0.0
    ensures SimplyMatched(g, w)
  {
    if w.Start? {
      assert SimpleMatch(g, w, w);
    } else {
      OfferPositive(Score(w.prefix), w.via.strength);
      LoopsLoseNothing(g, w.prefix);
      var v :| SimpleMatch(g, v, w.prefix);
      MatchOneHop(g, v, w);
    }
  }

  lemma MatchOneHop(g: Graph, v: Walk, w: Walk)
    requires Damped(g) && Valid(g, w) && w.Hop? && Score(w.prefix) > 0.0
    requires SimpleMatch(g, v, w.prefix)
    ensures SimplyMatched(g, w)
  {
    hide Offer, Neighbors, Admits, Trusted, HeadAt, Resolve, Damped, IsDirect;
    var head, nb := HeadAt(g, w.via).id, w.via;
    var from := End(g, w.prefix);
    if head in Path(g, v) {
      NeighborDamped(g, from, nb);
      OfferShrinks(Score(w.prefix), nb.strength);
      var u := CutAt(g, v, head);
      assert SimpleMatch(g, u, w);
    } else {
      OfferMonotone(Score(v), Score(w.prefix), nb.strength);
      var u := OneHop(g, v, nb);
      assert SimpleMatch(g, u, w);
    }
  }

  /** In every graph whose relations are no stronger than `s`, the path check costs no walk its score. */
  ghost predicate NoLoss(s: real) {
    forall g, w | ExactUpToDamping(g) && Within(g, s) && Reaches(g, w) :: SimplyMatched(g, w)
  }

  /** Refusing repeats is harmless for all graphs of strength up to `s` iff 0.3 s <= 1. */
  lemma NoLossExactly(s: real)
    ensures NoLoss(s) <==> s * WEIGHT <= 1.0
  {
    if s * WEIGHT <= 1.0 {
      forall g, w | ExactUpToDamping(g) && Within(g, s) && Reaches(g, w) ensures SimplyMatched(g, w) {
        LoopsLoseNothing(g, w);
      }
    } else {
      UndampedLosesWalk(s);
    }
  }

  // ---- what the search returns ----

  lemma TriangleStarts(s: real, v: Walk)
    requires Valid(Triangle(s), v)
    ensures v.Start? ==> End(Triangle(s), v) == "a"
  {
  }

  lemma PrefixIsSimple(g: Graph, v: Walk)
    requires v.Hop? && NoRepeats(Path(g, v))
    ensures NoRepeats(Path(g, v.prefix))
  {
    assert Path(g, v)[..|Path(g, v)| - 1] == Path(g, v.prefix);
  }

  lemma SimpleWalksToC(s: real, v: Walk)
    requires Valid(Triangle(s), v) && End(Triangle(s), v) == "c" && NoRepeats(Path(Triangle(s), v))
    ensures Score(v) == Offer(Offer(1.0, 1.0), s)
  {
    var g := Triangle(s);
    TriangleStarts(s, v);
    hide Neighbors, Resolve, Triangle, Admits, Trusted, Offer;
    var p := v.prefix;
    TriangleEdge(s, End(g, p), v.via);
    assert End(g, p) == "b";
    PrefixIsSimple(g, v);
    SimpleWalksToB(s, p);
    TriangleStrength(s, v.via);
  }

  /** The edge into c carries the strength of the second relation. */
  lemma TriangleStrength(s: real, nb: Neighbor)
    requires nb in Neighbors(Triangle(s), "b") && nb.note.id == "c"
    ensures nb.strength == s
  {
    var g := Triangle(s);
    var out, into := JoinRelations(g.notes, g.relations, "b", true), JoinRelations(g.notes, g.relations, "b", false);
    assert nb in out + into;
    JoinRelationsExactly(g.notes, g.relations, "b", true, nb);
    JoinRelationsExactly(g.notes, g.relations, "b", false, nb);
  }

  lemma TriangleEnds(s: real, w: Walk)
    requires Valid(Triangle(s), w) && w.Hop?
    ensures End(Triangle(s), w) in {"b", "c"}
  {
    TriangleEdge(s, End(Triangle(s), w.prefix), w.via);
    HopEndsOffDirect(Triangle(s), w);
    hide Neighbors, Resolve;
  }

  /** Whatever the search appends on the triangle scores below the detour to b. */
  lemma AppendedIsBelowDetour(s: real, a: SearchResult)
    requires s * WEIGHT > 1.0 && Explained(Triangle(s), a, MAX_HOPS)
    ensures a.score < Offer(Offer(Offer(1.0, 1.0), s), s)
  {
    var g := Triangle(s);
    var v :| Explains(g, v, a, MAX_HOPS);
    TriangleEnds(s, v);
    if End(g, v) == "b" { SimpleWalksToB(s, v); } else { SimpleWalksToC(s, v); }
    DetourScore(s);
    DetourBeatsC(s);
    hide Offer, Valid, Path, Triangle, End;
  }

  lemma DetourBeatsC(s: real)
    requires s * WEIGHT > 1.0
    ensures Offer(Offer(1.0, 1.0), s) < Offer(Offer(Offer(1.0, 1.0), s), s)
  {
    var f := s * WEIGHT;
    assert Offer(Offer(1.0, 1.0), s) == 0.3 * f && Offer(Offer(Offer(1.0, 1.0), s), s) == 0.3 * (f * f);
    assert f * f > f;
  }

  lemma BetterWalkRefutes(g: Graph, appended: seq<SearchResult>, full: bool, w: Walk)
    requires Reaches(g, w) && forall a <- appended :: a.score < Score(w)
    requires full ==> appended != []
    ensures !Optimal(g, appended, full)
  {
    hide Valid, Score, End, Depth;
    if full {
      assert appended[0] in appended;
    }
  }

  lemma ContractExplains(g: Graph, limit: nat, results: seq<SearchResult>)
    requires SpreadContract(g, limit, results)
    ensures |g.direct| <= |results| && forall a <- results[|g.direct|..] :: Explained(g, a, MAX_HOPS)
  {
    hide Explained, Exact, Optimal;
  }

  /** Above the bound no answer of the search is optimal: the detour beats every note it can append. */
  lemma UndampedSearchIsNotOptimal(s: real, limit: nat, results: seq<SearchResult>)
    requires s * WEIGHT > 1.0 && limit >= 2 && SpreadContract(Triangle(s), limit, results)
    ensures !Optimal(Triangle(s), results[1..], |results| >= limit)
  {
    var g := Triangle(s);
    assert |g.direct| == 1;
    ContractExplains(g, limit, results);
    var w := DetourIsValid(s);
    DetourScore(s);
    hide Valid, Triangle, Offer, Score, Explained, SpreadContract, Optimal, End;
    forall a <- results[1..] ensures a.score < Score(w) {
      AppendedIsBelowDetour(s, a);
    }
    BetterWalkRefutes(g, results[1..], |results| >= limit, w);
  }

  /** The answer a, c, b: both notes found, each by its repeat-free walk. */
  lemma TriangleAnswer(s: real) returns (results: seq<SearchResult>)
    requires s * WEIGHT > 1.0
    ensures SpreadContract(Triangle(s), 3, results) && |results| == 3
  {
    var g := Triangle(s);
    var ab := Neighbor("a", "supports", 1.0, None, Plain("b"));
    var bc := Neighbor("b", "supports", s, None, Plain("c"));
    TriangleEdges(s, ab, bc, Neighbor("c", "supports", s, None, Plain("b")));
    TriangleAdmits(s);
    TriangleResolves(s, ab.note);
    TriangleResolves(s, bc.note);
    TriangleIsUndamped(s);
    CBeatsB(s);
    assert g.direct[0] in g.direct && g.direct[0].id == "a" && g.direct[0].score == 1.0;
    hide Neighbors, Resolve, Admits, Trusted, Triangle, Offer;
    results := TwoFound(g, ab, bc);
  }

  lemma TriangleIsUndamped(s: real)
    requires s * WEIGHT > 1.0
    ensures !Damped(Triangle(s))
  {
    var e := Triangle(s).relations[1];
    assert e in Triangle(s).relations;
  }

  /** Two hops in a row, the second raising the score: the farther note first, as the ranking has it. */
  lemma TwoFound(g: Graph, ab: Neighbor, bc: Neighbor) returns (results: seq<SearchResult>)
    requires |g.direct| == 1 && !Damped(g)
    requires Trusted(g.notes, g.direct[0].id) && ab in Neighbors(g, g.direct[0].id) && Admits(g, HeadAt(g, ab))
    requires Trusted(g.notes, HeadAt(g, ab).id) && bc in Neighbors(g, HeadAt(g, ab).id) && Admits(g, HeadAt(g, bc))
    requires HeadAt(g, ab) == ab.note && HeadAt(g, bc) == bc.note && ab.note.id != bc.note.id
    requires Offer(Offer(g.direct[0].score, ab.strength), bc.strength) > Offer(g.direct[0].score, ab.strength) > 0.0
    ensures SpreadContract(g, 3, results) && |results| == 3
  {
    var root := g.direct[0];
    assert root in g.direct;
    hide Neighbors, Resolve, HeadAt, Trusted, Offer, Damped, PassesFilters;
    var toB := OneHop(g, Start(root), ab);
    var toC := OneHop(g, toB, bc);
    TwoHopPath(g, root, ab, bc);
    hide Admits, Path, NoRepeats, Depth, Valid, PassesGuards;
    FoundIsExplained(g, toB);
    FoundIsExplained(g, toC);
    results := [root, Associated(g, toC), Associated(g, toB)];
    RankedBehindRoot(g, results[1], results[2]);
  }

  lemma TwoHopPath(g: Graph, root: SearchResult, ab: Neighbor, bc: Neighbor)
    requires root in g.direct && !IsDirect(g, HeadAt(g, ab).id) && !IsDirect(g, HeadAt(g, bc).id)
    requires HeadAt(g, ab) == ab.note && HeadAt(g, bc) == bc.note && ab.note.id != bc.note.id
    ensures PassesGuards(g, Hop(Start(root), ab)) && PassesGuards(g, Hop(Hop(Start(root), ab), bc))
    ensures NoRepeats(Path(g, Hop(Start(root), ab))) && NoRepeats(Path(g, Hop(Hop(Start(root), ab), bc)))
    ensures Depth(Hop(Start(root), ab)) == 1 && Depth(Hop(Hop(Start(root), ab), bc)) == 2
  {
    hide HeadAt;
    assert Path(g, Hop(Hop(Start(root), ab), bc)) == [root.id, HeadAt(g, ab).id, HeadAt(g, bc).id];
  }

  /** Two explained notes in score order behind the one direct result make a full answer of three. */
  lemma RankedBehindRoot(g: Graph, c: SearchResult, b: SearchResult)
    requires |g.direct| == 1 && !Damped(g) && c.score >= b.score && c.id != b.id
    requires Explained(g, c, MAX_HOPS) && !IsDirect(g, c.id) && Explained(g, b, MAX_HOPS) && !IsDirect(g, b.id)
    ensures SpreadContract(g, 3, [g.direct[0], c, b])
  {
    hide Explained, Damped, Optimal;
    assert g.direct[0] in g.direct;
    assert [g.direct[0], c, b][1..] == [c, b];
  }

  lemma FoundIsExplained(g: Graph, w: Walk)
    requires w.Hop? && Valid(g, w) && Depth(w) <= MAX_HOPS && Score(w) > 0.0
    requires NoRepeats(Path(g, w)) && PassesGuards(g, w)
    ensures var a := Associated(g, w);
            Explained(g, a, MAX_HOPS) && a.id == End(g, w) && a.score == Score(w) && !IsDirect(g, a.id)
  {
    hide Valid, Score, NoRepeats, Admits, PassesGuards;
    assert Explains(g, w, Associated(g, w), MAX_HOPS);
    HopEndsOffDirect(g, w);
  }

  lemma CBeatsB(s: real)
    requires s * WEIGHT > 1.0
    ensures Offer(Offer(1.0, 1.0), s) > Offer(1.0, 1.0) > 0.0
  {
    assert Offer(Offer(1.0, 1.0), s) == 0.3 * (s * WEIGHT);
  }

  /** On every graph whose relations are no stronger than `s`, whatever the search returns is optimal. */
  ghost predicate AlwaysOptimal(s: real) {
    forall g, limit, results | ExactUpToDamping(g) && Within(g, s) && SpreadContract(g, limit, results) ::
      Optimal(g, results[|g.direct|..], |results| >= limit)
  }

  /** The bound is exact: the search is optimal on all graphs of strength up to `s` iff 0.3 s <= 1. */
  lemma DampingBoundIsTight(s: real)
    ensures AlwaysOptimal(s) <==> s * WEIGHT <= 1.0
  {
    hide Optimal;
    if s * WEIGHT <= 1.0 {
      forall g, limit, results | ExactUpToDamping(g) && Within(g, s) && SpreadContract(g, limit, results)
        ensures Optimal(g, results[|g.direct|..], |results| >= limit)
      {
        assert Exact(g);
      }
    } else {
      TriangleIsExactUpToDamping(s);
      var results := TriangleAnswer(s);
      UndampedSearchIsNotOptimal(s, 3, results);
      assert |Triangle(s).direct| == 1;
      hide ExactUpToDamping, Within, SpreadContract, Triangle;
    }
  }

  // ---- why resolution must be idempotent ----

  /**
   * a - s and h - c, where the stale s resolves to h by its topic and h itself resolves on to g, a newer head of its
   * root; only a is a direct result.
   */
  function Shadowed(): Graph {
    Graph([Plain("a"), STALE_NOTE, TOPIC_HEAD, ROOT_HEAD, Plain("c")],
          [Relation("a", "s", "supports", 1.0), Relation("h", "c", "supports", 1.0)],
          (id: string) => [], true, false,
          Params(false, None, None, None, None, true, true),
          [SearchResult("a", "", FACT_LAYER, None, 1.0, None, None, None, None, None, true, None)], {})
  }

  lemma ShadowedTable()
    ensures var t := Shadowed().notes;
            && ValidTable(t) && |t| == 5
            && t[0] == Plain("a") && t[1] == STALE_NOTE && t[2] == TOPIC_HEAD && t[3] == ROOT_HEAD && t[4] == Plain("c")
            && forall row :: row in t <==> row in {Plain("a"), STALE_NOTE, TOPIC_HEAD, ROOT_HEAD, Plain("c")}
  {
    ShadowedIds();
    FiveRows(Shadowed().notes, Plain("a"), STALE_NOTE, TOPIC_HEAD, ROOT_HEAD, Plain("c"));
    hide Plain, ValidTable, Witness;
  }

  lemma ShadowedIds()
    ensures Plain("a").id == "a" && STALE_NOTE.id == "s" && TOPIC_HEAD.id == "h" && ROOT_HEAD.id == "g"
    ensures Plain("c").id == "c"
  {
  }

  lemma FiveRows(t: Table, a: NoteRow, b: NoteRow, c: NoteRow, d: NoteRow, e: NoteRow)
    requires t == [a, b, c, d, e]
    requires a.id == "a" && b.id == "s" && c.id == "h" && d.id == "g" && e.id == "c"
    ensures forall row :: row in t <==> row in {a, b, c, d, e}
    ensures |t| == 5 && t[0] == a && t[1] == b && t[2] == c && t[3] == d && t[4] == e
    ensures ValidTable(t)
  {
    assert forall i | 0 <= i < |t| :: t[i].id == ["a", "s", "h", "g", "c"][i];
  }

  lemma ShadowedByTopic()
    ensures NewestHead(Shadowed().notes, TopicKey, "t") == Some(TOPIC_HEAD)
  {
    ShadowedTable();
    var t := Shadowed().notes;
    hide Shadowed, NewestHead, Newer;
    NewestHeadUnique(t, TopicKey, "t", TOPIC_HEAD);
  }

  lemma ShadowedByRoot()
    ensures NewestHead(Shadowed().notes, RootId, "r") == Some(ROOT_HEAD)
  {
    ShadowedTable();
    var t := Shadowed().notes;
    hide Shadowed, NewestHead;
    assert Newer(ROOT_HEAD, TOPIC_HEAD);
    hide Newer;
    NewestHeadUnique(t, RootId, "r", ROOT_HEAD);
  }

  lemma ShadowedHeadsAre()
    ensures var t := Shadowed().notes;
            && ValidTable(t)
            && Resolve(t, Plain("a")) == Plain("a") && Resolve(t, Plain("c")) == Plain("c")
            && Resolve(t, STALE_NOTE) == TOPIC_HEAD && Resolve(t, TOPIC_HEAD) == ROOT_HEAD
  {
    ShadowedTable();
    ShadowedByTopic();
    ShadowedByRoot();
    hide Shadowed, NewestHead, ValidTable;
    assert LineageOfRow(STALE_NOTE) == Lineage(None, Some("t"));
    assert LineageOfRow(TOPIC_HEAD) == Lineage(Some("r"), Some("t"));
    assert LineageOfRow(Plain("a")) == Lineage(None, None) && LineageOfRow(Plain("c")) == Lineage(None, None);
    hide LineageOfRow;
  }

  lemma ShadowedMeetsTheRest()
    ensures var g := Shadowed();
            && ValidTable(g.notes) && DistinctResultIds(g.direct) && Damped(g)
            && (forall r <- g.direct :: OwnHead(g, r.id))
            && !Idempotent(g.notes)
  {
    var g := Shadowed();
    ShadowedHeadsAre();
    assert STALE_NOTE in g.notes && TOPIC_HEAD.id != ROOT_HEAD.id;
    hide Resolve, ValidTable;
    forall row <- g.notes | row.id == "a" ensures HeadId(g, row) == "a" {
      assert row == Plain("a");
    }
  }

  /** Every edge of the graph is one of its two relations, read in one of the two directions. */
  lemma ShadowedEdge(source: string, nb: Neighbor)
    requires nb in Neighbors(Shadowed(), source)
    ensures (source, nb.note) in {("a", STALE_NOTE), ("s", Plain("a")), ("h", Plain("c")), ("c", TOPIC_HEAD)}
  {
    var g := Shadowed();
    ShadowedRelations();
    ShadowedRows();
    hide JoinRelations, Find, Shadowed, Neighbors, Plain, Witness;
    JoinRelationsExactly(g.notes, g.relations, source, true, nb);
    JoinRelationsExactly(g.notes, g.relations, source, false, nb);
    NeighborsAreJoined(g, source, nb);
  }

  lemma NeighborsAreJoined(g: Graph, source: string, nb: Neighbor)
    requires nb in Neighbors(g, source) && g.hasRelations && !g.hasDreams
    ensures nb in JoinRelations(g.notes, g.relations, source, true)
            || nb in JoinRelations(g.notes, g.relations, source, false)
  {
    hide JoinRelations;
  }

  lemma ShadowedRelations()
    ensures var g := Shadowed();
            && g.hasRelations && !g.hasDreams && |g.relations| == 2
            && g.relations[0] == Relation("a", "s", "supports", 1.0)
            && g.relations[1] == Relation("h", "c", "supports", 1.0)
            && forall e :: e in g.relations <==> e in {g.relations[0], g.relations[1]}
  {
  }

  lemma ShadowedRows()
    ensures var t := Shadowed().notes;
            && Find(t, "a") == Some(Plain("a")) && Find(t, "s") == Some(STALE_NOTE) && Find(t, "h") == Some(TOPIC_HEAD)
            && Find(t, "g") == Some(ROOT_HEAD) && Find(t, "c") == Some(Plain("c"))
  {
    ShadowedTable();
    var t := Shadowed().notes;
    hide Shadowed, Find;
    forall row <- t ensures Find(t, row.id) == Some(row) { FindOwn(t, row); }
    hide ValidTable;
    assert Plain("a") in t && STALE_NOTE in t && TOPIC_HEAD in t && ROOT_HEAD in t && Plain("c") in t;
  }

  lemma ShadowedEdges(toS: Neighbor, toC: Neighbor, toH: Neighbor)
    requires toS == Neighbor("a", "supports", 1.0, None, STALE_NOTE)
    requires toC == Neighbor("h", "supports", 1.0, None, Plain("c"))
    requires toH == Neighbor("c", "supports", 1.0, None, TOPIC_HEAD)
    ensures var g := Shadowed(); toS in Neighbors(g, "a") && toC in Neighbors(g, "h") && toH in Neighbors(g, "c")
  {
    var g := Shadowed();
    ShadowedRows();
    assert g.relations[0] in g.relations && g.relations[1] in g.relations;
    JoinRelationsExactly(g.notes, g.relations, "a", true, toS);
    JoinRelationsExactly(g.notes, g.relations, "h", true, toC);
    JoinRelationsExactly(g.notes, g.relations, "c", false, toH);
    assert Joins(g.notes, g.relations[0], "a", true, toS);
    assert Joins(g.notes, g.relations[1], "h", true, toC);
    assert Joins(g.notes, g.relations[1], "c", false, toH);
    hide JoinRelations, Find, Joins;
  }

  lemma ShadowedAdmits()
    ensures var g := Shadowed();
            && Admits(g, TOPIC_HEAD) && Admits(g, ROOT_HEAD) && Admits(g, Plain("c"))
            && Trusted(g.notes, "a") && Trusted(g.notes, "h") && Trusted(g.notes, "c")
  {
    ShadowedRows();
    hide Find;
  }

  /** The walk a, h, c, g follows the edge back to h and on to what h resolves to. */
  lemma ShadowedWalk() returns (w: Walk)
    ensures Reaches(Shadowed(), w) && End(Shadowed(), w) == "g"
  {
    var g := Shadowed();
    var toS := Neighbor("a", "supports", 1.0, None, STALE_NOTE);
    var toC := Neighbor("h", "supports", 1.0, None, Plain("c"));
    var toH := Neighbor("c", "supports", 1.0, None, TOPIC_HEAD);
    ShadowedEdges(toS, toC, toH);
    ShadowedHeadsAre();
    ShadowedAdmits();
    assert g.direct[0] in g.direct && g.direct[0].id == "a" && g.direct[0].score == 1.0;
    hide Neighbors, Resolve, Admits, Trusted, Shadowed;
    w := ThreeHops(g, g.direct[0], toS, toC, toH);
    assert Score(w) == 1.0 * 1.0 * 0.3 * 1.0 * 0.3 * 1.0 * 0.3;
  }

  /** Where a hop over each edge ends. */
  lemma ShadowedHop(v: Walk)
    requires Valid(Shadowed(), v) && v.Hop?
    ensures var g, from := Shadowed(), End(Shadowed(), v.prefix);
            && (from == "a" ==> End(g, v) == "h")
            && (from == "h" ==> End(g, v) == "c")
            && (from == "c" ==> End(g, v) == "g" && v.via.note.id == "h")
            && from in {"a", "h", "c"}
  {
    var g := Shadowed();
    ShadowedHeadsAre();
    ShadowedEdge(End(g, v.prefix), v.via);
    HopEndsOffDirect(g, v);
    assert g.direct[0] in g.direct && g.direct[0].id == "a";
    hide Neighbors, Resolve, Trusted, Shadowed, PassesFilters, Valid;
  }

  lemma OnPath(g: Graph, p: Walk)
    requires p.Hop?
    ensures End(g, p.prefix) in Path(g, p)
  {
    var q := Path(g, p.prefix);
    assert Path(g, p)[|q| - 1] == q[|q| - 1];
  }

  lemma ShadowedStarts(v: Walk)
    requires Valid(Shadowed(), v) && v.Start?
    ensures End(Shadowed(), v) == "a"
  {
  }

  /** The search does not: on the way back the edge's own end, h, is on the path. */
  lemma ShadowedEnds(v: Walk)
    requires Valid(Shadowed(), v) && v.Hop? && PassesGuards(Shadowed(), v)
    ensures End(Shadowed(), v) in {"h", "c"}
  {
    var g, p := Shadowed(), v.prefix;
    hide Shadowed, Neighbors, Resolve, Admits, Trusted, HeadAt;
    ShadowedHop(v);
    if End(g, p) == "c" {
      if p.Start? {
        ShadowedStarts(p);
        assert false;
      }
      ShadowedHop(p);
      OnPath(g, p);
      assert false;
    }
  }

  lemma TwoIds(s: seq<SearchResult>)
    requires DistinctResultIds(s) && forall a <- s :: a.id in {"h", "c"}
    ensures |s| <= 2
  {
    TwoOfThreeAgree(s);
  }

  lemma TwoOfThreeAgree(s: seq<SearchResult>)
    requires forall a <- s :: a.id in {"h", "c"}
    ensures |s| <= 2 || s[0].id == s[1].id || s[0].id == s[2].id || s[1].id == s[2].id
  {
    if |s| > 2 {
      assert s[0] in s && s[1] in s && s[2] in s;
    }
  }

  lemma ShadowedAppends(a: SearchResult)
    requires Explained(Shadowed(), a, MAX_HOPS)
    ensures a.id in {"h", "c"}
  {
    var v :| Explains(Shadowed(), v, a, MAX_HOPS);
    ShadowedEnds(v);
    hide Shadowed, Valid;
  }

  /** Without idempotent resolution no answer of the search is optimal: it has room and leaves g out. */
  lemma ShadowedSearchIsNotOptimal(limit: nat, results: seq<SearchResult>)
    requires limit >= 4 && SpreadContract(Shadowed(), limit, results)
    ensures !Optimal(Shadowed(), results[1..], |results| >= limit)
  {
    var g, appended := Shadowed(), results[1..];
    assert |g.direct| == 1;
    ContractExplains(g, limit, results);
    var w := ShadowedWalk();
    ContractIsDistinct(g, limit, results);
    hide Shadowed, Explained, Reaches, Exact, SpreadContract, DistinctResultIds;
    forall a <- appended ensures a.id in {"h", "c"} { ShadowedAppends(a); }
    TwoIds(appended);
    LeftOut(g, appended, w);
  }

  lemma ContractIsDistinct(g: Graph, limit: nat, results: seq<SearchResult>)
    requires SpreadContract(g, limit, results) && |results| >= 1
    ensures DistinctResultIds(results[1..])
  {
    hide Explained, Exact, Optimal;
  }

  lemma LeftOut(g: Graph, appended: seq<SearchResult>, w: Walk)
    requires Reaches(g, w) && forall a <- appended :: a.id != End(g, w)
    ensures !Optimal(g, appended, false)
  {
    hide Reaches, End;
  }
}
