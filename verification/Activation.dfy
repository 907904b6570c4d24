/** `spread_activation`: a three-level frontier search that relaxes a best score per note. */
module Activation {
  import opened Common
  import opened Notes
  import opened CanonicalReader
  import opened ReaderLaws
  import opened Results
  import opened ActivationGraph

  datatype FrontierSeed = FrontierSeed(id: string, rootId: string, score: real, path: seq<string>)

  type Scores = map<string, real>
  type Activated = map<string, SearchResult>

  /** The result a head row becomes when it is reached by the last hop of a walk. */
  function Associated(g: Graph, w: Walk): SearchResult
    requires w.Hop?
  {
    var head := HeadAt(g, w.via);
    AssociatedResult(g, w.via, head, Score(w), Path(g, w), Depth(w), RootOf(w))
  }

  function AssociatedResult(g: Graph, nb: Neighbor, head: NoteRow, score: real, path: seq<string>, depth: nat,
                            root: string)
    : SearchResult
  {
    SearchResult(
      head.id, head.content, head.layer, head.category, score, head.createdAt, head.topicKey, head.rootId,
      Some("association"), None, head.isHead && StateIsHead(head.evolutionState),
      Some(Trace(nb.sourceId, root, depth, path, nb.relationType, nb.strength,
                 ReadLineage(g.notes, LineageOfRow(nb.note)).source,
                 if nb.note.id != head.id then Some(nb.note.id) else None, nb.dreamId)))
  }

  /** The walk explains the result down to every field, passes every guard on the way, and its score is positive. */
  ghost predicate Explains(g: Graph, w: Walk, a: SearchResult, maxDepth: nat) {
    && w.Hop?
    && Valid(g, w)
    && Depth(w) <= maxDepth
    && NoRepeats(Path(g, w)) && PassesGuards(g, w)
    && Score(w) > 0.0
    && a == Associated(g, w)
  }

  ghost predicate Explained(g: Graph, a: SearchResult, maxDepth: nat) {
    exists w :: Explains(g, w, a, maxDepth)
  }

  ghost predicate Seeds(g: Graph, w: Walk, seed: FrontierSeed, depth: nat) {
    && Valid(g, w)
    && Depth(w) == depth
    && NoRepeats(Path(g, w)) && PassesGuards(g, w)
    && seed == FrontierSeed(End(g, w), RootOf(w), Score(w), Path(g, w))
  }

  ghost predicate SeedOk(g: Graph, seed: FrontierSeed, depth: nat) {
    exists w :: Seeds(g, w, seed, depth)
  }

  ghost predicate FrontierOk(g: Graph, frontier: seq<FrontierSeed>, depth: nat) {
    forall seed <- frontier :: SeedOk(g, seed, depth)
  }

  /** Activated notes and best scores agree, and every activated note is explained by a walk. */
  ghost predicate Sound(g: Graph, best: Scores, activated: Activated, maxDepth: nat) {
    && (forall id <- activated ::
          activated[id].id == id && !IsDirect(g, id) && id in best && best[id] == activated[id].score
          && Explained(g, activated[id], maxDepth))
    && (forall id <- best :: IsDirect(g, id) || id in activated)
  }

  ghost predicate Grows(a: Scores, b: Scores) {
    forall id <- a :: id in b && b[id] >= a[id]
  }

  /** Every score that changed has a seed waiting to spread it. */
  ghost predicate ChangesPend(a: Scores, b: Scores, pending: seq<FrontierSeed>) {
    forall id <- b :: (id in a && b[id] == a[id]) || Pending(pending, id, b[id])
  }

  ghost predicate Pending(pending: seq<FrontierSeed>, id: string, score: real) {
    exists seed <- pending :: seed.id == id && seed.score == score
  }

  /** Every note on the seed's path already scores at least as much as the seed. */
  ghost predicate Dominated(g: Graph, best: Scores, seed: FrontierSeed) {
    forall p <- seed.path | !IsDirect(g, p) :: p in best && best[p] >= seed.score
  }

  ghost predicate AllDominated(g: Graph, best: Scores, frontier: seq<FrontierSeed>) {
    forall seed <- frontier :: Dominated(g, best, seed)
  }

  /** The edge has been relaxed: its head scores at least what the edge offers. */
  ghost predicate EdgeRelaxed(g: Graph, score: real, nb: Neighbor, best: Scores) {
    Admits(g, HeadAt(g, nb)) && Offer(score, nb.strength) > 0.0 ==>
      HeadAt(g, nb).id in best && best[HeadAt(g, nb).id] >= Offer(score, nb.strength)
  }

  ghost predicate Relaxed(g: Graph, id: string, score: real, best: Scores) {
    Trusted(g.notes, id) ==> forall nb <- Neighbors(g, id) :: EdgeRelaxed(g, score, nb, best)
  }

  // ---- one neighbour ----

  /** The guards of the neighbour loop, in source order. */
  predicate Accepts(g: Graph, source: FrontierSeed, nb: Neighbor, best: Scores) {
    var note := HeadAt(g, nb);
    var connected := Offer(source.score, nb.strength);
    && !IsDirect(g, nb.note.id)
    && nb.note.id !in source.path
    && Admits(g, note)
    && note.id !in source.path
    && connected > 0.0
    && (note.id in best ==> connected > best[note.id])
  }

  function Extend(g: Graph, source: FrontierSeed, nb: Neighbor): FrontierSeed {
    FrontierSeed(HeadAt(g, nb).id, source.rootId, Offer(source.score, nb.strength), source.path + [HeadAt(g, nb).id])
  }

  lemma ExtendSeeds(g: Graph, w: Walk, source: FrontierSeed, nb: Neighbor, best: Scores, depth: nat)
    requires Seeds(g, w, source, depth) && nb in Neighbors(g, source.id) && Trusted(g.notes, source.id)
    requires Accepts(g, source, nb, best)
    ensures Seeds(g, Hop(w, nb), Extend(g, source, nb), depth + 1)
  {
  }

  lemma AcceptedIsExplained(g: Graph, source: FrontierSeed, nb: Neighbor, best: Scores, depth: nat)
    requires SeedOk(g, source, depth) && nb in Neighbors(g, source.id) && Trusted(g.notes, source.id)
    requires Accepts(g, source, nb, best)
    ensures SeedOk(g, Extend(g, source, nb), depth + 1)
    ensures var seed := Extend(g, source, nb);
            Explained(g, AssociatedResult(g, nb, HeadAt(g, nb), seed.score, seed.path, depth + 1, source.rootId),
                      depth + 1)
  {
    hide Offer, PassesFilters, Neighbors;
    var w :| Seeds(g, w, source, depth);
    ExtendSeeds(g, w, source, nb, best, depth);
    var seed := Extend(g, source, nb);
    var a := AssociatedResult(g, nb, HeadAt(g, nb), seed.score, seed.path, depth + 1, source.rootId);
    assert Explains(g, Hop(w, nb), a, depth + 1);
  }

  /** A refused edge is relaxed already: the path checks lose nothing. */
  lemma RefusedIsRelaxed(g: Graph, source: FrontierSeed, nb: Neighbor, best: Scores, depth: nat)
    requires ValidTable(g.notes) && Exact(g)
    requires SeedOk(g, source, depth) && nb in Neighbors(g, source.id)
    requires Dominated(g, best, source)
    requires !Accepts(g, source, nb, best)
    ensures EdgeRelaxed(g, source.score, nb, best)
  {
    hide Offer, PassesFilters, Neighbors;
    var head := HeadAt(g, nb);
    var w :| Seeds(g, w, source, depth);
    WalkOwnsHeads(g, w);
    assert IsDirect(g, nb.note.id) || nb.note.id in source.path ==> HeadId(g, nb.note) == nb.note.id;
    if Admits(g, head) && Offer(source.score, nb.strength) > 0.0 {
      if head.id in source.path {
        OfferPositive(source.score, nb.strength);
        NeighborDamped(g, source.id, nb);
        OfferShrinks(source.score, nb.strength);
      }
    }
  }

  lemma AcceptedKeepsDominance(g: Graph, source: FrontierSeed, nb: Neighbor, best: Scores)
    requires Damped(g) && nb in Neighbors(g, source.id)
    requires Accepts(g, source, nb, best) && Dominated(g, best, source)
    ensures var seed := Extend(g, source, nb); Dominated(g, best[seed.id := seed.score], seed)
  {
    hide Offer, PassesFilters, Neighbors;
    OfferPositive(source.score, nb.strength);
    NeighborDamped(g, source.id, nb);
    OfferShrinks(source.score, nb.strength);
  }

  lemma DominanceGrows(g: Graph, a: Scores, b: Scores, frontier: seq<FrontierSeed>)
    requires Grows(a, b) && AllDominated(g, a, frontier)
    ensures AllDominated(g, b, frontier)
  {
    forall seed <- frontier ensures Dominated(g, b, seed) {
      assert Dominated(g, a, seed);
    }
  }

  lemma RelaxedGrows(g: Graph, score: real, nb: Neighbor, a: Scores, b: Scores)
    requires Grows(a, b) && EdgeRelaxed(g, score, nb, a)
    ensures EdgeRelaxed(g, score, nb, b)
  {
  }

  /** `hydrate_activation_neighbors`: one batch read per source. */
  method HydrateNeighbors(g: Graph, neighbors: seq<Neighbor>) returns (hydrated: map<string, Read>)
    requires ValidTable(g.notes)
    requires forall nb <- neighbors :: nb.note in g.notes
    ensures forall nb <- neighbors ::
              nb.note.id in hydrated && hydrated[nb.note.id] == ReadLineage(g.notes, LineageOfRow(nb.note))
  {
    var seeds := seq(|neighbors|, i requires 0 <= i < |neighbors| => RowSeed(neighbors[i].note));
    hydrated := HydrateHeads(g.notes, seeds, SQLITE_CHUNK_SIZE);
    forall nb <- neighbors
      ensures nb.note.id in hydrated && hydrated[nb.note.id] == ReadLineage(g.notes, LineageOfRow(nb.note))
    {
      var i :| 0 <= i < |neighbors| && neighbors[i] == nb;
      var last := LastIndex(seeds, i);
      SameIdSameRow(g.notes, nb.note, neighbors[last].note);
      RowSeedRead(g.notes, seeds, nb.note);
    }
  }

  lemma LastIndex(seeds: seq<Seed>, i: nat) returns (last: nat)
    requires i < |seeds|
    ensures LastWithId(seeds, last) && seeds[last].seedId == seeds[i].seedId
    decreases |seeds| - i
  {
    if LastWithId(seeds, i) {
      last := i;
    } else {
      var j :| i < j < |seeds| && seeds[j].seedId == seeds[i].seedId;
      last := LastIndex(seeds, j);
    }
  }

  /** The body of the neighbour loop. */
  method RelaxNeighbor(g: Graph, depth: nat, source: FrontierSeed, nb: Neighbor, hydrated: map<string, Read>,
                       best: Scores, activated: Activated, next: seq<FrontierSeed>)
    returns (best': Scores, activated': Activated, next': seq<FrontierSeed>)
    requires nb.note.id in hydrated && hydrated[nb.note.id] == ReadLineage(g.notes, LineageOfRow(nb.note))
    requires Sound(g, best, activated, depth)
    ensures !Accepts(g, source, nb, best) ==> best' == best && activated' == activated && next' == next
    ensures Accepts(g, source, nb, best) ==>
              var seed := Extend(g, source, nb);
              && best' == best[seed.id := seed.score]
              && activated' ==
                 activated[seed.id :=
                           AssociatedResult(g, nb, HeadAt(g, nb), seed.score, seed.path, depth, source.rootId)]
              && next' == next + [seed]
  {
    hide Offer, PassesFilters, Neighbors;
    best', activated', next' := best, activated, next;
    if IsDirect(g, nb.note.id) || nb.note.id in source.path {
      return;
    }
    var read := if nb.note.id in hydrated then hydrated[nb.note.id] else Read(None, Miss);
    var note := read.note.GetOr(nb.note);
    if IsDirect(g, note.id) || note.id in source.path || !PassesFilters(g, note) {
      return;
    }
    if note.topicKey.Some? && note.topicKey.value in g.seenTopics {
      return;
    }
    var connected := Offer(source.score, nb.strength);
    if connected <= 0.0 {
      return;
    }
    if note.id in best && connected <= best[note.id] {
      return;
    }
    var path := source.path + [note.id];
    var shouldReplace := note.id in activated ==> connected > activated[note.id].score;
    if !shouldReplace {
      return;
    }
    activated' := activated[note.id := AssociatedResult(g, nb, note, connected, path, depth, source.rootId)];
    best' := best[note.id := connected];
    next' := next + [FrontierSeed(note.id, source.rootId, connected, path)];
  }

  // ---- one source ----

  /** All neighbours of one frontier seed. */
  method RelaxSource(g: Graph, depth: nat, source: FrontierSeed, best: Scores, activated: Activated,
                     next: seq<FrontierSeed>)
    returns (best': Scores, activated': Activated, next': seq<FrontierSeed>)
    requires ValidTable(g.notes) && depth >= 1
    requires SeedOk(g, source, depth - 1) && Trusted(g.notes, source.id)
    requires Sound(g, best, activated, depth) && FrontierOk(g, next, depth)
    ensures Sound(g, best', activated', depth) && FrontierOk(g, next', depth)
    ensures Grows(best, best') && next <= next' && ChangesPend(best, best', next')
    ensures Exact(g) && Dominated(g, best, source) && AllDominated(g, best, next) ==>
              AllDominated(g, best', next') && Relaxed(g, source.id, source.score, best')
  {
    hide Offer, Accepts, Extend, Neighbors, EdgeRelaxed, FrontierOk, Dominated, Exact, ChangesPend, Grows, AllDominated;
    best', activated', next' := best, activated, next;
    NothingChanged(best);
    PendsMore(best, best, [], next);
    var neighbors := Neighbors(g, source.id);
    var hydrated := HydrateNeighbors(g, neighbors);
    ghost var live := Exact(g) && Dominated(g, best, source) && AllDominated(g, best, next);
    for i := 0 to |neighbors|
      invariant Sound(g, best', activated', depth) && FrontierOk(g, next', depth)
      invariant Grows(best, best') && next <= next' && ChangesPend(best, best', next')
      invariant live ==> Dominated(g, best', source) && AllDominated(g, best', next')
      invariant live ==> forall k | 0 <= k < i :: EdgeRelaxed(g, source.score, neighbors[k], best')
    {
      var nb := neighbors[i];
      assert nb in neighbors;
      ghost var best0, activated0, next0 := best', activated', next';
      best', activated', next' := RelaxNeighbor(g, depth, source, nb, hydrated, best', activated', next');
      KeepSoundness(g, depth, source, nb, best0, activated0, next0, best', activated', next');
      KeepPending(g, source, nb, best, best0, best', next0, next');
      if live {
        KeepDominance(g, depth, source, nb, best0, best', next0, next');
        forall k | 0 <= k < i ensures EdgeRelaxed(g, source.score, neighbors[k], best') {
          RelaxedGrows(g, source.score, neighbors[k], best0, best');
        }
      }
    }
  }

  ghost predicate Stepped(g: Graph, source: FrontierSeed, nb: Neighbor, best: Scores, best': Scores,
                          next: seq<FrontierSeed>, next': seq<FrontierSeed>) {
    var seed := Extend(g, source, nb);
    && (!Accepts(g, source, nb, best) ==> best' == best && next' == next)
    && (Accepts(g, source, nb, best) ==> best' == best[seed.id := seed.score] && next' == next + [seed])
  }

  lemma KeepSoundness(g: Graph, depth: nat, source: FrontierSeed, nb: Neighbor,
                      best: Scores, activated: Activated, next: seq<FrontierSeed>,
                      best': Scores, activated': Activated, next': seq<FrontierSeed>)
    requires depth >= 1 && SeedOk(g, source, depth - 1) && nb in Neighbors(g, source.id) && Trusted(g.notes, source.id)
    requires Sound(g, best, activated, depth) && FrontierOk(g, next, depth)
    requires Stepped(g, source, nb, best, best', next, next')
    requires !Accepts(g, source, nb, best) ==> activated' == activated
    requires Accepts(g, source, nb, best) ==>
               var seed := Extend(g, source, nb);
               activated' ==
                   activated[seed.id :=
                             AssociatedResult(g, nb, HeadAt(g, nb), seed.score, seed.path, depth, source.rootId)]
    ensures Sound(g, best', activated', depth) && FrontierOk(g, next', depth)
  {
    hide Offer, PassesFilters, Neighbors;
    if Accepts(g, source, nb, best) {
      AcceptedIsExplained(g, source, nb, best, depth - 1);
      assert depth - 1 + 1 == depth;
      var seed := Extend(g, source, nb);
      assert FrontierOk(g, next', depth);
      forall id <- activated'
        ensures activated'[id].id == id && !IsDirect(g, id) && id in best' && best'[id] == activated'[id].score
        ensures Explained(g, activated'[id], depth)
      {
        if id != seed.id {
          assert id in activated;
        }
      }
    }
  }

  lemma KeepPending(g: Graph, source: FrontierSeed, nb: Neighbor, start: Scores,
                    best: Scores, best': Scores, next: seq<FrontierSeed>, next': seq<FrontierSeed>)
    requires Grows(start, best) && ChangesPend(start, best, next)
    requires Stepped(g, source, nb, best, best', next, next')
    ensures Grows(best, best') && Grows(start, best') && ChangesPend(start, best', next')
  {
    forall id <- best' ensures (id in start && best'[id] == start[id]) || Pending(next', id, best'[id]) {
      if Accepts(g, source, nb, best) && id == Extend(g, source, nb).id {
        assert Extend(g, source, nb) in next';
      } else if !(id in start && best'[id] == start[id]) {
        assert Pending(next, id, best[id]);
        var seed :| seed in next && seed.id == id && seed.score == best[id];
        assert seed in next';
      }
    }
  }

  lemma KeepDominance(g: Graph, depth: nat, source: FrontierSeed, nb: Neighbor,
                      best: Scores, best': Scores, next: seq<FrontierSeed>, next': seq<FrontierSeed>)
    requires ValidTable(g.notes) && Exact(g) && depth >= 1
    requires SeedOk(g, source, depth - 1) && nb in Neighbors(g, source.id)
    requires Dominated(g, best, source) && AllDominated(g, best, next)
    requires Stepped(g, source, nb, best, best', next, next') && Grows(best, best')
    ensures Dominated(g, best', source) && AllDominated(g, best', next')
    ensures EdgeRelaxed(g, source.score, nb, best')
  {
    hide Offer, PassesFilters, Neighbors;
    DominanceGrows(g, best, best', next);
    DominanceGrows(g, best, best', [source]);
    assert source in [source];
    if Accepts(g, source, nb, best) {
      AcceptedKeepsDominance(g, source, nb, best);
    } else {
      RefusedIsRelaxed(g, source, nb, best, depth - 1);
    }
  }

  // ---- one level ----

  /** One pass over the frontier at a given depth. */
  method ActivateLevel(g: Graph, depth: nat, frontier: seq<FrontierSeed>, best: Scores, activated: Activated)
    returns (best': Scores, activated': Activated, next: seq<FrontierSeed>)
    requires ValidTable(g.notes) && depth >= 1
    requires Sound(g, best, activated, depth) && FrontierOk(g, frontier, depth - 1)
    ensures Sound(g, best', activated', depth) && FrontierOk(g, next, depth)
    ensures Grows(best, best') && ChangesPend(best, best', next)
    ensures Exact(g) && AllDominated(g, best, frontier) ==> AllDominated(g, best', next)
    ensures Exact(g) && AllDominated(g, best, frontier) ==>
              forall seed <- frontier :: Relaxed(g, seed.id, seed.score, best')
  {
    hide Sound, ChangesPend, Relaxed, Dominated, Exact, Trusted, ValidTable, SeedOk, Grows;
    best', activated', next := best, activated, [];
    NothingChanged(best);
    ghost var live := Exact(g) && AllDominated(g, best, frontier);
    for i := 0 to |frontier|
      invariant Sound(g, best', activated', depth) && FrontierOk(g, next, depth)
      invariant Grows(best, best') && ChangesPend(best, best', next)
      invariant live ==> AllDominated(g, best', frontier) && AllDominated(g, best', next)
      invariant live ==> forall k | 0 <= k < i :: Relaxed(g, frontier[k].id, frontier[k].score, best')
    {
      var source := frontier[i];
      assert source in frontier;
      if !Trusted(g.notes, source.id) {
        UntrustedIsRelaxed(g, source.id, source.score, best');
        continue;
      }
      ghost var best0, next0 := best', next;
      best', activated', next := RelaxSource(g, depth, source, best', activated', next);
      ChangesCompose(best, best0, best', next0, next);
      if live {
        DominanceGrows(g, best0, best', frontier);
        forall k | 0 <= k < i ensures Relaxed(g, frontier[k].id, frontier[k].score, best') {
          RelaxedAllGrows(g, frontier[k].id, frontier[k].score, best0, best');
        }
      }
    }
  }

  lemma PendsMore(a: Scores, b: Scores, fewer: seq<FrontierSeed>, more: seq<FrontierSeed>)
    requires ChangesPend(a, b, fewer) && forall seed <- fewer :: seed in more
    ensures ChangesPend(a, b, more)
  {
    forall id <- b ensures (id in a && b[id] == a[id]) || Pending(more, id, b[id]) {
      if Pending(fewer, id, b[id]) {
        var seed :| seed in fewer && seed.id == id && seed.score == b[id];
        assert seed in more;
      }
    }
  }

  lemma NothingChanged(best: Scores)
    ensures Grows(best, best) && ChangesPend(best, best, [])
  {
  }

  lemma UntrustedIsRelaxed(g: Graph, id: string, score: real, best: Scores)
    requires !Trusted(g.notes, id)
    ensures Relaxed(g, id, score, best)
  {
  }

  lemma RelaxedAllGrows(g: Graph, id: string, score: real, a: Scores, b: Scores)
    requires Grows(a, b) && Relaxed(g, id, score, a)
    ensures Relaxed(g, id, score, b)
  {
    if Trusted(g.notes, id) {
      forall nb <- Neighbors(g, id) ensures EdgeRelaxed(g, score, nb, b) {
        RelaxedGrows(g, score, nb, a, b);
      }
    }
  }

  lemma ChangesCompose(a: Scores, b: Scores, c: Scores, pendingB: seq<FrontierSeed>, pendingC: seq<FrontierSeed>)
    requires Grows(a, b) && Grows(b, c)
    requires ChangesPend(a, b, pendingB) && ChangesPend(b, c, pendingC) && pendingB <= pendingC
    ensures Grows(a, c) && ChangesPend(a, c, pendingC)
  {
    forall id <- c ensures (id in a && c[id] == a[id]) || Pending(pendingC, id, c[id]) {
      if id in b && c[id] == b[id] && !(id in a && c[id] == a[id]) {
        assert Pending(pendingB, id, b[id]);
        var seed :| seed in pendingB && seed.id == id && seed.score == b[id];
        assert seed in pendingC;
      }
    }
  }

  // ---- completeness ----

  /** Every positive walk of 1 to `d` hops is matched by the best score of its end. */
  ghost predicate Covers(g: Graph, best: Scores, d: nat) {
    forall w | Valid(g, w) && 1 <= Depth(w) <= d && Score(w) > 0.0 :: End(g, w) in best && best[End(g, w)] >= Score(w)
  }

  ghost predicate HoldsDirect(g: Graph, best: Scores) {
    forall r <- g.direct :: r.id in best && best[r.id] >= r.score
  }

  /** Each known score is either fully spread or waits in the frontier. */
  ghost predicate Closed(g: Graph, best: Scores, frontier: seq<FrontierSeed>) {
    forall id <- best :: Pending(frontier, id, best[id]) || Relaxed(g, id, best[id], best)
  }

  /** The scores of `a`, spread one hop, are all in `b`. */
  ghost predicate Spreads(g: Graph, a: Scores, b: Scores) {
    forall id <- a :: Relaxed(g, id, a[id], b)
  }

  lemma CoversOneMore(g: Graph, a: Scores, b: Scores, d: nat)
    requires HoldsDirect(g, a) && Covers(g, a, d) && Grows(a, b) && Spreads(g, a, b)
    ensures Covers(g, b, d + 1)
  {
    hide Offer, Neighbors, PassesFilters;
    forall w | Valid(g, w) && 1 <= Depth(w) <= d + 1 && Score(w) > 0.0
      ensures End(g, w) in b && b[End(g, w)] >= Score(w)
    {
      var p, nb := w.prefix, w.via;
      var from := End(g, p);
      OfferPositive(Score(p), nb.strength);
      assert Valid(g, p);
      if p.Hop? {
        assert 1 <= Depth(p) <= d;
      }
      OfferMonotone(a[from], Score(p), nb.strength);
      assert Relaxed(g, from, a[from], b);
      assert EdgeRelaxed(g, a[from], nb, b);
    }
  }

  lemma LevelSpreads(g: Graph, a: Scores, frontier: seq<FrontierSeed>, b: Scores, next: seq<FrontierSeed>)
    requires Closed(g, a, frontier) && Grows(a, b) && ChangesPend(a, b, next)
    requires forall seed <- frontier :: Relaxed(g, seed.id, seed.score, b)
    ensures Spreads(g, a, b) && Closed(g, b, next)
  {
    forall id <- a ensures Relaxed(g, id, a[id], b) {
      if Pending(frontier, id, a[id]) {
        var seed :| seed in frontier && seed.id == id && seed.score == a[id];
      } else {
        RelaxedAllGrows(g, id, a[id], a, b);
      }
    }
  }

  lemma CoversWhenClosed(g: Graph, best: Scores, d: nat, more: nat)
    requires HoldsDirect(g, best) && Covers(g, best, d) && Closed(g, best, [])
    ensures Covers(g, best, d + more)
  {
    if more > 0 {
      CoversWhenClosed(g, best, d, more - 1);
      assert Spreads(g, best, best);
      CoversOneMore(g, best, best, d + more - 1);
    }
  }

  /** The hop loop: three levels, or fewer when the frontier dries up. */
  method Spread(g: Graph) returns (best: Scores, activated: Activated)
    requires ValidTable(g.notes) && DistinctResultIds(g.direct)
    ensures Sound(g, best, activated, MAX_HOPS)
    ensures Exact(g) ==> Covers(g, best, MAX_HOPS)
  {
    hide StartFrontier, StartScores, Sound, FrontierOk, HoldsDirect, AllDominated, Closed, Covers, Exact, Spreads,
        Grows, ChangesPend, ValidTable;
    hide Relaxed;
    var frontier := StartFrontier(g.direct);
    best, activated := StartScores(g.direct), map[];
    StartLevel(g);
    var depth: nat := 1;
    while depth <= MAX_HOPS && frontier != []
      invariant 1 <= depth <= MAX_HOPS + 1
      invariant Sound(g, best, activated, depth - 1) && FrontierOk(g, frontier, depth - 1)
      invariant HoldsDirect(g, best)
      invariant Exact(g) ==> AllDominated(g, best, frontier) && Closed(g, best, frontier) && Covers(g, best, depth - 1)
    {
      ghost var best0, frontier0 := best, frontier;
      WeakenSound(g, best, activated, depth - 1, depth);
      best, activated, frontier := ActivateLevel(g, depth, frontier, best, activated);
      DirectGrows(g, best0, best);
      if Exact(g) {
        LevelSpreads(g, best0, frontier0, best, frontier);
        CoversOneMore(g, best0, best, depth - 1);
      }
      depth := depth + 1;
    }
    WeakenSound(g, best, activated, depth - 1, MAX_HOPS);
    if Exact(g) && frontier == [] {
      CoversWhenClosed(g, best, depth - 1, MAX_HOPS + 1 - depth);
    }
  }

  lemma DirectGrows(g: Graph, a: Scores, b: Scores)
    requires HoldsDirect(g, a) && Grows(a, b)
    ensures HoldsDirect(g, b)
  {
  }

  function ScoreOf(direct: seq<SearchResult>, id: string): (s: real)
    requires exists r <- direct :: r.id == id
    ensures DistinctResultIds(direct) ==> forall r <- direct | r.id == id :: s == r.score
  {
    if direct[0].id == id then direct[0].score
    else
      assert forall r <- direct :: r == direct[0] || r in direct[1..];
      ScoreOf(direct[1..], id)
  }

  function StartScores(direct: seq<SearchResult>): Scores {
    map r <- direct :: r.id := ScoreOf(direct, r.id)
  }

  function StartFrontier(direct: seq<SearchResult>): seq<FrontierSeed> {
    seq(|direct|,
        i requires 0 <= i < |direct| => FrontierSeed(direct[i].id, direct[i].id, direct[i].score, [direct[i].id]))
  }

  lemma StartSeeds(g: Graph, r: SearchResult)
    requires r in g.direct
    ensures Seeds(g, Start(r), FrontierSeed(r.id, r.id, r.score, [r.id]), 0)
  {
  }

  lemma StartLevel(g: Graph)
    requires DistinctResultIds(g.direct)
    ensures var best, frontier := StartScores(g.direct), StartFrontier(g.direct);
            && Sound(g, best, map[], 0) && FrontierOk(g, frontier, 0)
            && HoldsDirect(g, best) && AllDominated(g, best, frontier)
            && Closed(g, best, frontier) && Covers(g, best, 0)
  {
    hide Valid, Score, Relaxed, Admits, Neighbors;
    var best, frontier := StartScores(g.direct), StartFrontier(g.direct);
    forall seed <- frontier ensures SeedOk(g, seed, 0) && Dominated(g, best, seed) {
      var i :| 0 <= i < |frontier| && frontier[i] == seed;
      assert g.direct[i] in g.direct;
      StartSeeds(g, g.direct[i]);
    }
    forall id <- best ensures Pending(frontier, id, best[id]) {
      var r :| r in g.direct && r.id == id;
      var i :| 0 <= i < |g.direct| && g.direct[i] == r;
      assert frontier[i] in frontier;
    }
  }

  lemma WeakenSound(g: Graph, best: Scores, activated: Activated, d: nat, e: nat)
    requires Sound(g, best, activated, d) && d <= e
    ensures Sound(g, best, activated, e)
  {
    forall id <- activated ensures Explained(g, activated[id], e) {
      var w :| Explains(g, w, activated[id], d);
      assert Explains(g, w, activated[id], e);
    }
  }
}
