/** Concrete runs in which the write path loses a note: a key the reader cannot find, an override, a contradiction. */
module LineageWitnesses {
  import opened Common
  import opened Text
  import opened Notes
  import opened HotStore
  import opened CanonicalReader
  import opened WriteOrchestrator
  import opened HotRuns
  import opened LineageRuns
  import Cosine

  // ---- two similar embeddings ----

  function Zeros(n: nat): (r: Vector)
    ensures |r| == n
  {
    seq(n, i => 0.0)
  }

  /** A unit vector, and another one 0.8 similar to it. */
  const FIRST: Vector := [1.0, 0.0] + Zeros(EMBEDDING_DIM - 2)
  const SECOND: Vector := [0.8, 0.6] + Zeros(EMBEDDING_DIM - 2)

  lemma {:induction false} PaddedDot(v: Vector, w: Vector, n: nat)
    requires |v| == |w|
    ensures Cosine.Dot(v + Zeros(n), w + Zeros(n)) == Cosine.Dot(v, w)
  {
    if n == 0 {
      assert v + Zeros(0) == v && w + Zeros(0) == w;
    } else {
      PaddedDot(v, w, n - 1);
      var x, y := v + Zeros(n), w + Zeros(n);
      assert x[..|x| - 1] == v + Zeros(n - 1) && y[..|y| - 1] == w + Zeros(n - 1);
      assert x[|x| - 1] == 0.0 && y[|y| - 1] == 0.0;
    }
  }

  lemma PairDot(a: real, b: real, c: real, d: real)
    ensures Cosine.Dot([a, b], [c, d]) == a * c + b * d
  {
    var v, w := [a, b], [c, d];
    assert v[..1] == [a] && w[..1] == [c];
    assert [a][..0] == [] && [c][..0] == [];
    assert Cosine.Dot([a], [c]) == a * c;
    assert Cosine.Dot(v, w) == Cosine.Dot(v[..1], w[..1]) + v[1] * w[1];
  }

  lemma EmbeddingDots()
    ensures Cosine.Norm(FIRST) == 1.0 && Cosine.Norm(SECOND) == 1.0 && Cosine.Dot(SECOND, FIRST) == 0.8
  {
    hide Zeros;
    PaddedDot([1.0, 0.0], [1.0, 0.0], EMBEDDING_DIM - 2);
    PaddedDot([0.8, 0.6], [0.8, 0.6], EMBEDDING_DIM - 2);
    PaddedDot([0.8, 0.6], [1.0, 0.0], EMBEDDING_DIM - 2);
    PairDot(1.0, 0.0, 1.0, 0.0);
    PairDot(0.8, 0.6, 0.8, 0.6);
    PairDot(0.8, 0.6, 1.0, 0.0);
    hide Cosine.Dot;
  }

  /** The source's own similarity of the two, for any square root of one. */
  lemma EmbeddingsAreSimilar(root: real -> real)
    requires Cosine.RootAt(root, 1.0)
    ensures Cosine.Similarity(SECOND, FIRST, root) == 0.8
  {
    EmbeddingDots();
    Cosine.RootsAgree(root(1.0), 1.0);
    assert |FIRST| == |SECOND| == EMBEDDING_DIM;
    hide Cosine.Dot, Cosine.Norm, Zeros, FIRST, SECOND;
    assert Cosine.Denominator(SECOND, FIRST, root) == 1.0;
    assert Cosine.Over(0.8, 1.0) == 0.8;
  }

  // ---- the calls ----

  /** Adding a fact, with a topic key of the caller's own or none. */
  function FactParams(content: string, topic: Option<string>): Params {
    Params(content, Some(FACT_LAYER), None, None, None, None, None, None, topic, false, false)
  }

  function CallEnv(id: string, embedding: Vector, hits: set<string>, root: real -> real): Env {
    Env(id, "", Classification("", ""), true, Some(embedding), (a: Vector, b: Vector) => Cosine.Similarity(a, b, root),
        (r: NoteRow) => "", false, "", hits, false, false)
  }

  function FirstOp(content: string, root: real -> real): Op {
    Adding(FactParams(content, None), CallEnv("1", FIRST, {}, root))
  }

  function SecondOp(content: string, topic: Option<string>, root: real -> real): Op {
    Adding(FactParams(content + "x", topic), CallEnv("2", SECOND, {}, root))
  }

  function FirstWrite(project: string, content: string): NoteRow {
    NoteRow("1", content, FACT_LAYER, None, None, Some(project), None, false, true, true, Some("active"),
            Some(BuildTopicKey(FACT_LAYER, content)), Some("1"), Some(""), Present(FIRST), None, "")
  }

  function SecondWrite(project: string, content: string, topic: Option<string>): NoteRow {
    FirstWrite(project, content).(id := "2", content := content + "x", rootId := Some("2"), vector := Present(SECOND),
                                  topicKey := topic.Or(Some(BuildTopicKey(FACT_LAYER, content))))
  }

  function Empty(): HotState {
    HotState([], map[])
  }

  lemma FirstAdd(project: string, content: string, root: real -> real)
    requires IsTrimmed(content) && content != ""
    ensures var op := FirstOp(content, root);
            Add(Empty(), project, op.params, op.env).0 == HotState([FirstWrite(project, content)], map[])
  {
    var p, e := FactParams(content, None), CallEnv("1", FIRST, {}, root);
    hide FIRST, Cosine.Similarity;
    assert |FIRST| == EMBEDDING_DIM by { FirstDimension(); }
    assert LayerOf(p, e) == FACT_LAYER && CategoryOf(p, e) == None && Trim(content) == content;
    assert ExactCandidates([], content, FACT_LAYER, project, e.touched) == [];
    assert DedupCandidates([], FACT_LAYER) == [];
    assert Nearest([], p, e) == Match(None, 0.0);
    assert Rejects([], project, p, e) == None;
    hide BuildTopicKey;
    assert RowToWrite([], project, p, e).(rootId := Some("1")) == FirstWrite(project, content);
  }

  lemma FirstDimension()
    ensures |FIRST| == EMBEDDING_DIM && |SECOND| == EMBEDDING_DIM
  {
  }

  lemma OneCandidate(x: NoteRow)
    requires x.isActive && x.layer == FACT_LAYER
    ensures DedupCandidates([x], FACT_LAYER) == [x] && DedupCandidates([x], PROCEDURE_LAYER) == []
  {
    assert [x][1..] == [];
    assert SelectWhere([x], (r: NoteRow) => r.isActive && r.layer == FACT_LAYER) == [x];
    assert SelectWhere([x], (r: NoteRow) => r.isActive && r.layer == PROCEDURE_LAYER) == [];
  }

  lemma NoExactCandidate(x: NoteRow, content: string, layer: string, project: string, touched: NoteRow -> string)
    requires x.content != content || x.layer != layer
    ensures ExactCandidates([x], content, layer, project, touched) == []
  {
    assert [x][1..] == [];
    assert SelectWhere([x], (r: NoteRow) =>
      r.isActive && r.layer == layer && r.content == content && r.projectId == Some(project)) == [];
  }

  lemma OneMatch(x: NoteRow, query: Vector, similarity: (Vector, Vector) -> real)
    requires Comparable(x, query) && similarity(query, x.vector.values) == 0.8
    ensures BestMatch([x], query, similarity) == Match(Some(x), 0.8)
  {
    assert [x][..0] == [];
  }

  lemma SecondNearest(project: string, content: string, topic: Option<string>, root: real -> real)
    requires IsTrimmed(content) && content != "" && Cosine.RootAt(root, 1.0)
    ensures var x, op := FirstWrite(project, content), SecondOp(content, topic, root);
            var p, e := op.params, op.env;
            && LayerOf(p, e) == FACT_LAYER && CategoryOf(p, e) == None && Trim(p.content) == content + "x"
            && Nearest([x], p, e) == Match(Some(x), 0.8) && Rejects([x], project, p, e) == None
  {
    var x := FirstWrite(project, content);
    var p, e := FactParams(content + "x", topic), CallEnv("2", SECOND, {}, root);
    FirstDimension();
    EmbeddingsAreSimilar(root);
    hide Zeros, FIRST, SECOND, Cosine.Similarity, BuildTopicKey;
    assert IsTrimmed(content + "x") && Trim(content + "x") == content + "x";
    assert LayerOf(p, e) == FACT_LAYER && CategoryOf(p, e) == None;
    assert |x.content| != |content + "x"|;
    NoExactCandidate(x, content + "x", FACT_LAYER, project, e.touched);
    OneCandidate(x);
    OneMatch(x, e.embedding.value, e.similarity);
    hide Trim, ExactCandidates, DedupCandidates, BestMatch, LayerOf, CategoryOf;
    assert Nearest([x], p, e) == Match(Some(x), 0.8);
  }

  lemma SecondAdd(project: string, content: string, topic: Option<string>, root: real -> real)
    requires IsTrimmed(content) && content != "" && Cosine.RootAt(root, 1.0)
    ensures var op := SecondOp(content, topic, root);
            Add(HotState([FirstWrite(project, content)], map[]), project, op.params, op.env).0.notes
            == [MarkedSuperseded(FirstWrite(project, content)), SecondWrite(project, content, topic)]
  {
    SecondNearest(project, content, topic, root);
    var x := FirstWrite(project, content);
    var p, e, t := FactParams(content + "x", topic), CallEnv("2", SECOND, {}, root), [x];
    hide BuildTopicKey, Trim, Nearest, Rejects, LayerOf, CategoryOf, FIRST, SECOND, Cosine.Similarity;
    SecondRow(project, content, topic, root);
    hide RowToWrite, FirstWrite, SecondWrite;
    ScanningNothing(Written(t, project, p, e));
    assert SupersededBy(Nearest(t, p, e)) == ["1"];
    RetireFirst(x, SecondWrite(project, content, topic));
  }

  lemma SecondRow(project: string, content: string, topic: Option<string>, root: real -> real)
    requires IsTrimmed(content) && content != "" && Cosine.RootAt(root, 1.0)
    ensures var op := SecondOp(content, topic, root);
            Upsert([FirstWrite(project, content)],
                   RowToWrite([FirstWrite(project, content)], project, op.params, op.env))
            == [FirstWrite(project, content), SecondWrite(project, content, topic)]
    ensures FirstWrite(project, content).id == "1" && SecondWrite(project, content, topic).id == "2"
  {
    SecondNearest(project, content, topic, root);
    var x := FirstWrite(project, content);
    var p, e, t := FactParams(content + "x", topic), CallEnv("2", SECOND, {}, root), [x];
    hide BuildTopicKey, Trim, Nearest, Rejects, LayerOf, CategoryOf, FIRST, SECOND, Cosine.Similarity;
    assert TopicKeyOf(t, "1") == x.topicKey;
    assert RowToWrite(t, project, p, e).(rootId := Some("2")) == SecondWrite(project, content, topic);
  }

  lemma RetireFirst(x: NoteRow, y: NoteRow)
    requires x.id == "1" && y.id == "2"
    ensures Supersede([x, y], "1") == [MarkedSuperseded(x), y]
  {
  }

  /** Two adds of near-identical facts, the second superseding the first. */
  function TwoAdds(w: Setup, content: string, topic: Option<string>, root: real -> real): Table {
    Run(w, Empty(), [FirstOp(content, root), SecondOp(content, topic, root)]).notes
  }

  lemma TwoSteps(w: Setup, s: HotState, first: Op, second: Op)
    ensures Run(w, s, [first, second]) == Step(w, Step(w, s, first), second)
  {
    hide Step;
    var ops := [first, second];
    assert ops[..1] == [first] && [first][..0] == [];
    assert Run(w, s, [first]) == Step(w, s, first);
  }

  lemma TwoAddsLeave(w: Setup, content: string, topic: Option<string>, root: real -> real)
    requires IsTrimmed(content) && content != "" && Cosine.RootAt(root, 1.0)
    ensures TwoAdds(w, content, topic, root) ==
            [MarkedSuperseded(FirstWrite(w.project, content)), SecondWrite(w.project, content, topic)]
  {
    FirstAdd(w.project, content, root);
    SecondAdd(w.project, content, topic, root);
    TwoSteps(w, Empty(), FirstOp(content, root), SecondOp(content, topic, root));
    hide Add, FirstWrite, SecondWrite, FactParams, CallEnv;
  }

  // ---- the key that the reader cannot find ----

  /** After the two adds the first note is superseded and its reader misses. */
  predicate Lost(w: Setup, content: string, root: real -> real) {
    var t := TwoAdds(w, content, None, root);
    && t != [] && SupersededUnder(t[0], BuildTopicKey(FACT_LAYER, content))
    && ReadLineage(t, LineageOfRow(t[0])).source == Miss
  }

  /** A superseded fact is lost to the reader exactly when the key cut from its content ends in whitespace. */
  lemma LostExactly(w: Setup, content: string, root: real -> real)
    requires IsTrimmed(content) && content != "" && Cosine.RootAt(root, 1.0)
    ensures Lost(w, content, root) <==> !IsTrimmed(BuildTopicKey(FACT_LAYER, content))
  {
    TwoAddsLeave(w, content, None, root);
    var key := BuildTopicKey(FACT_LAYER, content);
    assert key[0] == 'v' && key[0] in key;
    hide BuildTopicKey, TwoAdds;
    var x, y := MarkedSuperseded(FirstWrite(w.project, content)), SecondWrite(w.project, content, None);
    TrimOfBlank(key);
    assert !IsBlank(key);
    TwoRowsRead(x, y, key);
  }

  /** A retired row and the head of its key: the reader trims the key before it looks. */
  lemma TwoRowsRead(x: NoteRow, y: NoteRow, key: string)
    requires SupersededUnder(x, key) && LiveHead(y) && y.topicKey == Some(key) && Trim(key) != ""
    requires x.id == "1" && y.id == "2" && x.rootId == Some("1") && y.rootId == Some("2")
    ensures ReadLineage([x, y], LineageOfRow(x)).source == Miss <==> !IsTrimmed(key)
  {
    var t := [x, y];
    OwnRootsMissExactly(t, x, key);
    assert y in t && !LiveHead(x);
    assert HeadUnder(t, Trim(key)) <==> Trim(key) == key;
  }

  lemma {:induction false} AsciiPrefix(s: string, n: nat)
    requires n <= |s| && forall i | 0 <= i < |s| :: s[i] < '\U{80}'
    ensures SafePrefix(s, n) == s[..n]
  {
    if n > 0 {
      AsciiPrefix(s[1..], n - 1);
      assert s[..n] == [s[0]] + s[1..][..n - 1];
    }
  }

  /** Such contents exist: one whose hundredth byte is a space. */
  lemma SomeNoteIsLost(w: Setup, root: real -> real)
    requires Cosine.RootAt(root, 1.0)
    ensures exists content :: IsTrimmed(content) && Lost(w, content, root)
  {
    var head: string := seq(99, i => 'a');
    var content := head + " b";
    assert |content| == 101 && content[0] == 'a' && content[99] == ' ' && content[100] == 'b';
    assert IsTrimmed(content);
    AsciiPrefix(content, TOPIC_PREFIX_BYTES);
    var key := BuildTopicKey(FACT_LAYER, content);
    var cut := NewlinesToSpaces(content[..100]);
    assert key == FACT_LAYER + ":" + cut && |cut| == 100 && cut[99] == ' ';
    assert key[|key| - 1] == ' ';
    LostExactly(w, content, root);
  }

  // ---- orphans ----

  lemma TwoRowsOrphan(x: NoteRow, y: NoteRow, key: string)
    requires SupersededUnder(x, key) && LiveHead(y) && y.evolutionState == Some("active")
    ensures NoOrphans([x, y]) <==> y.topicKey == Some(key)
  {
    var t := [x, y];
    assert x in t && y in t;
    assert !LiveHead(x);
    assert HeadUnder(t, key) <==> y.topicKey == Some(key);
  }

  /** Superseding a note under a key of the caller's own orphans it exactly when that is not the note's own key. */
  lemma OverrideOrphansExactly(w: Setup, content: string, topic: string, root: real -> real)
    requires IsTrimmed(content) && content != "" && Cosine.RootAt(root, 1.0)
    ensures NoOrphans(TwoAdds(w, content, Some(topic), root)) <==> topic == BuildTopicKey(FACT_LAYER, content)
  {
    TwoAddsLeave(w, content, Some(topic), root);
    hide BuildTopicKey, TwoAdds, NoOrphans;
    TwoRowsOrphan(MarkedSuperseded(FirstWrite(w.project, content)), SecondWrite(w.project, content, Some(topic)),
                  BuildTopicKey(FACT_LAYER, content));
  }

  /** A procedure with the fact's own embedding, whose contradiction scan, if its words are watched, hits the fact. */
  function ContradictingOp(content: string, root: real -> real): Op {
    Adding(Params(content, Some(PROCEDURE_LAYER), None, None, None, None, None, None, None, false, false),
           CallEnv("2", FIRST, {"1"}, root))
  }

  function ProcedureWrite(project: string, content: string): NoteRow {
    FirstWrite(project, content).(id := "2", layer := PROCEDURE_LAYER, category := Some("routine"), rootId := Some("2"),
                                  topicKey := Some(BuildTopicKey(PROCEDURE_LAYER, content)))
  }

  lemma ContradictingAdd(project: string, content: string, root: real -> real)
    requires IsTrimmed(content) && content != ""
    ensures var op := ContradictingOp(content, root);
            Add(HotState([FirstWrite(project, content)], map[]), project, op.params, op.env).0.notes
            == [MarkedSuperseded(FirstWrite(project, content)), ProcedureWrite(project, content)]
  {
    var op, x := ContradictingOp(content, root), FirstWrite(project, content);
    var p, e, t := op.params, op.env, [x];
    FirstDimension();
    hide FIRST, Cosine.Similarity, BuildTopicKey;
    assert LayerOf(p, e) == PROCEDURE_LAYER && CategoryOf(p, e) == Some("routine") && Trim(content) == content;
    NoExactCandidate(x, content, PROCEDURE_LAYER, project, e.touched);
    OneCandidate(x);
    hide Trim, ExactCandidates, DedupCandidates, LayerOf, CategoryOf;
    assert Nearest(t, p, e) == Match(None, 0.0);
    assert Rejects(t, project, p, e) == None;
    var row := ProcedureWrite(project, content);
    assert RowToWrite(t, project, p, e).(rootId := Some("2")) == row;
    assert Upsert(t, RowToWrite(t, project, p, e)) == [x, row];
    assert CrossLayer([x, row], {"1"}) == [MarkedSuperseded(x), row];
  }

  /** A contradiction across layers orphans the note it retires: the new note's key names another layer. */
  lemma ContradictionOrphans(w: Setup, content: string, root: real -> real)
    requires IsTrimmed(content) && content != ""
    ensures !NoOrphans(Run(w, Empty(), [FirstOp(content, root), ContradictingOp(content, root)]).notes)
  {
    FirstAdd(w.project, content, root);
    ContradictingAdd(w.project, content, root);
    TwoSteps(w, Empty(), FirstOp(content, root), ContradictingOp(content, root));
    var x, y := MarkedSuperseded(FirstWrite(w.project, content)), ProcedureWrite(w.project, content);
    assert BuildTopicKey(FACT_LAYER, content)[0] == 'v' && BuildTopicKey(PROCEDURE_LAYER, content)[0] == 'p';
    hide BuildTopicKey, Add, NoOrphans, FactParams, CallEnv;
    TwoRowsOrphan(x, y, BuildTopicKey(FACT_LAYER, content));
  }
}
