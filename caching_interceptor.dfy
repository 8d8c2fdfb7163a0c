/** The caching interceptor (`CachingInterceptor`): runs a wrapped document
    transformer only on inputs whose id the artifact layer does not know yet, and
    reuses the stored children for the others. */
module Interceptor {
  import opened Errors
  import opened Records
  import opened MetadataIndex
  import opened ArtifactLayer

  /** A document transformer. Its answer may depend on how many calls it has
      already served (the first argument), so it need not be deterministic. */
  type Transformer = (nat, seq<Document>) -> seq<Document>

  /** `[document.id for document in documents]`. */
  function Ids(ds: seq<Document>): seq<string> {
    seq(|ds|, i requires 0 <= i < |ds| => ds[i].id)
  }

  /** Python's `zip`: pairs up to the shorter of the two sequences. */
  function Zip<A, B>(xs: seq<A>, ys: seq<B>): seq<(A, B)> {
    seq(if |xs| <= |ys| then |xs| else |ys|, i requires 0 <= i < |xs| && i < |ys| => (xs[i], ys[i]))
  }

  /** The state of the loop of `transform_documents`: the documents returned so
      far, the arguments of the transformer calls made so far, the layer's state. */
  datatype Progress = Progress(output: seq<Document>, calls: seq<seq<Document>>, state: LayerState)

  /** One iteration of the loop of `transform_documents`, on the pair
      (document, exists), with `k0` transformer calls made before the batch. */
  function Advance(serialize: Document -> string, transformer: Transformer,
                   children: (LayerState, string) -> seq<Document>,
                   k0: nat, pre: Progress, pair: (Document, bool)): Progress
  {
    var document := pair.0;
    if !pair.1 then
      var transformed := transformer(k0 + |pre.calls|, [document]);
      Progress(pre.output + transformed, pre.calls + [[document]], AddDocs(pre.state, transformed, serialize))
    else
      Progress(pre.output + children(pre.state, document.hash), pre.calls, pre.state)
  }

  /** The loop of `transform_documents` over the (document, exists) pairs, from
      layer state `st0` with `k0` transformer calls already made. */
  function Intercept(serialize: Document -> string, transformer: Transformer,
                     children: (LayerState, string) -> seq<Document>,
                     st0: LayerState, k0: nat, pairs: seq<(Document, bool)>): Progress
    decreases |pairs|
  {
    if pairs == [] then Progress([], [], st0)
    else
      Advance(serialize, transformer, children, k0,
              Intercept(serialize, transformer, children, st0, k0, pairs[..|pairs| - 1]), pairs[|pairs| - 1])
  }

  /** One more iteration of the loop: `Intercept` on `pairs[..i + 1]` in terms of `pairs[..i]`. */
  lemma InterceptSnoc(serialize: Document -> string, transformer: Transformer,
                      children: (LayerState, string) -> seq<Document>,
                      st0: LayerState, k0: nat, pairs: seq<(Document, bool)>, i: nat)
    requires i < |pairs|
    ensures Intercept(serialize, transformer, children, st0, k0, pairs[..i + 1])
         == Advance(serialize, transformer, children, k0,
                    Intercept(serialize, transformer, children, st0, k0, pairs[..i]), pairs[i])
  {
    assert pairs[..i + 1][..i] == pairs[..i];
  }

  // ------------------------------------------- reference definitions

  /** The inputs that were absent from the snapshot, in order. */
  function FreshInputs(pairs: seq<(Document, bool)>): seq<Document>
    decreases |pairs|
  {
    if pairs == [] then []
    else FreshInputs(pairs[..|pairs| - 1]) + (if !pairs[|pairs| - 1].1 then [pairs[|pairs| - 1].0] else [])
  }

  /** Each document as a one-element batch. */
  function Singletons(ds: seq<Document>): seq<seq<Document>> {
    seq(|ds|, i requires 0 <= i < |ds| => [ds[i]])
  }

  /** The concatenated outputs of transforming each of `ds` in turn, the `j`-th
      being the transformer's call number `k0 + j`. */
  function TransformedAll(transformer: Transformer, k0: nat, ds: seq<Document>): seq<Document>
    decreases |ds|
  {
    if ds == [] then []
    else TransformedAll(transformer, k0, ds[..|ds| - 1]) + transformer(k0 + |ds| - 1, [ds[|ds| - 1]])
  }

  function Concat(parts: seq<seq<Document>>): seq<Document>
    decreases |parts|
  {
    if parts == [] then [] else Concat(parts[..|parts| - 1]) + parts[|parts| - 1]
  }

  /** What input `i` contributes to the output: the transformer's answer on the
      singleton batch when it was absent, else the children stored for its hash
      in the layer as all earlier fresh inputs left it. */
  function Contribution(serialize: Document -> string, transformer: Transformer,
                        children: (LayerState, string) -> seq<Document>,
                        st0: LayerState, k0: nat, pairs: seq<(Document, bool)>, i: nat): seq<Document>
    requires i < |pairs|
  {
    var before := FreshInputs(pairs[..i]);
    Answer(transformer, children, k0 + |before|, AddDocs(st0, TransformedAll(transformer, k0, before), serialize), pairs[i])
  }

  /** The answer for one (document, exists) pair: call number `call` of the
      transformer on `[document]` when absent, else the children that layer state
      `st` holds for its hash. */
  function Answer(transformer: Transformer, children: (LayerState, string) -> seq<Document>,
                 call: nat, st: LayerState, pair: (Document, bool)): seq<Document>
  {
    if !pair.1 then transformer(call, [pair.0]) else children(st, pair.0.hash)
  }

  function Contributions(serialize: Document -> string, transformer: Transformer,
                         children: (LayerState, string) -> seq<Document>,
                         st0: LayerState, k0: nat, pairs: seq<(Document, bool)>): seq<seq<Document>>
  {
    seq(|pairs|, i requires 0 <= i < |pairs| => Contribution(serialize, transformer, children, st0, k0, pairs, i))
  }

  // ------------------------------------------------------------ lemmas

  /** The transformer is called exactly once per input absent from the snapshot,
      in input order, each time on the singleton batch `[document]`. */
  lemma {:induction false} InterceptCalls(serialize: Document -> string, transformer: Transformer,
                                          children: (LayerState, string) -> seq<Document>,
                                          st0: LayerState, k0: nat, pairs: seq<(Document, bool)>)
    ensures Intercept(serialize, transformer, children, st0, k0, pairs).calls == Singletons(FreshInputs(pairs))
    decreases |pairs|
  {
    if pairs != [] {
      var pre := pairs[..|pairs| - 1];
      InterceptCalls(serialize, transformer, children, st0, k0, pre);
      var f := FreshInputs(pre);
      if !pairs[|pairs| - 1].1 {
        assert Singletons(f + [pairs[|pairs| - 1].0]) == Singletons(f) + [[pairs[|pairs| - 1].0]];
      } else {
        assert f + [] == f;
      }
    }
  }

  /** A fresh input's iteration adds its outputs after those of the earlier fresh inputs. */
  lemma AdvanceFreshState(serialize: Document -> string, transformer: Transformer,
                          children: (LayerState, string) -> seq<Document>,
                          st0: LayerState, k0: nat, pre: Progress, f: seq<Document>, d: Document)
    requires pre.state == AddDocs(st0, TransformedAll(transformer, k0, f), serialize)
    requires |pre.calls| == |f|
    ensures Advance(serialize, transformer, children, k0, pre, (d, false)).state
         == AddDocs(st0, TransformedAll(transformer, k0, f + [d]), serialize)
  {
    var out := transformer(k0 + |f|, [d]);
    assert Advance(serialize, transformer, children, k0, pre, (d, false)).state == AddDocs(pre.state, out, serialize);
    TransformedAllSnoc(transformer, k0, f, d);
    AddDocsStep(st0, pre.state, TransformedAll(transformer, k0, f), out,
                TransformedAll(transformer, k0, f + [d]), serialize);
  }

  /** Transforming one more document appends its call's output. */
  lemma TransformedAllSnoc(transformer: Transformer, k0: nat, f: seq<Document>, d: Document)
    ensures TransformedAll(transformer, k0, f + [d]) == TransformedAll(transformer, k0, f) + transformer(k0 + |f|, [d])
  {
    assert (f + [d])[..|f|] == f;
  }

  /** Adding `out` to the state left by adding `before` is adding `before + out` at once. */
  lemma AddDocsStep(st0: LayerState, st: LayerState, before: seq<Document>, out: seq<Document>,
                    all: seq<Document>, serialize: Document -> string)
    requires st == AddDocs(st0, before, serialize)
    requires all == before + out
    ensures AddDocs(st, out, serialize) == AddDocs(st0, all, serialize)
  {
    AddDocsAppend(st0, before, out, serialize);
  }

  /** The last pair extends the fresh inputs by its document iff it was absent. */
  lemma FreshInputsSnoc(pairs: seq<(Document, bool)>)
    requires pairs != []
    ensures FreshInputs(pairs)
         == FreshInputs(pairs[..|pairs| - 1]) + (if !pairs[|pairs| - 1].1 then [pairs[|pairs| - 1].0] else [])
  {
  }

  /** The layer ends up as if the outputs of all fresh inputs had been added in one batch. */
  lemma {:induction false} InterceptState(serialize: Document -> string, transformer: Transformer,
                                          children: (LayerState, string) -> seq<Document>,
                                          st0: LayerState, k0: nat, pairs: seq<(Document, bool)>)
    ensures Intercept(serialize, transformer, children, st0, k0, pairs).state
         == AddDocs(st0, TransformedAll(transformer, k0, FreshInputs(pairs)), serialize)
    decreases |pairs|
  {
    if pairs == [] {
      assert RecordsOf([]) == [];
      assert st0.records + [] == st0.records;
    } else {
      var n := |pairs|;
      var pre := pairs[..n - 1];
      InterceptState(serialize, transformer, children, st0, k0, pre);
      InterceptCalls(serialize, transformer, children, st0, k0, pre);
      var opre := Intercept(serialize, transformer, children, st0, k0, pre);
      var f := FreshInputs(pre);
      FreshInputsSnoc(pairs);
      if !pairs[n - 1].1 {
        AdvanceFreshState(serialize, transformer, children, st0, k0, opre, f, pairs[n - 1].0);
        assert pairs[n - 1] == (pairs[n - 1].0, false);
      } else {
        assert f + [] == f;
      }
    }
  }

  /** A contribution depends only on the pairs up to its own position. */
  lemma ContributionsPrefix(serialize: Document -> string, transformer: Transformer,
                            children: (LayerState, string) -> seq<Document>,
                            st0: LayerState, k0: nat, pairs: seq<(Document, bool)>, n: nat)
    requires n <= |pairs|
    ensures Contributions(serialize, transformer, children, st0, k0, pairs)[..n]
         == Contributions(serialize, transformer, children, st0, k0, pairs[..n])
  {
    var cs := Contributions(serialize, transformer, children, st0, k0, pairs);
    var cpre := Contributions(serialize, transformer, children, st0, k0, pairs[..n]);
    forall i | 0 <= i < n
      ensures cs[i] == cpre[i]
    {
      assert pairs[..n][..i] == pairs[..i];
    }
  }

  lemma ConcatSnoc(parts: seq<seq<Document>>)
    requires parts != []
    ensures Concat(parts) == Concat(parts[..|parts| - 1]) + parts[|parts| - 1]
  {
  }

  /** The last input's contribution is what the loop's last iteration appends. */
  lemma LastContribution(serialize: Document -> string, transformer: Transformer,
                         children: (LayerState, string) -> seq<Document>,
                         st0: LayerState, k0: nat, pairs: seq<(Document, bool)>)
    requires pairs != []
    ensures Intercept(serialize, transformer, children, st0, k0, pairs).output
         == Intercept(serialize, transformer, children, st0, k0, pairs[..|pairs| - 1]).output
            + Contribution(serialize, transformer, children, st0, k0, pairs, |pairs| - 1)
  {
    var n := |pairs|;
    var op := Intercept(serialize, transformer, children, st0, k0, pairs[..n - 1]);
    var y := Answer(transformer, children, k0 + |op.calls|, op.state, pairs[n - 1]);
    assert Intercept(serialize, transformer, children, st0, k0, pairs).output == op.output + y by {
      AdvanceOutput(serialize, transformer, children, k0, op, pairs[n - 1]);
    }
    assert Contribution(serialize, transformer, children, st0, k0, pairs, n - 1) == y by {
      ContributionFromProgress(serialize, transformer, children, st0, k0, pairs, n - 1);
    }
  }

  /** Input `i`'s contribution is its answer for the calls made and the layer
      state reached by the loop over the inputs before it. */
  lemma ContributionFromProgress(serialize: Document -> string, transformer: Transformer,
                                 children: (LayerState, string) -> seq<Document>,
                                 st0: LayerState, k0: nat, pairs: seq<(Document, bool)>, i: nat)
    requires i < |pairs|
    ensures var op := Intercept(serialize, transformer, children, st0, k0, pairs[..i]);
            Contribution(serialize, transformer, children, st0, k0, pairs, i)
            == Answer(transformer, children, k0 + |op.calls|, op.state, pairs[i])
  {
    InterceptCalls(serialize, transformer, children, st0, k0, pairs[..i]);
    InterceptState(serialize, transformer, children, st0, k0, pairs[..i]);
  }

  /** What one iteration appends is the pair's answer for the calls made and the state so far. */
  lemma AdvanceOutput(serialize: Document -> string, transformer: Transformer,
                      children: (LayerState, string) -> seq<Document>,
                      k0: nat, pre: Progress, pair: (Document, bool))
    ensures Advance(serialize, transformer, children, k0, pre, pair).output
         == pre.output + Answer(transformer, children, k0 + |pre.calls|, pre.state, pair)
  {
  }

  /** One iteration, component by component. */
  lemma AdvanceParts(serialize: Document -> string, transformer: Transformer,
                     children: (LayerState, string) -> seq<Document>,
                     k0: nat, pre: Progress, pair: (Document, bool))
    ensures var y := Answer(transformer, children, k0 + |pre.calls|, pre.state, pair);
            Advance(serialize, transformer, children, k0, pre, pair)
            == Progress(pre.output + y, pre.calls + (if pair.1 then [] else [[pair.0]]),
                        if pair.1 then pre.state else AddDocs(pre.state, y, serialize))
  {
    if pair.1 {
      assert pre.calls + [] == pre.calls;
    }
  }

  /** The loop of `transform_documents` keeps its invariant: given the progress
      over `pairs[..i]`, what iteration `i` does gives the progress over `pairs[..i + 1]`. */
  lemma LoopStep(serialize: Document -> string, transformer: Transformer,
                 children: (LayerState, string) -> seq<Document>,
                 st0: LayerState, k0: nat, pairs: seq<(Document, bool)>, i: nat,
                 output: seq<Document>, calls: seq<seq<Document>>, st: LayerState,
                 produced: seq<Document>, st': LayerState)
    requires i < |pairs|
    requires Intercept(serialize, transformer, children, st0, k0, pairs[..i]) == Progress(output, calls, st)
    requires produced == Answer(transformer, children, k0 + |calls|, st, pairs[i])
    requires st' == if pairs[i].1 then st else AddDocs(st, produced, serialize)
    ensures Intercept(serialize, transformer, children, st0, k0, pairs[..i + 1])
         == Progress(output + produced, calls + (if pairs[i].1 then [] else [[pairs[i].0]]), st')
  {
    InterceptSnoc(serialize, transformer, children, st0, k0, pairs, i);
    AdvanceParts(serialize, transformer, children, k0, Progress(output, calls, st), pairs[i]);
  }

  lemma AppendAssoc<T>(a: seq<T>, b: seq<T>, c: seq<T>)
    ensures (a + b) + c == a + (b + c)
  {
  }

  /** The result is the in-order concatenation of the inputs' contributions. */
  lemma {:induction false} InterceptOutput(serialize: Document -> string, transformer: Transformer,
                                           children: (LayerState, string) -> seq<Document>,
                                           st0: LayerState, k0: nat, pairs: seq<(Document, bool)>)
    ensures Intercept(serialize, transformer, children, st0, k0, pairs).output
         == Concat(Contributions(serialize, transformer, children, st0, k0, pairs))
    decreases |pairs|
  {
    if pairs != [] {
      var n := |pairs|;
      var pre := pairs[..n - 1];
      InterceptOutput(serialize, transformer, children, st0, k0, pre);
      LastContribution(serialize, transformer, children, st0, k0, pairs);
      var cs := Contributions(serialize, transformer, children, st0, k0, pairs);
      ContributionsPrefix(serialize, transformer, children, st0, k0, pairs, n - 1);
      ConcatSnoc(cs);
      assert cs[n - 1] == Contribution(serialize, transformer, children, st0, k0, pairs, n - 1);
    }
  }

  /** The `exists` the layer inherits answers like `exists_by_id`. */
  ghost predicate ExistsIsById(baseExists: (LayerState, seq<string>) -> seq<bool>) {
    forall st: LayerState, ids: seq<string> {:trigger baseExists(st, ids)} ::
      baseExists(st, ids) == Presence(IndexBy(st.records, CustomId), ids)
  }

  /** With an `exists` that answers by id, `zip` drops nothing: every input is
      handled, paired with whether its id was stored when the batch began. */
  lemma EveryInputHandled(baseExists: (LayerState, seq<string>) -> seq<bool>, st: LayerState, ds: seq<Document>)
    requires ExistsIsById(baseExists)
    ensures |Zip(ds, baseExists(st, Ids(ds)))| == |ds|
    ensures forall i :: 0 <= i < |ds| ==> Zip(ds, baseExists(st, Ids(ds)))[i] == (ds[i], Stored(st.records, CustomId, ds[i].id))
  {
    IndexByDomainAll(st.records, CustomId);
  }

  /** The existence snapshot is taken once, before the loop: two inputs of one
      batch with the same unknown id are both transformed. */
  lemma DuplicateIdsBothTransformed(serialize: Document -> string, transformer: Transformer,
                                    children: (LayerState, string) -> seq<Document>,
                                    baseExists: (LayerState, seq<string>) -> seq<bool>,
                                    st: LayerState, k0: nat, d1: Document, d2: Document)
    requires ExistsIsById(baseExists)
    requires d1.id == d2.id && !Stored(st.records, CustomId, d1.id)
    ensures Intercept(serialize, transformer, children, st, k0, Zip([d1, d2], baseExists(st, Ids([d1, d2])))).calls
         == [[d1], [d2]]
  {
    IndexByDomain(st.records, CustomId, d1.id);
    var pairs := Zip([d1, d2], baseExists(st, Ids([d1, d2])));
    assert pairs == [(d1, false), (d2, false)];
    InterceptCalls(serialize, transformer, children, st, k0, pairs);
    assert pairs[..1] == [(d1, false)];
    var p1: seq<(Document, bool)> := pairs[..1];
    assert |p1[..0]| == 0;
    assert FreshInputs(pairs[..1]) == [d1];
    assert FreshInputs(pairs) == FreshInputs(pairs[..1]) + [d2];
  }

  /** The loop over a single input. */
  lemma InterceptOne(serialize: Document -> string, transformer: Transformer,
                     children: (LayerState, string) -> seq<Document>,
                     st: LayerState, k0: nat, d: Document, present: bool)
    ensures Intercept(serialize, transformer, children, st, k0, [(d, present)])
         == if !present then Progress(transformer(k0, [d]), [[d]], AddDocs(st, transformer(k0, [d]), serialize))
            else Progress(children(st, d.hash), [], st)
  {
    var pairs := [(d, present)];
    InterceptSnoc(serialize, transformer, children, st, k0, pairs, 0);
    assert pairs[..1] == pairs;
    assert Intercept(serialize, transformer, children, st, k0, pairs[..0]) == Progress([], [], st);
  }

  /** After adding `out`, an id is stored iff it was before or some output carries it. */
  lemma StoredAfterAdd(st: LayerState, out: seq<Document>, serialize: Document -> string, id: string)
    ensures Stored(AddDocs(st, out, serialize).records, CustomId, id)
        <==> Stored(st.records, CustomId, id) || exists x :: x in out && x.id == id
  {
    var rs := RecordsOf(out);
    var all := AddDocs(st, out, serialize).records;
    assert all == st.records + rs;
    if exists x :: x in out && x.id == id {
      var x :| x in out && x.id == id;
      var i :| 0 <= i < |out| && out[i] == x;
      RecordsOfAt(out, i);
      assert rs[i] in all;
    }
    if Stored(all, CustomId, id) {
      var a :| a in all && a.customId == id;
      if a !in st.records {
        assert a in rs;
        var i :| 0 <= i < |rs| && rs[i] == a;
        RecordsOfAt(out, i);
        assert out[i] in out;
      }
    }
  }

  /** Feeding the same unknown document twice: the first batch calls the
      transformer once; the second batch calls it again unless one of the first
      batch's outputs carries the input's own id, and when it does not call it,
      it returns the stored children and leaves the layer as it was. */
  lemma RepeatedDocument(serialize: Document -> string, transformer: Transformer,
                         children: (LayerState, string) -> seq<Document>,
                         baseExists: (LayerState, seq<string>) -> seq<bool>,
                         st: LayerState, k0: nat, d: Document)
    requires ExistsIsById(baseExists)
    requires !Stored(st.records, CustomId, d.id)
    ensures var first := Intercept(serialize, transformer, children, st, k0, Zip([d], baseExists(st, [d.id])));
            var second := Intercept(serialize, transformer, children, first.state, k0 + 1,
                                    Zip([d], baseExists(first.state, [d.id])));
            && first.calls == [[d]]
            && first.output == transformer(k0, [d])
            && (second.calls == [] <==> exists x :: x in transformer(k0, [d]) && x.id == d.id)
            && (second.calls == [] ==> second.output == children(first.state, d.hash) && second.state == first.state)
  {
    var out := transformer(k0, [d]);
    var st1 := AddDocs(st, out, serialize);
    SingleLookup(baseExists, st, d);
    InterceptOne(serialize, transformer, children, st, k0, d, false);
    SingleLookup(baseExists, st1, d);
    StoredAfterAdd(st, out, serialize, d.id);
    InterceptOne(serialize, transformer, children, st1, k0 + 1, d, Stored(st1.records, CustomId, d.id));
  }

  /** With an `exists` that answers by id, a one-document batch is paired with
      whether its id is stored. */
  lemma SingleLookup(baseExists: (LayerState, seq<string>) -> seq<bool>, st: LayerState, d: Document)
    requires ExistsIsById(baseExists)
    ensures Zip([d], baseExists(st, [d.id])) == [(d, Stored(st.records, CustomId, d.id))]
  {
    IndexByDomain(st.records, CustomId, d.id);
  }

  // ------------------------------------------------------------- the class

  /** `CachingInterceptor`, wrapping a transformer around a file-system layer.
      `invocations` lists the argument of every call made to the transformer. */
  class CachingInterceptor {
    const artifactLayer: FileSystemArtifactLayer
    const documentTransformer: Transformer
    var invocations: seq<seq<Document>>

    constructor (artifactLayer: FileSystemArtifactLayer, documentTransformer: Transformer)
      ensures this.artifactLayer == artifactLayer && this.documentTransformer == documentTransformer
      ensures invocations == []
    {
      this.artifactLayer := artifactLayer;
      this.documentTransformer := documentTransformer;
      invocations := [];
    }

    /** One iteration of the loop of `transform_documents`: an absent document is
        transformed alone and the outputs are added to the layer; a present one
        yields the children stored for its hash. */
    method HandleOne(document: Document, present: bool) returns (produced: seq<Document>)
      requires artifactLayer.Valid()
      modifies this, artifactLayer, artifactLayer.metadataStore
      ensures artifactLayer.Valid()
      ensures produced == Answer(documentTransformer, artifactLayer.baseChildDocuments, old(|invocations|),
                                old(artifactLayer.State()), (document, present))
      ensures invocations == old(invocations) + (if present then [] else [[document]])
      ensures artifactLayer.State()
           == if present then old(artifactLayer.State()) else AddDocs(old(artifactLayer.State()), produced, artifactLayer.serialize)
      ensures artifactLayer.metadataFile
           == if present then old(artifactLayer.metadataFile) else artifactLayer.metadataStore.artifacts
    {
      if !present {
        produced := documentTransformer(|invocations|, [document]);
        invocations := invocations + [[document]];
        artifactLayer.Add(produced);
      } else {
        produced := artifactLayer.GetChildDocuments(document.hash);
      }
    }

    /** One turn of the loop of `transform_documents`: handles `pairs[i]` and
        carries the loop's invariant from `pairs[..i]` to `pairs[..i + 1]`. */
    method HandleAt(pairs: seq<(Document, bool)>, i: nat, ghost st0: LayerState,
                    ghost inv0: seq<seq<Document>>,
                    ghost output: seq<Document>, ghost calls: seq<seq<Document>>)
      returns (produced: seq<Document>, ghost calls': seq<seq<Document>>)
      requires i < |pairs|
      requires artifactLayer.Valid()
      requires invocations == inv0 + calls
      requires Intercept(artifactLayer.serialize, documentTransformer, artifactLayer.baseChildDocuments,
                         st0, |inv0|, pairs[..i])
            == Progress(output, calls, artifactLayer.State())
      modifies this, artifactLayer, artifactLayer.metadataStore
      ensures artifactLayer.Valid()
      ensures invocations == inv0 + calls'
      ensures Intercept(artifactLayer.serialize, documentTransformer, artifactLayer.baseChildDocuments,
                        st0, |inv0|, pairs[..i + 1])
           == Progress(output + produced, calls', artifactLayer.State())
    {
      ghost var serialize := artifactLayer.serialize;
      ghost var children := artifactLayer.baseChildDocuments;
      ghost var stBefore := artifactLayer.State();
      ghost var step: seq<seq<Document>> := if pairs[i].1 then [] else [[pairs[i].0]];
      produced := HandleOne(pairs[i].0, pairs[i].1);
      ghost var stAfter := artifactLayer.State();
      AppendAssoc(inv0, calls, step);
      calls' := calls + step;
      LoopStep(serialize, documentTransformer, children, st0, |inv0|,
               pairs, i, output, calls, stBefore, produced, stAfter);
    }

    /** Checks existence of all input ids once; then, input by input, either
        transforms the input alone and adds the outputs to the layer, or takes the
        stored children of its hash; returns everything in input order. */
    method TransformDocuments(documents: seq<Document>) returns (newDocs: seq<Document>)
      requires artifactLayer.Valid()
      modifies this, artifactLayer, artifactLayer.metadataStore
      ensures artifactLayer.Valid()
      ensures var st0 := old(artifactLayer.State());
              var pairs := Zip(documents, artifactLayer.baseExists(st0, Ids(documents)));
              var o := Intercept(artifactLayer.serialize, documentTransformer, artifactLayer.baseChildDocuments,
                                 st0, old(|invocations|), pairs);
              && newDocs == o.output
              && artifactLayer.State() == o.state
              && invocations == old(invocations) + o.calls
              && artifactLayer.metadataFile == o.state.records
    {
      var existence := artifactLayer.Exists(Ids(documents));
      var pairs := Zip(documents, existence);
      newDocs := Run(pairs);
    }

    /** The loop of `transform_documents` over the (document, exists) pairs. */
    method Run(pairs: seq<(Document, bool)>) returns (newDocs: seq<Document>)
      requires artifactLayer.Valid()
      modifies this, artifactLayer, artifactLayer.metadataStore
      ensures artifactLayer.Valid()
      ensures var o := Intercept(artifactLayer.serialize, documentTransformer, artifactLayer.baseChildDocuments,
                                 old(artifactLayer.State()), old(|invocations|), pairs);
              && newDocs == o.output
              && artifactLayer.State() == o.state
              && invocations == old(invocations) + o.calls
              && artifactLayer.metadataFile == o.state.records
    {
      ghost var st0 := artifactLayer.State();
      ghost var inv0 := invocations;
      ghost var serialize := artifactLayer.serialize;
      ghost var children := artifactLayer.baseChildDocuments;
      newDocs := [];
      ghost var calls: seq<seq<Document>> := [];
      for i := 0 to |pairs|
        invariant artifactLayer.Valid()
        invariant invocations == inv0 + calls
        invariant Intercept(serialize, documentTransformer, children, st0, |inv0|, pairs[..i])
               == Progress(newDocs, calls, artifactLayer.State())
      {
        var produced;
        produced, calls := HandleAt(pairs, i, st0, inv0, newDocs, calls);
        newDocs := newDocs + produced;
      }
      assert pairs[..|pairs|] == pairs;
    }
  }
}
