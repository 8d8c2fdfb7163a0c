/** The in-memory metadata index (`InMemoryStore`): a list of artifact records with
    two dictionary indexes, existence checks, lookup by uuid and selector queries. */
module MetadataIndex {
  import opened Errors
  import opened Records

  // ------------------------------------------------------------------ indexes

  /** The dictionary comprehension `{key(a): a for a in rs}`: a later record
      overwrites an earlier one with the same key. */
  function IndexBy(rs: seq<Artifact>, f: Field): map<string, Artifact>
    decreases |rs|
  {
    if rs == [] then map[]
    else IndexBy(rs[..|rs| - 1], f)[KeyOf(f, rs[|rs| - 1]) := rs[|rs| - 1]]
  }

  /** Some record of `rs` carries `k` in field `f`. */
  ghost predicate Stored(rs: seq<Artifact>, f: Field, k: string) {
    exists a :: a in rs && KeyOf(f, a) == k
  }

  /** The position of the last record of `rs` whose field `f` is `k`, or -1. */
  function LastPos(rs: seq<Artifact>, f: Field, k: string): (p: int)
    ensures -1 <= p < |rs|
    ensures 0 <= p ==> KeyOf(f, rs[p]) == k
    ensures forall j :: p < j < |rs| ==> KeyOf(f, rs[j]) != k
    decreases |rs|
  {
    if rs == [] then -1
    else if KeyOf(f, rs[|rs| - 1]) == k then |rs| - 1
    else LastPos(rs[..|rs| - 1], f, k)
  }

  /** The index holds exactly the keys of the records, each mapped to the last
      record carrying it (last writer wins). */
  lemma {:induction false} IndexByLastWriterWins(rs: seq<Artifact>, f: Field, k: string)
    ensures k in IndexBy(rs, f) <==> 0 <= LastPos(rs, f, k)
    ensures k in IndexBy(rs, f) ==> 0 <= LastPos(rs, f, k) && IndexBy(rs, f)[k] == rs[LastPos(rs, f, k)]
    decreases |rs|
  {
    if rs != [] {
      var pre := rs[..|rs| - 1];
      IndexByLastWriterWins(pre, f, k);
      if KeyOf(f, rs[|rs| - 1]) != k {
        assert LastPos(rs, f, k) == LastPos(pre, f, k);
      }
    }
  }

  /** A key is indexed iff some record carries it. */
  lemma IndexByDomain(rs: seq<Artifact>, f: Field, k: string)
    ensures k in IndexBy(rs, f) <==> Stored(rs, f, k)
  {
    IndexByLastWriterWins(rs, f, k);
    if Stored(rs, f, k) {
      var a :| a in rs && KeyOf(f, a) == k;
      var i :| 0 <= i < |rs| && rs[i] == a;
      assert i <= LastPos(rs, f, k);
    }
    if 0 <= LastPos(rs, f, k) {
      assert rs[LastPos(rs, f, k)] in rs;
    }
  }

  lemma IndexByDomainAll(rs: seq<Artifact>, f: Field)
    ensures forall k :: k in IndexBy(rs, f) <==> Stored(rs, f, k)
  {
    forall k
      ensures k in IndexBy(rs, f) <==> Stored(rs, f, k)
    {
      IndexByDomain(rs, f, k);
    }
  }

  /** `[bool(k in idx) for k in keys]`. */
  function Presence(idx: map<string, Artifact>, keys: seq<string>): seq<bool> {
    seq(|keys|, i requires 0 <= i < |keys| => keys[i] in idx)
  }

  /** Existence answers depend only on which records are stored, not on their order. */
  lemma ExistsOrderIndependent(rs1: seq<Artifact>, rs2: seq<Artifact>, f: Field, keys: seq<string>)
    requires multiset(rs1) == multiset(rs2)
    ensures Presence(IndexBy(rs1, f), keys) == Presence(IndexBy(rs2, f), keys)
  {
    IndexByDomainAll(rs1, f);
    IndexByDomainAll(rs2, f);
    forall i | 0 <= i < |keys|
      ensures (keys[i] in IndexBy(rs1, f)) == (keys[i] in IndexBy(rs2, f))
    {
      if Stored(rs1, f, keys[i]) {
        var a :| a in rs1 && KeyOf(f, a) == keys[i];
        assert a in multiset(rs1);
        assert a in rs2;
      }
      if Stored(rs2, f, keys[i]) {
        var a :| a in rs2 && KeyOf(f, a) == keys[i];
        assert a in multiset(rs2);
        assert a in rs1;
      }
    }
  }

  /** `[idx[k] for k in keys]`, raising `KeyError` on the first missing key. */
  function LookupAll(idx: map<string, Artifact>, keys: seq<string>): (r: Result<seq<Artifact>>)
    ensures r.Success? <==> forall i :: 0 <= i < |keys| ==> keys[i] in idx
    ensures r.Success? ==> |r.value| == |keys| && forall i :: 0 <= i < |keys| ==> keys[i] in idx && r.value[i] == idx[keys[i]]
    ensures r.Failure? ==>
      exists i :: 0 <= i < |keys| && keys[i] !in idx && r.error == KeyError(keys[i])
                  && forall j :: 0 <= j < i ==> keys[j] in idx
    decreases |keys|
  {
    if keys == [] then Success([])
    else if keys[0] !in idx then Failure(KeyError(keys[0]))
    else
      var rest := LookupAll(idx, keys[1..]);
      if rest.Failure? then
        assert exists i :: 0 <= i < |keys| - 1 && keys[1..][i] !in idx && rest.error == KeyError(keys[1..][i])
                           && forall j :: 0 <= j < i ==> keys[1..][j] in idx;
        var i :| 0 <= i < |keys| - 1 && keys[1..][i] !in idx && rest.error == KeyError(keys[1..][i])
                 && forall j :: 0 <= j < i ==> keys[1..][j] in idx;
        assert forall j :: 0 <= j < i + 1 ==> keys[j] in idx by {
          forall j | 0 <= j < i + 1 ensures keys[j] in idx {
            if j > 0 { assert keys[j] == keys[1..][j - 1]; }
          }
        }
        Failure(rest.error)
      else
        Success([idx[keys[0]]] + rest.value)
  }

  // ---------------------------------------------------------------- selectors

  /** A clause mentions `x` when it is present and contains `x`. */
  predicate Mentions(clause: Option<seq<string>>, x: string) {
    clause.Some? && x in clause.value
  }

  /** Python truthiness of an optional list: present and non-empty. */
  predicate Truthy(clause: Option<seq<string>>) {
    clause.Some? && |clause.value| > 0
  }

  /** A record matches a selector when ANY clause does: its uuid is among the
      `ids`, or among the `hashes`, or one of its parents is among the `parent_hashes`. */
  ghost predicate Matches(a: Artifact, sel: Selector) {
    || Mentions(sel.ids, a.uuid)
    || Mentions(sel.hashes, a.uuid)
    || exists p :: p in a.parentUuids && Mentions(sel.parentHashes, p)
  }

  /** The loop of `select` raises on a record that matched neither the `ids` nor
      the `hashes` clause, has parents, and meets an absent `parent_hashes` clause. */
  ghost predicate Raises(a: Artifact, sel: Selector) {
    && !Mentions(sel.ids, a.uuid)
    && !Mentions(sel.hashes, a.uuid)
    && |a.parentUuids| > 0
    && sel.parentHashes.None?
  }

  datatype Verdict = Yield | Skip | Raise

  /** One iteration of the loop in `select`, in the order of its three tests. */
  function Step(a: Artifact, sel: Selector): Verdict {
    if Truthy(sel.ids) && a.uuid in sel.ids.value then Yield
    else if Truthy(sel.hashes) && a.uuid in sel.hashes.value then Yield
    else if |a.parentUuids| > 0 then
      if sel.parentHashes.None? then Raise
      else if exists p :: p in a.parentUuids && p in sel.parentHashes.value then Yield
      else Skip
    else Skip
  }

  lemma StepAgrees(a: Artifact, sel: Selector)
    ensures Step(a, sel) == Yield <==> Matches(a, sel)
    ensures Step(a, sel) == Raise <==> Raises(a, sel)
  {
    if sel.parentHashes.Some? && exists p :: p in a.parentUuids && p in sel.parentHashes.value {
      var p :| p in a.parentUuids && p in sel.parentHashes.value;
      assert |a.parentUuids| > 0;
    }
  }

  /** The generator `select` over the record list `rs`. */
  function SelectFrom(rs: seq<Artifact>, sel: Selector): Generated<string>
    decreases |rs|
  {
    if rs == [] then Generated([], None)
    else
      match Step(rs[0], sel)
      case Raise => Generated([], Some(TypeError))
      case Skip => SelectFrom(rs[1..], sel)
      case Yield =>
        var g := SelectFrom(rs[1..], sel);
        Generated([rs[0].uuid] + g.items, g.raised)
  }

  /** Reference definition: the uuids of the matching records, in list order. */
  ghost function MatchedUuids(rs: seq<Artifact>, sel: Selector): seq<string>
    decreases |rs|
  {
    if rs == [] then []
    else (if Matches(rs[0], sel) then [rs[0].uuid] else []) + MatchedUuids(rs[1..], sel)
  }

  /** The uuids of all records, in list order. */
  function Uuids(rs: seq<Artifact>): seq<string>
    decreases |rs|
  {
    if rs == [] then [] else [rs[0].uuid] + Uuids(rs[1..])
  }

  ghost predicate IsSubsequence(xs: seq<string>, ys: seq<string>)
    decreases |ys|
  {
    if xs == [] then true
    else if ys == [] then false
    else (xs[0] == ys[0] && IsSubsequence(xs[1..], ys[1..])) || IsSubsequence(xs, ys[1..])
  }

  /** The position of the first record on which the loop of `select` raises, or `|rs|`. */
  function FirstRaise(rs: seq<Artifact>, sel: Selector): (k: nat)
    ensures k <= |rs|
    ensures forall j :: 0 <= j < k ==> !Raises(rs[j], sel)
    ensures k < |rs| ==> Raises(rs[k], sel)
    decreases |rs|
  {
    if rs == [] then 0
    else
      StepAgrees(rs[0], sel);
      if Step(rs[0], sel) == Raise then 0 else 1 + FirstRaise(rs[1..], sel)
  }

  /** `select` yields the uuids of the matching records in list order up to the
      first record on which it raises, and then stops with `TypeError`; it runs
      to the end when no record raises. */
  lemma {:induction false} SelectFromSound(rs: seq<Artifact>, sel: Selector)
    ensures SelectFrom(rs, sel)
         == Generated(MatchedUuids(rs[..FirstRaise(rs, sel)], sel),
                      if FirstRaise(rs, sel) < |rs| then Some(TypeError) else None)
    decreases |rs|
  {
    if rs != [] {
      var tail := rs[1..];
      SelectFromSound(tail, sel);
      StepAgrees(rs[0], sel);
      var k := FirstRaise(rs, sel);
      if Step(rs[0], sel) == Raise {
        assert rs[..k] == [];
      } else {
        assert k == 1 + FirstRaise(tail, sel);
        assert rs[..k][1..] == tail[..k - 1];
        assert rs[..k][0] == rs[0];
      }
    }
  }

  /** No raise iff no record raises. */
  lemma SelectRaisesIff(rs: seq<Artifact>, sel: Selector)
    ensures SelectFrom(rs, sel).raised.None? <==> forall i :: 0 <= i < |rs| ==> !Raises(rs[i], sel)
    ensures SelectFrom(rs, sel).raised.None? ==> SelectFrom(rs, sel).items == MatchedUuids(rs, sel)
  {
    SelectFromSound(rs, sel);
    assert rs[..|rs|] == rs;
  }

  /** A uuid is selected iff it is the uuid of some matching record. */
  lemma {:induction false} MatchedMembership(rs: seq<Artifact>, sel: Selector, u: string)
    ensures u in MatchedUuids(rs, sel) <==> exists a :: a in rs && Matches(a, sel) && a.uuid == u
    decreases |rs|
  {
    if rs != [] {
      MatchedMembership(rs[1..], sel, u);
      assert forall a :: a in rs <==> a == rs[0] || a in rs[1..];
    }
  }

  /** The selected uuids are a subsequence of the records' uuids: each record is
      yielded at most once, in list order. */
  lemma {:induction false} MatchedIsSubsequence(rs: seq<Artifact>, sel: Selector)
    ensures IsSubsequence(MatchedUuids(rs, sel), Uuids(rs))
    decreases |rs|
  {
    if rs != [] {
      MatchedIsSubsequence(rs[1..], sel);
      if Matches(rs[0], sel) {
        var xs := MatchedUuids(rs, sel);
        assert xs[0] == Uuids(rs)[0] && xs[1..] == MatchedUuids(rs[1..], sel);
      } else {
        assert MatchedUuids(rs, sel) == MatchedUuids(rs[1..], sel);
      }
    }
  }

  /** Every uuid a `select` yields, also when it stops early, is the uuid of a
      stored record the selector matches. */
  lemma SelectYieldsMatches(rs: seq<Artifact>, sel: Selector, u: string)
    requires u in SelectFrom(rs, sel).items
    ensures exists a :: a in rs && Matches(a, sel) && a.uuid == u
  {
    SelectFromSound(rs, sel);
    var k := FirstRaise(rs, sel);
    MatchedMembership(rs[..k], sel, u);
    var a :| a in rs[..k] && Matches(a, sel) && a.uuid == u;
    assert a in rs;
  }

  /** With a `parent_hashes` clause present, `select` never raises, and its result
      is the union of what each clause selects on its own (OR, not AND); a clause
      that is absent or empty selects nothing. */
  lemma SelectIsUnion(rs: seq<Artifact>, sel: Selector, u: string)
    requires sel.parentHashes.Some?
    ensures SelectFrom(rs, sel).raised.None?
    ensures u in SelectFrom(rs, sel).items <==>
      || u in SelectFrom(rs, Selector(sel.ids, None, Some([]))).items
      || u in SelectFrom(rs, Selector(None, sel.hashes, Some([]))).items
      || u in SelectFrom(rs, Selector(None, None, sel.parentHashes)).items
  {
    var s1 := Selector(sel.ids, None, Some([]));
    var s2 := Selector(None, sel.hashes, Some([]));
    var s3 := Selector(None, None, sel.parentHashes);
    SelectRaisesIff(rs, sel);
    SelectRaisesIff(rs, s1);
    SelectRaisesIff(rs, s2);
    SelectRaisesIff(rs, s3);
    MatchedMembership(rs, sel, u);
    MatchedMembership(rs, s1, u);
    MatchedMembership(rs, s2, u);
    MatchedMembership(rs, s3, u);
    assert forall a :: Matches(a, sel) <==> Matches(a, s1) || Matches(a, s2) || Matches(a, s3);
  }

  /** A clause that is absent or empty never matches: a selector whose clauses
      are all empty selects nothing and does not raise. */
  lemma EmptyClausesSelectNothing(rs: seq<Artifact>)
    ensures SelectFrom(rs, Selector(Some([]), Some([]), Some([]))) == Generated([], None)
  {
    var sel := Selector(Some([]), Some([]), Some([]));
    SelectRaisesIff(rs, sel);
    var g := SelectFrom(rs, sel);
    if g.items != [] {
      MatchedMembership(rs, sel, g.items[0]);
      assert false;
    }
  }

  // ------------------------------------------------------- the store itself

  /** `InMemoryStore`: the record list `data["artifacts"]` and the indexes
      `artifact_uuid` (uuid -> record) and `artifact_ids` (custom_id -> record). */
  class InMemoryStore {
    var artifacts: seq<Artifact>
    var artifactUuid: map<string, Artifact>
    var artifactIds: map<string, Artifact>

    /** Both indexes are the comprehensions `__init__` builds, over the current list. */
    ghost predicate Valid()
      reads this
    {
      && artifactUuid == IndexBy(artifacts, Uuid)
      && artifactIds == IndexBy(artifacts, CustomId)
    }

    constructor (data: seq<Artifact>)
      ensures Valid() && artifacts == data
    {
      artifacts := data;
      artifactUuid := IndexBy(data, Uuid);
      artifactIds := IndexBy(data, CustomId);
    }

    /** Order-preserving check of each id against the custom-id index. */
    function ExistsById(ids: seq<string>): (r: seq<bool>)
      reads this
      requires Valid()
      ensures |r| == |ids|
      ensures forall i :: 0 <= i < |ids| ==> (r[i] <==> Stored(artifacts, CustomId, ids[i]))
    {
      IndexByDomainAll(artifacts, CustomId);
      Presence(artifactIds, ids)
    }

    /** Order-preserving check of each uuid, made as written against the
        CUSTOM-ID index, not the uuid index. */
    function ExistsByUuid(uuids: seq<string>): (r: seq<bool>)
      reads this
      requires Valid()
      ensures |r| == |uuids|
      ensures forall i :: 0 <= i < |uuids| ==> (r[i] <==> Stored(artifacts, CustomId, uuids[i]))
    {
      IndexByDomainAll(artifacts, CustomId);
      Presence(artifactIds, uuids)
    }

    /** The indexed record of each uuid, or `KeyError` on the first uuid no record carries. */
    function GetByUuids(uuids: seq<string>): (r: Result<seq<Artifact>>)
      reads this
      requires Valid()
      ensures r.Success? <==> forall i :: 0 <= i < |uuids| ==> Stored(artifacts, Uuid, uuids[i])
      ensures r.Success? ==>
        && |r.value| == |uuids|
        && forall i :: 0 <= i < |uuids| ==>
             && r.value[i].uuid == uuids[i]
             && 0 <= LastPos(artifacts, Uuid, uuids[i])
             && r.value[i] == artifacts[LastPos(artifacts, Uuid, uuids[i])]
      ensures r.Failure? ==>
        exists i :: 0 <= i < |uuids| && !Stored(artifacts, Uuid, uuids[i]) && r.error == KeyError(uuids[i])
                    && forall j :: 0 <= j < i ==> Stored(artifacts, Uuid, uuids[j])
    {
      IndexByDomainAll(artifacts, Uuid);
      assert forall k :: k in artifactUuid ==> 0 <= LastPos(artifacts, Uuid, k) && artifactUuid[k] == artifacts[LastPos(artifacts, Uuid, k)] by {
        forall k | k in artifactUuid
          ensures 0 <= LastPos(artifacts, Uuid, k) && artifactUuid[k] == artifacts[LastPos(artifacts, Uuid, k)]
        {
          IndexByLastWriterWins(artifacts, Uuid, k);
        }
      }
      LookupAll(artifactUuid, uuids)
    }

    /** The generator `select`: see `SelectFromSound` for what it yields. */
    function Select(sel: Selector): (g: Generated<string>)
      reads this
      ensures g.raised.None? <==> forall i :: 0 <= i < |artifacts| ==> !Raises(artifacts[i], sel)
      ensures g.raised.None? ==> g.items == MatchedUuids(artifacts, sel)
    {
      SelectRaisesIff(artifacts, sel);
      SelectFrom(artifacts, sel)
    }

    /** Appends the record and points both indexes at it, whatever they held
        before: a colliding uuid or custom id is not rejected. */
    method Add(artifact: Artifact)
      requires Valid()
      modifies this
      ensures Valid()
      ensures artifacts == old(artifacts) + [artifact]
      ensures artifactUuid == old(artifactUuid)[artifact.uuid := artifact]
      ensures artifactIds == old(artifactIds)[artifact.customId := artifact]
    {
      artifacts := artifacts + [artifact];
      artifactUuid := artifactUuid[artifact.uuid := artifact];
      artifactIds := artifactIds[artifact.customId := artifact];
      assert artifacts[..|artifacts| - 1] == old(artifacts);
    }

    /** Always raises `NotImplementedError`; nothing is removed. */
    method RemoveByUuids(uuids: seq<string>) returns (e: Error)
      ensures e == NotImplemented
    {
      e := NotImplemented;
    }

    /** Runs `select` to the end and then `remove_by_uuids`: always raises
        (`TypeError` when `select` does, `NotImplementedError` otherwise) and
        never changes the store. */
    method Remove(sel: Selector) returns (e: Error)
      ensures e == if forall i :: 0 <= i < |artifacts| ==> !Raises(artifacts[i], sel) then NotImplemented else TypeError
    {
      var g := Select(sel);
      SelectFromSound(artifacts, sel);
      if g.raised.Some? {
        e := g.raised.value;
      } else {
        e := RemoveByUuids(g.items);
      }
    }
  }

  /** After `add`, the index over the longer list is the old index with the new
      record written over its key. */
  lemma IndexAfterAppend(rs: seq<Artifact>, a: Artifact, f: Field)
    ensures IndexBy(rs + [a], f) == IndexBy(rs, f)[KeyOf(f, a) := a]
  {
    assert (rs + [a])[..|rs|] == rs;
  }

  // ------------------------------------------------ behaviour as written

  /** `exists_by_uuid` answers from the custom-id index: a stored uuid is
      reported absent, and a custom id passed as a uuid is reported present. */
  lemma ExistsByUuidConsultsCustomIds()
    ensures IndexBy([Artifact("doc-1", "h1", [], map[])], CustomId) == map["doc-1" := Artifact("doc-1", "h1", [], map[])]
    ensures Presence(IndexBy([Artifact("doc-1", "h1", [], map[])], CustomId), ["h1", "doc-1"]) == [false, true]
  {
    var rs := [Artifact("doc-1", "h1", [], map[])];
    assert rs[..0] == [];
    assert Presence(IndexBy(rs, CustomId), ["h1", "doc-1"])[0] == false;
  }

  /** The `ids` clause is matched against uuids. With record A (custom id "x",
      uuid "hA") and its child B (uuid "hB", parent "hA"), the selector
      `{ids: ["x"], parent_hashes: ["hA"]}` yields only "hB"; A is yielded only
      when its uuid is listed. */
  lemma SelectIdsMatchUuids()
    ensures SelectFrom([Artifact("x", "hA", [], map[]), Artifact("y", "hB", ["hA"], map[])],
                       Selector(Some(["x"]), None, Some(["hA"])))
         == Generated(["hB"], None)
    ensures SelectFrom([Artifact("x", "hA", [], map[]), Artifact("y", "hB", ["hA"], map[])],
                       Selector(Some(["hA"]), None, Some(["hA"])))
         == Generated(["hA", "hB"], None)
  {
    var a := Artifact("x", "hA", [], map[]);
    var b := Artifact("y", "hB", ["hA"], map[]);
    var rs := [a, b];
    assert rs[1..] == [b];
    assert [b][1..] == [];
    var s1 := Selector(Some(["x"]), None, Some(["hA"]));
    assert Step(a, s1) == Skip;
    assert "hA" in b.parentUuids && "hA" in s1.parentHashes.value;
    assert Step(b, s1) == Yield;
    var s2 := Selector(Some(["hA"]), None, Some(["hA"]));
    assert Step(a, s2) == Yield;
    assert Step(b, s2) == Yield;
  }

  /** A record with parents that no earlier clause matched makes `select` raise
      when the `parent_hashes` clause is absent, after what it already yielded. */
  lemma SelectRaisesOnAbsentParentClause()
    ensures SelectFrom([Artifact("x", "hA", [], map[]), Artifact("y", "hB", ["hA"], map[])],
                       Selector(Some(["hA"]), None, None))
         == Generated(["hA"], Some(TypeError))
  {
    var a := Artifact("x", "hA", [], map[]);
    var b := Artifact("y", "hB", ["hA"], map[]);
    var rs := [a, b];
    assert rs[1..] == [b];
    var s := Selector(Some(["hA"]), None, None);
    assert Step(a, s) == Yield;
    assert Step(b, s) == Raise;
  }
}
