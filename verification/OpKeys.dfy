/** Operation identities (writePlan.ts): the type, a bar, and the sorted finding ids joined by commas. */
module OpKeys {
  import opened Strings

  datatype OpType = CreateSource | AttachSource | AddNote | AddFact | AddName

  function TypeName(t: OpType): string {
    match t
    case CreateSource => "create_source_description"
    case AttachSource => "attach_source"
    case AddNote => "add_note"
    case AddFact => "add_fact"
    case AddName => "add_name"
  }

  function Joined(ids: seq<string>): string {
    Join(Sort(ids), ',')
  }

  function OpKey(t: OpType, ids: seq<string>): string {
    TypeName(t) + ['|'] + Joined(ids)
  }

  /** No finding id holds the separator the key joins with. */
  ghost predicate CommaFree(ids: seq<string>) {
    forall id <- ids :: Without(id, ',')
  }

  lemma TypeNamesDiffer(t: OpType, u: OpType)
    ensures Without(TypeName(t), '|')
    ensures TypeName(t) == TypeName(u) <==> t == u
  {
    assert TypeName(AttachSource)[1] == 't' && TypeName(AddNote)[4] == 'n';
    assert TypeName(AddFact)[5] == 'a' && TypeName(AddName)[5] == 'a' && TypeName(AddName)[4] == 'n';
  }

  /** Two operations share a key exactly when they have the same type and their findings join to the same text. */
  lemma SameKeyIffSameText(t: OpType, ids: seq<string>, u: OpType, jds: seq<string>)
    ensures OpKey(t, ids) == OpKey(u, jds) <==> t == u && Joined(ids) == Joined(jds)
  {
    TypeNamesDiffer(t, u);
    TypeNamesDiffer(u, t);
    if OpKey(t, ids) == OpKey(u, jds) {
      CutOnce(TypeName(t), Joined(ids), TypeName(u), Joined(jds), '|');
    }
    hide Joined;
  }

  lemma JoinedOne(id: string)
    ensures Joined([id]) == id
  {
    assert [id][1..] == [];
    assert Sort([id]) == [id];
  }

  /** For ids without commas that is the same type and the same findings, in any order. */
  lemma OpKeyIdentity(t: OpType, ids: seq<string>, u: OpType, jds: seq<string>)
    requires ids != [] && jds != [] && CommaFree(ids) && CommaFree(jds)
    ensures OpKey(t, ids) == OpKey(u, jds) <==> t == u && multiset(ids) == multiset(jds)
  {
    var x, y := Sort(ids), Sort(jds);
    SortSorts(ids);
    SortSorts(jds);
    SortCanonical(ids, jds);
    SameKeyIffSameText(t, ids, u, jds);
    if OpKey(t, ids) == OpKey(u, jds) {
      SortedIds(ids);
      SortedIds(jds);
      SplitJoin(x, ',');
      SplitJoin(y, ',');
    }
  }

  lemma SortedIds(ids: seq<string>)
    requires ids != [] && CommaFree(ids)
    ensures Sort(ids) != [] && forall id <- Sort(ids) :: Without(id, ',')
  {
    SortSorts(ids);
    assert |Sort(ids)| == |multiset(Sort(ids))| == |ids|;
    forall id <- Sort(ids) ensures Without(id, ',') {
      assert id in multiset(Sort(ids));
    }
  }

  /** Why the separator matters: one finding "x/1,x/2" and the two findings "x/1" and "x/2" get one key. */
  lemma CommasCollide()
    ensures OpKey(CreateSource, ["x/1,x/2"]) == OpKey(CreateSource, ["x/1", "x/2"])
    ensures multiset(["x/1,x/2"]) != multiset(["x/1", "x/2"])
  {
    var a, b := "x/1", "x/2";
    assert a[2] == '1' && b[2] == '2' && a[1] == b[1] == '/';
    assert Leq(a[2..], b[2..]);
    assert a[1..][1..] == a[2..] && b[1..][1..] == b[2..];
    assert Leq(a[1..], b[1..]);
    assert Leq(a, b);
    assert Sort([b]) == [b] by { assert [b][1..] == []; }
    assert Insert(a, [b]) == [a, b];
    assert [a, b][1..] == [b];
    assert Sort([a, b]) == [a, b];
    assert Sort(["x/1,x/2"]) == ["x/1,x/2"] by { assert ["x/1,x/2"][1..] == []; }
    assert Join([a, b], ',') == a + [','] + b == "x/1,x/2";
    assert |multiset(["x/1,x/2"])| == 1 && |multiset([a, b])| == 2;
  }
}
