/** The family tree the operations are posted to: a document that stores what is posted. A person document lists
    only descriptions the person references (writeApply.ts:25-30), so a created one is hidden until attached. */
module TreeServer {
  import opened Strings
  import opened Gedcomx
  import opened OpKeys
  import opened WriteFindings
  import opened WritePlan
  import opened WriteApply

  /** `hidden` holds, by id, the descriptions the person does not reference. */
  datatype Server = Server(person: Person, descriptions: seq<Description>, hidden: map<string, Description>)

  /** The document a reader of the person gets; `others` are the relatives listed with it. */
  function Read(srv: Server, others: seq<Person>): Document {
    Document([srv.person] + others, srv.descriptions)
  }

  function Created(p: Post): string {
    if p.op.opType == CreateSource && p.response.Accepted? then
      ResponseId(p.response.location, p.response.entityId)
    else ""
  }

  function DescriptionOf(p: Post): Description
    requires p.body.SourceBody?
  {
    Description(Some(Created(p)), p.body.about, [Some(p.body.title)], [Some(p.body.note)])
  }

  function StoreAttachment(srv: Server, url: string): Server {
    var id := DescriptionIdOf(Some(url));
    var person := srv.person.(sources := srv.person.sources + [SourceRef(Some(url), None)]);
    if id in srv.hidden then Server(person, srv.descriptions + [srv.hidden[id]], srv.hidden - {id})
    else srv.(person := person)
  }

  predicate TakesEffect(p: Post) {
    p.response.Accepted? || p.response.applied
  }

  /** A created description without a reported id stays out of everybody's reach. */
  function Store(srv: Server, p: Post): Server {
    if !TakesEffect(p) then srv
    else
      match p.body
      case SourceBody(_, _, _) =>
        if Created(p) != "" then srv.(hidden := srv.hidden[Created(p) := DescriptionOf(p)]) else srv
      case AttachBody(url, _) => StoreAttachment(srv, url)
      case NoteBody(_, _, text) => srv.(person := srv.person.(notes := srv.person.notes + [Some(text)]))
      case NameBody(_, fullText) => srv.(person := srv.person.(names := srv.person.names + [[Some(fullText)]]))
      case FactBody(_, factType, date, place) =>
        srv.(person := srv.person.(facts := srv.person.facts + [Fact(Some(factType), None, date, place)]))
  }

  function After(srv: Server, posts: seq<Post>): Server {
    if posts == [] then srv else Store(After(srv, posts[..|posts| - 1]), posts[|posts| - 1])
  }

  // ----- growth ----------------------------------------------------------

  ghost predicate PersonGrows(p: Person, q: Person) {
    p.id == q.id && p.living == q.living && p.names <= q.names && p.facts <= q.facts
    && p.sources <= q.sources && p.notes <= q.notes
  }

  lemma {:induction false} AttachedIdsGrow(xs: seq<SourceRef>, ys: seq<SourceRef>)
    requires xs <= ys
    ensures AttachedIds(xs) <= AttachedIds(ys)
  {
    if |xs| < |ys| {
      AttachedIdsGrow(xs, ys[..|ys| - 1]);
    } else {
      assert xs == ys;
    }
  }

  lemma AttachmentRecorded(sources: seq<SourceRef>, url: string)
    ensures AttachedIds(sources + [SourceRef(Some(url), None)]) == AttachedIds(sources) + {DescriptionIdOf(Some(url))}
  {
    assert (sources + [SourceRef(Some(url), None)])[..|sources|] == sources;
  }

  /** A post attaches at most the id of its own URL. */
  lemma StoreAttaches(srv: Server, p: Post)
    ensures forall id <- AttachedIds(Store(srv, p).person.sources) ::
      id in AttachedIds(srv.person.sources) || (p.body.AttachBody? && id == DescriptionIdOf(Some(p.body.description)))
  {
    if p.body.AttachBody? {
      AttachmentRecorded(srv.person.sources, p.body.description);
    }
    hide AttachedIds, DescriptionIdOf;
  }

  /** Conclusions and notes never disappear as a person grows. */
  lemma PresenceGrows(r: Rules, p: Person, q: Person, f: Finding)
    requires PersonGrows(p, q)
    ensures FactStatus(r, p, f) == Present ==> FactStatus(r, q, f) == Present
    ensures (exists n <- p.notes :: Contains(n.GetOr(""), Marker(f))) ==>
      exists n <- q.notes :: Contains(n.GetOr(""), Marker(f))
  {
    hide FactMatches;
    hide Contains;
    hide Marker;
    if FactStatus(r, p, f) == Present {
      if f.kind == NameVariant {
        var forms :| forms in p.names && exists form <- forms :: Norm(r, form) == r.norm(f.value);
        assert forms in q.names;
      } else {
        var x :| x in p.facts && x.factType == Some(FactTypeOf(f.kind).value) && FactMatches(r, x, f, IsUnique(f.kind));
        assert x in q.facts;
      }
    }
    assert forall n <- p.notes :: n in q.notes;
  }

  lemma {:induction false} FoundStaysFirst(r: Rules, ds: seq<Description>, es: seq<Description>, g: Group)
    requires ds <= es && g.members != []
    ensures FindDescription(r, ds, g).Some? ==> FindDescription(r, es, g) == FindDescription(r, ds, g)
    ensures FindDescription(r, ds, g).None? && FindDescription(r, es, g).Some? ==>
      exists i :: |ds| <= i < |es| && FindDescription(r, es, g) == Some(es[i])
    ensures (exists i :: |ds| <= i < |es| && DescribesGroup(r, es[i], g)) ==> FindDescription(r, es, g).Some?
  {
    hide DescribesGroup;
    if ds != [] {
      FoundStaysFirst(r, ds[1..], es[1..], g);
      forall i | |ds| <= i < |es| ensures es[1..][i - 1] == es[i] {}
    } else if es != [] {
      FoundStaysFirst(r, [], es[1..], g);
      forall i | 0 < i < |es| ensures es[1..][i - 1] == es[i] {}
    }
  }

  /** A created description matches its own group. */
  lemma CreatedDescribes(c: Ctx, g: Group, id: string)
    requires g.members != []
    ensures var body := CreateOp(c, g).body;
      DescribesGroup(c.rules, Description(Some(id), body.about, [Some(body.title)], [Some(body.note)]), g)
  {
    var body := CreateOp(c, g).body;
    var marker := SourceMarker(g.members[0]);
    ContainsMiddle("", marker, " " + JoinedNotes(g.members));
    assert body.note == "" + marker + (" " + JoinedNotes(g.members));
    hide Contains;
    assert Some(body.note) in [Some(body.note)];
  }

  /** A posted note carries its finding's marker. */
  lemma NoteCarriesMarker(f: Finding, status: Status)
    ensures Contains(NoteText(f, status), Marker(f))
  {
    var text, marker := NoteText(f, status), Marker(f);
    var head := text[..|text| - |marker|];
    assert text == head + marker + "";
    ContainsMiddle(head, marker, "");
  }

  // ----- the server over a run -------------------------------------------

  /** Every created description gets an id that is URL-safe and that no hidden description has. */
  ghost predicate FreshIds(srv: Server, posts: seq<Post>) {
    forall k :: 0 <= k < |posts| && Created(posts[k]) != "" ==>
      UrlSafe(Created(posts[k])) && Created(posts[k]) !in After(srv, posts[..k]).hidden
  }

  /** The hidden descriptions are filed under their own ids. */
  ghost predicate Filed(srv: Server) {
    forall id <- srv.hidden :: id != "" && srv.hidden[id].id == Some(id)
  }

  /** What the server listed at first it still lists first, and all it lists since is attached and has an id. */
  ghost predicate Grown(srv: Server, now: Server) {
    && PersonGrows(srv.person, now.person) && srv.descriptions <= now.descriptions && Filed(now)
    && forall i :: |srv.descriptions| <= i < |now.descriptions| ==>
         Truthy(now.descriptions[i].id) && now.descriptions[i].id.value in AttachedIds(now.person.sources)
  }

  lemma {:induction false} StoreExtends(now: Server, p: Post)
    ensures PersonGrows(now.person, Store(now, p).person) && now.descriptions <= Store(now, p).descriptions
    ensures Filed(now) ==> Filed(Store(now, p))
  {
    hide DescriptionIdOf;
  }

  /** What a post adds to the list is attached by it and filed under its own id. */
  lemma StoreLists(now: Server, p: Post)
    requires Filed(now)
    ensures var t := Store(now, p); forall i :: |now.descriptions| <= i < |t.descriptions| ==>
      Truthy(t.descriptions[i].id) && t.descriptions[i].id.value in AttachedIds(t.person.sources)
  {
    if p.body.AttachBody? {
      AttachmentRecorded(now.person.sources, p.body.description);
    }
    hide AttachedIds, DescriptionIdOf;
  }

  lemma {:induction false} StoreGrows(srv: Server, now: Server, p: Post)
    requires Grown(srv, now)
    ensures Grown(srv, Store(now, p))
    ensures PersonGrows(now.person, Store(now, p).person) && now.descriptions <= Store(now, p).descriptions
  {
    StoreExtends(now, p);
    StoreLists(now, p);
    AttachedIdsGrow(now.person.sources, Store(now, p).person.sources);
    hide AttachedIds, Store, Filed, Truthy;
  }

  lemma {:induction false} RunGrows(srv: Server, posts: seq<Post>)
    requires Filed(srv)
    ensures Grown(srv, After(srv, posts))
  {
    hide Store;
    if posts != [] {
      RunGrows(srv, posts[..|posts| - 1]);
      StoreGrows(srv, After(srv, posts[..|posts| - 1]), posts[|posts| - 1]);
    }
  }

  lemma {:induction false} LaterGrows(srv: Server, posts: seq<Post>, k: nat)
    requires Filed(srv) && k <= |posts|
    ensures PersonGrows(After(srv, posts[..k]).person, After(srv, posts).person)
    ensures After(srv, posts[..k]).descriptions <= After(srv, posts).descriptions
    decreases |posts|
  {
    hide Store;
    if k < |posts| {
      var n := |posts| - 1;
      LaterGrows(srv, posts[..n], k);
      assert posts[..n][..k] == posts[..k];
      RunGrows(srv, posts[..n]);
      StoreGrows(srv, After(srv, posts[..n]), posts[n]);
    } else {
      assert posts[..k] == posts;
    }
  }

  lemma AfterNext(srv: Server, posts: seq<Post>, k: nat)
    requires k < |posts|
    ensures After(srv, posts[..k + 1]) == Store(After(srv, posts[..k]), posts[k])
  {
    assert posts[..k + 1][..k] == posts[..k];
  }

  /** The effect of the k-th post is still there at the end. */
  lemma {:induction false} EffectLasts(srv: Server, posts: seq<Post>, k: nat)
    requires Filed(srv) && k < |posts| && TakesEffect(posts[k])
    ensures var now := After(srv, posts).person;
      match posts[k].body
      case SourceBody(_, _, _) => true
      case AttachBody(url, _) => DescriptionIdOf(Some(url)) in AttachedIds(now.sources)
      case NoteBody(_, _, text) => Some(text) in now.notes
      case NameBody(_, fullText) => [Some(fullText)] in now.names
      case FactBody(_, factType, date, place) => Fact(Some(factType), None, date, place) in now.facts
  {
    AfterNext(srv, posts, k);
    LaterGrows(srv, posts, k + 1);
    var before, after := After(srv, posts[..k]).person, After(srv, posts[..k + 1]).person;
    var now := After(srv, posts).person;
    match posts[k].body
    case SourceBody(_, _, _) =>
    case AttachBody(url, _) =>
      AttachmentRecorded(before.sources, url);
      AttachedIdsGrow(after.sources, now.sources);
    case NoteBody(_, _, text) => assert after.notes[|before.notes|] == Some(text) == now.notes[|before.notes|];
    case NameBody(_, fullText) =>
      assert after.names[|before.names|] == [Some(fullText)] == now.names[|before.names|];
    case FactBody(_, factType, date, place) =>
      assert after.facts[|before.facts|] == now.facts[|before.facts|];
  }

  /** A created description is hidden under its id until it is listed. */
  ghost predicate Kept(srv: Server, now: Server, p: Post)
    requires p.body.SourceBody?
  {
    || (Created(p) in now.hidden && now.hidden[Created(p)] == DescriptionOf(p))
    || Listed(srv, now, p)
  }

  ghost predicate Listed(srv: Server, now: Server, p: Post)
    requires p.body.SourceBody?
  {
    exists i :: |srv.descriptions| <= i < |now.descriptions| && now.descriptions[i] == DescriptionOf(p)
  }

  lemma {:induction false} CreatedKept(srv: Server, posts: seq<Post>, k: nat)
    requires Filed(srv) && FreshIds(srv, posts) && k < |posts|
    requires posts[k].body.SourceBody? && Created(posts[k]) != ""
    ensures Kept(srv, After(srv, posts), posts[k])
    decreases |posts|
  {
    var n := |posts| - 1;
    var before := After(srv, posts[..n]);
    var last, p := posts[n], posts[k];
    RunGrows(srv, posts[..n]);
    if k < n {
      forall j | 0 <= j < n ensures posts[..n][..j] == posts[..j] && posts[..n][j] == posts[j] {}
      CreatedKept(srv, posts[..n], k);
      StoreGrows(srv, before, last);
      if Listed(srv, before, p) {
        ListedStays(srv, before, Store(before, last), p);
      } else {
        StoreKeeps(srv, before, last, p);
      }
    }
  }

  lemma ListedStays(srv: Server, before: Server, now: Server, p: Post)
    requires p.body.SourceBody? && Listed(srv, before, p) && before.descriptions <= now.descriptions
    ensures Listed(srv, now, p)
  {
    var i :| |srv.descriptions| <= i < |before.descriptions| && before.descriptions[i] == DescriptionOf(p);
    assert now.descriptions[i] == DescriptionOf(p);
  }

  lemma StoreKeeps(srv: Server, now: Server, last: Post, p: Post)
    requires p.body.SourceBody? && srv.descriptions <= now.descriptions
    requires Created(p) in now.hidden && now.hidden[Created(p)] == DescriptionOf(p)
    requires last.body.SourceBody? ==> Created(last) !in now.hidden || Created(last) == ""
    ensures Kept(srv, Store(now, last), p)
    ensures last.body.AttachBody? && TakesEffect(last) && DescriptionIdOf(Some(last.body.description)) == Created(p) ==>
      Listed(srv, Store(now, last), p)
  {
    if last.body.AttachBody? && TakesEffect(last) && DescriptionIdOf(Some(last.body.description)) == Created(p) {
      var after := Store(now, last);
      assert after.descriptions[|now.descriptions|] == DescriptionOf(p);
    }
  }

  lemma FreshPrefix(srv: Server, posts: seq<Post>, k: nat)
    requires FreshIds(srv, posts) && k <= |posts|
    ensures FreshIds(srv, posts[..k])
  {
    forall i | 0 <= i < k ensures posts[..k][..i] == posts[..i] && posts[..k][i] == posts[i] {}
    hide After, UrlSafe;
  }

  /** Once its URL is attached, a created description is listed for good. */
  lemma {:induction false} AttachedIsListed(srv: Server, posts: seq<Post>, j: nat, k: nat)
    requires Filed(srv) && FreshIds(srv, posts) && j < k < |posts|
    requires posts[j].body.SourceBody? && Created(posts[j]) != ""
    requires posts[k].body.AttachBody? && TakesEffect(posts[k])
    requires DescriptionIdOf(Some(posts[k].body.description)) == Created(posts[j])
    ensures Listed(srv, After(srv, posts), posts[j])
  {
    hide After, FreshIds, Filed, Truthy, Contains, UrlSafe, AttachedIds, Store, Listed, PersonGrows, DescriptionIdOf,
         TakesEffect;
    var before, after, p := After(srv, posts[..k]), After(srv, posts[..k + 1]), posts[j];
    FreshPrefix(srv, posts, k);
    CreatedKept(srv, posts[..k], j);
    RunGrows(srv, posts[..k]);
    AfterNext(srv, posts, k);
    LaterGrows(srv, posts, k + 1);
    if Listed(srv, before, p) {
      StoreExtends(before, posts[k]);
      ListedStays(srv, before, after, p);
    } else {
      StoreKeeps(srv, before, posts[k], p);
    }
    ListedStays(srv, after, After(srv, posts), p);
  }
}
