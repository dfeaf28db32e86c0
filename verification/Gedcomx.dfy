/** The parts of a GEDCOM X person document the planner reads (schema.ts). Missing arrays are empty. */
module Gedcomx {
  import opened Strings

  datatype Fact = Fact(factType: Option<string>, formal: Option<string>, original: Option<string>,
                       place: Option<string>)

  datatype SourceRef = SourceRef(description: Option<string>, descriptionId: Option<string>)

  /** `names` lists, per name, the full texts of its forms. */
  datatype Person = Person(id: string, living: Option<bool>, names: seq<seq<Option<string>>>, facts: seq<Fact>,
                           sources: seq<SourceRef>, notes: seq<Option<string>>)

  datatype Description = Description(id: Option<string>, about: Option<string>, titles: seq<Option<string>>,
                                     notes: seq<Option<string>>)

  datatype Document = Document(persons: seq<Person>, descriptions: seq<Description>)

  function FindPerson(persons: seq<Person>, pid: string): (found: Option<Person>)
    ensures found.Some? <==> exists p <- persons :: p.id == pid
    ensures found.Some? ==> found.value in persons && found.value.id == pid
  {
    if persons == [] then None
    else if persons[0].id == pid then Some(persons[0])
    else FindPerson(persons[1..], pid)
  }

  /** It is the first person with the id: `i` is its position, or the number of persons when there is none. */
  lemma {:induction false} FirstPersonFound(persons: seq<Person>, pid: string) returns (i: nat)
    ensures i <= |persons| && forall j :: 0 <= j < i ==> persons[j].id != pid
    ensures if i < |persons| then persons[i].id == pid && FindPerson(persons, pid) == Some(persons[i])
            else FindPerson(persons, pid) == None
  {
    i := 0;
    if persons != [] && persons[0].id != pid {
      i := FirstPersonFound(persons[1..], pid);
      i := i + 1;
    }
  }

  // ----- references to source descriptions -------------------------------

  const DESCRIPTIONS_PATH := "/platform/sources/descriptions"

  function DescriptionUrl(host: string, id: string): string {
    host + DESCRIPTIONS_PATH + ['/'] + id
  }

  /** `ref.split(/[?#]/)[0]` */
  function BeforeQuery(ref: string): string {
    if ref == "" || ref[0] == '?' || ref[0] == '#' then ""
    else [ref[0]] + BeforeQuery(ref[1..])
  }

  function LastNonEmpty(parts: seq<string>): string {
    if parts == [] then ""
    else if parts[|parts| - 1] != "" then parts[|parts| - 1]
    else LastNonEmpty(parts[..|parts| - 1])
  }

  function DescriptionIdOf(ref: Option<string>): string {
    if !Truthy(ref) then ""
    else
      var head := BeforeQuery(ref.value);
      var clean := if head != "" then head else if ref.value[0] == '#' then ref.value[1..] else ref.value;
      LastNonEmpty(Split(clean, '/'))
  }

  /** An id that survives being the last segment of a URL. */
  predicate UrlSafe(id: string) {
    id != "" && Without(id, '/') && Without(id, '?') && Without(id, '#')
  }

  predicate UrlSafeHost(host: string) {
    host != "" && Without(host, '?') && Without(host, '#')
  }

  lemma {:induction false} BeforeQueryPrefix(s: string, t: string)
    requires Without(s, '?') && Without(s, '#')
    ensures BeforeQuery(s + t) == s + BeforeQuery(t)
  {
    if s == "" {
      assert s + t == t;
    } else {
      var rest := s[1..];
      assert s == [s[0]] + rest && (s + t)[1..] == rest + t;
      BeforeQueryPrefix(rest, t);
      calc {
        BeforeQuery(s + t);
        [s[0]] + BeforeQuery(rest + t);
        [s[0]] + (rest + BeforeQuery(t));
        s + BeforeQuery(t);
      }
    }
  }

  lemma {:induction false} BeforeQueryPlain(s: string)
    ensures Without(BeforeQuery(s), '?') && Without(BeforeQuery(s), '#')
    ensures Without(s, '?') && Without(s, '#') ==> BeforeQuery(s) == s
  {
    if s != "" {
      BeforeQueryPlain(s[1..]);
      assert s == [s[0]] + s[1..];
    }
  }

  lemma {:induction false} LastNonEmptyIn(parts: seq<string>)
    ensures LastNonEmpty(parts) in parts || LastNonEmpty(parts) == ""
    ensures (exists p <- parts :: p != "") ==> LastNonEmpty(parts) != ""
  {
    if parts != [] {
      LastNonEmptyIn(parts[..|parts| - 1]);
      assert parts == parts[..|parts| - 1] + [parts[|parts| - 1]];
    }
  }

  /** The id read back from a description URL: never empty, never with a separator, and faithful exactly
      for the URL-safe ids. */
  lemma DescriptionUrlRoundTrip(host: string, id: string)
    requires UrlSafeHost(host)
    ensures UrlSafe(DescriptionIdOf(Some(DescriptionUrl(host, id))))
    ensures DescriptionIdOf(Some(DescriptionUrl(host, id))) == id <==> UrlSafe(id)
  {
    var base := host + DESCRIPTIONS_PATH;
    var url := DescriptionUrl(host, id);
    var tail := BeforeQuery(id);
    assert url == (base + "/") + id;
    BeforeQueryPrefix(base + "/", id);
    BeforeQueryPlain(id);
    var head := base + ['/'] + tail;
    assert BeforeQuery(url) == head;
    var parts := Split(head, '/');
    SplitPiecesPlain(head, '/');
    LastNonEmptyIn(parts);
    DescriptionsSegment(host, tail);
    var got := DescriptionIdOf(Some(url));
    assert got == LastNonEmpty(parts);
    assert Without(head, '?') && Without(head, '#');
    if UrlSafe(id) {
      SplitLast(base, '/', id);
      assert parts[|parts| - 1] == id;
    }
  }

  lemma LastPiece(id: string)
    requires UrlSafe(id)
    ensures LastNonEmpty(Split(id, '/')) == id && LastNonEmpty(Split(id + ['/'], '/')) == id
  {
    SplitPlain(id, '/');
    SplitLast(id, '/', "");
    assert id + ['/'] + "" == id + ['/'];
    assert [id, ""][..1] == [id] && [id] + [""] == [id, ""];
  }

  /** A plain id is read as itself, alone or after a `#`, and also before a query, a fragment or a slash. */
  lemma ReferencesRead(id: string, tail: string)
    requires UrlSafe(id)
    ensures DescriptionIdOf(Some(id)) == id && DescriptionIdOf(Some("#" + id)) == id
    ensures DescriptionIdOf(Some(id + "?" + tail)) == id && DescriptionIdOf(Some(id + "#" + tail)) == id
    ensures DescriptionIdOf(Some(id + "/")) == id
  {
    LastPiece(id);
    BeforeQueryPlain(id);
    BeforeQueryPlain(id + "/");
    BeforeQueryPrefix(id, "?" + tail);
    BeforeQueryPrefix(id, "#" + tail);
    assert BeforeQuery("?" + tail) == BeforeQuery("#" + tail) == BeforeQuery("#" + id) == "";
    assert id + "?" + tail == id + ("?" + tail) && id + "#" + tail == id + ("#" + tail) && id + "" == id;
    assert BeforeQuery(id + "?" + tail) == id && BeforeQuery(id + "#" + tail) == id;
    assert ("#" + id)[1..] == id && id + "/" == id + ['/'];
    hide BeforeQuery, Split, LastNonEmpty;
  }

  /** A reference that is nothing but a query is kept whole. */
  lemma BareQueryRead(query: string)
    requires Without(query, '/')
    ensures DescriptionIdOf(Some("?" + query)) == "?" + query
  {
    SplitPlain("?" + query, '/');
    assert BeforeQuery("?" + query) == "";
    hide BeforeQuery, Split;
    assert ["?" + query][0] != "";
  }

  lemma DescriptionsSegment(host: string, tail: string)
    ensures exists p <- Split(host + DESCRIPTIONS_PATH + ['/'] + tail, '/') :: p != ""
  {
    var d := "descriptions";
    var front := host + "/platform/sources";
    assert Without(d, '/');
    SplitLast(front, '/', d);
    var base := front + ['/'] + d;
    assert base == host + DESCRIPTIONS_PATH;
    assert d in Split(base, '/');
    SplitAppendKeeps(base, tail, '/');
    assert d in Split(base + ['/'] + tail, '/');
  }

  lemma {:induction false} SplitAppendKeeps(s: string, t: string, c: char)
    ensures Split(s, c) <= Split(s + [c] + t, c)
  {
    if s == "" {
      assert s + [c] + t == [c] + t;
    } else {
      SplitAppendKeeps(s[1..], t, c);
      assert (s + [c] + t)[1..] == s[1..] + [c] + t;
    }
  }
}
