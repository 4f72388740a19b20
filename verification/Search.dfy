/** What the dependency completers know about Maven Central search: the documents of a
    response, which query the part count of the typed coordinate selects, the coordinate an
    artifact result stands for, and the descending version order applied to version results.
    The service itself is a function from query to response. */
module Search {
  import opened Wrappers
  import opened Text
  import Dependencies
  import Versions
  import Sorting

  /** One result document: group, artifact, version (empty when the document has none),
      the latest version of an artifact result, and the publication time in milliseconds. */
  datatype Doc = Doc(g: string, a: string, v: string, latestVersion: Option<string>, timestamp: int)

  /** `response.docs` (an absent list is empty) and `response.numFound`. */
  datatype Response = Response(docs: seq<Doc>, numFound: Option<int>)

  /** `numFound`, 0 when undefined. */
  function NumFound(response: Response): int {
    if response.numFound.Some? then response.numFound.value else 0
  }

  /** `json?.docs?.length` is truthy. */
  predicate HasDocs(json: Option<Response>) {
    json.Some? && |json.value.docs| > 0
  }

  /** The three searches: by name, by group and artifact, by group, artifact and version. */
  datatype Query =
    | SearchAll(name: string)
    | SearchArtifactId(groupId: string, artifactId: string)
    | SearchVersion(groupId: string, artifactId: string, version: string)

  /** The `switch (parts.length)` that picks the search; five or more parts search nothing. */
  function QueryFor(parts: seq<string>): (q: Option<Query>)
    ensures q.Some? <==> 1 <= |parts| <= 4
  {
    if |parts| == 1 then Some(SearchAll(parts[0]))
    else if |parts| == 2 then Some(SearchArtifactId(parts[0], parts[1]))
    else if |parts| == 3 || |parts| == 4 then Some(SearchVersion(parts[0], parts[1], parts[2]))
    else None
  }

  /** The response the completer works with: the service's answer to the selected query
      (the query cache, keyed by the typed text, returns an earlier answer to the same query). */
  function Lookup(parts: seq<string>, search: Query -> Option<Response>): (json: Option<Response>)
    ensures QueryFor(parts).None? ==> json.None?
    ensures QueryFor(parts).Some? ==> json == search(QueryFor(parts).value)
  {
    if QueryFor(parts).Some? then search(QueryFor(parts).value) else None
  }

  /** The query for a typed coordinate: a bare name searches everything, `g:a` searches by
      group and artifact, `g:a:v` and `g:a:v:c` search versions, and a longer text searches
      nothing. */
  lemma DispatchByPartCount(g: string, a: string, v: string, c: string, rest: string)
    requires ':' !in g && ':' !in a && ':' !in v && ':' !in c
    ensures QueryFor(Split(g, ':')) == Some(SearchAll(g))
    ensures QueryFor(Split(g + ":" + a, ':')) == Some(SearchArtifactId(g, a))
    ensures QueryFor(Split(g + ":" + a + ":" + v, ':')) == Some(SearchVersion(g, a, v))
    ensures QueryFor(Split(g + ":" + a + ":" + v + ":" + c, ':')) == Some(SearchVersion(g, a, v))
    ensures QueryFor(Split(g + ":" + a + ":" + v + ":" + c + ":" + rest, ':')).None?
  {
    SplitNone(g, ':');
    SplitCons(g, ':', a);
    SplitNone(a, ':');
    Dependencies.ToStringGetDependency(g, a, v, c);
    var four := Dependencies.Coordinate(g, a, v, c);
    var three := g + ":" + a + ":" + v;
    assert |Split(four, ':')| == 4 && Split(four, ':')[..3] == [g, a, v] by {
      Dependencies.JoinFour(g, a, v, c);
      SplitJoin([g, a, v, c], ':');
    }
    assert Split(three, ':') == [g, a, v] by {
      ThreeParts(g, a, v);
    }
    SplitConcat(four, ':', rest);
    assert four + ":" + rest == four + [':'] + rest;
  }

  lemma ThreeParts(g: string, a: string, v: string)
    requires ':' !in g && ':' !in a && ':' !in v
    ensures Split(g + ":" + a + ":" + v, ':') == [g, a, v]
  {
    assert g + ":" + a + ":" + v == g + [':'] + (a + ":" + v);
    SplitCons(g, ':', a + ":" + v);
    assert a + ":" + v == a + [':'] + v;
    SplitCons(a, ':', v);
    SplitNone(v, ':');
  }

  /** `gav.v ? gav.v : gav.latestVersion`, as a template literal prints it. */
  function ChosenVersion(d: Doc): string {
    if d.v != "" then d.v else Dependencies.Show(d.latestVersion)
  }

  /** `${gav.g}:${gav.a}:${version}` */
  function ArtifactLabel(d: Doc): (r: string)
    ensures StartsWith(r, d.g + ":" + d.a + ":") && EndsWith(r, ChosenVersion(d))
    ensures |r| == |d.g| + |d.a| + 2 + |ChosenVersion(d)|
  {
    var p := d.g + ":" + d.a + ":";
    var r := p + ChosenVersion(d);
    assert r[..|p|] == p && r[|p|..] == ChosenVersion(d);
    r
  }

  /** An artifact label parses back into the document's group, artifact and chosen version,
      with no classifier, when none of them holds a `:`. */
  lemma ArtifactLabelParses(d: Doc)
    requires ':' !in d.g && ':' !in d.a && ':' !in ChosenVersion(d)
    ensures Dependencies.GetDependency(ArtifactLabel(d))
         == Some(Dependencies.Dependency(Some(d.g), Some(d.a), Some(ChosenVersion(d)), None))
  {
    ThreeParts(d.g, d.a, ChosenVersion(d));
  }

  /** `compareArtifactVersions(a, b)`: `compareVersions(b.v, a.v)`, the newer version first. */
  function CompareArtifactVersions(x: Doc, y: Doc): (r: int)
    ensures r == Versions.CompareParsed(Versions.Parse(y.v), Versions.Parse(x.v))
  {
    Versions.CompareVersions(y.v, x.v)
  }

  /** `response.docs.sort(compareArtifactVersions)` */
  function SortVersionDocs(docs: seq<Doc>): (r: seq<Doc>)
    ensures multiset(r) == multiset(docs)
  {
    Sorting.SortPermutes(docs, CompareArtifactVersions);
    Sorting.Sort(docs, CompareArtifactVersions)
  }

  /** `searchVersion`'s `response.docs.sort(compareArtifactVersions)`, done in place on an
      array of the documents. */
  method SortVersionResults(response: Response) returns (r: Response)
    ensures r == response.(docs := SortVersionDocs(response.docs))
  {
    var a := new Doc[|response.docs|](i requires 0 <= i < |response.docs| => response.docs[i]);
    assert a[..] == response.docs;
    Sorting.SortInPlace(a, CompareArtifactVersions);
    r := response.(docs := a[..]);
  }

  /** What a search returns: the service's response, whose documents the version search
      sorts newest first; the other searches pass it on unchanged. */
  function Answer(q: Query, fetch: Query -> Option<Response>): (json: Option<Response>)
    ensures json.Some? <==> fetch(q).Some?
    ensures json.Some? ==> multiset(json.value.docs) == multiset(fetch(q).value.docs)
                           && json.value.numFound == fetch(q).value.numFound
    ensures !q.SearchVersion? ==> json == fetch(q)
  {
    if q.SearchVersion? && fetch(q).Some? then
      Some(fetch(q).value.(docs := SortVersionDocs(fetch(q).value.docs)))
    else fetch(q)
  }

  /** `searchAll`, `searchArtifactId` or `searchVersion`, as `q` says. */
  method RunSearch(q: Query, fetch: Query -> Option<Response>) returns (json: Option<Response>)
    ensures json == Answer(q, fetch)
  {
    json := fetch(q);
    if q.SearchVersion? && json.Some? {
      var sorted := SortVersionResults(json.value);
      json := Some(sorted);
    }
  }

  /** The answer for the typed parts: none when the part count selects no search. */
  function SortedLookup(parts: seq<string>, fetch: Query -> Option<Response>): (json: Option<Response>)
    ensures QueryFor(parts).None? ==> json.None?
    ensures QueryFor(parts).Some? ==> json == Answer(QueryFor(parts).value, fetch)
  {
    if QueryFor(parts).Some? then Answer(QueryFor(parts).value, fetch) else None
  }

  /** The documents of a version answer are newest first. */
  lemma AnswerNewestFirst(g: string, a: string, v: string, fetch: Query -> Option<Response>)
    requires fetch(SearchVersion(g, a, v)).Some?
    requires NoCaseTwinVersions(fetch(SearchVersion(g, a, v)).value.docs)
    ensures var r := Answer(SearchVersion(g, a, v), fetch).value.docs;
      forall i, j :: 0 <= i < j < |r| ==> Versions.CompareVersions(r[j].v, r[i].v) <= 0
  {
    SortVersionDocsNewestFirst(fetch(SearchVersion(g, a, v)).value.docs);
  }

  /** No two documents carry versions that differ only in the case of their qualifiers. */
  ghost predicate NoCaseTwinVersions(docs: seq<Doc>) {
    forall x, y :: x in docs && y in docs ==>
      !(Versions.SameNumbers(Versions.Parse(x.v), Versions.Parse(y.v))
        && Versions.CaseTwins(Versions.Parse(x.v).qualifier, Versions.Parse(y.v).qualifier))
  }

  /** Sorted version results list every document before those with older versions. */
  lemma SortVersionDocsNewestFirst(docs: seq<Doc>)
    requires NoCaseTwinVersions(docs)
    ensures var r := SortVersionDocs(docs);
      forall i, j :: 0 <= i < j < |r| ==> Versions.CompareVersions(r[j].v, r[i].v) <= 0
  {
    DocsPreorder(docs);
    Sorting.SortSorted(docs, CompareArtifactVersions);
    NewestFirstWhenSorted(SortVersionDocs(docs));
  }

  lemma NewestFirstWhenSorted(r: seq<Doc>)
    requires Sorting.SortedBy(r, CompareArtifactVersions)
    ensures forall i, j :: 0 <= i < j < |r| ==> Versions.CompareVersions(r[j].v, r[i].v) <= 0
  {
    forall i, j | 0 <= i < j < |r| ensures Versions.CompareVersions(r[j].v, r[i].v) <= 0 {
      assert CompareArtifactVersions(r[i], r[j]) <= 0;
    }
  }

  lemma DocsPreorder(docs: seq<Doc>)
    requires NoCaseTwinVersions(docs)
    ensures Sorting.TotalPreorderOn(CompareArtifactVersions, multiset(docs))
  {
    DocsTotal(docs);
    DocsTransitive();
  }

  lemma DocsTotal(docs: seq<Doc>)
    requires NoCaseTwinVersions(docs)
    ensures forall x, y :: x in multiset(docs) && y in multiset(docs) ==>
      CompareArtifactVersions(x, y) <= 0 || CompareArtifactVersions(y, x) <= 0
  {
    forall x, y | x in multiset(docs) && y in multiset(docs)
      ensures CompareArtifactVersions(x, y) <= 0 || CompareArtifactVersions(y, x) <= 0
    {
      assert x in docs && y in docs;
      Versions.CompareTotal(Versions.Parse(y.v), Versions.Parse(x.v));
    }
  }

  lemma DocsTransitive()
    ensures forall x, y, z ::
      CompareArtifactVersions(x, y) <= 0 && CompareArtifactVersions(y, z) <= 0 ==> CompareArtifactVersions(x, z) <= 0
  {
    forall x, y, z | CompareArtifactVersions(x, y) <= 0 && CompareArtifactVersions(y, z) <= 0
      ensures CompareArtifactVersions(x, z) <= 0
    {
      Versions.CompareTransitive(Versions.Parse(z.v), Versions.Parse(y.v), Versions.Parse(x.v));
    }
  }

  /** `${index}`.padStart(10, "0") */
  function PaddedSortText(index: nat): (r: string)
    ensures |r| == (if |NatToString(index)| < 10 then 10 else |NatToString(index)|)
    ensures EndsWith(r, NatToString(index))
    ensures forall k :: 0 <= k < |r| - |NatToString(index)| ==> r[k] == '0'
  {
    var t := NatToString(index);
    var r := PadStart(t, 10, '0');
    assert r[|r| - |t|..] == t;
    r
  }

  /** Below ten billion results, padded sort texts order as text exactly as their indices. */
  lemma PaddedSortTextOrder(i: nat, j: nat)
    requires i < 10000000000 && j < 10000000000
    ensures Less(PaddedSortText(i), PaddedSortText(j)) <==> i < j
  {
    assert Pow10(10) == 10000000000;
    PaddedIndexOrder(i, j, 10);
  }
}
