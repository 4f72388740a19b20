/** The wizard behind the "Find '<class>' dependency..." code action: it searches Maven
    Central for the missing class, keeps the newest version of every group and artifact,
    ranks the candidates by how much of their group matches the class's package, and
    inserts the chosen one as a `//DEPS ` line below the last dependency line among the
    first hundred lines. */
module AddMissingDependencyWizard {
  import opened Wrappers
  import opened Text
  import opened Editor
  import Versions
  import Sorting

  /** One search result: its `id` and its coordinates. */
  datatype Doc = Doc(id: string, g: string, a: string, v: string)

  /** The `response` member of the answer; `numFound` and `docs` may be missing. */
  datatype ClassResponse = ClassResponse(numFound: Option<int>, docs: Option<seq<Doc>>)

  /** A class search: `fc` (fully qualified class name) or `c` (simple name), and the
      name searched. */
  datatype ClassQuery = ClassQuery(searchType: string, name: string)

  /** An edit that inserts `newText` over `range`. */
  datatype TextEdit = TextEdit(range: Range, newText: string)

  /** What `open` ends with: a cancelled search does nothing; an empty result shows
      `message`; otherwise `choices` are offered and the pick gives the edit, if any. */
  datatype Outcome = Cancelled | NotFound(message: string) | Offered(choices: seq<string>, edit: Option<TextEdit>)

  // Searching

  /** The missing type without the `.*` of a star import. */
  function SearchName(missingClass: string): (name: string)
    ensures EndsWith(missingClass, ".*") ==> name + ".*" == missingClass
    ensures !EndsWith(missingClass, ".*") ==> name == missingClass
  {
    if EndsWith(missingClass, ".*") then
      var name := missingClass[..|missingClass| - 2];
      assert missingClass == name + missingClass[|missingClass| - 2..];
      name
    else missingClass
  }

  /** `searchClass`'s query: a fully qualified search when the name holds a `.`. */
  function QueryFor(missingClass: string): (q: ClassQuery)
    ensures q.name == SearchName(missingClass)
    ensures q.searchType == "fc" <==> '.' in q.name
    ensures q.searchType == "fc" || q.searchType == "c"
  {
    var name := SearchName(missingClass);
    ClassQuery(if '.' in name then "fc" else "c", name)
  }

  /** A star import searches its package, fully qualified once the package has a `.`. */
  lemma StarImportSearchesPackage(package: string)
    ensures QueryFor(package + ".*").name == package
    ensures QueryFor(package + ".*").searchType == (if '.' in package then "fc" else "c")
  {
    var s := package + ".*";
    assert s[|s| - 2..] == ".*";
    assert s[..|s| - 2] == package;
  }

  // Ranking and de-duplicating the documents

  /** `compareArtifactVersions`: by group, then by artifact, then the newer version first. */
  function CompareArtifactVersions(x: Doc, y: Doc): (r: int)
    ensures x.g != y.g ==> r != 0 && (r < 0 <==> Less(x.g, y.g))
    ensures x.g == y.g && x.a != y.a ==> r != 0 && (r < 0 <==> Less(x.a, y.a))
    ensures x.g == y.g && x.a == y.a ==> r == Versions.CompareVersions(y.v, x.v)
  {
    var byGroup := LocaleCompare(x.g, y.g);
    if byGroup != 0 then byGroup
    else
      var byArtifact := LocaleCompare(x.a, y.a);
      if byArtifact != 0 then byArtifact else Versions.CompareVersions(y.v, x.v)
  }

  /** `results.docs.sort(compareArtifactVersions)`, in place on an array of the documents. */
  method RankDocs(docs: seq<Doc>) returns (r: seq<Doc>)
    ensures r == Sorting.Sort(docs, CompareArtifactVersions)
  {
    var a := new Doc[|docs|](i requires 0 <= i < |docs| => docs[i]);
    assert a[..] == docs;
    Sorting.SortInPlace(a, CompareArtifactVersions);
    r := a[..];
  }

  /** `candidate.g + ':' + candidate.a` */
  function GA(d: Doc): string {
    d.g + ":" + d.a
  }

  /** Document `i` starts a run: it is the first, or its `g:a` differs from the previous. */
  predicate IsHead(s: seq<Doc>, i: nat)
    requires i < |s|
  {
    i == 0 || GA(s[i - 1]) != GA(s[i])
  }

  /** The documents the de-duplication loop keeps among the first `n`. */
  function Heads(s: seq<Doc>, n: nat): (r: seq<Doc>)
    requires n <= |s|
    ensures |r| <= n
  {
    if n == 0 then [] else Heads(s, n - 1) + (if IsHead(s, n - 1) then [s[n - 1]] else [])
  }

  /** The `id` of every document. */
  function Ids(docs: seq<Doc>): (r: seq<string>)
    ensures |r| == |docs| && forall i :: 0 <= i < |docs| ==> r[i] == docs[i].id
  {
    seq(|docs|, i requires 0 <= i < |docs| => docs[i].id)
  }

  lemma IdsAppend(docs: seq<Doc>, d: Doc)
    ensures Ids(docs + [d]) == Ids(docs) + [d.id]
  {
    assert Ids(docs + [d])[|docs|] == d.id;
  }

  /** The loop over the sorted documents: an `id` is pushed whenever `g:a` changes. */
  method KeepFirstOfEachGA(sorted: seq<Doc>) returns (candidates: seq<string>)
    ensures candidates == Ids(Heads(sorted, |sorted|))
  {
    var lastGA: Option<string> := None;
    candidates := [];
    var i := 0;
    while i < |sorted|
      invariant 0 <= i <= |sorted|
      invariant candidates == Ids(Heads(sorted, i))
      invariant lastGA == if i == 0 then None else Some(GA(sorted[i - 1]))
    {
      var candidate := sorted[i];
      var candidateGA := candidate.g + ":" + candidate.a;
      if lastGA != Some(candidateGA) {
        lastGA := Some(candidateGA);
        IdsAppend(Heads(sorted, i), candidate);
        candidates := candidates + [candidate.id];
      }
      i := i + 1;
    }
  }

  /** The documents kept: the first of every run of equal `g:a` once sorted. */
  function Kept(docs: seq<Doc>): (r: seq<Doc>)
    ensures forall d :: d in r ==> d in docs
  {
    var s := Sorting.Sort(docs, CompareArtifactVersions);
    var r := Heads(s, |s|);
    assert forall d :: d in r ==> d in docs by {
      Sorting.SortPermutes(docs, CompareArtifactVersions);
      forall d | d in r ensures d in docs {
        HeadsIff(s, |s|, d);
        assert d in multiset(s);
      }
    }
    r
  }

  /** What the search's progress task returns: undefined when cancelled, nothing when the
      answer counts no document or has none, the kept documents' ids otherwise. */
  function CandidatesFor(response: Option<ClassResponse>): (r: Option<seq<string>>)
    ensures response.None? <==> r.None?
    ensures response.Some? && !Found(response.value) ==> r == Some([])
    ensures r.Some? && r.value != [] ==>
      forall id :: id in r.value ==> exists d :: d in response.value.docs.value && d.id == id
  {
    if response.None? then None
    else if !Found(response.value) then Some([])
    else Some(Ids(Kept(response.value.docs.value)))
  }

  /** `results.numFound && results.docs`: a missing or zero count, or missing documents,
      stop the search. */
  predicate Found(response: ClassResponse) {
    response.numFound.Some? && response.numFound.value != 0 && response.docs.Some?
  }

  /** The progress task of `open` once `searchClass` has answered `response` (`None` when
      the search was cancelled). */
  method SearchCandidates(response: Option<ClassResponse>) returns (r: Option<seq<string>>)
    ensures r == CandidatesFor(response)
    ensures response.None? <==> r.None?
    ensures response.Some? && !Found(response.value) ==> r == Some([])
  {
    if response.None? {
      return None;
    }
    var results := response.value;
    if !Found(results) {
      return Some([]);
    }
    var sortedVersions := RankDocs(results.docs.value);
    var candidates := KeepFirstOfEachGA(sortedVersions);
    return Some(candidates);
  }

  /** A document is kept exactly when it starts a run. */
  lemma {:induction false} HeadsIff(s: seq<Doc>, n: nat, d: Doc)
    requires n <= |s|
    ensures d in Heads(s, n) <==> exists i :: 0 <= i < n && IsHead(s, i) && s[i] == d
  {
    if n > 0 {
      HeadsIff(s, n - 1, d);
      var prev := Heads(s, n - 1);
      var last := if IsHead(s, n - 1) then [s[n - 1]] else [];
      assert Heads(s, n) == prev + last;
      if d in Heads(s, n) && d !in prev {
        assert IsHead(s, n - 1) && s[n - 1] == d;
      }
      if exists i :: 0 <= i < n && IsHead(s, i) && s[i] == d {
        var i :| 0 <= i < n && IsHead(s, i) && s[i] == d;
        if i == n - 1 {
          assert d in last;
        } else {
          assert d in prev;
        }
      }
    }
  }

  /** Every document's `g:a` is that of a kept document: the head of its run. */
  lemma {:induction false} RunHasHead(s: seq<Doc>, j: nat)
    requires j < |s|
    ensures exists i :: 0 <= i <= j && IsHead(s, i) && GA(s[i]) == GA(s[j])
  {
    if !IsHead(s, j) {
      RunHasHead(s, j - 1);
    }
  }

  /** Without a `:` in the groups, equal `g:a` means equal group and equal artifact. */
  lemma GAInjective(x: Doc, y: Doc)
    requires ':' !in x.g && ':' !in y.g && GA(x) == GA(y)
    ensures x.g == y.g && x.a == y.a
  {
    ColonAfterGroup(x, y);
    ColonAfterGroup(y, x);
    assert x.g == GA(x)[..|x.g|] && y.g == GA(y)[..|y.g|];
    assert x.a == GA(x)[|x.g| + 1..] && y.a == GA(y)[|y.g| + 1..];
  }

  lemma ColonAfterGroup(x: Doc, y: Doc)
    requires ':' !in y.g
    ensures GA(x) == GA(y) ==> |x.g| >= |y.g|
  {
    if |x.g| < |y.g| {
      assert GA(x)[|x.g|] == ':' && GA(y)[|x.g|] == y.g[|x.g|];
    }
  }

  /** No group holds a `:`, as Maven group ids do not. */
  ghost predicate NoColonGroups(docs: seq<Doc>) {
    forall d :: d in docs ==> ':' !in d.g
  }

  /** Between two documents with the same group and artifact, a sorted list holds only
      documents with that group and artifact. */
  lemma Between(x: Doc, y: Doc, z: Doc)
    requires CompareArtifactVersions(x, y) <= 0 && CompareArtifactVersions(y, z) <= 0
    requires x.g == z.g && x.a == z.a
    ensures y.g == x.g && y.a == x.a
  {
    if y.g != x.g {
      LessAsymmetric(x.g, y.g);
    } else if y.a != x.a {
      LessAsymmetric(x.a, y.a);
    }
  }

  /** In a sorted list a document with the `g:a` of an earlier one starts no run. */
  lemma NotHeadAfterSame(s: seq<Doc>, i: nat, j: nat)
    requires i < j < |s| && Sorting.SortedBy(s, CompareArtifactVersions) && NoColonGroups(s)
    requires GA(s[i]) == GA(s[j])
    ensures !IsHead(s, j)
  {
    GAInjective(s[i], s[j]);
    if i < j - 1 {
      assert CompareArtifactVersions(s[i], s[j - 1]) <= 0 && CompareArtifactVersions(s[j - 1], s[j]) <= 0;
      Between(s[i], s[j - 1], s[j]);
    }
  }

  /** No two documents share their `g:a`. */
  predicate DistinctGAs(h: seq<Doc>) {
    forall k, l :: 0 <= k < l < |h| ==> GA(h[k]) != GA(h[l])
  }

  /** In a sorted list the kept documents have pairwise different `g:a`. */
  lemma {:induction false} HeadsDistinct(s: seq<Doc>, n: nat)
    requires n <= |s| && Grouped(s)
    ensures DistinctGAs(Heads(s, n))
  {
    if n > 0 {
      HeadsDistinct(s, n - 1);
      var prev := Heads(s, n - 1);
      var h := Heads(s, n);
      if IsHead(s, n - 1) {
        assert h == prev + [s[n - 1]];
        NewHead(s, n);
        forall k, l | 0 <= k < l < |h| ensures GA(h[k]) != GA(h[l]) {
          assert h[k] == prev[k] && prev[k] in prev;
          if l < |prev| {
            assert h[l] == prev[l];
          } else {
            assert h[l] == s[n - 1];
          }
        }
      } else {
        assert h == prev;
      }
    }
  }

  /** A new head's `g:a` differs from those kept before it. */
  lemma NewHead(s: seq<Doc>, n: nat)
    requires 0 < n <= |s| && IsHead(s, n - 1) && Grouped(s)
    ensures forall e :: e in Heads(s, n - 1) ==> GA(e) != GA(s[n - 1])
  {
    forall e | e in Heads(s, n - 1) ensures GA(e) != GA(s[n - 1]) {
      NewHeadDiffers(s, n, e);
    }
  }

  lemma NewHeadDiffers(s: seq<Doc>, n: nat, e: Doc)
    requires 0 < n <= |s| && IsHead(s, n - 1) && Grouped(s) && e in Heads(s, n - 1)
    ensures GA(e) != GA(s[n - 1])
  {
    HeadsIff(s, n - 1, e);
    var i :| 0 <= i < n - 1 && IsHead(s, i) && s[i] == e;
    var j: nat := n - 1;
    assert GA(s[i]) == GA(s[j]) ==> !IsHead(s, j);
  }

  /** A document with the `g:a` of an earlier one starts no run: the runs are the groups. */
  predicate Grouped(s: seq<Doc>) {
    forall i, j :: 0 <= i < j < |s| && GA(s[i]) == GA(s[j]) ==> !IsHead(s, j)
  }

  /** Sorted lists are grouped by `g:a`. */
  lemma SortedGrouped(s: seq<Doc>)
    requires Sorting.SortedBy(s, CompareArtifactVersions) && NoColonGroups(s)
    ensures Grouped(s)
  {
    forall i, j | 0 <= i < j < |s| && GA(s[i]) == GA(s[j]) ensures !IsHead(s, j) {
      NotHeadAfterSame(s, i, j);
    }
  }

  /** Every run has its head among the kept documents. */
  lemma HeadsCover(s: seq<Doc>, j: nat)
    requires j < |s|
    ensures exists e :: e in Heads(s, |s|) && GA(e) == GA(s[j])
  {
    RunHasHead(s, j);
    var i :| 0 <= i <= j && IsHead(s, i) && GA(s[i]) == GA(s[j]);
    HeadsIff(s, |s|, s[i]);
  }

  /** In a sorted list a run's head is at least as new as every document of its `g:a`. */
  lemma HeadIsNewest(s: seq<Doc>, i: nat, j: nat)
    requires i < |s| && j < |s| && IsHead(s, i) && GA(s[i]) == GA(s[j])
    requires Sorting.SortedBy(s, CompareArtifactVersions) && NoColonGroups(s)
    ensures Versions.CompareVersions(s[j].v, s[i].v) <= 0
  {
    GAInjective(s[i], s[j]);
    if j < i {
      NotHeadAfterSame(s, j, i);
    } else if j > i {
      assert CompareArtifactVersions(s[i], s[j]) <= 0;
    }
  }

  /** Different versions of one group and artifact never differ only in the case of their
      qualifiers. */
  ghost predicate NoCaseTwinVersions(docs: seq<Doc>) {
    forall x, y :: x in docs && y in docs && x.g == y.g && x.a == y.a ==>
      !(Versions.SameNumbers(Versions.Parse(x.v), Versions.Parse(y.v))
        && Versions.CaseTwins(Versions.Parse(x.v).qualifier, Versions.Parse(y.v).qualifier))
  }

  /** `compareArtifactVersions` is a total preorder on such documents. */
  lemma DocsPreorder(docs: seq<Doc>)
    requires NoCaseTwinVersions(docs)
    ensures Sorting.TotalPreorderOn(CompareArtifactVersions, multiset(docs))
  {
    forall x, y | x in multiset(docs) && y in multiset(docs)
      ensures CompareArtifactVersions(x, y) <= 0 || CompareArtifactVersions(y, x) <= 0
    {
      DocsTotal(x, y);
    }
    forall x, y, z | CompareArtifactVersions(x, y) <= 0 && CompareArtifactVersions(y, z) <= 0
      ensures CompareArtifactVersions(x, z) <= 0
    {
      DocsTransitive(x, y, z);
    }
  }

  lemma DocsTotal(x: Doc, y: Doc)
    requires x.g == y.g && x.a == y.a ==>
      !(Versions.SameNumbers(Versions.Parse(x.v), Versions.Parse(y.v))
        && Versions.CaseTwins(Versions.Parse(x.v).qualifier, Versions.Parse(y.v).qualifier))
    ensures CompareArtifactVersions(x, y) <= 0 || CompareArtifactVersions(y, x) <= 0
  {
    if x.g != y.g {
      LessTotal(x.g, y.g);
    } else if x.a != y.a {
      LessTotal(x.a, y.a);
    } else {
      Versions.CompareTotal(Versions.Parse(y.v), Versions.Parse(x.v));
    }
  }

  lemma DocsTransitive(x: Doc, y: Doc, z: Doc)
    requires CompareArtifactVersions(x, y) <= 0 && CompareArtifactVersions(y, z) <= 0
    ensures CompareArtifactVersions(x, z) <= 0
  {
    if x.g != y.g || y.g != z.g {
      if x.g != y.g && y.g != z.g {
        LessTransitive(x.g, y.g, z.g);
      }
      if x.g == z.g {
        Between(x, y, z);
      }
    } else if x.a != y.a || y.a != z.a {
      if x.a != y.a && y.a != z.a {
        LessTransitive(x.a, y.a, z.a);
      }
      if x.a == z.a {
        Between(x, y, z);
      }
    } else {
      Versions.CompareTransitive(Versions.Parse(z.v), Versions.Parse(y.v), Versions.Parse(x.v));
    }
  }

  /** The sorted documents, as sorted lists are when the comparator is a preorder. */
  lemma RankedSorted(docs: seq<Doc>)
    requires NoCaseTwinVersions(docs) && NoColonGroups(docs)
    ensures var s := Sorting.Sort(docs, CompareArtifactVersions);
      Sorting.SortedBy(s, CompareArtifactVersions) && multiset(s) == multiset(docs) && NoColonGroups(s)
  {
    DocsPreorder(docs);
    Sorting.SortSorted(docs, CompareArtifactVersions);
    Sorting.SortPermutes(docs, CompareArtifactVersions);
    var s := Sorting.Sort(docs, CompareArtifactVersions);
    forall d | d in s ensures ':' !in d.g {
      assert d in multiset(s);
    }
  }

  /** Every group and artifact found is kept once: some kept document has it, and no two
      kept documents share it. */
  lemma KeptOncePerGA(docs: seq<Doc>)
    requires NoCaseTwinVersions(docs) && NoColonGroups(docs)
    ensures forall d :: d in docs ==> exists e :: e in Kept(docs) && GA(e) == GA(d)
    ensures DistinctGAs(Kept(docs))
  {
    var s := Sorting.Sort(docs, CompareArtifactVersions);
    RankedSorted(docs);
    SortedGrouped(s);
    HeadsDistinct(s, |s|);
    forall d | d in docs ensures exists e :: e in Kept(docs) && GA(e) == GA(d) {
      assert d in multiset(s);
      var j :| 0 <= j < |s| && s[j] == d;
      HeadsCover(s, j);
    }
  }

  /** Every kept document carries the newest version of its group and artifact. */
  lemma KeptNewest(docs: seq<Doc>, e: Doc, d: Doc)
    requires NoCaseTwinVersions(docs) && NoColonGroups(docs)
    requires e in Kept(docs) && d in docs && GA(d) == GA(e)
    ensures Versions.CompareVersions(d.v, e.v) <= 0
  {
    var s := Sorting.Sort(docs, CompareArtifactVersions);
    RankedSorted(docs);
    HeadsIff(s, |s|, e);
    var i :| 0 <= i < |s| && IsHead(s, i) && s[i] == e;
    assert d in multiset(s);
    var j :| 0 <= j < |s| && s[j] == d;
    HeadIsNewest(s, i, j);
  }

  // Ranking the candidates by namespace

  /** How many parts of `parts` equal the part of `reference` at the same index. */
  function CommonParts(parts: seq<string>, reference: seq<string>): (n: nat)
    ensures n <= |parts|
  {
    if parts == [] then 0
    else
      var k := |parts| - 1;
      CommonParts(parts[..k], reference) + (if k < |reference| && parts[k] == reference[k] then 1 else 0)
  }

  /** Every part matches exactly when the parts are a prefix of the reference. */
  lemma {:induction false} AllCommonIffPrefix(parts: seq<string>, reference: seq<string>)
    ensures CommonParts(parts, reference) == |parts| <==> |parts| <= |reference| && reference[..|parts|] == parts
  {
    if parts != [] {
      var k := |parts| - 1;
      AllCommonIffPrefix(parts[..k], reference);
      if |parts| <= |reference| && reference[..|parts|] == parts {
        assert reference[..k] == parts[..k];
      }
      if CommonParts(parts, reference) == |parts| {
        assert reference[..|parts|] == reference[..k] + [reference[k]];
      }
    }
  }

  /** The group of a `g:a:v` id, split at its dots. */
  function GroupParts(candidate: string): seq<string> {
    Split(Split(candidate, ':')[0], '.')
  }

  /** How many group parts of `candidate` match the missing type's parts by position. */
  function Matches(reference: string, candidate: string): nat {
    CommonParts(GroupParts(candidate), Split(reference, '.'))
  }

  /** `compareNamespaces(reference, a, b)`: more matching parts first, then as text. */
  function CompareNamespaces(reference: string, a: string, b: string): (r: int)
    ensures Matches(reference, a) != Matches(reference, b) ==>
      r != 0 && (r < 0 <==> Matches(reference, a) > Matches(reference, b))
    ensures Matches(reference, a) == Matches(reference, b) ==> r == LocaleCompare(a, b)
  {
    var commonA := Matches(reference, a);
    var commonB := Matches(reference, b);
    if commonA != commonB then commonB - commonA else LocaleCompare(a, b)
  }

  /** Swapping the candidates flips the sign, and only equal candidates compare equal. */
  lemma NamespacesAntisymmetric(reference: string, a: string, b: string)
    ensures CompareNamespaces(reference, a, b) == -CompareNamespaces(reference, b, a)
    ensures CompareNamespaces(reference, a, b) == 0 <==> a == b
  {
    if a != b && Matches(reference, a) == Matches(reference, b) {
      if Less(a, b) {
        LessAsymmetric(a, b);
      } else {
        LessTotal(a, b);
        LessAsymmetric(b, a);
      }
    }
  }

  /** The comparator `sortNamespaces` passes to `sort`. */
  function NamespaceOrder(reference: string): (string, string) -> int {
    (a: string, b: string) => CompareNamespaces(reference, a, b)
  }

  /** `compareNamespaces` is a total order, so sorting with it is a preorder sort. */
  lemma NamespacePreorder(reference: string, s: multiset<string>)
    ensures Sorting.TotalPreorderOn(NamespaceOrder(reference), s)
  {
    forall a, b ensures CompareNamespaces(reference, a, b) <= 0 || CompareNamespaces(reference, b, a) <= 0 {
      NamespacesAntisymmetric(reference, a, b);
    }
    forall a, b, c | CompareNamespaces(reference, a, b) <= 0 && CompareNamespaces(reference, b, c) <= 0
      ensures CompareNamespaces(reference, a, c) <= 0
    {
      NamespacesTransitive(reference, a, b, c);
    }
  }

  lemma NamespacesTransitive(reference: string, a: string, b: string, c: string)
    requires CompareNamespaces(reference, a, b) <= 0 && CompareNamespaces(reference, b, c) <= 0
    ensures CompareNamespaces(reference, a, c) <= 0
  {
    var ma, mb, mc := Matches(reference, a), Matches(reference, b), Matches(reference, c);
    if ma == mb && mb == mc && a != b && b != c && a != c {
      LessTransitive(a, b, c);
    }
  }

  /** `sortNamespaces(namespaces, reference)`, in place on an array of the candidates. */
  method SortNamespaces(namespaces: seq<string>, reference: string) returns (r: seq<string>)
    ensures r == Sorting.Sort(namespaces, NamespaceOrder(reference))
  {
    var a := new string[|namespaces|](i requires 0 <= i < |namespaces| => namespaces[i]);
    assert a[..] == namespaces;
    Sorting.SortInPlace(a, NamespaceOrder(reference));
    r := a[..];
  }

  /** The ranked candidates are the candidates, with more matching group parts first and
      equally matching ones in text order. */
  lemma NamespacesRanked(namespaces: seq<string>, reference: string)
    ensures var r := Sorting.Sort(namespaces, NamespaceOrder(reference));
      && multiset(r) == multiset(namespaces)
      && forall i, j :: 0 <= i < j < |r| ==>
           Matches(reference, r[i]) > Matches(reference, r[j])
           || (Matches(reference, r[i]) == Matches(reference, r[j]) && !Less(r[j], r[i]))
  {
    NamespacePreorder(reference, multiset(namespaces));
    Sorting.SortSorted(namespaces, NamespaceOrder(reference));
    Sorting.SortPermutes(namespaces, NamespaceOrder(reference));
    var r := Sorting.Sort(namespaces, NamespaceOrder(reference));
    forall i, j | 0 <= i < j < |r|
      ensures Matches(reference, r[i]) > Matches(reference, r[j])
              || (Matches(reference, r[i]) == Matches(reference, r[j]) && !Less(r[j], r[i]))
    {
      assert NamespaceOrder(reference)(r[i], r[j]) <= 0;
    }
  }

  // Inserting the dependency

  /** The index of the last line among the first `n` that starts with `prefix`, or 0. */
  function LastDepsIndex(lines: seq<string>, n: nat, prefix: string): (r: nat)
    requires n <= |lines|
    ensures r == 0 || (r < n && StartsWith(lines[r], prefix))
    ensures forall k :: r < k < n ==> !StartsWith(lines[k], prefix)
  {
    if n == 0 then 0
    else if StartsWith(lines[n - 1], prefix) then n - 1
    else LastDepsIndex(lines, n - 1, prefix)
  }

  /** `findNextDepsLine(document)` on the document text; `depsPrefix` is the directive
      prefix the file imports. */
  method FindNextDepsLine(text: string, depsPrefix: string) returns (line: nat)
    ensures var lines := SplitLines(text);
      line == LastDepsIndex(lines, if |lines| < 100 then |lines| else 100, depsPrefix) + 1
  {
    var lines := SplitLines(text);
    var lastDepsIndex := 0;
    var bound := if |lines| < 100 then |lines| else 100;
    var index := 0;
    while index < bound
      invariant 0 <= index <= bound
      invariant lastDepsIndex == LastDepsIndex(lines, index, depsPrefix)
    {
      if StartsWith(lines[index], depsPrefix) {
        lastDepsIndex := index;
      }
      index := index + 1;
    }
    line := lastDepsIndex + 1;
  }

  /** The insertion line lies among the first hundred, just below the last dependency
      line there, or below the first line when there is none. */
  lemma NextDepsLineBounds(lines: seq<string>, prefix: string)
    ensures var n := if |lines| < 100 then |lines| else 100;
      var line := LastDepsIndex(lines, n, prefix) + 1;
      && 1 <= line <= 100
      && (line == 1 || StartsWith(lines[line - 1], prefix))
      && forall k :: line <= k < n ==> !StartsWith(lines[k], prefix)
  {
  }

  /** The edit: `//DEPS <dependency>` and a line break, inserted at the start of `line`. */
  function DepsEdit(line: nat, dependency: string): (e: TextEdit)
    ensures e.range.start == e.range.end == Position(line, 0)
    ensures StartsWith(e.newText, "//DEPS ") && e.newText[|e.newText| - 1] == '\n'
  {
    var text := "//DEPS " + dependency + "\n";
    assert text[..7] == "//DEPS ";
    TextEdit(Range(Position(line, 0), Position(line, 0)), text)
  }

  /** The inserted text is one whole line holding the dependency. */
  lemma DepsEditIsOneLine(line: nat, dependency: string)
    requires '\n' !in dependency
    ensures Split(DepsEdit(line, dependency).newText, '\n') == ["//DEPS " + dependency, ""]
  {
    var d := "//DEPS " + dependency;
    assert '\n' !in "//DEPS ";
    assert '\n' !in d by {
      forall i | 0 <= i < |d| ensures d[i] != '\n' {
        if i >= 7 {
          assert d[i] == dependency[i - 7];
        }
      }
    }
    SplitCons(d, '\n', "");
    SplitNone("", '\n');
    assert d + ['\n'] + "" == DepsEdit(line, dependency).newText;
  }

  /** `open(uri, missingType)`: `fetch` answers the class search (`None` when it is
      cancelled), `pick` is the label the user picks (`None` when dismissed), and `text`
      is the script's text. */
  method Open(missingType: string, fetch: ClassQuery -> Option<ClassResponse>, pick: Option<string>,
              text: string, depsPrefix: string)
    returns (outcome: Outcome)
    ensures var found := CandidatesFor(fetch(QueryFor(missingType)));
      && (found.None? ==> outcome == Cancelled)
      && (found == Some([]) ==> outcome == NotFound("No dependencies found for '" + missingType + "'"))
      && (found.Some? && found.value != [] ==>
            && outcome.Offered?
            && outcome.choices == Sorting.Sort(found.value, NamespaceOrder(missingType))
            && (pick.None? || pick == Some("") ==> outcome.edit.None?)
            && (pick.Some? && pick.value != "" ==>
                  var lines := SplitLines(text);
                  outcome.edit == Some(DepsEdit(LastDepsIndex(lines, if |lines| < 100 then |lines| else 100,
                                                              depsPrefix) + 1, pick.value))))
  {
    var results := SearchCandidates(fetch(QueryFor(missingType)));
    if results.None? {
      return Cancelled;
    }
    if |results.value| == 0 {
      return NotFound("No dependencies found for '" + missingType + "'");
    }
    var choices := SortNamespaces(results.value, missingType);
    if pick.None? || pick.value == "" {
      return Offered(choices, None);
    }
    var line := FindNextDepsLine(text, depsPrefix);
    return Offered(choices, Some(DepsEdit(line, pick.value)));
  }
}
