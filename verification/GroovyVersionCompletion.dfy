/** The `//GROOVY ` completer: it offers the Groovy versions of the SDKMAN listing, newest
    first, fetching the listing again when the cached one is missing or an hour old. */
module GroovyVersionCompletion {
  import opened Wrappers
  import opened Text
  import opened Editor
  import Directives
  import TextHelper
  import Versions
  import Sorting
  import VersionCache

  /** `applies(lineText)`: `GROOVY.matches(lineText, true)`. */
  predicate Applies(lineText: string) {
    Directives.GROOVY.Matches(lineText, true)
  }

  /** What one listing line contributes: every token of `line.split(" ")` when it starts
      with a space, nothing otherwise. */
  function Contribution(line: string): seq<string> {
    if StartsWith(line, " ") then Split(line, ' ') else []
  }

  /** The tokens the listing lines contribute, line after line. */
  function ListedVersions(lines: seq<string>): seq<string> {
    if lines == [] then [] else ListedVersions(lines[..|lines| - 1]) + Contribution(lines[|lines| - 1])
  }

  /** A listed version is a token of some listing line that starts with a space, and every
      such token is listed. */
  lemma ListedIff(lines: seq<string>, v: string)
    ensures v in ListedVersions(lines) <==> exists k :: 0 <= k < |lines| && v in Contribution(lines[k])
  {
    if v in ListedVersions(lines) {
      ListedSomewhere(lines, v);
    }
    forall k | 0 <= k < |lines| && v in Contribution(lines[k]) ensures v in ListedVersions(lines) {
      ListedFrom(lines, k, v);
    }
  }

  lemma {:induction false} ListedSomewhere(lines: seq<string>, v: string)
    requires v in ListedVersions(lines)
    ensures exists k :: 0 <= k < |lines| && v in Contribution(lines[k])
  {
    var n := |lines| - 1;
    var init := lines[..n];
    assert ListedVersions(lines) == ListedVersions(init) + Contribution(lines[n]);
    if v in ListedVersions(init) {
      ListedSomewhere(init, v);
      var k :| 0 <= k < |init| && v in Contribution(init[k]);
      assert lines[k] == init[k];
    } else {
      assert v in Contribution(lines[n]);
    }
  }

  lemma {:induction false} ListedFrom(lines: seq<string>, k: nat, v: string)
    requires k < |lines| && v in Contribution(lines[k])
    ensures v in ListedVersions(lines)
  {
    var n := |lines| - 1;
    var init := lines[..n];
    var before := ListedVersions(init);
    var last := Contribution(lines[n]);
    assert ListedVersions(lines) == before + last;
    if k < n {
      assert init[k] == lines[k];
      ListedFrom(init, k, v);
      assert v in before;
    } else {
      assert v in last;
    }
  }

  /** No listed version holds a space. */
  lemma {:induction false} ListedHaveNoSpace(lines: seq<string>)
    ensures forall v :: v in ListedVersions(lines) ==> ' ' !in v
  {
    if lines != [] {
      ListedHaveNoSpace(lines[..|lines| - 1]);
      TokensHaveNoSpace(lines[|lines| - 1]);
    }
  }

  lemma TokensHaveNoSpace(line: string)
    ensures forall v :: v in Contribution(line) ==> ' ' !in v
  {
    forall v | v in Contribution(line) ensures ' ' !in v {
      var k :| 0 <= k < |Contribution(line)| && Contribution(line)[k] == v;
    }
  }

  /** A listing line starts with a space, so it always contributes the empty token before
      the first version. */
  lemma EmptyTokenListed(lines: seq<string>, k: nat)
    requires k < |lines| && StartsWith(lines[k], " ")
    ensures [] in ListedVersions(lines)
  {
    assert [] in Contribution(lines[k]) by {
      LeadingSeparator(lines[k], ' ');
    }
    ListedIff(lines, []);
  }

  /** The listing without its empty tokens, as splitting on runs of blanks would give. */
  function Filled(versions: seq<string>): (r: seq<string>)
    ensures |r| <= |versions|
  {
    if versions == [] then []
    else (if versions[0] == [] then [] else [versions[0]]) + Filled(versions[1..])
  }

  /** The corrected listing holds exactly the non-empty listed tokens. */
  lemma {:induction false} FilledIff(versions: seq<string>, v: string)
    ensures v in Filled(versions) <==> v in versions && v != []
  {
    if versions != [] {
      FilledIff(versions[1..], v);
      assert versions == [versions[0]] + versions[1..];
    }
  }

  /** A string that starts with the separator splits into the empty part first. */
  lemma LeadingSeparator(s: string, c: char)
    requires s != [] && s[0] == c
    ensures Split(s, c)[0] == []
  {
    assert FindChar(s, c) == 0;
  }

  /** `searchVersions()` on the fetched listing `text`: the tokens of the lines that start
      with a space, sorted with `compareVersionsDesc`. */
  method SearchVersions(text: string) returns (versions: seq<string>)
    ensures versions == Sorting.Sort(ListedVersions(SplitLines(text)), Versions.CompareVersionsDesc)
  {
    var found: seq<string> := [];
    if text != [] {
      var lines := SplitLines(text);
      var k := 0;
      while k < |lines|
        invariant 0 <= k <= |lines|
        invariant found == ListedVersions(lines[..k])
      {
        var line := lines[k];
        if StartsWith(line, " ") {
          found := found + Split(line, ' ');
        }
        assert lines[..k + 1][..k] == lines[..k];
        k := k + 1;
      }
      assert lines[..|lines|] == lines;
    } else {
      EmptyListing();
    }
    versions := VersionCache.SortVersionsDesc(found);
  }

  /** The empty text lists nothing. */
  lemma EmptyListing()
    ensures ListedVersions(SplitLines([])) == []
  {
    SplitNone([], '\n');
    assert SplitLines([]) == [[]];
    assert ListedVersions([[]]) == ListedVersions([]) + Contribution([]);
  }

  /** Dropping the empty tokens distributes over the lines. */
  lemma {:induction false} FilledAppend(a: seq<string>, b: seq<string>)
    ensures Filled(a + b) == Filled(a) + Filled(b)
  {
    if a != [] {
      FilledAppend(a[1..], b);
      assert (a + b)[1..] == a[1..] + b;
      assert (a + b)[0] == a[0];
    } else {
      assert a + b == b;
    }
  }

  /** The corrected `searchVersions()`: only the non-empty tokens of the listing lines are
      kept, so every version offered is a real one. */
  method SearchVersionsFilled(text: string) returns (versions: seq<string>)
    ensures versions == Sorting.Sort(Filled(ListedVersions(SplitLines(text))), Versions.CompareVersionsDesc)
    ensures forall v :: v in versions <==> v in ListedVersions(SplitLines(text)) && v != []
  {
    var found: seq<string> := [];
    var lines := SplitLines(text);
    var k := 0;
    while k < |lines|
      invariant 0 <= k <= |lines|
      invariant found == Filled(ListedVersions(lines[..k]))
    {
      var line := lines[k];
      assert lines[..k + 1][..k] == lines[..k];
      FilledAppend(ListedVersions(lines[..k]), Contribution(line));
      if StartsWith(line, " ") {
        found := found + Filled(Split(line, ' '));
      } else {
        assert Filled([]) == [];
      }
      k := k + 1;
    }
    assert lines[..|lines|] == lines;
    versions := VersionCache.SortVersionsDesc(found);
    Sorting.SortPermutes(found, Versions.CompareVersionsDesc);
    forall v ensures v in versions <==> v in ListedVersions(lines) && v != [] {
      assert v in versions <==> v in multiset(versions);
      FilledIff(ListedVersions(lines), v);
    }
  }

  /** `provideCompletionItems(document, position)` at time `now` on the line `lineText`;
      `listing` is the SDKMAN answer if a fetch is made (`None` when the request fails, which
      rejects the completion and leaves the cache as it was). */
  method ProvideCompletionItems(cache: VersionCache.Cache, lineText: string, position: Position, now: int,
                                listing: Option<string>)
    returns (r: Option<CompletionList>)
    modifies cache
    ensures !Applies(lineText) ==> r == Some(EmptyList()) && unchanged(cache)
    ensures Applies(lineText) && !old(cache.NeedsRefresh(now)) ==> unchanged(cache)
    ensures Applies(lineText) && old(cache.NeedsRefresh(now)) && listing.None? ==> r.None? && unchanged(cache)
    ensures Applies(lineText) && old(cache.NeedsRefresh(now)) && listing.Some? ==>
      && cache.versions == Some(Sorting.Sort(ListedVersions(SplitLines(listing.value)), Versions.CompareVersionsDesc))
      && cache.lastUpdate == now
    ensures Applies(lineText) && r.Some? ==>
      cache.versions.Some? &&
      r.value == VersionCache.ToCompletionList(cache.versions.value,
        Range(TextHelper.StartPosition(lineText, position, Directives.GROOVY.Prefix(), TextHelper.IsDelimiter),
              TextHelper.EndPosition(lineText, position)))
  {
    if !Applies(lineText) {
      return Some(EmptyList());
    }
    if cache.NeedsRefresh(now) {
      if listing.None? {
        return None;
      }
      var versions := SearchVersions(listing.value);
      cache.Store(versions, now);
    }
    var versions := cache.versions.value;
    if |versions| == 0 {
      return Some(EmptyList());
    }
    var start := TextHelper.FindStartPosition(lineText, position, Directives.GROOVY.Prefix(), None);
    var end := TextHelper.FindEndPosition(lineText, position);
    return Some(VersionCache.ToCompletionList(versions, Range(start, end)));
  }
}
