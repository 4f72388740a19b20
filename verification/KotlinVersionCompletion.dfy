/** The `//KOTLIN ` completer: it offers the Kotlin release versions named by GitHub release
    tags, newest first, fetching them again when the cached list is missing or an hour old. */
module KotlinVersionCompletion {
  import opened Wrappers
  import opened Text
  import opened Editor
  import Directives
  import TextHelper
  import Versions
  import Sorting
  import VersionCache

  /** One GitHub release. */
  datatype Release = Release(tagName: string)

  /** `applies(lineText)`: `KOTLIN.matches(lineText, true)`. */
  predicate Applies(lineText: string) {
    Directives.KOTLIN.Matches(lineText, true)
  }

  /** `r.tag_name.replace('v', '')`: only the first `v` is dropped. */
  function TagVersion(tag: string): (v: string)
    ensures 'v' !in tag ==> v == tag
    ensures 'v' in tag ==> |v| == |tag| - 1
  {
    FindCharIn(tag, 'v');
    ReplaceFirst(tag, 'v', "")
  }

  /** A tag `v<rest>` names the version `<rest>`, whatever `v`s the rest holds. */
  lemma LeadingVDropped(rest: string)
    ensures TagVersion(['v'] + rest) == rest
  {
    var tag := ['v'] + rest;
    assert FindChar(tag, 'v') == 0;
    assert tag[1..] == rest;
  }

  /** Only the first `v` goes: with a `v`-free prefix before it, the prefix is kept and the
      rest after it too. */
  lemma FirstVDropped(p: string, rest: string)
    requires 'v' !in p
    ensures TagVersion(p + (['v'] + rest)) == p + rest
  {
    ReplaceFirstAfter(p, ['v'] + rest, 'v', "");
    LeadingVDropped(rest);
  }

  /** `releases.map(...)`: the version of every release, in release order. */
  function TagVersions(releases: seq<Release>): (r: seq<string>)
    ensures |r| == |releases| && forall i :: 0 <= i < |releases| ==> r[i] == TagVersion(releases[i].tagName)
  {
    seq(|releases|, i requires 0 <= i < |releases| => TagVersion(releases[i].tagName))
  }

  /** `searchVersions()` on the fetched `response.data`: no data gives no versions, and the
      versions of the releases are sorted with `compareVersionsDesc`. */
  method SearchVersions(data: Option<seq<Release>>) returns (versions: seq<string>)
    ensures data.None? ==> versions == []
    ensures data.Some? ==> versions == Sorting.Sort(TagVersions(data.value), Versions.CompareVersionsDesc)
  {
    if data.None? {
      return [];
    }
    versions := VersionCache.SortVersionsDesc(TagVersions(data.value));
  }

  /** `provideCompletionItems(document, position)` at time `now` on the line `lineText`;
      `response` is the GitHub answer if a fetch is made (`None` when the request fails, which
      rejects the completion and leaves the cache as it was). */
  method ProvideCompletionItems(cache: VersionCache.Cache, lineText: string, position: Position, now: int,
                                response: Option<Option<seq<Release>>>)
    returns (r: Option<CompletionList>)
    modifies cache
    ensures !Applies(lineText) ==> r == Some(EmptyList()) && unchanged(cache)
    ensures Applies(lineText) && !old(cache.NeedsRefresh(now)) ==> unchanged(cache)
    ensures Applies(lineText) && old(cache.NeedsRefresh(now)) && response.None? ==> r.None? && unchanged(cache)
    ensures Applies(lineText) && old(cache.NeedsRefresh(now)) && response.Some? ==>
      && cache.lastUpdate == now
      && (response.value.None? ==> cache.versions == Some([]) && r == Some(EmptyList()))
      && (response.value.Some? ==>
            cache.versions == Some(Sorting.Sort(TagVersions(response.value.value), Versions.CompareVersionsDesc)))
    ensures Applies(lineText) && r.Some? ==>
      cache.versions.Some? &&
      r.value == VersionCache.ToCompletionList(cache.versions.value,
        Range(TextHelper.StartPosition(lineText, position, Directives.KOTLIN.Prefix(), TextHelper.IsDelimiter),
              TextHelper.EndPosition(lineText, position)))
  {
    if !Applies(lineText) {
      return Some(EmptyList());
    }
    if cache.NeedsRefresh(now) {
      if response.None? {
        return None;
      }
      var versions := SearchVersions(response.value);
      cache.Store(versions, now);
    }
    var versions := cache.versions.value;
    if |versions| == 0 {
      return Some(EmptyList());
    }
    var start := TextHelper.FindStartPosition(lineText, position, Directives.KOTLIN.Prefix(), None);
    var end := TextHelper.FindEndPosition(lineText, position);
    return Some(VersionCache.ToCompletionList(versions, Range(start, end)));
  }
}
