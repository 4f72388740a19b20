/** The module-level state the Groovy and Kotlin version completers keep: the last list of
    versions fetched and the time it was fetched, refreshed when unset or an hour old; and
    the completion list both build from it. */
module VersionCache {
  import opened Wrappers
  import opened Text
  import opened Editor
  import Versions
  import Sorting

  /** One hour in milliseconds. */
  const UPDATE_PERIOD: int := 60 * 60 * 1000

  /** `itsBeenAWhile()` at time `now`: never updated, or updated more than an hour ago. */
  predicate ItsBeenAWhile(lastUpdate: int, now: int) {
    lastUpdate == 0 || now - lastUpdate > UPDATE_PERIOD
  }

  /** A stamp taken at a nonzero time stays fresh for exactly one hour. */
  lemma FreshForAnHour(lastUpdate: int, now: int)
    requires lastUpdate != 0
    ensures !ItsBeenAWhile(lastUpdate, now) <==> now <= lastUpdate + 3600000
  {
  }

  /** `VERSIONS` and `lastUpdate`; `versions` is `None` until the first fetch. */
  class Cache {
    var versions: Option<seq<string>>
    var lastUpdate: int

    /** The state at load time. */
    constructor()
      ensures versions.None? && lastUpdate == 0
    {
      versions := None;
      lastUpdate := 0;
    }

    /** `!VERSIONS || itsBeenAWhile()`: an empty list is set, so only a missing one counts. */
    predicate NeedsRefresh(now: int)
      reads this
    {
      versions.None? || ItsBeenAWhile(lastUpdate, now)
    }

    /** `VERSIONS = fetched; lastUpdate = now`. */
    method Store(fetched: seq<string>, now: int)
      modifies this
      ensures versions == Some(fetched) && lastUpdate == now
      ensures now != 0 ==> !NeedsRefresh(now)
    {
      versions := Some(fetched);
      lastUpdate := now;
    }
  }

  /** `versions.sort(compareVersionsDesc)`, done in place on an array of the versions. */
  method SortVersionsDesc(versions: seq<string>) returns (r: seq<string>)
    ensures r == Sorting.Sort(versions, Versions.CompareVersionsDesc)
  {
    var a := new string[|versions|](i requires 0 <= i < |versions| => versions[i]);
    assert a[..] == versions;
    Sorting.SortInPlace(a, Versions.CompareVersionsDesc);
    r := a[..];
  }

  /** `${index}`.padStart(4, "0") */
  function ShortSortText(index: nat): (r: string)
    ensures |r| == (if |NatToString(index)| < 4 then 4 else |NatToString(index)|)
    ensures EndsWith(r, NatToString(index))
    ensures forall k :: 0 <= k < |r| - |NatToString(index)| ==> r[k] == '0'
  {
    var t := NatToString(index);
    var r := PadStart(t, 4, '0');
    assert r[|r| - |t|..] == t;
    r
  }

  /** The item for the version at `index`: label and insert text are the version. */
  function VersionItem(v: string, index: nat, range: Range): (r: CompletionItem)
    ensures r.labelText == v && r.insertText == Some(Plain(v)) && r.kind == ValueItem
    ensures r.range == Some(range) && r.sortText == Some(ShortSortText(index))
  {
    CompletionItem(v, ValueItem, Some(Plain(v)), None, Some(range), None, Some(ShortSortText(index)), None)
  }

  /** `toCompletionList(range)`: `VERSIONS.map(...)` into a complete list. */
  function ToCompletionList(versions: seq<string>, range: Range): (r: CompletionList)
    ensures |r.items| == |versions| && !r.isIncomplete
    ensures forall i :: 0 <= i < |versions| ==> r.items[i].labelText == versions[i]
    ensures versions == [] ==> r == EmptyList()
  {
    CompletionList(seq(|versions|, i requires 0 <= i < |versions| => VersionItem(versions[i], i, range)), false)
  }

  /** Below ten thousand versions, the items sort as text in list order. */
  lemma ItemsKeepOrder(versions: seq<string>, range: Range, i: nat, j: nat)
    requires i < |versions| && j < |versions| && |versions| <= 10000
    ensures var items := ToCompletionList(versions, range).items;
      i < j <==> Less(items[i].sortText.value, items[j].sortText.value)
  {
    assert Pow10(4) == 10000;
    PaddedIndexOrder(i, j, 4);
  }

  /** From the ten-thousandth version on, the padding no longer keeps list order: item 10000
      sorts before item 9999. */
  lemma OrderLostPastTenThousand(versions: seq<string>, range: Range)
    requires |versions| > 10000
    ensures var items := ToCompletionList(versions, range).items;
      Less(items[10000].sortText.value, items[9999].sortText.value)
  {
    var items := ToCompletionList(versions, range).items;
    assert items[10000].sortText.value == ShortSortText(10000);
    assert items[9999].sortText.value == ShortSortText(9999);
    SortTextsCross();
  }

  lemma SortTextsCross()
    ensures Less(ShortSortText(10000), ShortSortText(9999))
  {
    var a := NatToString(10000);
    var b := NatToString(9999);
    assert a[0] == '1' by {
      LeadingDigit(10000);
      LeadingDigit(1000);
      LeadingDigit(100);
      LeadingDigit(10);
    }
    assert b[0] == '9' by {
      LeadingDigit(9999);
      LeadingDigit(999);
      LeadingDigit(99);
    }
    assert |a| >= 4 && |b| >= 4 by {
      LongEnough(10000);
      LongEnough(9999);
    }
  }

  /** The leading digit of `${n}` is that of `${n / 10}`. */
  lemma LeadingDigit(n: nat)
    requires n >= 10
    ensures NatToString(n)[0] == NatToString(n / 10)[0]
  {
  }

  /** Numbers from 1000 on print with at least four digits. */
  lemma LongEnough(n: nat)
    requires n >= 1000
    ensures |NatToString(n)| >= 4
  {
    var a := n / 10;
    var b := a / 10;
    OneMoreDigit(n);
    OneMoreDigit(a);
    OneMoreDigit(b);
  }

  lemma OneMoreDigit(n: nat)
    requires n >= 10
    ensures |NatToString(n)| == |NatToString(n / 10)| + 1
  {
  }

  /** Sorted version lists name every version before the older ones. */
  lemma SortedNewestFirst(versions: seq<string>)
    requires Versions.NoCaseTwins(multiset(versions))
    ensures var r := Sorting.Sort(versions, Versions.CompareVersionsDesc);
      multiset(r) == multiset(versions)
      && forall i, j :: 0 <= i < j < |r| ==> Versions.CompareVersions(r[j], r[i]) <= 0
  {
    Versions.SortDescNewestFirst(versions);
  }
}
