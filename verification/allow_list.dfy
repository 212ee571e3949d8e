/**
 * The user and group allow-lists: sorted slices of names, queried by binary search.
 * An empty user allow-list restricts nobody; an empty group allow-list grants
 * nobody anything (see `Authorizer.Resolve`).
 */
module AllowList {
  import opened StringOrder

  /** What the user allow-list means: empty lets every name through, otherwise the name must be listed. */
  predicate Permits(list: seq<string>, name: string)
  {
    |list| == 0 || name in list
  }

  /**
   * `sort.SearchStrings(list, name)`: the smallest index whose entry is not below `name`,
   * or `|list|` when there is none. The loop is `sort.Search` on `list[h] >= name`.
   */
  method SearchStrings(list: seq<string>, name: string) returns (i: nat)
    requires Sorted(list)
    ensures i <= |list|
    ensures forall k :: 0 <= k < i ==> Less(list[k], name)
    ensures forall k :: i <= k < |list| ==> !Less(list[k], name)
  {
    var lo, hi := 0, |list|;
    while lo < hi
      invariant 0 <= lo <= hi <= |list|
      invariant forall k :: 0 <= k < lo ==> Less(list[k], name)
      invariant forall k :: hi <= k < |list| ==> !Less(list[k], name)
      decreases hi - lo
    {
      var mid := (lo + hi) / 2;
      if Less(list[mid], name) {
        forall k | lo <= k < mid
          ensures Less(list[k], name)
        {
          AtMostThenLess(list[k], list[mid], name);
        }
        lo := mid + 1;
      } else {
        forall k | mid < k < hi
          ensures !Less(list[k], name)
        {
          AtLeastTransitive(list[k], list[mid], name);
        }
        hi := mid;
      }
    }
    i := lo;
  }

  /** A listed name is exactly where the search lands, whatever duplicates the list holds. */
  lemma SearchFindsListed(list: seq<string>, name: string, i: nat)
    requires Sorted(list)
    requires i <= |list|
    requires forall k :: 0 <= k < i ==> Less(list[k], name)
    requires forall k :: i <= k < |list| ==> !Less(list[k], name)
    requires name in list
    ensures i < |list| && list[i] == name
  {
    var k :| 0 <= k < |list| && list[k] == name;
    LessIrreflexive(name);
    assert i <= k;
    if list[i] != name {
      LessTotal(list[i], name);
    }
  }

  /**
   * The membership test `i < len(list) && list[i] == name` after the search: true exactly
   * when the name occurs in the list.
   */
  method Contains(list: seq<string>, name: string) returns (found: bool)
    requires Sorted(list)
    ensures found <==> name in list
  {
    var i := SearchStrings(list, name);
    found := i < |list| && list[i] == name;
    if name in list {
      SearchFindsListed(list, name, i);
    }
  }
}
