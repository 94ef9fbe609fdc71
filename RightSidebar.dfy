/**
 * The tag cloud of the right sidebar (frontend/src/components/RightSidebar.jsx):
 * the tags kept after a fetch, the order-independent signature of the tag
 * list, the repeated items one per post (capped at 50 per tag) with their
 * unique keys, and the cache of laid-out positions that a list with the
 * same signature reuses.
 */
module RightSidebar {
  import opened Common

  /** A tag as the tags endpoint returns it; the post count may be absent. */
  datatype Tag = Tag(id: int, name: string, postCount: Option<int>)

  /** `tag.postCount > 0`; an absent count compares false. */
  predicate Counted(t: Tag)
  {
    t.postCount.Some? && t.postCount.value > 0
  }

  /** `tag.postCount || fallback`: an absent or zero count gives the fallback. */
  function PostCountOr(t: Tag, fallback: int): (n: int)
    ensures Counted(t) ==> n == t.postCount.value
    ensures t.postCount.None? || t.postCount.value == 0 ==> n == fallback
  {
    if t.postCount.Some? && t.postCount.value != 0 then t.postCount.value else fallback
  }

  // ---------------------------------------------------------------------
  // The tags kept after a fetch

  /** `tags.filter(tag => tag.postCount > 0)` */
  function KeepCounted(tags: seq<Tag>): (r: seq<Tag>)
    ensures |r| <= |tags|
    ensures forall i :: 0 <= i < |r| ==> Counted(r[i])
  {
    if tags == [] then []
    else if Counted(tags[0]) then [tags[0]] + KeepCounted(tags[1..])
    else KeepCounted(tags[1..])
  }

  /** The filter keeps exactly the tags with a positive post count. */
  lemma {:induction false} KeepCountedMembers(tags: seq<Tag>)
    ensures forall t :: t in KeepCounted(tags) <==> t in tags && Counted(t)
  {
    if tags != [] {
      KeepCountedMembers(tags[1..]);
      assert tags == [tags[0]] + tags[1..];
    }
  }

  /** A list whose tags all have posts passes the filter unchanged. */
  lemma {:induction false} KeepCountedAllCounted(tags: seq<Tag>)
    requires forall i :: 0 <= i < |tags| ==> Counted(tags[i])
    ensures KeepCounted(tags) == tags
  {
    if tags != [] {
      KeepCountedAllCounted(tags[1..]);
      assert tags == [tags[0]] + tags[1..];
    }
  }

  /** The filter keeps the order: filtering a concatenation filters each part. */
  lemma {:induction false} KeepCountedKeepsOrder(a: seq<Tag>, b: seq<Tag>)
    ensures KeepCounted(a + b) == KeepCounted(a) + KeepCounted(b)
  {
    if a != [] {
      var head := if Counted(a[0]) then [a[0]] else [];
      calc {
        KeepCounted(a + b);
        { assert a + b == [a[0]] + (a[1..] + b); }
        KeepCounted([a[0]] + (a[1..] + b));
        { KeepCountedCons(a[0], a[1..] + b); }
        head + KeepCounted(a[1..] + b);
        { KeepCountedKeepsOrder(a[1..], b); }
        head + (KeepCounted(a[1..]) + KeepCounted(b));
        (head + KeepCounted(a[1..])) + KeepCounted(b);
        { KeepCountedCons(a[0], a[1..]); assert [a[0]] + a[1..] == a; }
        KeepCounted(a) + KeepCounted(b);
      }
    } else {
      assert a + b == b;
    }
  }

  lemma KeepCountedCons(t: Tag, rest: seq<Tag>)
    ensures KeepCounted([t] + rest) == (if Counted(t) then [t] else []) + KeepCounted(rest)
  {
    assert ([t] + rest)[1..] == rest;
  }

  /** fetchData: the new tag list, or None when it stays as it was. The mock
      source and the API are filtered alike; when the API fails the bundled
      mock tags are used, filtered the same way; a failing mock source leaves
      the list alone. */
  function FetchedTags(useMock: bool, response: Option<seq<Tag>>, mockTags: seq<Tag>)
    : (r: Option<seq<Tag>>)
    ensures r.None? <==> useMock && response.None?
    ensures response.Some? ==> r == Some(KeepCounted(response.value))
    ensures !useMock && response.None? ==> r == Some(KeepCounted(mockTags))
    ensures r.Some? ==> forall i :: 0 <= i < |r.value| ==> Counted(r.value[i])
  {
    match response
    case Some(data) => Some(KeepCounted(data))
    case None => if useMock then None else Some(KeepCounted(mockTags))
  }

  // ---------------------------------------------------------------------
  // tagsSignature

  /** The order of Array.prototype.sort without a comparator on strings of
      code units below U+10000 (the keys here are ASCII). */
  predicate LessEq(a: string, b: string)
  {
    a == [] || (b != [] && (a[0] < b[0] || (a[0] == b[0] && LessEq(a[1..], b[1..]))))
  }

  lemma LessEqReflexive(a: string)
    ensures LessEq(a, a)
  {
  }

  lemma LessEqTotal(a: string, b: string)
    ensures LessEq(a, b) || LessEq(b, a)
  {
  }

  lemma LessEqAntisymmetric(a: string, b: string)
    requires LessEq(a, b) && LessEq(b, a)
    ensures a == b
  {
  }

  lemma LessEqTransitive(a: string, b: string, c: string)
    requires LessEq(a, b) && LessEq(b, c)
    ensures LessEq(a, c)
  {
  }

  predicate Sorted(s: seq<string>)
  {
    forall i, j :: 0 <= i < j < |s| ==> LessEq(s[i], s[j])
  }

  /** Puts `x` into its place in a sorted list. */
  function Insert(x: string, s: seq<string>): (r: seq<string>)
    requires Sorted(s)
    ensures Sorted(r)
    ensures multiset(r) == multiset(s) + multiset{x}
  {
    if s == [] then [x]
    else if LessEq(x, s[0]) then
      SortedHeadLeast(s, s[0], x);
      ConsSorted(x, s);
      [x] + s
    else
      var rest := Insert(x, s[1..]);
      LessEqTotal(x, s[0]);
      LowerBoundOfInsert(s, x, rest);
      ConsSorted(s[0], rest);
      assert s == [s[0]] + s[1..];
      [s[0]] + rest
  }

  /** In a sorted list every element is at least the first, so a value at
      most the first is at most every element. */
  lemma SortedHeadLeast(s: seq<string>, y: string, x: string)
    requires Sorted(s) && s != [] && y == s[0] && LessEq(x, y)
    ensures forall j :: 0 <= j < |s| ==> LessEq(x, s[j])
  {
    forall j | 0 <= j < |s| ensures LessEq(x, s[j]) {
      if j > 0 { LessEqTransitive(x, s[0], s[j]); }
    }
  }

  /** The first element of a sorted list is at most every element of the
      result of inserting into the rest a value above it. */
  lemma LowerBoundOfInsert(s: seq<string>, x: string, rest: seq<string>)
    requires Sorted(s) && s != [] && LessEq(s[0], x)
    requires multiset(rest) == multiset(s[1..]) + multiset{x}
    ensures forall j :: 0 <= j < |rest| ==> LessEq(s[0], rest[j])
  {
    forall j | 0 <= j < |rest| ensures LessEq(s[0], rest[j]) {
      assert rest[j] in multiset(rest);
      if rest[j] != x {
        assert rest[j] in multiset(s[1..]);
        var k :| 0 <= k < |s[1..]| && s[1..][k] == rest[j];
        assert s[k + 1] == rest[j];
      }
    }
  }

  /** A value at most every element of a sorted list can go in front. */
  lemma ConsSorted(y: string, s: seq<string>)
    requires Sorted(s)
    requires forall j :: 0 <= j < |s| ==> LessEq(y, s[j])
    ensures Sorted([y] + s)
  {
    var t := [y] + s;
    forall i, j | 0 <= i < j < |t| ensures LessEq(t[i], t[j]) {
      if i > 0 {
        assert t[i] == s[i - 1] && t[j] == s[j - 1];
      }
    }
  }

  /** `.sort()` */
  function Sort(s: seq<string>): (r: seq<string>)
    ensures Sorted(r)
    ensures multiset(r) == multiset(s)
  {
    if s == [] then []
    else
      assert s == [s[0]] + s[1..];
      Insert(s[0], Sort(s[1..]))
  }

  /** The first element of a sorted list is at most any of its elements. */
  lemma SortedFirstLeast(a: seq<string>, x: string)
    requires Sorted(a) && x in multiset(a)
    ensures a != [] && LessEq(a[0], x)
  {
    var k :| 0 <= k < |a| && a[k] == x;
    if k == 0 { LessEqReflexive(x); }
  }

  /** Two sorted lists with the same elements are the same list. */
  lemma {:induction false} SortedUnique(a: seq<string>, b: seq<string>)
    requires Sorted(a) && Sorted(b) && multiset(a) == multiset(b)
    ensures a == b
    decreases |a|
  {
    if a == [] {
      assert |b| == |multiset(b)| == 0;
    } else {
      assert b != [] && a[0] == b[0] by {
        assert a[0] in multiset(a);
        SortedFirstLeast(b, a[0]);
        SortedFirstLeast(a, b[0]);
        LessEqAntisymmetric(a[0], b[0]);
      }
      assert multiset(a[1..]) == multiset(b[1..]) by {
        RemoveMatching(a, b, 0);
        assert b[..0] + b[1..] == b[1..];
      }
      SortedTail(a);
      SortedTail(b);
      SortedUnique(a[1..], b[1..]);
      assert a == [a[0]] + a[1..] && b == [b[0]] + b[1..];
    }
  }

  lemma SortedTail(s: seq<string>)
    requires Sorted(s) && s != []
    ensures Sorted(s[1..])
  {
    forall i, j | 0 <= i < j < |s| - 1 ensures LessEq(s[1..][i], s[1..][j]) {
      assert s[1..][i] == s[i + 1] && s[1..][j] == s[j + 1];
    }
  }

  /** `${tag.id}-${tag.postCount || 0}` */
  function SignatureKey(t: Tag): string
  {
    IntToString(t.id) + "-" + IntToString(PostCountOr(t, 0))
  }

  /** `tags.map(tag => `${tag.id}-${tag.postCount || 0}`)` */
  function Keys(tags: seq<Tag>): (r: seq<string>)
    ensures |r| == |tags|
  {
    if tags == [] then [] else [SignatureKey(tags[0])] + Keys(tags[1..])
  }

  lemma {:induction false} KeysConcat(x: seq<Tag>, y: seq<Tag>)
    ensures Keys(x + y) == Keys(x) + Keys(y)
  {
    if x == [] {
      assert x + y == y;
    } else {
      assert (x + y)[1..] == x[1..] + y;
      KeysConcat(x[1..], y);
    }
  }

  /** Taking the first element off one list and its copy at `j` off another
      list with the same elements leaves lists with the same elements. */
  lemma RemoveMatching<T>(a: seq<T>, b: seq<T>, j: int)
    requires multiset(a) == multiset(b) && a != [] && 0 <= j < |b| && b[j] == a[0]
    ensures multiset(a[1..]) == multiset(b[..j] + b[j + 1..])
  {
    var b' := b[..j] + b[j + 1..];
    assert b == b[..j] + [b[j]] + b[j + 1..];
    assert a == [a[0]] + a[1..];
    assert multiset(b) == multiset(b[..j]) + multiset{a[0]} + multiset(b[j + 1..]);
    assert multiset(b') == multiset(b[..j]) + multiset(b[j + 1..]);
    assert multiset(a) == multiset{a[0]} + multiset(a[1..]);
    forall x ensures multiset(a[1..])[x] == multiset(b')[x] {
      assert multiset(a)[x] == multiset{a[0]}[x] + multiset(a[1..])[x];
      assert multiset(b)[x] == multiset{a[0]}[x] + multiset(b')[x];
    }
  }

  lemma SplitAt<T>(s: seq<T>, j: int)
    requires 0 <= j < |s|
    ensures s == s[..j] + ([s[j]] + s[j + 1..])
  {
  }

  lemma Shuffle<T>(k: seq<T>, r: seq<T>, p: seq<T>, q: seq<T>)
    requires multiset(r) == multiset(p + q)
    ensures multiset(k + r) == multiset(p + (k + q))
  {
  }

  /** Tag lists with the same elements have key lists with the same elements. */
  lemma {:induction false} KeysPermutation(a: seq<Tag>, b: seq<Tag>)
    requires multiset(a) == multiset(b)
    ensures multiset(Keys(a)) == multiset(Keys(b))
    decreases |a|
  {
    if a == [] {
      assert |b| == |multiset(b)| == 0;
    } else {
      assert a[0] in multiset(b);
      var j :| 0 <= j < |b| && b[j] == a[0];
      var b' := b[..j] + b[j + 1..];
      RemoveMatching(a, b, j);
      KeysPermutation(a[1..], b');
      var k := Keys([a[0]]);
      var p, q := Keys(b[..j]), Keys(b[j + 1..]);
      assert a == [a[0]] + a[1..];
      KeysConcat([a[0]], a[1..]);
      SplitAt(b, j);
      KeysConcat(b[..j], [b[j]] + b[j + 1..]);
      KeysConcat([b[j]], b[j + 1..]);
      KeysConcat(b[..j], b[j + 1..]);
      assert [b[j]] == [a[0]];
      assert Keys(a) == k + Keys(a[1..]);
      assert Keys(b) == p + (k + q);
      assert Keys(b') == p + q;
      Shuffle(k, Keys(a[1..]), p, q);
    }
  }

  /** tagsSignature: '' for no tags, otherwise the sorted keys joined by '|'. */
  function Signature(tags: seq<Tag>): (r: string)
    ensures tags == [] ==> r == ""
  {
    if tags == [] then "" else Join(Sort(Keys(tags)), "|")
  }

  /** The signature does not depend on the order of the tags. */
  lemma SignaturePermutation(a: seq<Tag>, b: seq<Tag>)
    requires multiset(a) == multiset(b)
    ensures Signature(a) == Signature(b)
  {
    if a != [] {
      assert |b| == |multiset(b)| == |multiset(a)| == |a|;
      KeysPermutation(a, b);
      SortedUnique(Sort(Keys(a)), Sort(Keys(b)));
    } else {
      assert |b| == |multiset(b)| == 0;
    }
  }

  /** Only the empty list has the empty signature, so a cleared cache never
      matches a non-empty list. */
  lemma SignatureEmptyOnlyForNoTags(tags: seq<Tag>)
    ensures Signature(tags) == "" <==> tags == []
  {
    if tags != [] {
      var sorted := Sort(Keys(tags));
      assert |sorted| == |multiset(sorted)| == |tags|;
      assert sorted[0] in multiset(Keys(tags));
      JoinKeepsFirst(sorted, "|");
    }
  }

  lemma JoinKeepsFirst(parts: seq<string>, sep: string)
    requires parts != []
    ensures |Join(parts, sep)| >= |parts[0]|
  {
  }

  // ---------------------------------------------------------------------
  // generateTagItems

  /** A tag repeated in the cloud: the tag's fields and `uniqueId`. */
  datatype TagItem = TagItem(tag: Tag, uniqueId: string)

  /** `Math.min(Math.max(tag.postCount || 1, 1), 50)` */
  function RepeatCount(t: Tag): (n: nat)
    ensures 1 <= n <= 50
    ensures Counted(t) && t.postCount.value <= 50 ==> n == t.postCount.value
    ensures Counted(t) && t.postCount.value > 50 ==> n == 50
    ensures !Counted(t) ==> n == 1
  {
    var count := PostCountOr(t, 1);
    var count := if count >= 1 then count else 1;
    if count < 50 then count else 50
  }

  /** `${tag.id}-${i}` */
  function UniqueId(id: int, i: nat): string
  {
    IntToString(id) + "-" + NatToString(i)
  }

  /** The copies of one tag, numbered from 0. */
  function Copies(t: Tag): (r: seq<TagItem>)
    ensures 1 <= |r| <= 50 && |r| == RepeatCount(t)
    ensures forall i :: 0 <= i < |r| ==> r[i].tag == t && r[i].uniqueId == UniqueId(t.id, i)
  {
    seq(RepeatCount(t), i requires 0 <= i < RepeatCount(t) => TagItem(t, UniqueId(t.id, i)))
  }

  /** The items of the cloud: the copies of each tag, tag after tag. */
  function Items(tags: seq<Tag>): seq<TagItem>
  {
    if tags == [] then [] else Copies(tags[0]) + Items(tags[1..])
  }

  lemma {:induction false} ItemsSnoc(tags: seq<Tag>, t: Tag)
    ensures Items(tags + [t]) == Items(tags) + Copies(t)
  {
    if tags == [] {
      assert [t][1..] == [];
    } else {
      assert (tags + [t])[1..] == tags[1..] + [t];
      ItemsSnoc(tags[1..], t);
    }
  }

  /** generateTagItems: for each tag in turn, push its copies. */
  method GenerateTagItems(tags: seq<Tag>) returns (items: seq<TagItem>)
    ensures items == Items(tags)
  {
    items := [];
    for k := 0 to |tags|
      invariant items == Items(tags[..k])
    {
      items := PushCopies(items, tags[k]);
      ItemsStep(tags, k);
    }
    assert tags[..|tags|] == tags;
  }

  /** The inner loop of generateTagItems: the repeat count of the tag, then
      one item per copy number from 0. */
  method PushCopies(items: seq<TagItem>, tag: Tag) returns (r: seq<TagItem>)
    ensures r == items + Copies(tag)
  {
    var repeatCount := RepeatCount(tag);
    ghost var copies := Copies(tag);
    assert |copies| == repeatCount;
    r := items;
    for i := 0 to repeatCount
      invariant r == items + copies[..i]
    {
      assert copies[..i + 1] == copies[..i] + [TagItem(tag, UniqueId(tag.id, i))];
      r := r + [TagItem(tag, UniqueId(tag.id, i))];
    }
    assert copies[..repeatCount] == copies;
  }

  lemma ItemsStep(tags: seq<Tag>, k: int)
    requires 0 <= k < |tags|
    ensures Items(tags[..k + 1]) == Items(tags[..k]) + Copies(tags[k])
  {
    ItemsSnoc(tags[..k], tags[k]);
    assert tags[..k + 1] == tags[..k] + [tags[k]];
  }

  /** Every tag contributes between 1 and 50 items, so the cloud has at least
      as many items as tags and at most 50 times as many. */
  lemma {:induction false} ItemsCount(tags: seq<Tag>)
    ensures |tags| <= |Items(tags)| <= 50 * |tags|
  {
    if tags != [] {
      ItemsCount(tags[1..]);
    }
  }

  /** Different (id, copy) pairs give different keys. */
  lemma UniqueIdInjective(id1: int, i1: nat, id2: int, i2: nat)
    requires UniqueId(id1, i1) == UniqueId(id2, i2)
    ensures id1 == id2 && i1 == i2
  {
    var a, b, c, d := IntToString(id1), NatToString(i1), IntToString(id2), NatToString(i2);
    assert '-' !in b && '-' !in d;
    AfterLastOf(a, '-', b);
    AfterLastOf(c, '-', d);
    NatToStringInjective(i1, i2);
    CutPrefix(a + "-", b, c + "-", d);
    CutPrefix(a, "-", c, "-");
    IntToStringInjective(id1, id2);
  }

  /** Some copy number of the item's own tag gives its key. */
  ghost predicate NumberedCopy(item: TagItem)
  {
    exists i: nat :: item.uniqueId == UniqueId(item.tag.id, i)
  }

  lemma {:induction false} ItemsFromTags(tags: seq<Tag>)
    ensures forall j :: 0 <= j < |Items(tags)| ==> Items(tags)[j].tag in tags && NumberedCopy(Items(tags)[j])
  {
    if tags != [] {
      var c, r := Copies(tags[0]), Items(tags[1..]);
      var items: seq<TagItem> := c + r;
      ItemsFromTags(tags[1..]);
      forall j | 0 <= j < |items| ensures items[j].tag in tags && NumberedCopy(items[j]) {
        if j < |c| {
          assert c[j].uniqueId == UniqueId(tags[0].id, j);
        } else {
          assert items[j] == r[j - |c|];
        }
      }
    }
  }

  /** With distinct tag ids every item of the cloud has its own key. */
  lemma {:induction false} ItemsDistinct(tags: seq<Tag>)
    requires forall p, q :: 0 <= p < q < |tags| ==> tags[p].id != tags[q].id
    ensures forall p, q :: 0 <= p < q < |Items(tags)| ==> Items(tags)[p].uniqueId != Items(tags)[q].uniqueId
  {
    if tags != [] {
      var c, r := Copies(tags[0]), Items(tags[1..]);
      ItemsDistinct(tags[1..]);
      ItemsFromTags(tags[1..]);
      var items := Items(tags);
      assert items == c + r;
      forall p, q | 0 <= p < q < |items| ensures items[p].uniqueId != items[q].uniqueId {
        if q < |c| {
          if c[p].uniqueId == c[q].uniqueId {
            UniqueIdInjective(tags[0].id, p, tags[0].id, q);
          }
        } else if p < |c| {
          var other := r[q - |c|];
          assert other.tag in tags[1..];
          var m :| 0 <= m < |tags[1..]| && tags[1..][m] == other.tag;
          assert tags[m + 1].id != tags[0].id;
          var i: nat :| other.uniqueId == UniqueId(other.tag.id, i);
          if c[p].uniqueId == other.uniqueId {
            UniqueIdInjective(tags[0].id, p, other.tag.id, i);
          }
        } else {
          assert items[p] == r[p - |c|] && items[q] == r[q - |c|];
        }
      }
    }
  }

  // ---------------------------------------------------------------------
  // tagPositions and its cache

  /** A laid-out position (pixels). */
  datatype Position = Position(x: real, y: real)

  /** The two refs the component keeps across renders: the signature the
      positions were laid out for, the positions, and the items they belong
      to. */
  class TagCloud {
    var signature: string
    var positions: seq<Position>
    var cachedItems: seq<TagItem>

    constructor ()
      ensures signature == "" && positions == [] && cachedItems == []
    {
      signature, positions, cachedItems := "", [], [];
    }

    /** tagPositions: no tags clears both caches; a list whose signature
        matches cached non-empty positions gets them back untouched; any
        other list is laid out afresh (`layout` stands for the random
        placement) and the caches remember it. */
    method TagPositions(tags: seq<Tag>, layout: seq<TagItem> -> seq<Position>) returns (result: seq<Position>)
      modifies this
      ensures tags == [] ==> result == [] && signature == "" && positions == [] && cachedItems == []
      ensures tags != [] && old(signature) == Signature(tags) && old(positions) != [] ==>
        result == old(positions) && unchanged(this)
      ensures tags != [] && !(old(signature) == Signature(tags) && old(positions) != []) ==>
        && result == layout(Items(tags))
        && signature == Signature(tags) && positions == result && cachedItems == Items(tags)
    {
      if |tags| == 0 {
        signature, positions, cachedItems := "", [], [];
        return [];
      }
      var tagsSignature := Signature(tags);
      if signature == tagsSignature && |positions| > 0 {
        return positions;
      }
      var items := GenerateTagItems(tags);
      result := layout(items);
      signature, positions, cachedItems := tagsSignature, result, items;
    }

    /** The items rendered: the cached ones when there are any. */
    function DisplayedItems(generated: seq<TagItem>): (r: seq<TagItem>)
      reads this
      ensures cachedItems != [] ==> r == cachedItems
      ensures cachedItems == [] ==> r == generated
    {
      if |cachedItems| > 0 then cachedItems else generated
    }
  }
}
