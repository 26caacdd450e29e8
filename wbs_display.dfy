/** The simplified WBS view (`displayWBSAsHTML`): the records are bucketed by
    parent id, then the buckets are walked depth-first from the `'root'`
    bucket, each record being shown at its depth with a colour for its status.
    The model keeps the sequence of visits and their derived values, not the
    HTML text. */
module WbsDisplay {
  import opened JsValues
  import opened WbsTree

  // ---------------------------------------------------------------------------
  // Keys and buckets
  // ---------------------------------------------------------------------------

  /** The bucket a record is filed under: `item.parent || 'root'`, as a
      property key. */
  function GroupKey(item: WbsItem): (k: string)
    ensures !Truthy(item.parent) ==> k == "root"
    ensures Truthy(item.parent) ==> k == ToKey(item.parent)
  {
    ToKey(Or(item.parent, Str("root")))
  }

  /** The bucket that holds a record's children: its own id as a property key. */
  function ChildKey(item: WbsItem): (k: string)
    ensures item.id.Str? ==> k == item.id.s
  {
    ToKey(item.id)
  }

  /** The records filed under `key`, in the order they occur in `items`. */
  function Bucket(items: seq<WbsItem>, key: string): (b: seq<WbsItem>)
    ensures |b| <= |items|
    ensures forall x :: x in b ==> x in items && GroupKey(x) == key
  {
    if items == [] then []
    else
      var last := items[|items| - 1];
      Bucket(items[..|items| - 1], key) + (if GroupKey(last) == key then [last] else [])
  }

  /** What `groupedData` holds once the grouping loop is done: a bucket exists
      exactly for the keys some record is filed under, and holds those records. */
  ghost predicate Grouped(groups: map<string, seq<WbsItem>>, items: seq<WbsItem>) {
    && (forall k :: k in groups <==> Bucket(items, k) != [])
    && (forall k :: k in groups ==> groups[k] == Bucket(items, k))
  }

  /** The grouping loop (`wbsData.forEach(...)`): a bucket is created on first
      use and each record is pushed onto the bucket of its parent. */
  method GroupByParent(items: seq<WbsItem>) returns (groups: map<string, seq<WbsItem>>)
    ensures Grouped(groups, items)
  {
    groups := map[];
    assert items[..0] == [];
    var i := 0;
    while i < |items|
      invariant 0 <= i <= |items|
      invariant Grouped(groups, items[..i])
    {
      var item := items[i];
      var key := GroupKey(item);
      GroupStep(groups, items, i);
      // a missing bucket starts out empty; the record is pushed onto it
      var bucket := if key in groups then groups[key] else [];
      groups := groups[key := bucket + [item]];
      i := i + 1;
    }
    assert items[..i] == items;
  }

  /** Pushing one more record onto the bucket of its key keeps `groups` in
      step with the buckets of the records seen so far. */
  lemma GroupStep(groups: map<string, seq<WbsItem>>, items: seq<WbsItem>, i: nat)
    requires i < |items| && Grouped(groups, items[..i])
    ensures var key := GroupKey(items[i]);
            Grouped(groups[key := (if key in groups then groups[key] else []) + [items[i]]], items[..i + 1])
  {
    var s := items[..i + 1];
    assert s[..|s| - 1] == items[..i] && s[|s| - 1] == items[i];
  }

  /** Filing distributes over concatenation: a bucket of `a + b` is the bucket
      of `a` followed by the bucket of `b`, so input order is kept. */
  lemma {:induction false} BucketAppend(a: seq<WbsItem>, b: seq<WbsItem>, key: string)
    ensures Bucket(a + b, key) == Bucket(a, key) + Bucket(b, key)
  {
    if b != [] {
      var ab := a + b;
      assert ab[..|ab| - 1] == a + b[..|b| - 1];
      BucketAppend(a, b[..|b| - 1], key);
    } else {
      assert a + b == a;
    }
  }

  /** Every record is in the bucket of its own key, as often as it occurs in
      the input, and in no other bucket. */
  lemma {:induction false} BucketPartition(items: seq<WbsItem>, x: WbsItem, key: string)
    ensures multiset(Bucket(items, GroupKey(x)))[x] == multiset(items)[x]
    ensures key != GroupKey(x) ==> x !in Bucket(items, key)
  {
    if items != [] {
      var init := items[..|items| - 1];
      BucketPartition(init, x, key);
      assert items == init + [items[|items| - 1]];
    }
  }

  /** A record filed under `key` is in that bucket. */
  lemma BucketComplete(items: seq<WbsItem>, x: WbsItem)
    requires x in items
    ensures x in Bucket(items, GroupKey(x))
  {
    BucketPartition(items, x, GroupKey(x));
    assert multiset(items)[x] > 0;
  }

  /** The buckets for the keys `ks`, one after the other. */
  function Buckets(items: seq<WbsItem>, ks: seq<string>): seq<WbsItem> {
    if ks == [] then [] else Bucket(items, ks[0]) + Buckets(items, ks[1..])
  }

  lemma {:induction false} BucketsCount(items: seq<WbsItem>, ks: seq<string>, x: WbsItem)
    requires forall i, j :: 0 <= i < j < |ks| ==> ks[i] != ks[j]
    ensures multiset(Buckets(items, ks))[x] == if GroupKey(x) in ks then multiset(items)[x] else 0
  {
    if ks != [] {
      BucketsCount(items, ks[1..], x);
      BucketPartition(items, x, ks[0]);
      assert ks == [ks[0]] + ks[1..];
    }
  }

  /** Laid end to end, the buckets of all keys in use are a permutation of
      the input. */
  lemma BucketsPermutation(items: seq<WbsItem>, ks: seq<string>)
    requires forall i, j :: 0 <= i < j < |ks| ==> ks[i] != ks[j]
    requires forall x :: x in items ==> GroupKey(x) in ks
    ensures multiset(Buckets(items, ks)) == multiset(items)
  {
    forall x ensures multiset(Buckets(items, ks))[x] == multiset(items)[x] {
      BucketsCount(items, ks, x);
    }
  }

  // ---------------------------------------------------------------------------
  // The walk's precondition and its ancestor paths
  // ---------------------------------------------------------------------------

  /** No two records have the same id key. */
  predicate KeysDistinct(s: seq<WbsItem>) {
    forall i, j :: 0 <= i < j < |s| ==> ChildKey(s[i]) != ChildKey(s[j])
  }

  /** The walk's precondition: ids are distinct and none of them is `'root'`.
      Without it `renderGroup(item.id, ...)` can re-enter a bucket it is
      already rendering. */
  predicate DistinctIds(items: seq<WbsItem>) {
    && KeysDistinct(items)
    && (forall i :: 0 <= i < |items| ==> ChildKey(items[i]) != "root")
  }

  lemma SameKeySameItem(items: seq<WbsItem>, x: WbsItem, y: WbsItem)
    requires KeysDistinct(items) && x in items && y in items
    requires ChildKey(x) == ChildKey(y)
    ensures x == y
  {
    var i :| 0 <= i < |items| && items[i] == x;
    var j :| 0 <= j < |items| && items[j] == y;
    assert !(i < j) && !(j < i);
  }

  lemma DistinctItemsDistinctKeys(items: seq<WbsItem>, x: WbsItem, y: WbsItem)
    requires KeysDistinct(items) && x in items && y in items && x != y
    ensures ChildKey(x) != ChildKey(y)
  {
    if ChildKey(x) == ChildKey(y) {
      SameKeySameItem(items, x, y);
    }
  }

  lemma NotRootKey(items: seq<WbsItem>, x: WbsItem)
    requires DistinctIds(items) && x in items
    ensures ChildKey(x) != "root"
  {
    var i :| 0 <= i < |items| && items[i] == x;
  }

  /** A chain of records from a top-level one down: the first is filed under
      `'root'`, each next one under the id of the one before. */
  ghost predicate ValidPath(items: seq<WbsItem>, path: seq<WbsItem>)
    decreases |path|
  {
    path == [] ||
    (var init, last := path[..|path| - 1], path[|path| - 1];
     ValidPath(items, init) && last in items && GroupKey(last) == CurKey(init))
  }

  /** The bucket rendered below the end of a path. */
  function CurKey(path: seq<WbsItem>): string {
    if path == [] then "root" else ChildKey(path[|path| - 1])
  }

  /** How many records the walk has not yet entered on the way down `path`:
      the measure that the recursion decreases. */
  ghost function Remaining(items: seq<WbsItem>, path: seq<WbsItem>): nat {
    if items == [] then 0
    else Remaining(items[..|items| - 1], path) + (if items[|items| - 1] in path then 0 else 1)
  }

  lemma {:induction false} RemainingShrinks(items: seq<WbsItem>, path: seq<WbsItem>, b: WbsItem)
    requires b !in path
    ensures Remaining(items, path + [b]) <= Remaining(items, path)
    ensures b in items ==> Remaining(items, path + [b]) < Remaining(items, path)
  {
    if items != [] {
      var init, last := items[..|items| - 1], items[|items| - 1];
      RemainingShrinks(init, path, b);
      assert items == init + [last];
      assert b in items && b != last ==> b in init;
      assert last != b ==> (last in path + [b] <==> last in path);
    }
  }

  /** A prefix of a chain is a chain. */
  lemma {:induction false} ValidPrefix(items: seq<WbsItem>, c: seq<WbsItem>, n: nat)
    requires ValidPath(items, c) && n <= |c|
    ensures ValidPath(items, c[..n])
    decreases |c|
  {
    if n < |c| {
      var init := c[..|c| - 1];
      ValidPrefix(items, init, n);
      assert init[..n] == c[..n];
    } else {
      assert c[..n] == c;
    }
  }

  /** Each record of a chain is filed under the key of the chain before it. */
  lemma {:induction false} PathLink(items: seq<WbsItem>, p: seq<WbsItem>, k: nat)
    requires ValidPath(items, p) && k < |p|
    ensures p[k] in items && GroupKey(p[k]) == CurKey(p[..k])
    ensures k == 0 ==> GroupKey(p[k]) == "root"
    ensures k > 0 ==> GroupKey(p[k]) == ChildKey(p[k - 1])
  {
    ValidPrefix(items, p, k + 1);
    var q := p[..k + 1];
    assert q[..k] == p[..k] && q[k] == p[k];
    assert k > 0 ==> p[..k][k - 1] == p[k - 1];
  }

  /** Under distinct ids, no record occurs twice on a path. */
  lemma {:induction false} PathNoRepeat(items: seq<WbsItem>, p: seq<WbsItem>, j: nat, k: nat)
    requires DistinctIds(items) && ValidPath(items, p)
    requires j < k < |p|
    ensures p[j] != p[k]
  {
    PathLink(items, p, k);
    PathLink(items, p, j);
    PathLink(items, p, k - 1);
    NotRootKey(items, p[k - 1]);
    if j > 0 {
      PathNoRepeat(items, p, j - 1, k - 1);
      PathLink(items, p, j - 1);
      DistinctItemsDistinctKeys(items, p[j - 1], p[k - 1]);
    }
  }

  /** Stepping into a record of the current bucket extends the path and meets
      a record not yet on it. */
  lemma PathExtends(items: seq<WbsItem>, path: seq<WbsItem>, b: WbsItem)
    requires DistinctIds(items) && ValidPath(items, path)
    requires b in items && GroupKey(b) == CurKey(path)
    ensures ValidPath(items, path + [b])
    ensures b !in path
    ensures Remaining(items, path + [b]) < Remaining(items, path)
  {
    var p := path + [b];
    assert p[..|path|] == path;
    if b in path {
      var j :| 0 <= j < |path| && path[j] == b;
      PathNoRepeat(items, p, j, |path|);
      assert false;
    }
    RemainingShrinks(items, path, b);
  }

  /** Under distinct ids, only the first record of a chain is filed under
      `'root'`; any later one is filed under the id of the record before it. */
  lemma PathLast(items: seq<WbsItem>, p: seq<WbsItem>)
    requires DistinctIds(items) && ValidPath(items, p) && p != []
    ensures |p| == 1 <==> GroupKey(p[|p| - 1]) == "root"
    ensures |p| > 1 ==> p[|p| - 2] in items && GroupKey(p[|p| - 1]) == ChildKey(p[|p| - 2])
  {
    PathLink(items, p, |p| - 1);
    if |p| > 1 {
      PathLink(items, p, |p| - 2);
      NotRootKey(items, p[|p| - 2]);
    }
  }

  /** Two chains that end in the same record are the same chain. */
  lemma {:induction false} PathUnique(items: seq<WbsItem>, p1: seq<WbsItem>, p2: seq<WbsItem>)
    requires DistinctIds(items) && ValidPath(items, p1) && ValidPath(items, p2)
    requires p1 != [] && p2 != [] && p1[|p1| - 1] == p2[|p2| - 1]
    ensures p1 == p2
    decreases |p1|
  {
    var n1, n2 := |p1|, |p2|;
    PathLast(items, p1);
    PathLast(items, p2);
    if n1 == 1 {
      assert p1 == [p1[0]] && p2 == [p2[0]];
    } else {
      SameKeySameItem(items, p1[n1 - 2], p2[n2 - 2]);
      var q1, q2 := p1[..n1 - 1], p2[..n2 - 1];
      PathUnique(items, q1, q2);
      assert p1 == q1 + [p1[n1 - 1]] && p2 == q2 + [p2[n2 - 1]];
    }
  }

  // ---------------------------------------------------------------------------
  // Visits and the walk
  // ---------------------------------------------------------------------------

  const Green := "#28a745"
  const Yellow := "#ffc107"
  const Red := "#dc3545"

  /** The left-border colour for a record's status. */
  function StatusColour(status: JsValue): (c: string)
    ensures c == Green <==> status == Str("Done")
    ensures c == Yellow <==> status == Str("In Progress")
    ensures c == Red <==> status != Str("Done") && status != Str("In Progress")
  {
    if status == Str("Done") then Green
    else if status == Str("In Progress") then Yellow
    else Red
  }

  /** One rendered record: its depth, its left margin in pixels, its status
      colour, its title line, the progress figure shown, and whether the
      work-estimate and due-date parts are shown. */
  datatype Visit = Visit(
    item: WbsItem,
    level: nat,
    indent: nat,
    colour: string,
    heading: string,
    progress: JsValue,
    showsWork: bool,
    showsDue: bool)

  /** A record's title line: its WBS number and a dot when it has one, then
      its text. */
  function Heading(item: WbsItem): (h: string)
    ensures !Truthy(item.wbsNumber) ==> h == ToKey(item.text)
    ensures Truthy(item.wbsNumber) ==> h == ToKey(item.wbsNumber) + ". " + ToKey(item.text)
    ensures |ToKey(item.text)| <= |h| && h[|h| - |ToKey(item.text)|..] == ToKey(item.text)
  {
    (if Truthy(item.wbsNumber) then ToKey(item.wbsNumber) + ". " else "") + ToKey(item.text)
  }

  /** How `renderGroup` shows `item` at depth `level`. */
  function VisitAt(item: WbsItem, level: nat): Visit {
    Visit(item, level, level * 20, StatusColour(item.status), Heading(item),
          Or(item.progress, Num(0)), Truthy(item.workEstimate), Truthy(item.dueDate))
  }

  /** A record shown at depth `level` is indented 20 pixels per level, in
      its status colour, under its title line; progress 0 stands in for a
      falsy progress; the work and due parts appear iff those fields are set. */
  lemma VisitAtShows(item: WbsItem, level: nat)
    ensures var v := VisitAt(item, level);
            && v.item == item && v.level == level && v.indent == 20 * level
            && v.colour == StatusColour(item.status) && v.heading == Heading(item)
            && (Truthy(item.progress) ==> v.progress == item.progress)
            && (!Truthy(item.progress) ==> v.progress == Num(0))
            && (v.showsWork <==> Truthy(item.workEstimate))
            && (v.showsDue <==> Truthy(item.dueDate))
  {
  }

  /** The records in `bs` (part of the bucket below `path`), each followed by
      the walk of its own bucket one level deeper. */
  ghost function WalkGroup(items: seq<WbsItem>, bs: seq<WbsItem>, path: seq<WbsItem>): (w: seq<Visit>)
    requires DistinctIds(items) && ValidPath(items, path)
    requires forall b :: b in bs ==> b in items && GroupKey(b) == CurKey(path)
    decreases Remaining(items, path), |bs|
  {
    if bs == [] then []
    else
      var b := bs[0];
      PathExtends(items, path, b);
      [VisitAt(b, |path|)]
        + WalkGroup(items, Bucket(items, ChildKey(b)), path + [b])
        + WalkGroup(items, bs[1..], path)
  }

  /** The whole walk, `renderGroup('root')`. */
  ghost function Walk(items: seq<WbsItem>): (w: seq<Visit>)
    requires DistinctIds(items)
    ensures w == [] <==> Bucket(items, "root") == []
    ensures w != [] ==> w[0] == VisitAt(Bucket(items, "root")[0], 0)
  {
    WalkGroup(items, Bucket(items, "root"), [])
  }

  /** One step of the walk: the first record of the group, the walk below it,
      then the rest of the group. */
  lemma WalkGroupUnfold(items: seq<WbsItem>, bs: seq<WbsItem>, path: seq<WbsItem>)
    requires DistinctIds(items) && ValidPath(items, path) && bs != []
    requires forall b :: b in bs ==> b in items && GroupKey(b) == CurKey(path)
    ensures ValidPath(items, path + [bs[0]])
    ensures WalkGroup(items, bs, path)
         == [VisitAt(bs[0], |path|)]
            + WalkGroup(items, Bucket(items, ChildKey(bs[0])), path + [bs[0]])
            + WalkGroup(items, bs[1..], path)
  {
    PathExtends(items, path, bs[0]);
  }

  /** The walk of a group suffix starting at position `i`. */
  lemma WalkGroupStep(items: seq<WbsItem>, bs: seq<WbsItem>, i: nat, path: seq<WbsItem>)
    requires DistinctIds(items) && ValidPath(items, path) && i < |bs|
    requires forall b :: b in bs ==> b in items && GroupKey(b) == CurKey(path)
    ensures ValidPath(items, path + [bs[i]]) && CurKey(path + [bs[i]]) == ChildKey(bs[i])
    ensures Remaining(items, path + [bs[i]]) < Remaining(items, path)
    ensures WalkGroup(items, bs[i..], path)
         == [VisitAt(bs[i], |path|)]
            + WalkGroup(items, Bucket(items, ChildKey(bs[i])), path + [bs[i]])
            + WalkGroup(items, bs[i + 1..], path)
  {
    PathExtends(items, path, bs[i]);
    WalkGroupUnfold(items, bs[i..], path);
    assert bs[i..][1..] == bs[i + 1..];
  }

  lemma ConcatAssoc<T>(a: seq<T>, b: seq<T>, c: seq<T>, d: seq<T>)
    ensures a + b + c + d == a + (b + c + d)
  {
  }

  /** One turn of `renderGroup`'s loop: the record's own visit and the walk
      below it take the place of the first record of the rest of the group. */
  lemma RenderStep(items: seq<WbsItem>, bs: seq<WbsItem>, i: nat, path: seq<WbsItem>,
                   before: seq<Visit>, shown: Visit, children: seq<Visit>)
    requires DistinctIds(items) && ValidPath(items, path) && i < |bs|
    requires forall b :: b in bs ==> b in items && GroupKey(b) == CurKey(path)
    requires ValidPath(items, path + [bs[i]])
    requires before + WalkGroup(items, bs[i..], path) == WalkGroup(items, bs, path)
    requires shown == VisitAt(bs[i], |path|)
    requires children == WalkGroup(items, Bucket(items, ChildKey(bs[i])), path + [bs[i]])
    ensures before + [shown] + children + WalkGroup(items, bs[i + 1..], path) == WalkGroup(items, bs, path)
  {
    WalkGroupStep(items, bs, i, path);
    ConcatAssoc(before, [shown], children, WalkGroup(items, bs[i + 1..], path));
  }

  /** `renderGroup(parentId, level)`. The ghost `path` is the chain of records
      the recursion has come down through; it exists only for the proof that
      the recursion ends. */
  method RenderGroup(groups: map<string, seq<WbsItem>>, parentId: string, level: nat,
                     ghost items: seq<WbsItem>, ghost path: seq<WbsItem>)
    returns (visits: seq<Visit>)
    requires DistinctIds(items) && ValidPath(items, path) && Grouped(groups, items)
    requires parentId == CurKey(path) && level == |path|
    ensures visits == WalkGroup(items, Bucket(items, parentId), path)
    ensures visits == [] <==> parentId !in groups
    decreases Remaining(items, path)
  {
    var bucket := if parentId in groups then groups[parentId] else [];
    assert bucket == Bucket(items, parentId);
    if |bucket| == 0 {
      return [];
    }
    WalkGroupUnfold(items, bucket, path);
    visits := [];
    var i := 0;
    while i < |bucket|
      invariant 0 <= i <= |bucket|
      invariant forall b :: b in bucket ==> b in items && GroupKey(b) == CurKey(path)
      invariant visits + WalkGroup(items, bucket[i..], path) == WalkGroup(items, bucket, path)
    {
      var item := bucket[i];
      var shown := VisitAt(item, level);
      WalkGroupStep(items, bucket, i, path);
      var children := RenderGroup(groups, ToKey(item.id), level + 1, items, path + [item]);
      RenderStep(items, bucket, i, path, visits, shown, children);
      visits := visits + [shown] + children;
      assert visits + WalkGroup(items, bucket[i + 1..], path) == WalkGroup(items, bucket, path);
      i := i + 1;
    }
  }

  // ---------------------------------------------------------------------------
  // What the walk shows
  // ---------------------------------------------------------------------------

  predicate Distinct<T(==)>(s: seq<T>) {
    forall i, j :: 0 <= i < j < |s| ==> s[i] != s[j]
  }

  /** Under distinct ids a bucket holds each record once. */
  lemma {:induction false} BucketDistinct(items: seq<WbsItem>, key: string)
    requires KeysDistinct(items)
    ensures Distinct(Bucket(items, key))
  {
    if items != [] {
      var n := |items|;
      var init, last := items[..n - 1], items[n - 1];
      assert KeysDistinct(init);
      BucketDistinct(init, key);
    }
  }

  lemma HeadNotInTail<T>(s: seq<T>)
    requires Distinct(s) && s != []
    ensures s[0] !in s[1..]
  {
  }

  /** How the walk shows the last record of a chain: at the chain's depth. */
  function EndVisit(c: seq<WbsItem>): Visit
    requires c != []
  {
    VisitAt(c[|c| - 1], |c| - 1)
  }

  /** The chains that pass through `path` and then through a record of `bs`. */
  ghost predicate ChainThrough(items: seq<WbsItem>, c: seq<WbsItem>, path: seq<WbsItem>, bs: seq<WbsItem>) {
    ValidPath(items, c) && |path| < |c| && c[..|path|] == path && c[|path|] in bs
  }

  /** A chain through the rest of a group is a chain through the group. */
  lemma ChainThroughRest(items: seq<WbsItem>, c: seq<WbsItem>, path: seq<WbsItem>, bs: seq<WbsItem>)
    requires bs != [] && ChainThrough(items, c, path, bs[1..])
    ensures ChainThrough(items, c, path, bs)
  {
  }

  /** A chain through the bucket of a group's first record is a chain through
      the group. */
  lemma ChainThroughBelow(items: seq<WbsItem>, c: seq<WbsItem>, path: seq<WbsItem>, bs: seq<WbsItem>, below: seq<WbsItem>)
    requires bs != [] && ChainThrough(items, c, path + [bs[0]], below)
    ensures ChainThrough(items, c, path, bs)
  {
    var p' := path + [bs[0]];
    assert c[..|path|] == c[..|p'|][..|path|] == path;
    assert c[|path|] == p'[|path|] == bs[0];
  }

  /** A chain through a group that does not pass its first record is a chain
      through the rest of the group. */
  lemma ChainThroughSkip(items: seq<WbsItem>, c: seq<WbsItem>, path: seq<WbsItem>, bs: seq<WbsItem>)
    requires bs != [] && ChainThrough(items, c, path, bs) && c[|path|] != bs[0]
    ensures ChainThrough(items, c, path, bs[1..])
  {
    assert bs == [bs[0]] + bs[1..];
  }

  /** A chain through a group's first record that goes further is a chain
      through that record's bucket. */
  lemma ChainThroughDescend(items: seq<WbsItem>, c: seq<WbsItem>, path: seq<WbsItem>, bs: seq<WbsItem>)
    requires DistinctIds(items) && bs != [] && ChainThrough(items, c, path, bs)
    requires c[|path|] == bs[0] && |c| > |path| + 1
    ensures ChainThrough(items, c, path + [bs[0]], Bucket(items, ChildKey(bs[0])))
  {
    var n := |path|;
    assert c[..n + 1] == path + [bs[0]];
    PathLink(items, c, n + 1);
    BucketComplete(items, c[n + 1]);
  }

  /** Every visit below `path` shows the last record of a chain through
      `path` and a record of `bs`, at that chain's depth, with the indent and
      status colour for that depth and record. */
  lemma {:induction false} WalkGroupSound(items: seq<WbsItem>, bs: seq<WbsItem>, path: seq<WbsItem>, v: Visit)
    returns (c: seq<WbsItem>)
    requires DistinctIds(items) && ValidPath(items, path)
    requires forall b :: b in bs ==> b in items && GroupKey(b) == CurKey(path)
    requires v in WalkGroup(items, bs, path)
    ensures ChainThrough(items, c, path, bs)
    ensures v == EndVisit(c)
    decreases Remaining(items, path), |bs|, 1
  {
    var part := WalkGroupMember(items, bs, path, v);
    if part == 0 {
      c := WalkGroupSoundHead(items, bs, path, v);
    } else if part == 1 {
      c := WalkGroupSoundBelow(items, bs, path, v);
    } else {
      c := WalkGroupSoundRest(items, bs, path, v);
    }
  }

  /** A visit of a group's walk is the visit of its first record, a visit
      below that record, or a visit of the rest of the group. */
  lemma WalkGroupMember(items: seq<WbsItem>, bs: seq<WbsItem>, path: seq<WbsItem>, v: Visit)
    returns (part: nat)
    requires DistinctIds(items) && ValidPath(items, path)
    requires forall b :: b in bs ==> b in items && GroupKey(b) == CurKey(path)
    requires v in WalkGroup(items, bs, path)
    ensures bs != [] && ValidPath(items, path + [bs[0]])
    ensures part == 0 ==> v == VisitAt(bs[0], |path|)
    ensures part == 1 ==> v in WalkGroup(items, Bucket(items, ChildKey(bs[0])), path + [bs[0]])
    ensures part > 1 ==> v in WalkGroup(items, bs[1..], path)
  {
    WalkGroupUnfold(items, bs, path);
    if v == VisitAt(bs[0], |path|) {
      part := 0;
    } else if v in WalkGroup(items, Bucket(items, ChildKey(bs[0])), path + [bs[0]]) {
      part := 1;
    } else {
      part := 2;
    }
  }

  /** The converse of `WalkGroupMember`. */
  lemma WalkGroupHas(items: seq<WbsItem>, bs: seq<WbsItem>, path: seq<WbsItem>, v: Visit)
    requires DistinctIds(items) && ValidPath(items, path) && bs != []
    requires forall b :: b in bs ==> b in items && GroupKey(b) == CurKey(path)
    requires ValidPath(items, path + [bs[0]])
    requires || v == VisitAt(bs[0], |path|)
             || v in WalkGroup(items, Bucket(items, ChildKey(bs[0])), path + [bs[0]])
             || v in WalkGroup(items, bs[1..], path)
    ensures v in WalkGroup(items, bs, path)
  {
    WalkGroupUnfold(items, bs, path);
  }

  /** `WalkGroupSound` for the visit of the group's first record. */
  lemma WalkGroupSoundHead(items: seq<WbsItem>, bs: seq<WbsItem>, path: seq<WbsItem>, v: Visit)
    returns (c: seq<WbsItem>)
    requires bs != [] && ValidPath(items, path + [bs[0]])
    requires v == VisitAt(bs[0], |path|)
    ensures ChainThrough(items, c, path, bs)
    ensures v == EndVisit(c)
  {
    c := path + [bs[0]];
    assert c[..|path|] == path;
  }

  /** `WalkGroupSound` for a visit in the walk below the group's first record. */
  lemma {:induction false} WalkGroupSoundBelow(items: seq<WbsItem>, bs: seq<WbsItem>, path: seq<WbsItem>, v: Visit)
    returns (c: seq<WbsItem>)
    requires DistinctIds(items) && ValidPath(items, path) && bs != []
    requires forall b :: b in bs ==> b in items && GroupKey(b) == CurKey(path)
    requires ValidPath(items, path + [bs[0]])
    requires v in WalkGroup(items, Bucket(items, ChildKey(bs[0])), path + [bs[0]])
    ensures ChainThrough(items, c, path, bs)
    ensures v == EndVisit(c)
    decreases Remaining(items, path), |bs|, 0
  {
    var b := bs[0];
    PathExtends(items, path, b);
    c := WalkGroupSound(items, Bucket(items, ChildKey(b)), path + [b], v);
    ChainThroughBelow(items, c, path, bs, Bucket(items, ChildKey(b)));
  }

  /** `WalkGroupSound` for a visit in the walk of the rest of the group. */
  lemma {:induction false} WalkGroupSoundRest(items: seq<WbsItem>, bs: seq<WbsItem>, path: seq<WbsItem>, v: Visit)
    returns (c: seq<WbsItem>)
    requires DistinctIds(items) && ValidPath(items, path) && bs != []
    requires forall b :: b in bs ==> b in items && GroupKey(b) == CurKey(path)
    requires v in WalkGroup(items, bs[1..], path)
    ensures ChainThrough(items, c, path, bs)
    ensures v == EndVisit(c)
    decreases Remaining(items, path), |bs|, 0
  {
    c := WalkGroupSound(items, bs[1..], path, v);
    ChainThroughRest(items, c, path, bs);
  }

  /** Conversely, the last record of every chain through `path` and a record
      of `bs` is shown, at the chain's depth. */
  lemma {:induction false} WalkGroupComplete(items: seq<WbsItem>, bs: seq<WbsItem>, path: seq<WbsItem>, c: seq<WbsItem>)
    requires DistinctIds(items) && ValidPath(items, path)
    requires forall b :: b in bs ==> b in items && GroupKey(b) == CurKey(path)
    requires ChainThrough(items, c, path, bs)
    ensures EndVisit(c) in WalkGroup(items, bs, path)
    decreases Remaining(items, path), |bs|, 1
  {
    if c[|path|] != bs[0] {
      WalkGroupCompleteRest(items, bs, path, c);
    } else if |c| > |path| + 1 {
      WalkGroupCompleteBelow(items, bs, path, c);
    } else {
      PathExtends(items, path, bs[0]);
      assert c == path + [bs[0]];
      WalkGroupHas(items, bs, path, EndVisit(c));
    }
  }

  /** `WalkGroupComplete` for a chain that passes a later record of the group. */
  lemma {:induction false} WalkGroupCompleteRest(items: seq<WbsItem>, bs: seq<WbsItem>, path: seq<WbsItem>, c: seq<WbsItem>)
    requires DistinctIds(items) && ValidPath(items, path)
    requires forall b :: b in bs ==> b in items && GroupKey(b) == CurKey(path)
    requires ChainThrough(items, c, path, bs) && c[|path|] != bs[0]
    ensures EndVisit(c) in WalkGroup(items, bs, path)
    decreases Remaining(items, path), |bs|, 0
  {
    ChainThroughSkip(items, c, path, bs);
    WalkGroupComplete(items, bs[1..], path, c);
    PathExtends(items, path, bs[0]);
    WalkGroupHas(items, bs, path, EndVisit(c));
  }

  /** `WalkGroupComplete` for a chain that goes below the group's first record. */
  lemma {:induction false} WalkGroupCompleteBelow(items: seq<WbsItem>, bs: seq<WbsItem>, path: seq<WbsItem>, c: seq<WbsItem>)
    requires DistinctIds(items) && ValidPath(items, path)
    requires forall b :: b in bs ==> b in items && GroupKey(b) == CurKey(path)
    requires ChainThrough(items, c, path, bs) && c[|path|] == bs[0] && |c| > |path| + 1
    ensures EndVisit(c) in WalkGroup(items, bs, path)
    decreases Remaining(items, path), |bs|, 0
  {
    var b := bs[0];
    PathExtends(items, path, b);
    ChainThroughDescend(items, c, path, bs);
    WalkGroupComplete(items, Bucket(items, ChildKey(b)), path + [b], c);
    WalkGroupHas(items, bs, path, EndVisit(c));
  }

  /** No record is shown twice. */
  ghost predicate NoRepeat(w: seq<Visit>) {
    forall i, j :: 0 <= i < j < |w| ==> w[i].item != w[j].item
  }

  lemma NoRepeatConcat(a: seq<Visit>, b: seq<Visit>)
    requires NoRepeat(a) && NoRepeat(b)
    requires forall x, y :: x in a && y in b ==> x.item != y.item
    ensures NoRepeat(a + b)
  {
    var ab := a + b;
    forall i, j | 0 <= i < j < |ab| ensures ab[i].item != ab[j].item {
      if j < |a| {
        assert ab[i] == a[i] && ab[j] == a[j];
      } else if i >= |a| {
        assert ab[i] == b[i - |a|] && ab[j] == b[j - |a|];
      } else {
        assert ab[i] in a && ab[j] in b;
      }
    }
  }

  lemma {:induction false} WalkGroupNoRepeat(items: seq<WbsItem>, bs: seq<WbsItem>, path: seq<WbsItem>)
    requires DistinctIds(items) && ValidPath(items, path) && Distinct(bs)
    requires forall b :: b in bs ==> b in items && GroupKey(b) == CurKey(path)
    ensures NoRepeat(WalkGroup(items, bs, path))
    decreases Remaining(items, path), |bs|
  {
    if bs != [] {
      WalkGroupUnfold(items, bs, path);
      PathExtends(items, path, bs[0]);
      var b := bs[0];
      var p' := path + [b];
      var children := Bucket(items, ChildKey(b));
      var below := WalkGroup(items, children, p');
      var rest := WalkGroup(items, bs[1..], path);
      BucketDistinct(items, ChildKey(b));
      WalkGroupNoRepeat(items, children, p');
      WalkGroupNoRepeat(items, bs[1..], path);
      HeadNotInTail(bs);
      forall y | y in below ensures y.item != b {
        var c := WalkGroupSound(items, children, p', y);
        if y.item == b {
          PathUnique(items, p', c);
          assert false;
        }
      }
      forall y | y in rest ensures y.item != b {
        var c := WalkGroupSound(items, bs[1..], path, y);
        if y.item == b {
          PathUnique(items, p', c);
          assert false;
        }
      }
      forall x, y | x in below && y in rest ensures x.item != y.item {
        var c1 := WalkGroupSound(items, children, p', x);
        var c2 := WalkGroupSound(items, bs[1..], path, y);
        if x.item == y.item {
          PathUnique(items, c1, c2);
          assert false;
        }
      }
      NoRepeatConcat([VisitAt(b, |path|)], below);
      NoRepeatConcat([VisitAt(b, |path|)] + below, rest);
    }
  }

  /** The root bucket is a group below the empty path. */
  lemma RootGroup(items: seq<WbsItem>)
    ensures ValidPath(items, [])
    ensures forall b :: b in Bucket(items, "root") ==> b in items && GroupKey(b) == CurKey([])
  {
  }

  /** Every shown record is shown at the depth of a chain of parents that
      starts at a top-level record and ends at it, with the indent and
      colour for that depth and that record. */
  lemma WalkSound(items: seq<WbsItem>, v: Visit) returns (c: seq<WbsItem>)
    requires DistinctIds(items) && v in Walk(items)
    ensures c != [] && ValidPath(items, c) && c[|c| - 1] == v.item
    ensures v == EndVisit(c)
  {
    RootGroup(items);
    c := WalkGroupSound(items, Bucket(items, "root"), [], v);
  }

  /** Every record with a chain of parents up to a top-level record is shown,
      at the depth of that chain. */
  lemma WalkComplete(items: seq<WbsItem>, c: seq<WbsItem>)
    requires DistinctIds(items) && ValidPath(items, c) && c != []
    ensures EndVisit(c) in Walk(items)
  {
    RootGroup(items);
    PathLink(items, c, 0);
    BucketComplete(items, c[0]);
    assert c[..0] == [];
    WalkGroupComplete(items, Bucket(items, "root"), [], c);
  }

  /** Shown at level 0 are exactly the shown records filed under `'root'`,
      that is, those whose parent is falsy or the string `'root'`. */
  lemma WalkTopLevel(items: seq<WbsItem>, v: Visit)
    requires DistinctIds(items) && v in Walk(items)
    ensures v.level == 0 <==> GroupKey(v.item) == "root"
  {
    var c := WalkSound(items, v);
    PathLast(items, c);
  }

  /** A record whose parent is not `'root'` and names no record lies on no
      chain of parents. */
  lemma {:induction false} OrphanOffChain(items: seq<WbsItem>, x: WbsItem, c: seq<WbsItem>)
    requires ValidPath(items, c)
    requires GroupKey(x) != "root"
    requires forall y :: y in items ==> ChildKey(y) != GroupKey(x)
    ensures x !in c
    decreases |c|
  {
    if c != [] {
      var init, last := c[..|c| - 1], c[|c| - 1];
      OrphanOffChain(items, x, init);
      assert init != [] ==> init[|init| - 1] in items;
      assert last != x;
      assert c == init + [last];
    }
  }

  /** A record whose parent names no record and is not `'root'` is never
      shown, and neither is anything below it: the chain of parents of a
      shown record (unique, by `PathUnique`) does not pass through it. */
  lemma WalkDropsOrphan(items: seq<WbsItem>, x: WbsItem, v: Visit) returns (c: seq<WbsItem>)
    requires DistinctIds(items) && v in Walk(items)
    requires GroupKey(x) != "root"
    requires forall y :: y in items ==> ChildKey(y) != GroupKey(x)
    ensures c != [] && ValidPath(items, c) && c[|c| - 1] == v.item
    ensures x !in c
    ensures v.item != x
  {
    c := WalkSound(items, v);
    OrphanOffChain(items, x, c);
  }

  /** No record is shown twice. */
  lemma WalkNoRepeat(items: seq<WbsItem>)
    requires DistinctIds(items)
    ensures NoRepeat(Walk(items))
  {
    RootGroup(items);
    BucketDistinct(items, "root");
    WalkGroupNoRepeat(items, Bucket(items, "root"), []);
  }

  /** `p` is the visit of the parent of the record shown by `v`: one level
      up, and `v`'s record is filed under `p`'s id. */
  ghost predicate ParentVisit(p: Visit, v: Visit) {
    p.level + 1 == v.level && GroupKey(v.item) == ChildKey(p.item)
  }

  /** Preorder: every visit deeper than `base` comes after the visit of its
      parent. */
  ghost predicate ParentsFirst(w: seq<Visit>, base: nat) {
    forall i :: 0 <= i < |w| && w[i].level > base ==>
      exists j :: 0 <= j < i && ParentVisit(w[j], w[i])
  }

  lemma ParentsFirstConcat(a: seq<Visit>, b: seq<Visit>, base: nat)
    requires ParentsFirst(a, base) && ParentsFirst(b, base)
    ensures ParentsFirst(a + b, base)
  {
    var ab := a + b;
    forall i | 0 <= i < |ab| && ab[i].level > base
      ensures exists j :: 0 <= j < i && ParentVisit(ab[j], ab[i])
    {
      if i < |a| {
        assert ab[i] == a[i];
        var j :| 0 <= j < i && ParentVisit(a[j], a[i]);
        assert ab[j] == a[j];
      } else {
        assert ab[i] == b[i - |a|];
        var j :| 0 <= j < i - |a| && ParentVisit(b[j], b[i - |a|]);
        assert ab[j + |a|] == b[j];
      }
    }
  }

  /** A visit followed by visits one level deeper or more, where those exactly
      one level deeper are its children. */
  lemma ParentsFirstUnder(h: Visit, below: seq<Visit>, base: nat)
    requires h.level == base && ParentsFirst(below, base + 1)
    requires forall v :: v in below ==> v.level > base && (v.level == base + 1 ==> ParentVisit(h, v))
    ensures ParentsFirst([h] + below, base)
  {
    var w := [h] + below;
    forall i | 0 <= i < |w| && w[i].level > base
      ensures exists j :: 0 <= j < i && ParentVisit(w[j], w[i])
    {
      assert i > 0 && w[i] == below[i - 1];
      if w[i].level == base + 1 {
        assert ParentVisit(w[0], w[i]);
      } else {
        var j :| 0 <= j < i - 1 && ParentVisit(below[j], below[i - 1]);
        assert w[j + 1] == below[j];
      }
    }
  }

  /** The visits of a group are at least as deep as the group; those exactly
      as deep show records of the group itself. */
  lemma WalkGroupLevels(items: seq<WbsItem>, bs: seq<WbsItem>, path: seq<WbsItem>, v: Visit)
    requires DistinctIds(items) && ValidPath(items, path)
    requires forall b :: b in bs ==> b in items && GroupKey(b) == CurKey(path)
    requires v in WalkGroup(items, bs, path)
    ensures v.level >= |path|
    ensures v.level == |path| ==> v.item in bs
  {
    var c := WalkGroupSound(items, bs, path, v);
    ChainEnd(items, c, path, bs);
  }

  lemma ChainEnd(items: seq<WbsItem>, c: seq<WbsItem>, path: seq<WbsItem>, bs: seq<WbsItem>)
    requires ChainThrough(items, c, path, bs)
    ensures EndVisit(c).level >= |path|
    ensures EndVisit(c).level == |path| ==> EndVisit(c).item in bs
  {
  }

  lemma {:induction false} WalkGroupParentsFirst(items: seq<WbsItem>, bs: seq<WbsItem>, path: seq<WbsItem>)
    requires DistinctIds(items) && ValidPath(items, path)
    requires forall b :: b in bs ==> b in items && GroupKey(b) == CurKey(path)
    ensures ParentsFirst(WalkGroup(items, bs, path), |path|)
    decreases Remaining(items, path), |bs|
  {
    if bs != [] {
      WalkGroupUnfold(items, bs, path);
      PathExtends(items, path, bs[0]);
      var b := bs[0];
      var p' := path + [b];
      var children := Bucket(items, ChildKey(b));
      var below := WalkGroup(items, children, p');
      WalkGroupParentsFirst(items, children, p');
      WalkGroupParentsFirst(items, bs[1..], path);
      forall v | v in below
        ensures v.level > |path| && (v.level == |path| + 1 ==> ParentVisit(VisitAt(b, |path|), v))
      {
        WalkGroupLevels(items, children, p', v);
      }
      ParentsFirstUnder(VisitAt(b, |path|), below, |path|);
      ParentsFirstConcat([VisitAt(b, |path|)] + below, WalkGroup(items, bs[1..], path), |path|);
    }
  }

  /** The walk is a preorder: every record below the top level is shown after
      its parent, one level deeper than it. */
  lemma WalkParentsFirst(items: seq<WbsItem>)
    requires DistinctIds(items)
    ensures ParentsFirst(Walk(items), 0)
  {
    RootGroup(items);
    WalkGroupParentsFirst(items, Bucket(items, "root"), []);
  }

  /** `displayWBSAsHTML(wbsData)`: group, then render from `'root'` at level 0. */
  method DisplayWbsAsHtml(wbsData: seq<WbsItem>) returns (visits: seq<Visit>)
    requires DistinctIds(wbsData)
    ensures visits == Walk(wbsData)
    ensures NoRepeat(visits)
  {
    var groups := GroupByParent(wbsData);
    visits := RenderGroup(groups, "root", 0, wbsData, []);
    WalkNoRepeat(wbsData);
  }
}
