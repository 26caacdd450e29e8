/** The simplified WBS view as `generateWBS` falls back to it when jstree
    reports an error or takes too long. The fallback is handed the jstree
    nodes, not the server's records, while the simplified view reads the
    record shape: `parent` is `null` for top-level records and `status` sits
    at the top level. This module models that call as written and the call
    with the server's records that the simplified view is written for. */
module WbsFallback {
  import opened JsValues
  import opened WbsTree
  import opened WbsDisplay

  /** The jstree transform keeps ids, so the nodes, read as records, have
      distinct ids exactly when the records do. */
  lemma FallbackInputIds(w: seq<WbsItem>)
    ensures DistinctIds(NodesAsItems(JstreeData(w))) <==> DistinctIds(w)
  {
    var items := NodesAsItems(JstreeData(w));
    assert forall i :: 0 <= i < |w| ==> ChildKey(items[i]) == ChildKey(w[i]);
  }

  /** What the simplified view shows when it is handed the jstree nodes. */
  ghost function AsWrittenWalk(w: seq<WbsItem>): seq<Visit>
    requires DistinctIds(w)
  {
    FallbackInputIds(w);
    Walk(NodesAsItems(JstreeData(w)))
  }

  /** `fallbackToHTMLDisplay(jstreeData)`: the nodes built from the server's
      records are what the simplified view walks. */
  method FallbackAsWritten(wbsData: seq<WbsItem>) returns (visits: seq<Visit>)
    requires DistinctIds(wbsData)
    ensures visits == AsWrittenWalk(wbsData)
    ensures NoRepeat(visits)
  {
    var jstreeData := JstreeData(wbsData);
    FallbackInputIds(wbsData);
    visits := DisplayWbsAsHtml(NodesAsItems(jstreeData));
  }

  /** The fallback as intended: the simplified view walks the server's own
      records. */
  method FallbackCorrected(wbsData: seq<WbsItem>) returns (visits: seq<Visit>)
    requires DistinctIds(wbsData)
    ensures visits == Walk(wbsData)
    ensures NoRepeat(visits)
  {
    visits := DisplayWbsAsHtml(wbsData);
  }

  /** The parents the server sends: `null` for a top-level record, otherwise
      the id of another record (a non-empty value other than `'root'`). */
  predicate ServerShapedParent(p: JsValue) {
    p == Null || (Truthy(p) && ToKey(p) != "root")
  }

  /** No record is filed under a key nothing is filed under. */
  lemma {:induction false} BucketEmpty(items: seq<WbsItem>, key: string)
    requires forall i :: 0 <= i < |items| ==> GroupKey(items[i]) != key
    ensures Bucket(items, key) == []
  {
    if items != [] {
      BucketEmpty(items[..|items| - 1], key);
    }
  }

  /** As written, the fallback shows nothing for server-shaped records: the
      top-level nodes have parent `'#'`, which is truthy, so no node is filed
      under `'root'`. */
  lemma AsWrittenShowsNothing(w: seq<WbsItem>)
    requires DistinctIds(w)
    requires forall i :: 0 <= i < |w| ==> ServerShapedParent(w[i].parent)
    ensures AsWrittenWalk(w) == []
  {
    FallbackInputIds(w);
    var items := NodesAsItems(JstreeData(w));
    forall i | 0 <= i < |items| ensures GroupKey(items[i]) != "root" {
      assert items[i].parent == JstreeParent(w[i].parent);
    }
    BucketEmpty(items, "root");
  }

  /** Whatever the fallback does show, as written, is drawn in the colour of
      an unknown status, without its WBS number and with progress 0: those
      fields sit under the node's `data`, where the view does not look. */
  lemma AsWrittenLosesFields(w: seq<WbsItem>, v: Visit)
    requires DistinctIds(w) && v in AsWrittenWalk(w)
    ensures v.colour == Red
    ensures v.heading == ToKey(v.item.text)
    ensures v.progress == Num(0)
    ensures !v.showsWork && !v.showsDue
  {
    FallbackInputIds(w);
    var items := NodesAsItems(JstreeData(w));
    var c := WalkSound(items, v);
    PathLink(items, c, |c| - 1);
    var k :| 0 <= k < |items| && items[k] == v.item;
  }

  /** As intended, a top-level record is shown at level 0, without indent,
      in the colour of its own status. */
  lemma CorrectedShowsTopLevel(w: seq<WbsItem>, i: nat)
    requires DistinctIds(w) && i < |w| && w[i].parent == Null
    ensures VisitAt(w[i], 0) in Walk(w)
    ensures VisitAt(w[i], 0).indent == 0
    ensures VisitAt(w[i], 0).colour == StatusColour(w[i].status)
  {
    var c := [w[i]];
    assert c[..0] == [] && w[i] in w;
    assert ValidPath(w, c[..0]);
    assert ValidPath(w, c);
    WalkComplete(w, c);
  }

  /** One finished top-level project. */
  function SampleProject(): WbsItem {
    WbsItem(Str("p1"), Str("Website"), Null, Str("project"), Str("Done"), Num(100),
            Undefined, Undefined, Str("1"), Num(0))
  }

  /** For a single finished project, the fallback as written shows nothing,
      while the intended view shows the project at level 0 in green. */
  lemma FallbackCounterexample()
    ensures DistinctIds([SampleProject()])
    ensures AsWrittenWalk([SampleProject()]) == []
    ensures VisitAt(SampleProject(), 0) in Walk([SampleProject()])
    ensures VisitAt(SampleProject(), 0).colour == Green
  {
    var w := [SampleProject()];
    assert DistinctIds(w);
    AsWrittenShowsNothing(w);
    CorrectedShowsTopLevel(w, 0);
  }
}
