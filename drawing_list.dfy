/** The sidebar list (components/DrawingList.tsx): one row per drawing, the
    status label under its name and the error count over its thumbnail. */
module DrawingList {
  import opened JsRuntime
  import opened Types

  /** `getStatusBadge`: the label of a drawing's status, given its error count. */
  function StatusLabel(status: ScanStatus, errorCount: nat): (r: string)
    ensures |r| > 0
    ensures EndsWith(r, IssuesSuffix) <==> status == Completed && errorCount > 0
  {
    match status
    case Pending => "Pending"
    case Scanning => "Scanning..."
    case Completed => if errorCount > 0 then NatText(errorCount) + " Issues" else "Clean"
    case Error => "Failed"
  }

  const IssuesSuffix: string := " Issues"

  /** The labels tell every status apart, tell a clean result from one with
      issues, and carry the exact count: two equal labels come from the same
      status, and from the same count when they report issues. */
  lemma LabelsDistinguish(s1: ScanStatus, c1: nat, s2: ScanStatus, c2: nat)
    requires StatusLabel(s1, c1) == StatusLabel(s2, c2)
    ensures s1 == s2
    ensures s1 == Completed ==> (c1 > 0 <==> c2 > 0)
    ensures s1 == Completed && c1 > 0 ==> c1 == c2
  {
    var l := StatusLabel(s1, c1);
    LabelShape(s1, c1);
    LabelShape(s2, c2);
    if s1 == Completed && c1 > 0 && s2 == Completed && c2 > 0 {
      assert NatText(c1) == l[..|l| - |IssuesSuffix|];
      assert NatText(c2) == l[..|l| - |IssuesSuffix|];
      NatTextInjective(c1, c2);
    }
  }

  /** What each label is: only an issue count ends in " Issues", and the
      other four are fixed words. */
  lemma LabelShape(s: ScanStatus, c: nat)
    ensures var l := StatusLabel(s, c);
            && (s == Completed && c > 0 <==> EndsWith(l, IssuesSuffix))
            && (s == Completed && c > 0 ==> l == NatText(c) + IssuesSuffix)
            && (s == Pending ==> l == "Pending")
            && (s == Scanning ==> l == "Scanning...")
            && (s == Completed && c == 0 ==> l == "Clean")
            && (s == Error ==> l == "Failed")
  {
    var l := StatusLabel(s, c);
    if s == Completed && c > 0 {
      assert l[|l| - |IssuesSuffix|..] == IssuesSuffix;
    } else {
      assert l[|l| - 1] != 's';
    }
  }

  /** The count over the thumbnail: present, and equal to the number of
      errors, exactly for a completed scan that found something. */
  function ThumbnailCount(d: DrawingFile): (r: Option<nat>)
    ensures r.Some? <==> d.status == Completed && |d.errors| > 0
    ensures r.Some? ==> r.value == |d.errors| && r.value > 0
  {
    if d.status == Completed && |d.errors| > 0 then Some(|d.errors|) else None
  }

  /** The thumbnail count appears exactly when the label reports issues, and
      the label's number is the thumbnail's. */
  lemma ThumbnailAgreesWithLabel(d: DrawingFile)
    ensures ThumbnailCount(d).Some? <==> EndsWith(StatusLabel(d.status, |d.errors|), IssuesSuffix)
    ensures ThumbnailCount(d).Some? ==>
              StatusLabel(d.status, |d.errors|) == NatText(ThumbnailCount(d).value) + IssuesSuffix
  {
    LabelShape(d.status, |d.errors|);
  }

  /** The decimal count in an issues label reads back as the error count. */
  lemma IssueCountReadsBack(d: DrawingFile)
    requires ThumbnailCount(d).Some?
    ensures var l := StatusLabel(d.status, |d.errors|);
            |l| > |IssuesSuffix| && AllDigits(l[..|l| - |IssuesSuffix|])
            && DigitsValue(l[..|l| - |IssuesSuffix|]) == |d.errors|
  {
    var l := StatusLabel(d.status, |d.errors|);
    assert l[..|l| - |IssuesSuffix|] == NatText(|d.errors|);
    NatTextRoundTrip(|d.errors|);
  }

  /** One row: the drawing it opens, its name, its thumbnail, whether it is
      the selected one, its label and its thumbnail count. */
  datatype Row = Row(id: string, name: string, imageUrl: string, highlighted: bool,
                     badge: string, count: Option<nat>)

  /** `drawings.map(...)`: a row per drawing, in list order; a row is
      highlighted exactly when its id is the selected id. */
  function Rows(ds: seq<DrawingFile>, selectedId: Option<string>): (r: seq<Row>)
    ensures |r| == |ds|
    ensures forall k :: 0 <= k < |ds| ==>
              && r[k].id == ds[k].id && r[k].name == ds[k].name && r[k].imageUrl == ds[k].imageUrl
              && (r[k].highlighted <==> selectedId == Some(ds[k].id))
              && r[k].badge == StatusLabel(ds[k].status, |ds[k].errors|)
              && r[k].count == ThumbnailCount(ds[k])
  {
    if ds == [] then []
    else
      var d := ds[|ds| - 1];
      Rows(ds[..|ds| - 1], selectedId)
      + [Row(d.id, d.name, d.imageUrl, selectedId == Some(d.id), StatusLabel(d.status, |d.errors|), ThumbnailCount(d))]
  }

  /** With ids unique, two highlighted rows are the same row. */
  lemma AtMostOneHighlighted(ds: seq<DrawingFile>, selectedId: Option<string>, j: nat, k: nat)
    requires forall a, b :: 0 <= a < b < |ds| ==> ds[a].id != ds[b].id
    requires j < |ds| && k < |ds|
    requires Rows(ds, selectedId)[j].highlighted && Rows(ds, selectedId)[k].highlighted
    ensures j == k
  {
  }
}
