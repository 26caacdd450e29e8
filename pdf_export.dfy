/** The name under which `exportPDF` saves the current chart: a prefix for
    the chart shown, then the export time with `:` and `.` replaced. */
module PdfExport {

  /** The filename prefix for the chart currently shown. */
  function ChartLabel(currentChart: string): (prefix: string)
    ensures prefix == "GanttChart" <==> currentChart == "gantt"
    ensures prefix == "WBSChart" <==> currentChart == "wbs"
    ensures prefix == "Chart" <==> currentChart != "gantt" && currentChart != "wbs"
  {
    if currentChart == "gantt" then "GanttChart"
    else if currentChart == "wbs" then "WBSChart"
    else "Chart"
  }

  /** `timestamp.replace(/[:.]/g, '-')`: every `:` and `.` becomes `-`, and
      everything else stays where it is. */
  function Sanitize(s: string): (r: string)
    ensures |r| == |s|
    ensures forall i :: 0 <= i < |s| ==> r[i] == (if s[i] == ':' || s[i] == '.' then '-' else s[i])
    ensures forall i :: 0 <= i < |r| ==> r[i] != ':' && r[i] != '.'
  {
    if s == [] then []
    else [if s[0] == ':' || s[0] == '.' then '-' else s[0]] + Sanitize(s[1..])
  }

  /** The file name for an export at ISO time `isoTime`. */
  function PdfFileName(currentChart: string, isoTime: string): (f: string)
    ensures |f| == |ChartLabel(currentChart)| + |isoTime| + 5
    ensures f[..|ChartLabel(currentChart)|] == ChartLabel(currentChart)
    ensures f[|ChartLabel(currentChart)|] == '_'
    ensures f[|ChartLabel(currentChart)| + 1..|f| - 4] == Sanitize(isoTime)
    ensures f[|f| - 4..] == ".pdf"
  {
    ChartLabel(currentChart) + "_" + Sanitize(isoTime) + ".pdf"
  }

  /** The file name starts with the chart's label and an underscore, ends in
      `.pdf`, and has no other `:` or `.` in it. */
  lemma PdfFileNameShape(currentChart: string, isoTime: string)
    ensures var f := PdfFileName(currentChart, isoTime);
            var n := |ChartLabel(currentChart)|;
            && |f| == n + 1 + |isoTime| + 4
            && f[..n] == ChartLabel(currentChart) && f[n] == '_'
            && f[n + 1..|f| - 4] == Sanitize(isoTime)
            && f[|f| - 4..] == ".pdf"
            && (forall i :: 0 <= i < |f| - 4 ==> f[i] != ':' && f[i] != '.')
  {
    var lbl := ChartLabel(currentChart);
    var ts := Sanitize(isoTime);
    var f := PdfFileName(currentChart, isoTime);
    assert f == lbl + "_" + ts + ".pdf";
    forall i | 0 <= i < |f| - 4 ensures f[i] != ':' && f[i] != '.' {
      if i < |lbl| {
        assert f[i] == lbl[i];
      } else if i > |lbl| {
        assert f[i] == ts[i - |lbl| - 1];
      }
    }
  }

  /** Sanitising is idempotent: a sanitised timestamp has nothing left to
      replace. */
  lemma SanitizeIdempotent(s: string)
    ensures Sanitize(Sanitize(s)) == Sanitize(s)
  {
  }
}
