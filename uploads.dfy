/** What `upload` does with a decoded form (www.py:128-133): the bytes it
    stores and the report it returns. */
module Uploads {
  import opened Options
  import opened Text
  import opened Forms

  const FILE_FIELD := "file"
  const REPORT_HEAD := "uploaded: "
  const REPORT_TAIL := " bytes written\n"

  /** The bytes of `form["file"].file.read()`, or `None` when that lookup
      raises: no `file` field, or one that carries no uploaded file. */
  function UploadedData(form: Form): (d: Option<seq<bv8>>)
    ensures d.Some? <==> FILE_FIELD in form && form[FILE_FIELD].file.Some?
    ensures d.Some? ==> d.value == form[FILE_FIELD].file.value
  {
    if FILE_FIELD in form then form[FILE_FIELD].file else None
  }

  /** The stored artifact after `upload`: opening it for writing empties it
      before the field is looked up, so a failed lookup leaves it empty. */
  function ArtifactAfterUpload(form: Form): seq<bv8>
  {
    match UploadedData(form)
    case Some(d) => d
    case None => []
  }

  /** `"uploaded: {} bytes written\n".format(count)`. */
  function UploadReport(count: nat): string
  {
    REPORT_HEAD + Decimal(count) + REPORT_TAIL
  }

  /** What `upload` returns, or `None` when it raises. */
  function UploadResult(form: Form): Option<string>
  {
    match UploadedData(form)
    case Some(d) => Some(UploadReport(|d|))
    case None => None
  }

  /** Reads the byte count back out of an upload report. */
  function ReportedCount(msg: string): Option<nat>
  {
    var lo := |REPORT_HEAD|;
    if |msg| > lo + |REPORT_TAIL|
       && msg[..lo] == REPORT_HEAD
       && msg[|msg| - |REPORT_TAIL|..] == REPORT_TAIL
       && AllDigits(msg[lo..|msg| - |REPORT_TAIL|])
    then Some(ParseDecimal(msg[lo..|msg| - |REPORT_TAIL|]))
    else None
  }

  /** The report states the number of bytes written, recoverably. */
  lemma ReportRoundTrip(count: nat)
    ensures ReportedCount(UploadReport(count)) == Some(count)
  {
    var digits := Decimal(count);
    var msg := UploadReport(count);
    var lo := |REPORT_HEAD|;
    assert msg[..lo] == REPORT_HEAD;
    assert msg[|msg| - |REPORT_TAIL|..] == REPORT_TAIL;
    assert msg[lo..|msg| - |REPORT_TAIL|] == digits;
    DecimalRoundTrip(count);
  }

  /** Whatever the artifact held before, a successful upload leaves exactly
      the uploaded bytes and reports their number. */
  lemma UploadReportsStoredBytes(form: Form)
    requires UploadResult(form).Some?
    ensures ReportedCount(UploadResult(form).value) == Some(|ArtifactAfterUpload(form)|)
    ensures ArtifactAfterUpload(form) == form[FILE_FIELD].file.value
  {
    ReportRoundTrip(|ArtifactAfterUpload(form)|);
  }
}
