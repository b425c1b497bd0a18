/**
 The POST /api/upload route: its guards, and the reply it builds from the
 batch processFormDataFiles returns.
 */
module UploadRoute {
  import opened Wrappers
  import opened Text
  import opened Upload

  /** The route's answer: an error status with its message (and the per-file
      errors for a failed batch), or the lists of stored paths. */
  datatype UploadReply =
    | ErrorReply(status: nat, message: string, errors: seq<UploadError>)
    | Uploaded(images: seq<string>, videos: seq<string>, pdfs: seq<string>, documents: seq<string>,
               failures: Option<seq<UploadError>>, summary: string)

  const AllFailed := "All uploads failed"

  function Summary(total: nat, errorCount: nat): string {
    if errorCount > 0 then "Uploaded " + NatToString(total) + " file(s) with " + NatToString(errorCount) + " error(s)"
    else "Successfully uploaded " + NatToString(total) + " file(s)"
  }

  function StoredCount(b: Batch): nat {
    |b.images| + |b.videos| + |b.pdfs| + |b.documents|
  }

  /** The reply as written: totalUploaded counts images, videos and pdfs, and
      the reply carries no documents list. */
  function ReplyAsWritten(b: Batch): (r: UploadReply)
    ensures r.ErrorReply? <==> |b.images| + |b.videos| + |b.pdfs| == 0 && |b.errors| > 0
    ensures r.Uploaded? ==> r.documents == []
  {
    var total := |b.images| + |b.videos| + |b.pdfs|;
    var hasErrors := |b.errors| > 0;
    if total == 0 && hasErrors then ErrorReply(400, AllFailed, b.errors)
    else Uploaded(b.images, b.videos, b.pdfs, [], if hasErrors then Some(b.errors) else None,
                  Summary(total, |b.errors|))
  }

  /** A batch that stored one document and refused one other file is answered
      "All uploads failed", although the document was stored. */
  lemma StoredDocumentReportedAsFailure()
    ensures var b := Batch([], [], [], ["/uploads/documents/1-00-a.txt"], [UploadError("b.exe", TypeNotAllowed("x"))]);
      StoredCount(b) == 1 && ReplyAsWritten(b) == ErrorReply(400, AllFailed, b.errors)
  {
  }

  /** The reply counting every stored file, documents included. */
  function BatchReply(b: Batch): (r: UploadReply)
    ensures r.ErrorReply? <==> StoredCount(b) == 0 && |b.errors| > 0
    ensures r.Uploaded? ==>
      r.images == b.images && r.videos == b.videos && r.pdfs == b.pdfs && r.documents == b.documents
    ensures r.Uploaded? ==> (r.failures.Some? <==> |b.errors| > 0)
  {
    var total := StoredCount(b);
    var hasErrors := |b.errors| > 0;
    if total == 0 && hasErrors then ErrorReply(400, AllFailed, b.errors)
    else Uploaded(b.images, b.videos, b.pdfs, b.documents, if hasErrors then Some(b.errors) else None,
                  Summary(total, |b.errors|))
  }

  /** Within the size limit, the route fails exactly when no file of the form
      was stored, and then every non-empty file has its error. */
  lemma ReplyFailsOnlyWhenNothingStored(entries: seq<FormEntry>, env: nat -> SaveEnv)
    requires TotalSize(CollectFiles(entries)) <= MaxTotalSize
    ensures var b := ProcessFormDataFiles(entries, env);
      BatchReply(b).ErrorReply? ==> |b.errors| == |CollectFiles(entries)|
  {
    ProcessFormDataFilesCounts(entries, env);
  }

  /** `POST(request)`. The origin check, the session check and the multipart
      parse are inputs: originOk, authenticated and form (None when parsing
      throws). */
  function Post(originOk: bool, authenticated: bool, contentType: Option<string>,
                form: Option<seq<FormEntry>>, env: nat -> SaveEnv): (r: UploadReply)
    ensures !originOk ==> r.ErrorReply? && r.status == 403
    ensures originOk && !authenticated ==> r.ErrorReply? && r.status == 401
    ensures r.Uploaded? ==>
      originOk && authenticated && form.Some? && Contains(contentType.GetOr(""), "multipart/form-data")
    ensures originOk && authenticated && !Contains(contentType.GetOr(""), "multipart/form-data") ==>
      r == ErrorReply(400, "Content-Type must be multipart/form-data", [])
    ensures originOk && authenticated && Contains(contentType.GetOr(""), "multipart/form-data") && form.None? ==>
      r == ErrorReply(400, "Failed to parse upload data", [])
    ensures originOk && authenticated && Contains(contentType.GetOr(""), "multipart/form-data") && form.Some? ==>
      r == BatchReply(ProcessFormDataFiles(form.value, env))
  {
    if !originOk then ErrorReply(403, "Invalid request origin", [])
    else if !authenticated then ErrorReply(401, "Unauthorized", [])
    else if !Contains(contentType.GetOr(""), "multipart/form-data") then
      ErrorReply(400, "Content-Type must be multipart/form-data", [])
    else if form.None? then ErrorReply(400, "Failed to parse upload data", [])
    else BatchReply(ProcessFormDataFiles(form.value, env))
  }

  /** A multipart request within the size limit is answered with every
      non-empty file of the form accounted for: stored under one of the four
      lists or listed among the failures. */
  lemma PostAccountsForEveryFile(contentType: string, entries: seq<FormEntry>, env: nat -> SaveEnv)
    requires Contains(contentType, "multipart/form-data")
    requires TotalSize(CollectFiles(entries)) <= MaxTotalSize
    ensures var r := Post(true, true, Some(contentType), Some(entries), env);
      r.Uploaded? ==>
        |r.images| + |r.videos| + |r.pdfs| + |r.documents| + |r.failures.GetOr([])| == |CollectFiles(entries)|
  {
    ProcessFormDataFilesCounts(entries, env);
  }
}
