/** The two collaborators the account code hands work to: the per-request
    background-task queue that later sends confirmation mail, and the image
    host that turns an upload into a URL. Neither one's implementation is
    part of this model; each records what it was asked to do. */
module External {

  /** A queued `send_email(email, username, base_url)` task. */
  datatype EmailJob = EmailJob(email: string, username: string, baseUrl: string)

  /** FastAPI's BackgroundTasks: the tasks queued so far, in order. */
  class BackgroundTasks {
    var queued: seq<EmailJob>

    constructor ()
      ensures queued == []
    {
      queued := [];
    }

    /** `background_tasks.add_task(send_email, email, username, base_url)` */
    method AddSendEmail(email: string, username: string, baseUrl: string)
      modifies this
      ensures queued == old(queued) + [EmailJob(email, username, baseUrl)]
    {
      queued := queued + [EmailJob(email, username, baseUrl)];
    }
  }

  /** The bytes of an uploaded file. */
  datatype UploadFile = UploadFile(filename: string, content: seq<int>)

  /** What is handed to the uploader as its `file` argument: an uploaded
      file, or, in its place, the coroutine object that an `upload_file(file,
      public_id)` call evaluates to when it is not awaited. Nothing has been
      uploaded for such a pending call. */
  datatype Payload = FilePayload(file: UploadFile) | PendingUpload(pending: UploadFile, pendingId: string)

  /** One `upload_file(payload, public_id)` call. */
  datatype UploadCall = UploadCall(payload: Payload, publicId: string)

  /** The image host: `host` is the URL it returns for a payload stored
      under a public id; `calls` records every upload, in order. */
  class UploadFileService {
    const host: (Payload, string) -> string
    var calls: seq<UploadCall>

    constructor (host: (Payload, string) -> string)
      ensures this.host == host && calls == []
    {
      this.host := host;
      calls := [];
    }

    method Upload(payload: Payload, publicId: string) returns (url: string)
      modifies this
      ensures url == host(payload, publicId)
      ensures calls == old(calls) + [UploadCall(payload, publicId)]
    {
      url := host(payload, publicId);
      calls := calls + [UploadCall(payload, publicId)];
    }
  }
}
