/**
 * The request and response objects of the serverless runtime, as far as the
 * handlers use them.
 */
module Http {
  import opened Wrappers

  /** A query parameter: absent, given once (a string) or repeated (an array). */
  datatype QueryValue = Absent | One(s: string) | Many(items: seq<string>)

  /**
   * The part of a Node.js `ServerResponse` the handlers touch; `B` is the
   * shape of the JSON body an endpoint sends.
   */
  class Response<B> {
    var headers: map<string, string>
    var statusCode: int
    var ended: bool
    var body: Option<B>

    constructor ()
      ensures headers == map[] && statusCode == 200 && !ended && body == None
    {
      headers := map[];
      statusCode := 200;
      ended := false;
      body := None;
    }

    /** `res.setHeader(name, value)`: the last write of a name wins. */
    method SetHeader(name: string, value: string)
      modifies this
      ensures headers == old(headers)[name := value]
      ensures statusCode == old(statusCode) && ended == old(ended) && body == old(body)
    {
      headers := headers[name := value];
    }

    /** `res.end()` */
    method End()
      modifies this
      ensures ended
      ensures headers == old(headers) && statusCode == old(statusCode) && body == old(body)
    {
      ended := true;
    }

    /** `res.status(status).json(value)`: sets the status, sends the body and ends. */
    method Json(status: int, value: B)
      modifies this
      ensures statusCode == status && body == Some(value) && ended
      ensures headers == old(headers)
    {
      statusCode := status;
      body := Some(value);
      ended := true;
    }
  }
}
