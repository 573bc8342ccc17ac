/**
 * The wire as the model sees it. A request is a GET of a URL or a POST of an
 * ordered list of form fields. The `SAPEVENTQUEUE` field carries the text of
 * a WebDynpro event or event queue; its serialiser is not part of this model,
 * so the field keeps the events it renders as structured values.
 *
 * The HTTP client, with its cookie session, is a log of the requests sent so
 * far and a server oracle that maps that log to the response answering the
 * last request, or to nothing when sending it fails. Reading the body of a
 * response can fail on its own, after the send succeeded.
 */
module Http {

  import opened Wrappers
  import opened Html

  /** One event as `SapEventBuilder` builds it: event name, control name, parameters in order. */
  datatype SapEvent = SapEvent(event: string, control: string, parameters: seq<(string, string)>)

  /** The text of one event (`SapEvent::to_string`) or of a queue (`SapEventQueue::to_string`). */
  datatype EventText =
    | EventString(sapEvent: SapEvent)
    | QueueString(queue: seq<SapEvent>)

  datatype FieldValue =
    | Plain(text: string)
    | Events(events: EventText)

  datatype Request =
    | Get(url: string)
    | Post(url: string, fields: seq<(string, FieldValue)>)

  /** A response that arrived: its body (`text().await`, then `Html::parse_document`), or nothing when reading it fails. */
  datatype Response = Response(body: Option<Document>)

  /** The server side of a session: what the log of requests, ending in the current one, is answered with. */
  type Server = seq<Request> -> Option<Response>

  class Client {
    const server: Server
    var sent: seq<Request>

    constructor (server: Server)
      ensures this.server == server && sent == []
    {
      this.server := server;
      sent := [];
    }

    /** `send().await`: nothing when the request could not be sent. */
    method Send(request: Request) returns (reply: Option<Response>)
      modifies this
      ensures sent == old(sent) + [request]
      ensures reply == server(sent)
    {
      sent := sent + [request];
      reply := server(sent);
    }
  }
}
