/**
 * `Application` of src/applications.rs: an HTTP client together with the
 * bootstrap fields read once, when the application is opened, and reused by
 * every later request. A request is a POST to the bootstrap action URL on the
 * WebDynpro host, with four form fields copied from the bootstrap record and,
 * when one is given, the event queue as a fifth.
 */
module Applications {

  import opened Wrappers
  import opened Html
  import opened Http
  import opened SsrClient

  /** `ApplicationError`: the bootstrap failed, or a request could not be sent. */
  datatype ApplicationError = SsrClientError | RequestError

  const EventQueueKey := "SAPEVENTQUEUE"

  /** `bool::to_string`. */
  function BoolString(b: bool): (s: string)
    ensures (s == "true") == b
  {
    if b then "true" else "false"
  }

  /** The POST target: the host, a slash, then the action URL of the bootstrap form. */
  function PostUrl(ssr: SapSsrClient): (url: string)
    ensures |url| == |BaseUrl| + 1 + |ssr.actionUrl|
    ensures url[..|BaseUrl|] == BaseUrl && url[|BaseUrl|] == '/' && url[|BaseUrl| + 1..] == ssr.actionUrl
  {
    var url := BaseUrl + "/" + ssr.actionUrl;
    assert url[..|BaseUrl|] == BaseUrl;
    assert url[|BaseUrl| + 1..] == ssr.actionUrl;
    url
  }

  /** The value of the first field named `key`. */
  function Field(fields: seq<(string, FieldValue)>, key: string): Option<FieldValue> {
    if fields == [] then None
    else if fields[0].0 == key then Some(fields[0].1)
    else Field(fields[1..], key)
  }

  function Keys(fields: seq<(string, FieldValue)>): (keys: seq<string>)
    ensures |keys| == |fields| && forall i :: 0 <= i < |fields| ==> keys[i] == fields[i].0
  {
    if fields == [] then [] else [fields[0].0] + Keys(fields[1..])
  }

  /** The form fields of `send_request`, in the order they are sent. */
  function FormFields(ssr: SapSsrClient, queue: Option<EventText>): (fields: seq<(string, FieldValue)>)
    ensures Keys(fields) == ["charset", "sap-wd-secure-id", "fesrAppName", "fesrUseBeacon"]
                            + (if queue.Some? then [EventQueueKey] else [])
  {
    var head := [("charset", Plain(ssr.charset)),
                 ("sap-wd-secure-id", Plain(ssr.wdSecureId)),
                 ("fesrAppName", Plain(ssr.appName)),
                 ("fesrUseBeacon", Plain(BoolString(ssr.useBeacon)))];
    if queue.Some? then head + [(EventQueueKey, Events(queue.value))] else head
  }

  /** The request `send_request` hands to the client. */
  function PostRequest(ssr: SapSsrClient, queue: Option<EventText>): Request {
    Post(PostUrl(ssr), FormFields(ssr, queue))
  }

  /**
   * Each bootstrap field is sent verbatim under its key (the `sap-charset`
   * value under `charset`), the beacon flag as "true" or "false", and the
   * event queue exactly when one is given.
   */
  lemma FormFieldValues(ssr: SapSsrClient, queue: Option<EventText>)
    ensures Field(FormFields(ssr, queue), "charset") == Some(Plain(ssr.charset))
    ensures Field(FormFields(ssr, queue), "sap-wd-secure-id") == Some(Plain(ssr.wdSecureId))
    ensures Field(FormFields(ssr, queue), "fesrAppName") == Some(Plain(ssr.appName))
    ensures Field(FormFields(ssr, queue), "fesrUseBeacon") == Some(Plain(if ssr.useBeacon then "true" else "false"))
    ensures Field(FormFields(ssr, queue), EventQueueKey) == if queue.Some? then Some(Events(queue.value)) else None
  {
    var f0 := FormFields(ssr, queue);
    var f1, f2, f3 := f0[1..], f0[2..], f0[3..];
    var f4 := f0[4..];
    assert f1[1..] == f2 && f2[1..] == f3 && f3[1..] == f4;
    assert f4 == if queue.Some? then [(EventQueueKey, Events(queue.value))] else [];
    assert |f0[0].0| == 7 && |f1[0].0| == 16 && |f2[0].0| == 11 && |f3[0].0| == 13 && |EventQueueKey| == 13;
    assert f3[0].0[0] == 'f' && EventQueueKey[0] == 'S';
    assert Field(f0, "fesrAppName") == Field(f1, "fesrAppName") == Field(f2, "fesrAppName");
    assert Field(f0, "fesrUseBeacon") == Field(f1, "fesrUseBeacon") == Field(f2, "fesrUseBeacon") == Field(f3, "fesrUseBeacon");
    assert Field(f0, EventQueueKey) == Field(f1, EventQueueKey) == Field(f2, EventQueueKey)
        == Field(f3, EventQueueKey) == Field(f4, EventQueueKey);
  }

  /** The event queue, when present, is the fifth and last field. */
  lemma EventQueueLast(ssr: SapSsrClient, queue: EventText)
    ensures |FormFields(ssr, Some(queue))| == 5
    ensures FormFields(ssr, Some(queue))[4] == (EventQueueKey, Events(queue))
  {
  }

  /** A beacon flag sent by the form decodes back, by the bootstrap rule, to itself. */
  lemma BeaconRoundTrip(b: bool)
    ensures BeaconOr(Some(BoolString(b)), !b) == b
  {
  }

  class Application {
    const http: Client
    const ssr: SapSsrClient

    constructor (http: Client, ssr: SapSsrClient)
      ensures this.http == http && this.ssr == ssr
    {
      this.http := http;
      this.ssr := ssr;
    }

    /** The field list as `send_request` assembles it: four fields, then the queue pushed if given. */
    method BuildForm(queue: Option<EventText>) returns (fields: seq<(string, FieldValue)>)
      ensures fields == FormFields(ssr, queue)
    {
      var useBeacon := BoolString(ssr.useBeacon);
      fields := [("charset", Plain(ssr.charset)),
                 ("sap-wd-secure-id", Plain(ssr.wdSecureId)),
                 ("fesrAppName", Plain(ssr.appName)),
                 ("fesrUseBeacon", Plain(useBeacon))];
      if queue.Some? {
        fields := fields + [(EventQueueKey, Events(queue.value))];
      }
    }

    /**
     * `send_request`: one POST built from the stored bootstrap fields; the
     * response, with its body not yet read, or RequestError when the POST
     * could not be sent.
     */
    method SendRequest(queue: Option<EventText>) returns (r: Result<Response, ApplicationError>)
      modifies http
      ensures http.sent == old(http.sent) + [PostRequest(ssr, queue)]
      ensures r == match http.server(http.sent)
                   case None => Err(ApplicationError.RequestError)
                   case Some(response) => Ok(response)
    {
      var url := BaseUrl + "/" + ssr.actionUrl;
      var fields := BuildForm(queue);
      var reply := http.Send(Post(url, fields));
      r := if reply.None? then Err(ApplicationError.RequestError) else Ok(reply.value);
    }
  }

  /**
   * `Application::new`: read the bootstrap fields of `appName` once. The
   * result holds the client and the record read; the record is a constant
   * of the object, so every later request reuses it.
   */
  method New(http: Client, appName: string) returns (r: Result<Application, ApplicationError>)
    modifies http
    ensures http.sent == old(http.sent) + [Get(BootstrapUrl(appName))]
    ensures r.Ok? <==> http.server(http.sent).Some? && http.server(http.sent).value.body.Some?
    ensures r.Ok? ==> fresh(r.value) && r.value.http == http
                      && r.value.ssr == Extract(http.server(http.sent).value.body.value)
    ensures r.Err? ==> r.error == SsrClientError
  {
    var ssr := SsrClient.New(http, appName);
    match ssr {
      case Err(_) =>
        r := Err(SsrClientError);
      case Ok(value) =>
        var app := new Application(http, value);
        r := Ok(app);
    }
  }
}
