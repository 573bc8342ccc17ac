/**
 * `SapSsrClient::new` of packages/mini-rusaint/src/webdynpro/client.rs: fetch
 * the start page of a WebDynpro application and read the server-side-rendering
 * client's bootstrap fields out of the page's `sap.client.SsrClient.form`.
 *
 * Extract is the order-by-order reading of the page (forms in document
 * order, each form's inputs in document order, later values overwriting
 * earlier ones); ScanForms is the source's nested loop over five locals,
 * proved to compute it; the lemmas characterise Extract independently
 * (defaults, last form's action, last matching input per field).
 */
module SsrClient {

  import opened Wrappers
  import opened Html
  import opened Http

  datatype SapSsrClient = SapSsrClient(
    actionUrl: string,
    charset: string,
    wdSecureId: string,
    appName: string,
    useBeacon: bool)

  datatype SsrClientError = RequestError

  const BaseUrl := "https://ecc.ssu.ac.kr"
  const AppPath := "/sap/bc/webdynpro/SAP/"
  const StableIds := "?sap-wd-stableids=x"

  const FormSelector := IdSelector("sap.client.SsrClient.form")
  const InputSelector := Tag("input")

  const CharsetName := "sap-charset"
  const SecureIdName := "sap-wd-secure-id"
  const AppNameName := "fesrAppName"
  const UseBeaconName := "fesrUseBeacon"

  /** The five locals before the first form is read. */
  const Blank := SapSsrClient("", "", "", "", false)

  /** The start page of application `appName`. */
  function BootstrapUrl(appName: string): (url: string)
    ensures |url| == |BaseUrl| + |AppPath| + |appName| + |StableIds|
  {
    BaseUrl + AppPath + appName + StableIds
  }

  /** Different applications are fetched from different URLs: the name sits between fixed text. */
  lemma BootstrapUrlInjective(a: string, b: string)
    requires BootstrapUrl(a) == BootstrapUrl(b)
    ensures a == b
  {
    var n := |BaseUrl| + |AppPath|;
    assert a == BootstrapUrl(a)[n..n + |a|];
    assert b == BootstrapUrl(b)[n..n + |b|];
  }

  predicate Recognised(name: string) {
    name == CharsetName || name == SecureIdName || name == AppNameName || name == UseBeaconName
  }

  function InputName(input: Node): string {
    AttrOr(input, "name")
  }

  function InputValue(input: Node): string {
    AttrOr(input, "value")
  }

  /** The effect of one input on the locals: a recognised name overwrites its field. */
  function ApplyInput(c: SapSsrClient, input: Node): SapSsrClient {
    var name, value := InputName(input), InputValue(input);
    if name == CharsetName then c.(charset := value)
    else if name == SecureIdName then c.(wdSecureId := value)
    else if name == AppNameName then c.(appName := value)
    else if name == UseBeaconName then c.(useBeacon := value == "true")
    else c
  }

  function ApplyInputs(c: SapSsrClient, inputs: seq<Node>): SapSsrClient
    decreases |inputs|
  {
    if inputs == [] then c
    else ApplyInput(ApplyInputs(c, inputs[..|inputs| - 1]), inputs[|inputs| - 1])
  }

  /** The inputs of a form: its `input` descendants, in document order. */
  function Inputs(form: Node): seq<Node> {
    SelectWithin(form, InputSelector)
  }

  /** One form: its action (or "") replaces the action URL, then its inputs apply. */
  function ApplyForm(c: SapSsrClient, form: Node): SapSsrClient {
    ApplyInputs(c.(actionUrl := AttrOr(form, "action")), Inputs(form))
  }

  function ApplyForms(c: SapSsrClient, forms: seq<Node>): SapSsrClient
    decreases |forms|
  {
    if forms == [] then c
    else ApplyForm(ApplyForms(c, forms[..|forms| - 1]), forms[|forms| - 1])
  }

  function Forms(page: Document): seq<Node> {
    Select(page, FormSelector)
  }

  /** The bootstrap fields a page yields. */
  function Extract(page: Document): SapSsrClient {
    ApplyForms(Blank, Forms(page))
  }

  /** The loops of `SapSsrClient::new` over the forms and their inputs. */
  method ScanForms(page: Document) returns (client: SapSsrClient)
    ensures client == Extract(page)
  {
    var actionUrl, charset, wdSecureId, appName, useBeacon := "", "", "", "", false;
    var forms := Select(page, FormSelector);
    for i := 0 to |forms|
      invariant SapSsrClient(actionUrl, charset, wdSecureId, appName, useBeacon) == ApplyForms(Blank, forms[..i])
    {
      var form := forms[i];
      ghost var before := SapSsrClient(actionUrl, charset, wdSecureId, appName, useBeacon);
      actionUrl := AttrOr(form, "action");
      var inputs := SelectWithin(form, InputSelector);
      for j := 0 to |inputs|
        invariant SapSsrClient(actionUrl, charset, wdSecureId, appName, useBeacon)
                  == ApplyInputs(before.(actionUrl := AttrOr(form, "action")), inputs[..j])
      {
        var name := AttrOr(inputs[j], "name");
        var value := AttrOr(inputs[j], "value");
        ghost var current := SapSsrClient(actionUrl, charset, wdSecureId, appName, useBeacon);
        if name == CharsetName {
          charset := value;
        } else if name == SecureIdName {
          wdSecureId := value;
        } else if name == AppNameName {
          appName := value;
        } else if name == UseBeaconName {
          useBeacon := value == "true";
        }
        assert SapSsrClient(actionUrl, charset, wdSecureId, appName, useBeacon) == ApplyInput(current, inputs[j]);
        ApplyInputsStep(before.(actionUrl := AttrOr(form, "action")), inputs, j);
      }
      assert inputs[..|inputs|] == inputs;
      ApplyFormsStep(Blank, forms, i);
    }
    assert forms[..|forms|] == forms;
    client := SapSsrClient(actionUrl, charset, wdSecureId, appName, useBeacon);
  }

  lemma ApplyInputsStep(c: SapSsrClient, inputs: seq<Node>, j: nat)
    requires j < |inputs|
    ensures ApplyInputs(c, inputs[..j + 1]) == ApplyInput(ApplyInputs(c, inputs[..j]), inputs[j])
  {
    assert inputs[..j + 1][..j] == inputs[..j];
  }

  lemma ApplyFormsStep(c: SapSsrClient, forms: seq<Node>, i: nat)
    requires i < |forms|
    ensures ApplyForms(c, forms[..i + 1]) == ApplyForm(ApplyForms(c, forms[..i]), forms[i])
  {
    assert forms[..i + 1][..i] == forms[..i];
  }

  /** `SapSsrClient::new`: one GET of the start page; once the page is read, construction succeeds. */
  method New(http: Client, appName: string) returns (r: Result<SapSsrClient, SsrClientError>)
    modifies http
    ensures http.sent == old(http.sent) + [Get(BootstrapUrl(appName))]
    ensures r == match http.server(http.sent)
                 case None => Err(RequestError)
                 case Some(response) =>
                   match response.body
                   case None => Err(RequestError)
                   case Some(page) => Ok(Extract(page))
  {
    var reply := http.Send(Get(BootstrapUrl(appName)));
    if reply.None? {
      r := Err(RequestError);
      return;
    }
    var body := reply.value.body;
    match body {
      case None =>
        r := Err(RequestError);
      case Some(page) =>
        var client := ScanForms(page);
        r := Ok(client);
    }
  }

  // ---------------------------------------------------------------------
  // A reference reading of Extract: every field is the last word on it.
  // ---------------------------------------------------------------------

  /** The value of the last input named `name`, scanning backwards. */
  function LastValue(inputs: seq<Node>, name: string): Option<string>
    decreases |inputs|
  {
    if inputs == [] then None
    else if InputName(inputs[|inputs| - 1]) == name then Some(InputValue(inputs[|inputs| - 1]))
    else LastValue(inputs[..|inputs| - 1], name)
  }

  /** LastValue finds a value exactly when some input carries the name. */
  lemma {:induction false} LastValueFound(inputs: seq<Node>, name: string)
    ensures LastValue(inputs, name).Some? <==> exists i :: 0 <= i < |inputs| && InputName(inputs[i]) == name
    decreases |inputs|
  {
    if inputs != [] {
      var front, last := inputs[..|inputs| - 1], inputs[|inputs| - 1];
      if InputName(last) == name {
        assert InputName(inputs[|inputs| - 1]) == name;
      } else {
        LastValueFound(front, name);
        assert forall i :: 0 <= i < |front| ==> front[i] == inputs[i];
        assert inputs == front + [last];
      }
    }
  }

  /** The position of the last input carrying the name, when LastValue finds one. */
  lemma {:induction false} LastIndex(inputs: seq<Node>, name: string) returns (i: nat)
    requires LastValue(inputs, name).Some?
    ensures i < |inputs| && InputName(inputs[i]) == name && InputValue(inputs[i]) == LastValue(inputs, name).value
    ensures forall j :: i < j < |inputs| ==> InputName(inputs[j]) != name
    decreases |inputs|
  {
    var front := inputs[..|inputs| - 1];
    if InputName(inputs[|inputs| - 1]) == name {
      i := |inputs| - 1;
    } else {
      i := LastIndex(front, name);
      assert inputs[i] == front[i];
      forall j | i < j < |inputs|
        ensures InputName(inputs[j]) != name
      {
        if j < |front| { assert inputs[j] == front[j]; }
      }
    }
  }

  /** The value found is the one of the last input carrying the name. */
  lemma LastValueIsLast(inputs: seq<Node>, name: string)
    requires LastValue(inputs, name).Some?
    ensures exists i :: 0 <= i < |inputs| && InputName(inputs[i]) == name
                        && InputValue(inputs[i]) == LastValue(inputs, name).value
                        && forall j :: i < j < |inputs| ==> InputName(inputs[j]) != name
  {
    var i := LastIndex(inputs, name);
  }

  /** The inputs of all forms, form after form. */
  function AllInputs(forms: seq<Node>): seq<Node>
    decreases |forms|
  {
    if forms == [] then [] else AllInputs(forms[..|forms| - 1]) + Inputs(forms[|forms| - 1])
  }

  /** How the beacon flag reads an input value: only the exact text "true" sets it. */
  function BeaconOr(v: Option<string>, default: bool): bool {
    match v
    case None => default
    case Some(text) => text == "true"
  }

  lemma {:induction false} LastValueAppend(a: seq<Node>, b: seq<Node>, name: string)
    ensures LastValue(a + b, name) == if LastValue(b, name).Some? then LastValue(b, name) else LastValue(a, name)
    decreases |b|
  {
    if b == [] {
      assert a + b == a;
    } else {
      var front := b[..|b| - 1];
      assert (a + b)[..|a + b| - 1] == a + front;
      assert (a + b)[|a + b| - 1] == b[|b| - 1];
      LastValueAppend(a, front, name);
    }
  }

  /** Inputs leave the action URL alone and set each field to its last recognised value. */
  lemma {:induction false} ApplyInputsFields(c: SapSsrClient, inputs: seq<Node>)
    ensures ApplyInputs(c, inputs).actionUrl == c.actionUrl
    ensures ApplyInputs(c, inputs).charset == LastValue(inputs, CharsetName).GetOr(c.charset)
    ensures ApplyInputs(c, inputs).wdSecureId == LastValue(inputs, SecureIdName).GetOr(c.wdSecureId)
    ensures ApplyInputs(c, inputs).appName == LastValue(inputs, AppNameName).GetOr(c.appName)
    ensures ApplyInputs(c, inputs).useBeacon == BeaconOr(LastValue(inputs, UseBeaconName), c.useBeacon)
    decreases |inputs|
  {
    if inputs != [] {
      ApplyInputsFields(c, inputs[..|inputs| - 1]);
    }
  }

  lemma {:induction false} ApplyFormsFields(c: SapSsrClient, forms: seq<Node>)
    ensures ApplyForms(c, forms).actionUrl == if forms == [] then c.actionUrl else AttrOr(forms[|forms| - 1], "action")
    ensures ApplyForms(c, forms).charset == LastValue(AllInputs(forms), CharsetName).GetOr(c.charset)
    ensures ApplyForms(c, forms).wdSecureId == LastValue(AllInputs(forms), SecureIdName).GetOr(c.wdSecureId)
    ensures ApplyForms(c, forms).appName == LastValue(AllInputs(forms), AppNameName).GetOr(c.appName)
    ensures ApplyForms(c, forms).useBeacon == BeaconOr(LastValue(AllInputs(forms), UseBeaconName), c.useBeacon)
    decreases |forms|
  {
    if forms != [] {
      var front, form := forms[..|forms| - 1], forms[|forms| - 1];
      var before := ApplyForms(c, front);
      ApplyFormsFields(c, front);
      ApplyInputsFields(before.(actionUrl := AttrOr(form, "action")), Inputs(form));
      LastValueAppend(AllInputs(front), Inputs(form), CharsetName);
      LastValueAppend(AllInputs(front), Inputs(form), SecureIdName);
      LastValueAppend(AllInputs(front), Inputs(form), AppNameName);
      LastValueAppend(AllInputs(front), Inputs(form), UseBeaconName);
    }
  }

  /** A page without the bootstrap form yields four empty strings and a cleared beacon flag. */
  lemma ExtractWithoutForm(page: Document)
    requires Forms(page) == []
    ensures Extract(page) == SapSsrClient("", "", "", "", false)
  {
  }

  /**
   * What `SapSsrClient::new` reads from a page: the action of the last form
   * ("" when that form has none), and for each field the value of the last
   * input carrying its name across all forms ("" when that input has no
   * value, the default when there is no such input).
   */
  lemma ExtractFields(page: Document)
    ensures Extract(page).actionUrl == if Forms(page) == [] then "" else AttrOr(Forms(page)[|Forms(page)| - 1], "action")
    ensures Extract(page).charset == LastValue(AllInputs(Forms(page)), CharsetName).GetOr("")
    ensures Extract(page).wdSecureId == LastValue(AllInputs(Forms(page)), SecureIdName).GetOr("")
    ensures Extract(page).appName == LastValue(AllInputs(Forms(page)), AppNameName).GetOr("")
    ensures Extract(page).useBeacon <==> LastValue(AllInputs(Forms(page)), UseBeaconName) == Some("true")
  {
    ApplyFormsFields(Blank, Forms(page));
  }

  /** An input whose name is absent or not one of the four leaves every field as it was. */
  lemma UnrecognisedInputIgnored(c: SapSsrClient, front: seq<Node>, input: Node, back: seq<Node>)
    requires !Recognised(InputName(input))
    ensures ApplyInputs(c, front + [input] + back) == ApplyInputs(c, front + back)
  {
    ApplyInputsFields(c, front + [input] + back);
    ApplyInputsFields(c, front + back);
    forall name | Recognised(name)
      ensures LastValue(front + [input] + back, name) == LastValue(front + back, name)
    {
      LastValueAppend(front + [input], back, name);
      LastValueAppend(front, [input], name);
      LastValueAppend(front, back, name);
      assert [input][..0] == [];
    }
  }
}
