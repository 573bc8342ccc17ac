/**
 * `SapSsrClient::new` of src/webdynpro/client.rs: the same bootstrap reading
 * as SsrClient, with the start page of the course-grades application written
 * out as a constant instead of being built from the application name.
 */
module FixedSsrClient {

  import opened Wrappers
  import opened Http
  import opened SsrClient

  /** The fixed start page (src/webdynpro/client.rs, lines 6-7). */
  const StartPageUrl :=
    "https://ecc.ssu.ac.kr/sap" + "/bc/webdynpro/SAP/ZCMB" + "3W0017?sap-wd-" + "stableids=x"

  /** The constant is the start page of application ZCMB3W0017 as SsrClient builds it. */
  lemma StartPageIsBootstrapUrl()
    ensures StartPageUrl == BootstrapUrl("ZCMB3W0017")
  {
    var a, b, c, d := "https://ecc.ssu.ac.kr", "/sap", "/bc/webdynpro/SAP/", "ZCMB";
    var e, f, g := "3W0017", "?sap-wd-", "stableids=x";
    SplitHost();
    SplitPath();
    SplitQueryStart();
    SplitAppPath();
    SplitAppName();
    SplitStableIds();
    Regroup(a, b, c, d, e, f, g);
  }

  lemma SplitHost() ensures "https://ecc.ssu.ac.kr/sap" == BaseUrl + "/sap" { }
  lemma SplitPath() ensures "/bc/webdynpro/SAP/ZCMB" == "/bc/webdynpro/SAP/" + "ZCMB" { }
  lemma SplitQueryStart() ensures "3W0017?sap-wd-" == "3W0017" + "?sap-wd-" { }
  lemma SplitAppPath() ensures AppPath == "/sap" + "/bc/webdynpro/SAP/" { }
  lemma SplitAppName() ensures "ZCMB3W0017" == "ZCMB" + "3W0017" { }
  lemma SplitStableIds() ensures StableIds == "?sap-wd-" + "stableids=x" { }

  lemma Regroup(a: string, b: string, c: string, d: string, e: string, f: string, g: string)
    ensures (a + b) + (c + d) + (e + f) + g == a + (b + c) + (d + e) + (f + g)
  {
  }

  /** One GET of the fixed page; once the page is read, construction succeeds with what it holds. */
  method New(http: Client) returns (r: Result<SapSsrClient, SsrClientError>)
    modifies http
    ensures http.sent == old(http.sent) + [Get(StartPageUrl)]
    ensures r == match http.server(http.sent)
                 case None => Err(RequestError)
                 case Some(response) =>
                   match response.body
                   case None => Err(RequestError)
                   case Some(page) => Ok(Extract(page))
  {
    var reply := http.Send(Get(StartPageUrl));
    if reply.None? {
      r := Err(RequestError);
      return;
    }
    var body := reply.value.body;
    match body {
      case None =>
        r := Err(RequestError);
      case Some(page) =>
        var client := ScanForms(page);
        r := Ok(client);
    }
  }
}
