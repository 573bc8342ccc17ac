/**
 * `CourseGradesApplication` of src/applications/course_grades.rs: the screen
 * ZCMB3W0017 driven through its WebDynpro events. The grade records read out
 * of table rows (`SemesterGrade::from_html_element`,
 * `CourseGrade::from_html_element`, `create_detailed_grades`) are not part of
 * this model: the results are the table rows and detail tables those readers
 * are given. `SemesterType::key()` is not part of this model either: a
 * semester is given by its key.
 *
 * Each operation that talks to the server is a method of the class, proved
 * equal to a specification function of the request log before the call (the
 * result it returns and the log after it); the lemmas state what the source
 * promises about those functions.
 */
module CourseGrades {

  import opened Wrappers
  import opened Html
  import opened Http
  import SsrClient
  import Applications

  newtype u32 = x: int | 0 <= x < 0x1_0000_0000

  const AppName := "ZCMB3W0017"
  const SemesterGradesSummaryTableId := "ZCMB3W0017.ID_0001:VIW_MAIN.TABLE-contentTBody"
  const SemesterGradesDetailTableId := "ZCMB3W0017.ID_0001:VIW_MAIN.TABLE_1-contentTBody"
  const CourseGradesDetailTableId := "ZCMB3W0017.ID_0001:V_DETAIL.TABLE-contentTBody"
  const PopupCloseButtonId := "ZCMB3W0017.ID_0001:W_POPUP.WDBUTTON_5"
  const YearComboBoxId := "ZCMW_PERIOD_RE.ID_0DC742680F42DA9747594D1AE51A0C69:VIW_MAIN.PERYR"
  const SemesterComboBoxId := "ZCMW_PERIOD_RE.ID_0DC742680F42DA9747594D1AE51A0C69:VIW_MAIN.PERID"

  /** `[ct="B"]`: the detail button inside a row's fifth cell. */
  const ButtonSelector := AttrEquals("ct", "B")

  /**
   * `CourseGradesApplicationError`. A request that could not be sent fails
   * inside `send_request` and arrives wrapped, as
   * ApplicationError(Applications.RequestError); opening the screen fails as
   * ApplicationError(Applications.SsrClientError). RequestError is a body
   * that could not be read. MissingButtonId and MissingDetailTable stand for
   * the two `unwrap` panics.
   */
  datatype GradesError =
    | ApplicationError(cause: Applications.ApplicationError)
    | RequestError
    | HtmlParseError
    | MissingButtonId
    | MissingDetailTable

  /** What a course row carries as detailed grades. */
  datatype Detail =
    | NotFetched                // left as `from_html_element` made it
    | NoDetails                 // the empty map: the row has no detail button
    | DetailTable(tbody: Node)  // the table `create_detailed_grades` reads

  datatype CourseGrade = CourseGrade(row: Node, detail: Detail)

  /** A result together with the request log after the operation. */
  datatype Outcome<T> = Outcome(result: Result<T, GradesError>, log: seq<Request>)

  /** How a request that could not be sent is reported. */
  const SendFailed := ApplicationError(Applications.RequestError)

  // ---------------------------------------------------------------------
  // Events
  // ---------------------------------------------------------------------

  function DigitChar(d: nat): (c: char)
    requires d < 10
    ensures '0' <= c <= '9' && c as int - '0' as int == d
  {
    ('0' as int + d) as char
  }

  /** `u32::to_string`: decimal digits, most significant first. */
  function DecimalString(n: nat): (s: string)
    ensures |s| >= 1 && forall i :: 0 <= i < |s| ==> '0' <= s[i] <= '9'
    decreases n
  {
    if n < 10 then [DigitChar(n)] else DecimalString(n / 10) + [DigitChar(n % 10)]
  }

  /** The number a string of decimal digits denotes. */
  function DecimalValue(s: string): nat
    requires forall i :: 0 <= i < |s| ==> '0' <= s[i] <= '9'
    decreases |s|
  {
    if s == [] then 0 else DecimalValue(s[..|s| - 1]) * 10 + (s[|s| - 1] as int - '0' as int)
  }

  /** The year key reads back as the year, and has no leading zero. */
  lemma {:induction false} DecimalRoundTrip(n: nat)
    ensures DecimalValue(DecimalString(n)) == n
    ensures DecimalString(n)[0] == '0' ==> n == 0
    decreases n
  {
    if n >= 10 {
      DecimalRoundTrip(n / 10);
      var s := DecimalString(n);
      assert s[..|s| - 1] == DecimalString(n / 10);
    }
  }

  function SelectYearEvent(year: u32): SapEvent {
    SapEvent("ComboBox", "Select", [("Id", YearComboBoxId), ("Key", DecimalString(year as nat))])
  }

  function SelectSemesterEvent(semesterKey: string): SapEvent {
    SapEvent("ComboBox", "Select", [("Id", SemesterComboBoxId), ("Key", semesterKey)])
  }

  /** The queue that opens a course's detail popup: a client notification, then the button press. */
  function DetailQueue(buttonId: string): seq<SapEvent> {
    [SapEvent("ClientInspector", "Notify", [("Id", "WD01"), ("Data", "")]),
     SapEvent("Button", "Press", [("Id", buttonId)])]
  }

  function ClosePopupEvent(): SapEvent {
    SapEvent("Button", "Press", [("Id", PopupCloseButtonId)])
  }

  /**
   * A selection is one ComboBox/Select event whose parameters are the combo
   * box id and then the key; the year's key is its decimal text, which reads
   * back as the year.
   */
  lemma SelectionEvents(year: u32, semesterKey: string)
    ensures SelectYearEvent(year).event == "ComboBox" && SelectYearEvent(year).control == "Select"
    ensures |SelectYearEvent(year).parameters| == 2
    ensures SelectYearEvent(year).parameters[0] == ("Id", YearComboBoxId)
    ensures SelectYearEvent(year).parameters[1].0 == "Key"
    ensures DecimalValue(SelectYearEvent(year).parameters[1].1) == year as nat
    ensures SelectSemesterEvent(semesterKey).parameters == [("Id", SemesterComboBoxId), ("Key", semesterKey)]
  {
    DecimalRoundTrip(year as nat);
  }

  // ---------------------------------------------------------------------
  // Row selection
  // ---------------------------------------------------------------------

  /** An element named `tr` whose `rr` (row index) attribute is not "0"; an absent `rr` keeps the row. */
  predicate IsKept(n: Node) {
    n.Element? && n.name == "tr" && Attr(n, "rr") != Some("0")
  }

  /** The elements of `xs` that `keep` accepts, in order. */
  function Filter<T>(xs: seq<T>, keep: T -> bool): seq<T>
    decreases |xs|
  {
    if xs == [] then []
    else Filter(xs[..|xs| - 1], keep) + (if keep(xs[|xs| - 1]) then [xs[|xs| - 1]] else [])
  }

  /** The sequences `f` gives for the elements of `xs`, one after another. */
  function FlatMap<T, U>(xs: seq<T>, f: T -> seq<U>): seq<U>
    decreases |xs|
  {
    if xs == [] then [] else FlatMap(xs[..|xs| - 1], f) + f(xs[|xs| - 1])
  }

  /** The kept nodes, in order. */
  function KeptRows(nodes: seq<Node>): seq<Node> {
    Filter(nodes, IsKept)
  }

  /** `children().skip(1)`. */
  function SkipFirst(nodes: seq<Node>): seq<Node> {
    if nodes == [] then [] else nodes[1..]
  }

  /** The rows a table body contributes: its child nodes after the first, kept ones only. */
  function BodyRows(tbody: Node): seq<Node> {
    KeptRows(SkipFirst(Children(tbody)))
  }

  /** The rows of all table bodies, body after body. */
  function TableRows(tbodies: seq<Node>): seq<Node> {
    FlatMap(tbodies, BodyRows)
  }

  lemma {:induction false} FilterAppend<T>(a: seq<T>, b: seq<T>, keep: T -> bool)
    ensures Filter(a + b, keep) == Filter(a, keep) + Filter(b, keep)
    decreases |b|
  {
    if b == [] {
      assert a + b == a;
    } else {
      var front := b[..|b| - 1];
      assert (a + b)[..|a + b| - 1] == a + front;
      assert (a + b)[|a + b| - 1] == b[|b| - 1];
      FilterAppend(a, front, keep);
    }
  }

  /** An element is kept exactly when it is one of the elements and `keep` accepts it. */
  lemma {:induction false} FilterMembers<T>(xs: seq<T>, keep: T -> bool, x: T)
    ensures x in Filter(xs, keep) <==> x in xs && keep(x)
    decreases |xs|
  {
    if xs != [] {
      var front := xs[..|xs| - 1];
      FilterMembers(front, keep, x);
      assert xs == front + [xs[|xs| - 1]];
    }
  }

  lemma FilterStep<T>(xs: seq<T>, j: nat, keep: T -> bool)
    requires j < |xs|
    ensures Filter(xs[..j + 1], keep) == Filter(xs[..j], keep) + if keep(xs[j]) then [xs[j]] else []
  {
    assert xs[..j + 1][..j] == xs[..j];
  }

  /** Filtering the elements before and from position j, one part after the other. */
  lemma {:induction false} FilterSplit<T>(xs: seq<T>, j: nat, keep: T -> bool)
    requires j <= |xs|
    ensures Filter(xs, keep) == Filter(xs[..j], keep) + Filter(xs[j..], keep)
    decreases |xs|
  {
    if j == |xs| {
      assert xs[..j] == xs;
      assert xs[j..] == [];
    } else {
      var n := |xs|;
      var front := xs[..n - 1];
      FilterSplit(front, j, keep);
      assert front[..j] == xs[..j];
      assert xs[j..][..n - 1 - j] == front[j..];
      assert xs[j..][n - 1 - j] == xs[n - 1];
    }
  }

  lemma FilterPrefix<T>(xs: seq<T>, j: nat, keep: T -> bool)
    requires j <= |xs|
    ensures Filter(xs[..j], keep) <= Filter(xs, keep)
  {
    FilterSplit(xs, j, keep);
    PrefixOfAppend(Filter(xs[..j], keep), Filter(xs[j..], keep));
  }

  lemma {:induction false} FlatMapAppend<T, U>(a: seq<T>, b: seq<T>, f: T -> seq<U>)
    ensures FlatMap(a + b, f) == FlatMap(a, f) + FlatMap(b, f)
    decreases |b|
  {
    if b == [] {
      assert a + b == a;
    } else {
      var front := b[..|b| - 1];
      assert (a + b)[..|a + b| - 1] == a + front;
      assert (a + b)[|a + b| - 1] == b[|b| - 1];
      FlatMapAppend(a, front, f);
    }
  }

  lemma FlatMapStep<T, U>(xs: seq<T>, i: nat, f: T -> seq<U>)
    requires i < |xs|
    ensures FlatMap(xs[..i + 1], f) == FlatMap(xs[..i], f) + f(xs[i])
  {
    assert xs[..i + 1][..i] == xs[..i];
  }

  lemma {:induction false} FlatMapSplit<T, U>(xs: seq<T>, i: nat, f: T -> seq<U>)
    requires i <= |xs|
    ensures FlatMap(xs, f) == FlatMap(xs[..i], f) + FlatMap(xs[i..], f)
    decreases |xs|
  {
    if i == |xs| {
      assert xs[..i] == xs;
      assert xs[i..] == [];
    } else {
      var n := |xs|;
      var front := xs[..n - 1];
      FlatMapSplit(front, i, f);
      assert front[..i] == xs[..i];
      assert xs[i..][..n - 1 - i] == front[i..];
      assert xs[i..][n - 1 - i] == xs[n - 1];
    }
  }

  /** What the first i elements give, then a prefix of what element i gives, comes first in the whole. */
  lemma FlatMapPrefix<T, U>(xs: seq<T>, i: nat, p: seq<U>, f: T -> seq<U>)
    requires i < |xs| && p <= f(xs[i])
    ensures FlatMap(xs[..i], f) + p <= FlatMap(xs, f)
  {
    FlatMapStep(xs, i, f);
    FlatMapSplit(xs, i + 1, f);
    PrefixOfAppend(FlatMap(xs[..i + 1], f), FlatMap(xs[i + 1..], f));
    PrefixWithin(FlatMap(xs[..i], f), p, f(xs[i]), FlatMap(xs, f));
  }

  lemma PrefixOfAppend<T>(a: seq<T>, b: seq<T>)
    ensures a <= a + b
  {
  }

  lemma PrefixWithin<T>(x: seq<T>, p: seq<T>, b: seq<T>, t: seq<T>)
    requires p <= b && x + b <= t
    ensures x + p <= t
  {
    assert forall k :: 0 <= k < |x + p| ==> (x + p)[k] == (x + b)[k];
  }

  lemma PrefixSplit<T>(p: seq<T>, t: seq<T>)
    requires p <= t
    ensures t == p + t[|p|..]
  {
  }

  /** Row j of body i taken into account after the rows before it. */
  lemma NextRow(tbodies: seq<Node>, i: nat, j: nat)
    requires i < |tbodies| && j < |SkipFirst(Children(tbodies[i]))|
    ensures var children := SkipFirst(Children(tbodies[i]));
            TableRows(tbodies[..i]) + KeptRows(children[..j + 1])
            == TableRows(tbodies[..i]) + KeptRows(children[..j]) + (if IsKept(children[j]) then [children[j]] else [])
  {
    FilterStep(SkipFirst(Children(tbodies[i])), j, IsKept);
  }

  /** Body i taken into account after the bodies before it. */
  lemma NextBody(tbodies: seq<Node>, i: nat)
    requires i < |tbodies|
    ensures var children := SkipFirst(Children(tbodies[i]));
            TableRows(tbodies[..i + 1]) == TableRows(tbodies[..i]) + KeptRows(children[..|children|])
  {
    var children := SkipFirst(Children(tbodies[i]));
    assert children[..|children|] == children;
    FlatMapStep(tbodies, i, BodyRows);
  }

  /** The kept rows keep document order: the rows of two runs of nodes are the rows of each, in turn. */
  lemma KeptRowsAppend(a: seq<Node>, b: seq<Node>)
    ensures KeptRows(a + b) == KeptRows(a) + KeptRows(b)
  {
    FilterAppend(a, b, IsKept);
  }

  /** A node is among the kept rows exactly when it is one of the nodes and it is kept. */
  lemma KeptRowsMembers(nodes: seq<Node>, n: Node)
    ensures n in KeptRows(nodes) <==> n in nodes && IsKept(n)
  {
    FilterMembers(nodes, IsKept, n);
  }

  /** The first child node of a body is skipped whatever it is, even a row that would be kept. */
  lemma FirstChildSkipped(name: string, attributes: seq<Attribute>, first: Node, rest: seq<Node>)
    ensures BodyRows(Element(name, attributes, [first] + rest)) == KeptRows(rest)
  {
    assert ([first] + rest)[1..] == rest;
  }

  /** The rows of several tables are the rows of each table, in document order. */
  lemma TableRowsAppend(a: seq<Node>, b: seq<Node>)
    ensures TableRows(a + b) == TableRows(a) + TableRows(b)
  {
    FlatMapAppend(a, b, BodyRows);
  }

  // ---------------------------------------------------------------------
  // Specification of the server conversations
  // ---------------------------------------------------------------------

  /** A request carrying one event. */
  function EventRequest(ssr: SsrClient.SapSsrClient, e: SapEvent): Request {
    Applications.PostRequest(ssr, Some(EventString(e)))
  }

  /** The fifth child node of a row, when it exists and is an element. */
  function DetailCell(row: Node): Option<Node> {
    var cells := Children(row);
    if |cells| >= 5 && cells[4].Element? then Some(cells[4]) else None
  }

  /** The requests a course's detail lookup sends, in order, when its button has id `id`. */
  function DetailRequests(ssr: SsrClient.SapSsrClient, id: string): seq<Request> {
    [Applications.PostRequest(ssr, Some(QueueString(DetailQueue(id)))), EventRequest(ssr, ClosePopupEvent())]
  }

  /** `get_course_grades_details` of `row`, after the requests in `log`. */
  function DetailSpec(server: Server, ssr: SsrClient.SapSsrClient, log: seq<Request>, row: Node): Outcome<Detail> {
    match DetailCell(row)
    case None => Outcome(Err(HtmlParseError), log)
    case Some(cell) =>
      var buttons := SelectWithin(cell, ButtonSelector);
      if buttons == [] then Outcome(Ok(NoDetails), log)
      else
        match Attr(buttons[0], "id")
        case None => Outcome(Err(MissingButtonId), log)
        case Some(id) =>
          var requested := log + DetailRequests(ssr, id)[..1];
          match server(requested)
          case None => Outcome(Err(SendFailed), requested)
          case Some(response) =>
            match response.body
            case None => Outcome(Err(RequestError), requested)
            case Some(page) =>
              var tables := Select(page, IdSelector(CourseGradesDetailTableId));
              if tables == [] then Outcome(Err(MissingDetailTable), requested)
              else
                var closed := log + DetailRequests(ssr, id);
                if server(closed).None? then Outcome(Err(SendFailed), closed)
                else Outcome(Ok(DetailTable(tables[0])), closed)
  }

  /** The course grades of `rows`, each detail lookup (when `fetch`) after the previous row's. */
  function RowsSpec(server: Server, ssr: SsrClient.SapSsrClient, log: seq<Request>, rows: seq<Node>, fetch: bool)
    : Outcome<seq<CourseGrade>>
    decreases |rows|
  {
    if rows == [] then Outcome(Ok([]), log)
    else
      var before := RowsSpec(server, ssr, log, rows[..|rows| - 1], fetch);
      var row := rows[|rows| - 1];
      if before.result.Err? then before
      else if !fetch then Outcome(Ok(before.result.value + [CourseGrade(row, NotFetched)]), before.log)
      else
        var d := DetailSpec(server, ssr, before.log, row);
        match d.result
        case Err(e) => Outcome(Err(e), d.log)
        case Ok(detail) => Outcome(Ok(before.result.value + [CourseGrade(row, detail)]), d.log)
  }

  /** `get_semester_grades_details`: select the year, then the semester, then read the semester page. */
  function SemesterSpec(server: Server, ssr: SsrClient.SapSsrClient, log: seq<Request>,
                        year: u32, semesterKey: string, fetch: bool): Outcome<seq<CourseGrade>>
  {
    var yearly := log + [EventRequest(ssr, SelectYearEvent(year))];
    if server(yearly).None? then Outcome(Err(SendFailed), yearly)
    else
      var selected := yearly + [EventRequest(ssr, SelectSemesterEvent(semesterKey))];
      match server(selected)
      case None => Outcome(Err(SendFailed), selected)
      case Some(response) =>
        match response.body
        case None => Outcome(Err(RequestError), selected)
        case Some(page) =>
          RowsSpec(server, ssr, selected, TableRows(Select(page, IdSelector(SemesterGradesDetailTableId))), fetch)
  }

  // ---------------------------------------------------------------------
  // Properties of the conversations
  // ---------------------------------------------------------------------

  /**
   * A detail lookup fails with HtmlParseError, sending nothing, exactly when
   * the fifth child node is missing or not an element; without a detail
   * button it sends nothing and finds no details; otherwise everything it
   * sends is the detail queue and then the popup-close press, in that order,
   * and it succeeds only once both have been sent. A request that could
   * not be sent is the last one logged and fails the lookup as SendFailed;
   * an unreadable detail page fails it as RequestError, with the popup left
   * open.
   */
  lemma DetailTrace(server: Server, ssr: SsrClient.SapSsrClient, log: seq<Request>, row: Node)
    ensures DetailSpec(server, ssr, log, row).result == Err(HtmlParseError) <==> DetailCell(row).None?
    ensures DetailCell(row).None? ==> DetailSpec(server, ssr, log, row).log == log
    ensures DetailCell(row).Some? && SelectWithin(DetailCell(row).value, ButtonSelector) == [] ==>
              DetailSpec(server, ssr, log, row) == Outcome(Ok(NoDetails), log)
    ensures DetailCell(row).Some? && SelectWithin(DetailCell(row).value, ButtonSelector) != [] ==>
              var button := SelectWithin(DetailCell(row).value, ButtonSelector)[0];
              var o := DetailSpec(server, ssr, log, row);
              && (Attr(button, "id").None? ==> o == Outcome(Err(MissingButtonId), log))
              && (Attr(button, "id").Some? ==>
                    && |log| < |o.log| <= |log| + 2
                    && o.log == log + DetailRequests(ssr, Attr(button, "id").value)[..|o.log| - |log|]
                    && (o.result.Ok? <==> |o.log| == |log| + 2 && server(o.log).Some?)
                    && (o.result == Err(SendFailed) <==> server(o.log).None?)
                    && (o.result == Err(RequestError) <==>
                          |o.log| == |log| + 1 && server(o.log).Some? && server(o.log).value.body.None?))
  {
    var o := DetailSpec(server, ssr, log, row);
    match DetailCell(row) {
      case None =>
        assert o == Outcome(Err(HtmlParseError), log);
      case Some(cell) =>
        var buttons := SelectWithin(cell, ButtonSelector);
        if buttons == [] {
          assert o == Outcome(Ok(NoDetails), log);
        } else {
          match Attr(buttons[0], "id") {
            case None =>
              assert o == Outcome(Err(MissingButtonId), log);
            case Some(id) =>
              var requests := DetailRequests(ssr, id);
              var first, closed := log + requests[..1], log + requests;
              assert requests[..2] == requests;
              if server(first).None? {
                assert o == Outcome(Err(SendFailed), first);
              } else if server(first).value.body.None? {
                assert o == Outcome(Err(RequestError), first);
              } else {
                var tables := Select(server(first).value.body.value, IdSelector(CourseGradesDetailTableId));
                if tables == [] {
                  assert o == Outcome(Err(MissingDetailTable), first);
                } else if server(closed).None? {
                  assert o == Outcome(Err(SendFailed), closed);
                } else {
                  assert o == Outcome(Ok(DetailTable(tables[0])), closed);
                }
              }
          }
        }
    }
  }

  /** Once a row's lookup has failed, later rows send nothing and the failure is the result. */
  lemma {:induction false} RowsAbort(server: Server, ssr: SsrClient.SapSsrClient, log: seq<Request>,
                                     rows: seq<Node>, more: seq<Node>, fetch: bool)
    requires RowsSpec(server, ssr, log, rows, fetch).result.Err?
    ensures RowsSpec(server, ssr, log, rows + more, fetch) == RowsSpec(server, ssr, log, rows, fetch)
    decreases |more|
  {
    if more == [] {
      assert rows + more == rows;
    } else {
      var front := more[..|more| - 1];
      RowsAbort(server, ssr, log, rows, front, fetch);
      assert (rows + more)[..|rows + more| - 1] == rows + front;
    }
  }

  /** Processing one more row, after rows that all succeeded. */
  lemma RowsStep(server: Server, ssr: SsrClient.SapSsrClient, log: seq<Request>,
                 rows: seq<Node>, row: Node, fetch: bool)
    requires RowsSpec(server, ssr, log, rows, fetch).result.Ok?
    ensures var before := RowsSpec(server, ssr, log, rows, fetch);
            RowsSpec(server, ssr, log, rows + [row], fetch)
            == if !fetch then Outcome(Ok(before.result.value + [CourseGrade(row, NotFetched)]), before.log)
               else
                 var d := DetailSpec(server, ssr, before.log, row);
                 if d.result.Err? then Outcome(Err(d.result.error), d.log)
                 else Outcome(Ok(before.result.value + [CourseGrade(row, d.result.value)]), d.log)
  {
    assert (rows + [row])[..|rows|] == rows;
  }

  /** A failure at row j of body i is the failure of the whole table. */
  lemma AbortRemainingRows(server: Server, ssr: SsrClient.SapSsrClient, log: seq<Request>,
                           tbodies: seq<Node>, i: nat, j: nat, rows: seq<Node>, fetch: bool)
    requires i < |tbodies| && j < |SkipFirst(Children(tbodies[i]))|
    requires IsKept(SkipFirst(Children(tbodies[i]))[j])
    requires rows == TableRows(tbodies[..i]) + KeptRows(SkipFirst(Children(tbodies[i]))[..j])
    requires RowsSpec(server, ssr, log, rows + [SkipFirst(Children(tbodies[i]))[j]], fetch).result.Err?
    ensures RowsSpec(server, ssr, log, TableRows(tbodies), fetch)
            == RowsSpec(server, ssr, log, rows + [SkipFirst(Children(tbodies[i]))[j]], fetch)
  {
    var children := SkipFirst(Children(tbodies[i]));
    var done := rows + [children[j]];
    FilterStep(children, j, IsKept);
    assert done == TableRows(tbodies[..i]) + KeptRows(children[..j + 1]);
    FilterPrefix(children, j + 1, IsKept);
    FlatMapPrefix(tbodies, i, KeptRows(children[..j + 1]), BodyRows);
    var all := TableRows(tbodies);
    PrefixSplit(done, all);
    RowsAbort(server, ssr, log, done, all[|done|..], fetch);
  }

  /** Without details: no request, and one not-fetched grade per row, in order. */
  lemma {:induction false} RowsWithoutDetails(server: Server, ssr: SsrClient.SapSsrClient, log: seq<Request>, rows: seq<Node>)
    ensures RowsSpec(server, ssr, log, rows, false).log == log
    ensures RowsSpec(server, ssr, log, rows, false).result.Ok?
    ensures var grades := RowsSpec(server, ssr, log, rows, false).result.value;
            |grades| == |rows| && forall i :: 0 <= i < |rows| ==> grades[i] == CourseGrade(rows[i], NotFetched)
    decreases |rows|
  {
    if rows != [] {
      var front := rows[..|rows| - 1];
      RowsWithoutDetails(server, ssr, log, front);
      assert forall i :: 0 <= i < |front| ==> front[i] == rows[i];
    }
  }

  /** Every lookup adds to the log and never rewrites it. */
  lemma {:induction false} RowsLogGrows(server: Server, ssr: SsrClient.SapSsrClient, log: seq<Request>, rows: seq<Node>, fetch: bool)
    ensures log <= RowsSpec(server, ssr, log, rows, fetch).log
    decreases |rows|
  {
    if rows != [] {
      RowsLogGrows(server, ssr, log, rows[..|rows| - 1], fetch);
      var before := RowsSpec(server, ssr, log, rows[..|rows| - 1], fetch);
      if before.result.Ok? && fetch {
        DetailTrace(server, ssr, before.log, rows[|rows| - 1]);
      }
    }
  }

  /**
   * The year selection is sent first and the semester selection second (the
   * latter only once the year request was sent); only the semester page is read,
   * so an unreadable semester page, and no other body, fails as RequestError.
   * Without details nothing follows the two selections.
   */
  lemma SelectionsFirst(server: Server, ssr: SsrClient.SapSsrClient, log: seq<Request>,
                        year: u32, semesterKey: string, fetch: bool)
    ensures var o := SemesterSpec(server, ssr, log, year, semesterKey, fetch);
            var yearly := log + [EventRequest(ssr, SelectYearEvent(year))];
            var selected := yearly + [EventRequest(ssr, SelectSemesterEvent(semesterKey))];
            && (server(yearly).None? ==> o == Outcome(Err(SendFailed), yearly))
            && (server(yearly).Some? && server(selected).None? ==> o == Outcome(Err(SendFailed), selected))
            && (server(yearly).Some? && server(selected).Some? && server(selected).value.body.None? ==>
                  o == Outcome(Err(RequestError), selected))
            && (server(yearly).Some? ==> selected <= o.log)
            && (!fetch && server(yearly).Some? ==> o.log == selected)
  {
    var yearly := log + [EventRequest(ssr, SelectYearEvent(year))];
    var selected := yearly + [EventRequest(ssr, SelectSemesterEvent(semesterKey))];
    if server(yearly).Some? && server(selected).Some? && server(selected).value.body.Some? {
      var rows := TableRows(Select(server(selected).value.body.value, IdSelector(SemesterGradesDetailTableId)));
      RowsLogGrows(server, ssr, selected, rows, fetch);
      if !fetch {
        RowsWithoutDetails(server, ssr, selected, rows);
      }
    }
  }

  // ---------------------------------------------------------------------
  // The application
  // ---------------------------------------------------------------------

  /** The loop of `get_all_semester_grades`: the kept rows of each table body, body after body. */
  method CollectRows(tbodies: seq<Node>) returns (rows: seq<Node>)
    ensures rows == TableRows(tbodies)
  {
    rows := [];
    for i := 0 to |tbodies|
      invariant rows == TableRows(tbodies[..i])
    {
      var kept := KeptChildren(SkipFirst(Children(tbodies[i])));
      FlatMapStep(tbodies, i, BodyRows);
      rows := rows + kept;
    }
    assert tbodies[..|tbodies|] == tbodies;
  }

  /** The inner loop of `get_all_semester_grades` over the child nodes of one table body. */
  method KeptChildren(children: seq<Node>) returns (kept: seq<Node>)
    ensures kept == KeptRows(children)
  {
    kept := [];
    for j := 0 to |children|
      invariant kept == KeptRows(children[..j])
    {
      var element := children[j];
      FilterStep(children, j, IsKept);
      if IsKept(element) {
        kept := kept + [element];
      }
    }
    assert children[..|children|] == children;
  }

  class CourseGradesApplication {
    const application: Applications.Application

    constructor (application: Applications.Application)
      ensures this.application == application
    {
      this.application := application;
    }

    /**
     * `get_all_semester_grades`: one request without an event queue, then the
     * kept rows of the summary table of the page it is answered with.
     */
    method GetAllSemesterGrades() returns (r: Result<seq<Node>, GradesError>)
      modifies application.http
      ensures application.http.sent == old(application.http.sent) + [Applications.PostRequest(application.ssr, None)]
      ensures r == match application.http.server(application.http.sent)
                   case None => Err(SendFailed)
                   case Some(response) =>
                     match response.body
                     case None => Err(RequestError)
                     case Some(page) => Ok(TableRows(Select(page, IdSelector(SemesterGradesSummaryTableId))))
    {
      var response := application.SendRequest(None);
      if response.Err? {
        r := Err(ApplicationError(response.error));
        return;
      }
      var body := response.value.body;
      if body.None? {
        r := Err(RequestError);
        return;
      }
      var tbodies := Select(body.value, IdSelector(SemesterGradesSummaryTableId));
      var semesterGrades := CollectRows(tbodies);
      r := Ok(semesterGrades);
    }

    /** `select_year`: one ComboBox/Select event on the year combo box; the response is returned unread. */
    method SelectYear(year: u32) returns (r: Result<Response, GradesError>)
      modifies application.http
      ensures application.http.sent == old(application.http.sent) + [EventRequest(application.ssr, SelectYearEvent(year))]
      ensures r == match application.http.server(application.http.sent)
                   case None => Err(SendFailed)
                   case Some(response) => Ok(response)
    {
      var response := application.SendRequest(Some(EventString(SelectYearEvent(year))));
      r := if response.Err? then Err(ApplicationError(response.error)) else Ok(response.value);
    }

    /** `select_semester`: one ComboBox/Select event on the semester combo box; the response is returned unread. */
    method SelectSemester(semesterKey: string) returns (r: Result<Response, GradesError>)
      modifies application.http
      ensures application.http.sent
              == old(application.http.sent) + [EventRequest(application.ssr, SelectSemesterEvent(semesterKey))]
      ensures r == match application.http.server(application.http.sent)
                   case None => Err(SendFailed)
                   case Some(response) => Ok(response)
    {
      var response := application.SendRequest(Some(EventString(SelectSemesterEvent(semesterKey))));
      r := if response.Err? then Err(ApplicationError(response.error)) else Ok(response.value);
    }

    /** `close_popup_window`: one press of the popup's close button; the response is returned unread. */
    method ClosePopupWindow() returns (r: Result<Response, GradesError>)
      modifies application.http
      ensures application.http.sent == old(application.http.sent) + [EventRequest(application.ssr, ClosePopupEvent())]
      ensures r == match application.http.server(application.http.sent)
                   case None => Err(SendFailed)
                   case Some(response) => Ok(response)
    {
      var response := application.SendRequest(Some(EventString(ClosePopupEvent())));
      r := if response.Err? then Err(ApplicationError(response.error)) else Ok(response.value);
    }

    /** `get_course_grades_details` of one course row. */
    method GetCourseGradesDetails(row: Node) returns (r: Result<Detail, GradesError>)
      modifies application.http
      ensures Outcome(r, application.http.sent)
              == DetailSpec(application.http.server, application.ssr, old(application.http.sent), row)
    {
      var cells := Children(row);
      if |cells| < 5 || !cells[4].Element? {
        r := Err(HtmlParseError);
        return;
      }
      var buttons := SelectWithin(cells[4], ButtonSelector);
      if buttons == [] {
        r := Ok(NoDetails);
        return;
      }
      var id := Attr(buttons[0], "id");
      if id.None? {
        r := Err(MissingButtonId);
        return;
      }
      ghost var requests := DetailRequests(application.ssr, id.value);
      assert requests[..1] == [requests[0]] && requests == [requests[0], requests[1]];
      var response := application.SendRequest(Some(QueueString(DetailQueue(id.value))));
      if response.Err? {
        r := Err(ApplicationError(response.error));
        return;
      }
      var body := response.value.body;
      if body.None? {
        r := Err(RequestError);
        return;
      }
      var tables := Select(body.value, IdSelector(CourseGradesDetailTableId));
      if tables == [] {
        r := Err(MissingDetailTable);
        return;
      }
      var detailedGrades := DetailTable(tables[0]);
      var closed := ClosePopupWindow();
      assert application.http.sent == old(application.http.sent) + requests;
      if closed.Err? {
        r := Err(closed.error);
        return;
      }
      r := Ok(detailedGrades);
    }

    /** `get_semester_grades_details`: the two selections, then the rows of the semester page. */
    method GetSemesterGradesDetails(year: u32, semesterKey: string, fetchDetails: bool)
      returns (r: Result<seq<CourseGrade>, GradesError>)
      modifies application.http
      ensures Outcome(r, application.http.sent)
              == SemesterSpec(application.http.server, application.ssr, old(application.http.sent),
                              year, semesterKey, fetchDetails)
    {
      var yearReply := SelectYear(year);
      if yearReply.Err? {
        r := Err(yearReply.error);
        return;
      }
      var semesterReply := SelectSemester(semesterKey);
      if semesterReply.Err? {
        r := Err(semesterReply.error);
        return;
      }
      var body := semesterReply.value.body;
      if body.None? {
        r := Err(RequestError);
        return;
      }
      var tbodies := Select(body.value, IdSelector(SemesterGradesDetailTableId));
      r := CollectCourseGrades(tbodies, fetchDetails);
    }

    /**
     * The loop of `get_semester_grades_details` over the kept rows of the
     * table bodies, looking up each row's details (when asked to) before the
     * next row, and giving up at the first failed lookup.
     */
    method CollectCourseGrades(tbodies: seq<Node>, fetchDetails: bool) returns (r: Result<seq<CourseGrade>, GradesError>)
      modifies application.http
      ensures Outcome(r, application.http.sent)
              == RowsSpec(application.http.server, application.ssr, old(application.http.sent),
                          TableRows(tbodies), fetchDetails)
    {
      ghost var server, ssr, start := application.http.server, application.ssr, application.http.sent;
      var courseGrades: seq<CourseGrade> := [];
      ghost var rows: seq<Node> := [];
      for i := 0 to |tbodies|
        invariant rows == TableRows(tbodies[..i])
        invariant RowsSpec(server, ssr, start, rows, fetchDetails) == Outcome(Ok(courseGrades), application.http.sent)
      {
        var children := SkipFirst(Children(tbodies[i]));
        for j := 0 to |children|
          invariant rows == TableRows(tbodies[..i]) + KeptRows(children[..j])
          invariant RowsSpec(server, ssr, start, rows, fetchDetails) == Outcome(Ok(courseGrades), application.http.sent)
        {
          var element := children[j];
          NextRow(tbodies, i, j);
          if IsKept(element) {
            var courseGrade := CourseGrade(element, NotFetched);
            RowsStep(server, ssr, start, rows, element, fetchDetails);
            if fetchDetails {
              var detailedGrades := GetCourseGradesDetails(element);
              if detailedGrades.Err? {
                r := Err(detailedGrades.error);
                AbortRemainingRows(server, ssr, start, tbodies, i, j, rows, fetchDetails);
                return;
              }
              courseGrade := courseGrade.(detail := detailedGrades.value);
            }
            courseGrades := courseGrades + [courseGrade];
            rows := rows + [element];
          }
        }
        NextBody(tbodies, i);
      }
      assert tbodies[..|tbodies|] == tbodies;
      r := Ok(courseGrades);
    }
  }

  /** `CourseGradesApplication::new`: open the application ZCMB3W0017. */
  method New(http: Client) returns (r: Result<CourseGradesApplication, GradesError>)
    modifies http
    ensures http.sent == old(http.sent) + [Get(SsrClient.BootstrapUrl(AppName))]
    ensures r.Ok? <==> http.server(http.sent).Some? && http.server(http.sent).value.body.Some?
    ensures r.Ok? ==> fresh(r.value) && r.value.application.http == http
                      && r.value.application.ssr == SsrClient.Extract(http.server(http.sent).value.body.value)
    ensures r.Err? ==> r.error == ApplicationError(Applications.SsrClientError)
  {
    var application := Applications.New(http, AppName);
    match application {
      case Err(e) =>
        r := Err(ApplicationError(e));
      case Ok(app) =>
        var grades := new CourseGradesApplication(app);
        r := Ok(grades);
    }
  }
}
