/**
 * The analytics view: the per-roommate, per-month records the server has
 * already counted are joined with the roommate list and reshaped into the
 * data of the monthly bar chart. The view also starts from "no data"
 * summaries until a snapshot arrives.
 */
module TaskAnalytics {
  import opened Outcomes
  import opened Roommates
  import opened Decimal

  /** Short month names; the server's months are 1-based indexes into this table. */
  const MonthNames: seq<string> :=
    ["Jan", "Feb", "Mar", "Apr", "May", "Jun", "Jul", "Aug", "Sep", "Oct", "Nov", "Dec"]

  /** Name used for a monthly record whose roommate id matches nobody. */
  const UnknownName: string := "Unknown"

  /** One server-computed count: how many tasks a roommate completed in a month. */
  datatype MonthlyRecord = MonthlyRecord(roommateId: string, month: int, year: int, taskCount: int)

  /** One bar of the monthly chart. */
  datatype MonthlyDatum = MonthlyDatum(name: string, month: string, taskCount: int)

  /** Why a month cannot be labelled: it does not index the 12-entry table. */
  datatype LabelError = MonthOutOfRange(month: int)

  /** Why a list of records cannot be charted: the first record whose month is out of range. */
  datatype ChartError = BadMonth(index: nat, month: int)

  /** A roommate summary card: a name and a task count. */
  datatype Summary = Summary(name: string, tasks: int)

  /** The least-active card, with the "no data" state as its own variant. */
  datatype LeastActive = NoData | Least(summary: Summary)

  /** The view's state fields that the rendering reads. */
  datatype AnalyticsState = AnalyticsState(
    tasksByRoommate: seq<Summary>,
    mostActive: Summary,
    leastActive: LeastActive,
    monthlyTasksByRoommate: seq<MonthlyRecord>,
    roommates: seq<Roommate>)

  /** The state the view renders before any snapshot or roommate list has arrived. */
  const Initial: AnalyticsState :=
    AnalyticsState([], Summary("No data", 0), NoData, [], [])

  predicate MonthInRange(month: int)
  {
    1 <= month <= 12
  }

  lemma MonthNamesDistinct()
    ensures |MonthNames| == 12
    ensures forall i, j :: 0 <= i < j < 12 ==> MonthNames[i] != MonthNames[j]
    ensures forall i :: 0 <= i < 12 ==> |MonthNames[i]| == 3
  {
  }

  /** The chart's period label: short month name, a space, then the year. */
  function MonthLabel(month: int, year: int): (text: Result<string, LabelError>)
    ensures text.Ok? <==> MonthInRange(month)
    ensures text.Err? ==> text.error == MonthOutOfRange(month)
    ensures text.Ok? ==> |text.value| >= 5 && text.value[3] == ' '
  {
    if MonthInRange(month) then Ok(MonthNames[month - 1] + " " + IntToDecimal(year))
    else Err(MonthOutOfRange(month))
  }

  /**
   * The label exactly as the view's code builds it: an index outside the
   * table reads `undefined`, which the template literal prints as the word.
   */
  function MonthLabelAsWritten(month: int, year: int): (text: string)
    ensures !MonthInRange(month) ==> text == "undefined " + IntToDecimal(year)
  {
    var name := if 0 <= month - 1 < |MonthNames| then MonthNames[month - 1] else "undefined";
    name + " " + IntToDecimal(year)
  }

  /** Months 0 and 13 silently become "undefined 2024" as written. */
  lemma MonthLabelAsWrittenMisindexes()
    ensures MonthLabelAsWritten(13, 2024) == "undefined 2024"
    ensures MonthLabelAsWritten(0, 2024) == "undefined 2024"
  {
  }

  /** Inside the table the corrected label is the label as written. */
  lemma MonthLabelAgreesInRange(month: int, year: int)
    requires MonthInRange(month)
    ensures MonthLabel(month, year) == Ok(MonthLabelAsWritten(month, year))
  {
  }

  /** The label examples: January 2024 and December 2023; months 0 and 13 are rejected. */
  lemma MonthLabelExamples()
    ensures MonthLabel(1, 2024) == Ok("Jan 2024")
    ensures MonthLabel(12, 2023) == Ok("Dec 2023")
    ensures MonthLabel(3, 2024) == Ok("Mar 2024")
    ensures MonthLabel(0, 2024) == Err(MonthOutOfRange(0))
    ensures MonthLabel(13, 2024) == Err(MonthOutOfRange(13))
  {
    YearTexts();
    assert MonthNames[0] + " " + "2024" == "Jan 2024";
    assert MonthNames[11] + " " + "2023" == "Dec 2023";
    assert MonthNames[2] + " " + "2024" == "Mar 2024";
  }

  /** The 1-based month whose short name is `name`, if any. */
  function MonthNumber(name: string): (month: Option<int>)
    ensures month.Some? ==> MonthInRange(month.value) && MonthNames[month.value - 1] == name
    ensures month.None? ==> name !in MonthNames
  {
    MonthNumberFrom(name, 0)
  }

  function MonthNumberFrom(name: string, k: nat): (month: Option<int>)
    requires k <= 12
    ensures month.Some? ==> k < month.value <= 12 && MonthNames[month.value - 1] == name
    ensures month.None? ==> forall j :: k <= j < 12 ==> MonthNames[j] != name
    decreases 12 - k
  {
    if k == 12 then None
    else if MonthNames[k] == name then Some(k + 1)
    else MonthNumberFrom(name, k + 1)
  }

  /** Reads a period label back into its month and year. */
  function ParseMonthLabel(text: string): Option<(int, int)>
  {
    if |text| < 5 || text[3] != ' ' then None
    else
      match (MonthNumber(text[..3]), ParseInt(text[4..]))
      case (Some(month), Some(year)) => Some((month, year))
      case _ => None
  }

  /** A label determines its period: parsing it gives back the month and year. */
  lemma MonthLabelRoundTrip(month: int, year: int)
    requires MonthInRange(month)
    ensures ParseMonthLabel(MonthLabel(month, year).value) == Some((month, year))
  {
    MonthNamesDistinct();
    var text := MonthLabel(month, year).value;
    assert text[..3] == MonthNames[month - 1];
    assert text[4..] == IntToDecimal(year);
    IntToDecimalRoundTrip(year);
  }

  /** Two bars of the chart share a period label only when they share the period. */
  lemma MonthLabelInjective(m1: int, y1: int, m2: int, y2: int)
    requires MonthLabel(m1, y1).Ok? && MonthLabel(m1, y1) == MonthLabel(m2, y2)
    ensures m1 == m2 && y1 == y2
  {
    MonthLabelRoundTrip(m1, y1);
    MonthLabelRoundTrip(m2, y2);
  }

  /** The chart name of a roommate id: the first matching roommate's name, else "Unknown". */
  function ResolveName(roommates: seq<Roommate>, id: string): (name: string)
    ensures !HasId(roommates, id) ==> name == UnknownName
    ensures HasId(roommates, id) ==>
      exists i :: 0 <= i < |roommates| && roommates[i].id == id && roommates[i].name == name
  {
    match FindById(roommates, id)
    case Some(r) =>
      assert r in roommates;
      r.name
    case None => UnknownName
  }

  /** The name resolved is that of the FIRST roommate carrying the id. */
  lemma ResolveNameIsFirst(roommates: seq<Roommate>, id: string, k: nat)
    requires k < |roommates| && roommates[k].id == id
    requires forall j :: 0 <= j < k ==> roommates[j].id != id
    ensures ResolveName(roommates, id) == roommates[k].name
  {
    FindByIdIsFirst(roommates, id, k);
  }

  /** One record as a chart bar, or the label error of its month. */
  function ToDatum(roommates: seq<Roommate>, rec: MonthlyRecord): Result<MonthlyDatum, LabelError>
  {
    match MonthLabel(rec.month, rec.year)
    case Ok(text) => Ok(MonthlyDatum(ResolveName(roommates, rec.roommateId), text, rec.taskCount))
    case Err(e) => Err(e)
  }

  /**
   * The monthly chart data: one bar per record, in the records' order, or
   * the first record whose month is outside the table.
   */
  function MonthlyData(records: seq<MonthlyRecord>, roommates: seq<Roommate>)
    : (data: Result<seq<MonthlyDatum>, ChartError>)
    ensures data.Ok? <==> forall i :: 0 <= i < |records| ==> MonthInRange(records[i].month)
    ensures data.Ok? ==> |data.value| == |records|
    ensures data.Ok? ==> forall i :: 0 <= i < |records| ==>
      && data.value[i].name == ResolveName(roommates, records[i].roommateId)
      && Ok(data.value[i].month) == MonthLabel(records[i].month, records[i].year)
      && data.value[i].taskCount == records[i].taskCount
    ensures data.Err? ==>
      && data.error.index < |records|
      && data.error.month == records[data.error.index].month
      && !MonthInRange(data.error.month)
      && forall j :: 0 <= j < data.error.index ==> MonthInRange(records[j].month)
  {
    if records == [] then Ok([])
    else
      var rest := MonthlyData(records[1..], roommates);
      assert forall i :: 1 <= i < |records| ==> records[i] == records[1..][i - 1];
      match ToDatum(roommates, records[0])
      case Err(_) => Err(BadMonth(0, records[0].month))
      case Ok(datum) =>
        match rest
        case Err(BadMonth(i, m)) => Err(BadMonth(i + 1, m))
        case Ok(data) => Ok([datum] + data)
  }

  /** Before anything loads: "No data" with 0 tasks, a no-data least-active card and no bars. */
  lemma InitialShowsNoData()
    ensures Initial.mostActive == Summary("No data", 0)
    ensures Initial.leastActive == NoData
    ensures Initial.tasksByRoommate == []
    ensures MonthlyData(Initial.monthlyTasksByRoommate, Initial.roommates) == Ok([])
  {
  }

  /** Alice's 4 tasks of March 2024 become the bar {Alice, "Mar 2024", 4}. */
  lemma AliceMarchScenario()
    ensures MonthlyData([MonthlyRecord("1", 3, 2024, 4)], [Roommate("1", "Alice")])
         == Ok([MonthlyDatum("Alice", "Mar 2024", 4)])
  {
    var records, roommates := [MonthlyRecord("1", 3, 2024, 4)], [Roommate("1", "Alice")];
    MonthLabelExamples();
    assert records[1..] == [];
    assert ResolveName(roommates, "1") == "Alice";
    assert ToDatum(roommates, records[0]) == Ok(MonthlyDatum("Alice", "Mar 2024", 4));
    assert MonthlyData(records[1..], roommates) == Ok([]);
    assert [MonthlyDatum("Alice", "Mar 2024", 4)] + [] == [MonthlyDatum("Alice", "Mar 2024", 4)];
  }
}
