/** Get_times once the browser has produced the results table: choosing the
    row, cleaning the estimate and counting the days until an inquiry. */
module ProcessingTimes {
  import opened Failures
  import opened PyText
  import opened Calendar
  import opened DateFormat

  /** The row of the results table to read: 1 when the form code's third
      character is '4' (the I-485 page lists two rows), 0 otherwise. */
  function RowIndex(formName: string): (r: Result<nat>)
    ensures r.Ok? <==> |formName| >= 3
    ensures r.Err? ==> r.error == FormNameTooShort
    ensures r.Ok? ==> r.value <= 1 && (r.value == 1 <==> formName[2] == '4')
  {
    if |formName| < 3 then Err(FormNameTooShort)
    else if formName[2] == '4' then Ok(1) else Ok(0)
  }

  /** The two form names the report looks up, as the site's drop-down shows them. */
  const I485: string := "I-485 | " + "Application to Register Permanent Residence or Adjust Status"
  const I765: string := "I-765 | " + "Application for Employment Authorization"

  /** The two forms the report asks about read different rows. */
  lemma RowIndexOfReportedForms()
    ensures RowIndex(I485) == Ok(1)
    ensures RowIndex(I765) == Ok(0)
  {
  }

  // ---------------------------------------------------------------------------
  // ' '.join(est.split())

  /** The estimate with whitespace runs collapsed to one space and both ends trimmed. */
  function CleanEstimate(est: string): (r: string)
    ensures Normalized(r)
    ensures Split(r) == Split(est)
  {
    SplitWords(est);
    SplitJoin(Split(est));
    JoinNormalized(Split(est));
    Join(" ", Split(est))
  }

  /** Cleaning twice is cleaning once. */
  lemma CleanEstimateIdempotent(est: string)
    ensures CleanEstimate(CleanEstimate(est)) == CleanEstimate(est)
  {
  }

  /** Cleaning removes whitespace and nothing else. */
  lemma CleanEstimateKeepsText(est: string)
    ensures NonSpace(CleanEstimate(est)) == NonSpace(est)
  {
    SplitKeepsNonSpace(est);
    SplitKeepsNonSpace(CleanEstimate(est));
  }

  /** Text that is already clean is left alone, so the cleaned texts are
      exactly the normalized ones. */
  lemma {:induction false} CleanEstimateFixesNormalized(s: string)
    requires Normalized(s)
    ensures CleanEstimate(s) == s
    decreases |s|
  {
    if s != [] {
      var k := TokenEnd(s);
      if k < |s| {
        var t := s[k + 1..];
        NormalizedBreak(s, k);
        NormalizedSuffix(s, k + 1);
        CleanEstimateFixesNormalized(t);
        SplitAtBreak(s, k);
        BreakAt(s, k);
        JoinCons(s[..k], Split(t));
      } else {
        assert s[..k] == s;
        SplitWord(s);
      }
    }
  }

  /** In normalized text the first whitespace is a single space between two words. */
  lemma NormalizedBreak(s: string, k: nat)
    requires Normalized(s) && s != [] && k == TokenEnd(s) && k < |s|
    ensures 0 < k && k + 1 < |s| && s[k] == ' ' && !IsSpace(s[k + 1])
  {
    assert IsSpace(s[k]);
    assert k != 0 && k != |s| - 1;
    assert !IsSpace(s[k]) || !IsSpace(s[k + 1]);
  }

  lemma SplitAtBreak(s: string, k: nat)
    requires s != [] && k == TokenEnd(s) && 0 < k && k + 1 < |s| && s[k] == ' '
    ensures Split(s) == [s[..k]] + Split(s[k + 1..])
  {
    assert Split(s) == [s[..k]] + Split(s[k..]);
    SplitAfterSpace(s[k..]);
    assert s[k..][1..] == s[k + 1..];
  }

  lemma SplitAfterSpace(u: string)
    requires u != [] && u[0] == ' '
    ensures Split(u) == Split(u[1..])
  {
  }

  lemma BreakAt(s: string, k: nat)
    requires 0 < k && k + 1 < |s| && s[k] == ' '
    ensures s == s[..k] + " " + s[k + 1..]
  {
    assert s == s[..k] + [s[k]] + s[k + 1..];
  }

  lemma JoinCons(w: string, ws: seq<string>)
    requires Join(" ", ws) != []
    ensures Join(" ", [w] + ws) == w + " " + Join(" ", ws)
  {
    assert ([w] + ws)[1..] == ws;
  }

  lemma NormalizedSuffix(s: string, m: nat)
    requires Normalized(s) && 0 < m < |s| && !IsSpace(s[m])
    ensures Normalized(s[m..])
  {
    var t := s[m..];
    forall i, j | 0 <= i < |t| && 0 <= j < |t| && j == i + 1
      ensures !IsSpace(t[i]) || !IsSpace(t[j])
    {
      assert t[i] == s[m + i] && t[j] == s[m + j];
    }
  }

  // ---------------------------------------------------------------------------
  // days_for_inquiry

  /** (datetime.date(*RD) - datetime.date(*format_date(date))).days, with the
      errors in Python's evaluation order: the received date is built first. */
  function DaysForInquiry(received: Date, asOfText: string): (r: Result<int>)
    ensures r.Ok? <==>
      IsValid(received) && FormatDate(asOfText).Ok? && IsValid(FormatDate(asOfText).value)
    ensures r.Ok? ==> r.value == Difference(received, FormatDate(asOfText).value)
    ensures r.Err? ==>
      r.error == (if !IsValid(received) then Construct(received).error
                  else if FormatDate(asOfText).Err? then FormatDate(asOfText).error
                  else Construct(FormatDate(asOfText).value).error)
  {
    match Construct(received)
    case Err(e) => Err(e)
    case Ok(rd) =>
      match FormatDate(asOfText)
      case Err(e) => Err(e)
      case Ok(parsed) =>
        match Construct(parsed)
        case Err(e) => Err(e)
        case Ok(asOf) => Ok(Difference(rd, asOf))
  }

  /** A date written the way the site writes it is read back and subtracted. */
  lemma DaysForInquiryRendered(received: Date, asOf: Date)
    requires IsValid(received) && IsValid(asOf)
    ensures DaysForInquiry(received, Render(asOf)) == Ok(Difference(received, asOf))
  {
    FormatDateRender(asOf);
  }

  /** On the dates the site posts, the day count is zero exactly on the
      posted date, negative exactly before it, changes sign when the dates
      are swapped, and grows by one for each later received day. */
  lemma DaysForInquiryProperties(received: Date, asOf: Date)
    requires IsValid(received) && IsValid(asOf)
    ensures var r := DaysForInquiry(received, Render(asOf));
      && r.Ok?
      && (r.value == 0 <==> received == asOf)
      && (r.value < 0 <==> Before(received, asOf))
      && r.value == -Difference(asOf, received)
      && (received != Date(MaxYear, 12, 31) ==>
            DaysForInquiry(NextDay(received), Render(asOf)) == Ok(r.value + 1))
  {
    DaysForInquiryRendered(received, asOf);
    DifferenceZero(received, asOf);
    DifferenceNegative(received, asOf);
    DifferenceAntisymmetric(received, asOf);
    if received != Date(MaxYear, 12, 31) {
      DaysForInquiryRendered(NextDay(received), asOf);
      DifferenceNextDay(received, asOf);
    }
  }

  /** Swapping the received and the posted date negates the day count: for
      any texts that format_date reads as the two dates. */
  lemma DaysForInquirySwap(received: Date, asOf: Date, postedAsOf: string, postedReceived: string)
    requires IsValid(received) && IsValid(asOf)
    requires FormatDate(postedAsOf) == Ok(asOf) && FormatDate(postedReceived) == Ok(received)
    ensures DaysForInquiry(received, postedAsOf).Ok?
    ensures DaysForInquiry(asOf, postedReceived) == Ok(-DaysForInquiry(received, postedAsOf).value)
  {
    assert DaysForInquiry(received, postedAsOf) == Ok(Difference(received, asOf));
    assert DaysForInquiry(asOf, postedReceived) == Ok(Difference(asOf, received));
    DifferenceAntisymmetric(asOf, received);
  }

  /** Received January 1, 2020 against a posted December 1, 2019: 31 days. */
  lemma DaysForInquiryExample()
    ensures DaysForInquiry(Date(2020, 1, 1), "December 1, 2019") == Ok(31)
  {
    assert IntToString(1) == "1";
    assert IntToString(2019) == "2019";
    assert Render(Date(2019, 12, 1)) == "December 1, 2019";
    FormatDateRender(Date(2019, 12, 1));
    DifferenceExample();
  }

  /** format_date accepts February 30; datetime.date then refuses it. */
  lemma ImpossibleDateRejected(received: Date)
    requires IsValid(received)
    ensures FormatDate(Render(Date(2020, 2, 30))) == Ok(Date(2020, 2, 30))
    ensures DaysForInquiry(received, Render(Date(2020, 2, 30))) == Err(InvalidDate)
  {
    FormatDateRender(Date(2020, 2, 30));
  }

  /** A posted year such as 3000000000 parses, but does not fit the C int
      that datetime.date takes: the OverflowError, not the ValueError. */
  lemma HugeYearOverflows(received: Date)
    requires IsValid(received)
    ensures FormatDate(Render(Date(3000000000, 1, 1))) == Ok(Date(3000000000, 1, 1))
    ensures DaysForInquiry(received, Render(Date(3000000000, 1, 1))) == Err(DateOverflow)
  {
    FormatDateRender(Date(3000000000, 1, 1));
  }

  // ---------------------------------------------------------------------------
  // Get_times

  datatype Times = Times(estimate: string, daysForInquiry: int)

  /** Get_times(form_name, office_name, RD) after the page has been loaded:
      estCells and dateCells are the texts of the table's 'est' and 'date'
      cells, top row first. */
  function GetTimes(formName: string, received: Date, estCells: seq<string>, dateCells: seq<string>)
    : (r: Result<Times>)
    ensures r.Ok? <==>
      && |formName| >= 3
      && RowIndex(formName).value < |estCells|
      && RowIndex(formName).value < |dateCells|
      && DaysForInquiry(received, dateCells[RowIndex(formName).value]).Ok?
    ensures r.Ok? ==>
      var row := RowIndex(formName).value;
      && Normalized(r.value.estimate)
      && Split(r.value.estimate) == Split(estCells[row])
      && r.value.daysForInquiry == DaysForInquiry(received, dateCells[row]).value
    ensures r.Err? && |formName| < 3 ==> r.error == FormNameTooShort
    ensures r.Err? && |formName| >= 3 ==>
      var row := RowIndex(formName).value;
      r.error == (if row >= |estCells| || row >= |dateCells| then MissingRow
                  else DaysForInquiry(received, dateCells[row]).error)
  {
    match RowIndex(formName)
    case Err(e) => Err(e)
    case Ok(row) =>
      if row >= |estCells| || row >= |dateCells| then Err(MissingRow)
      else match DaysForInquiry(received, dateCells[row])
        case Err(e) => Err(e)
        case Ok(days) => Ok(Times(CleanEstimate(estCells[row]), days))
  }
}
